# Smart Finance: the decision layer of the chat assistant

Smart Finance is a one-script chat assistant. It turns a financial question
(in Spanish) into an SQLite query over a single profit-and-loss table, runs
the query, and has a generative model explain the result. This project
models and proves the script's decision layer: everything between the
two external services (the generation backend and the SQL engine).

- **Model selection** (`ModelSelection`). Keep the listed models that
  support `generateContent`. Take the first name containing `flash`, else
  the first containing `pro`, else the first eligible name. A failed
  listing selects nothing. An empty eligible list also selects nothing:
  the fallback `available_models[0]` is evaluated eagerly, raises, and the
  handler sets `valid_model = None`.
- **Completion clean-up and the SELECT gate** (`Text`, `Response`). The
  code removes every "```sql", then every "```", then strips whitespace.
  It refuses the text unless its upper-case form starts with `SELECT`.
  The model proves three facts here. No fence survives the clean-up, even
  one formed by backticks left next to each other once a fence between
  them is removed. The result has no whitespace at either end. The gate
  is a case-insensitive test of the first six characters and nothing
  else.
- **`get_response`** (`Response.GetResponse`). The outcome is one of four
  things: a refusal, the "no data" notice, the explanation, or
  `"Error técnico: " + message`. With the notice and the explanation, the
  reply carries exactly the cleaned SQL. Both external services are
  function parameters (oracles):
  - `generate: (model, Prompt) -> Completion`
  - `execute: sql -> Rows(count, rendered) | Failed(message)`

  This lets the lemmas state these facts:
  - the engine is asked about the cleaned SQL and nothing else;
  - a refused candidate never reaches the engine;
  - only the selected model is ever asked.
- **Chat history** (`Chat`). `Session` is a class holding the session
  state. `SeedIfAbsent` adds the greeting only when the history is
  missing. `Submit` appends the user's turn. It then appends the
  assistant's reply text only when a model is selected and the database
  exists. The specification function `AfterSubmission` and its lemmas
  prove three things: earlier turns never change, the history grows by
  one or two turns exactly, and the history stays well formed (greeting
  first, every assistant answer preceded by a user turn). Over a whole
  session, `Replay` adds one user turn per non-empty input.

Two behaviours of the script that a reader might not expect are
modelled as written:
- Without a model or a database, the code shows an error notice but
  appends no assistant turn.
- An explanation that the backend returns empty is passed on as empty.

## Model

| member | source | states |
|---|---|---|
| Text.Contains | app.py:45-47 | `marker in name` on strings: a recursive scan that can only succeed when the marker is no longer than the name; ContainsIffOccurs proves it equal to an occurrence at some index |
| Text.ContainsIffOccurs | app.py:45-47 | Python's `marker in name` as used here holds exactly when the marker occurs at some index of the name |
| Text.ReplaceAll | app.py:117 | `str.replace`, scanning left to right over non-overlapping occurrences; removing a pattern never lengthens the text. ReplaceAllWithoutMatch and FenceRemovalShape state what it leaves behind |
| Text.ReplaceAllWithoutMatch | app.py:117 | `str.replace` of a pattern that does not occur returns the text unchanged |
| Text.FenceRemovalShape | app.py:117 | after `.replace("```", "")` no "```" remains anywhere in the text |
| Text.TrimStart | app.py:117 | the left part of `strip()`: the result is a suffix of the input, everything dropped is whitespace, and the result does not start with whitespace |
| Text.TrimEnd | app.py:117 | the right part of `strip()`: the result is a prefix of the input, everything dropped is whitespace, and the result does not end with whitespace |
| Text.Strip | app.py:117 | `strip()` yields a slice of the input with only whitespace outside it and no whitespace at either end |
| Text.StripKeepsAbsence | app.py:117 | stripping cannot introduce a substring that the text did not contain |
| Text.StripKeepsTrimmed | app.py:117 | text with no whitespace at either end is unchanged by `strip()` |
| Text.MissingCharNotContained | app.py:117 | text lacking one of the pattern's characters does not contain the pattern |
| ModelSelection.EligibleNames | app.py:43 | the available names are exactly the names of listed models whose supported methods include `generateContent`, no more of them than models |
| ModelSelection.FirstContaining | app.py:45 | `next((m for m in names if marker in m), None)` yields a listed name containing the marker, or nothing exactly when no name contains it |
| ModelSelection.FirstContainingIsFirst | app.py:45 | the name `next` yields is the first listed name containing the marker |
| ModelSelection.FirstMarkedIsFound | app.py:43-45 | the generator yields the name of the first eligible model, in listing order, whose name contains the marker |
| ModelSelection.Truthy | app.py:46-47 | Python truthiness of `valid_model` (neither `None` nor empty), used at lines 46 and 157; no contract of its own, MarkedNameIsNonEmpty states when it holds |
| ModelSelection.MarkedNameIsNonEmpty | app.py:46 | a name containing a marker is truthy, so the `if not valid_model` test is a test for `None` after a match |
| ModelSelection.SelectModel | app.py:41-52 | the final value of `valid_model`: anything selected comes from a successful listing and is an eligible name; SelectsFirstFlash, SelectsFirstPro, SelectsFirstEligible, NoEligibleSelectsNothing and ListingFailureSelectsNothing fix the result in every case |
| ModelSelection.SelectsFirstFlash | app.py:43-45 | if an eligible name contains `flash`, the first such name in listing order is selected |
| ModelSelection.SelectsFirstPro | app.py:46-47 | with no eligible `flash` name, the first eligible name containing `pro` is selected |
| ModelSelection.SelectsFirstEligible | app.py:47 | with neither marker present, the first eligible name is selected |
| ModelSelection.NoEligibleSelectsNothing | app.py:47-52 | with no eligible model, the eager `available_models[0]` raises and `valid_model` is `None` |
| ModelSelection.ListingFailureSelectsNothing | app.py:41-52 | when listing the models raises, `valid_model` is `None` |
| ModelSelection.SelectedIsEligible | app.py:43-47 | any selected name is the name of a listed model that supports `generateContent` |
| Response.CleanCompletion | app.py:117 | the cleaned candidate contains no "```" and has no leading or trailing whitespace |
| Response.PlainCompletionIsKept | app.py:117 | a completion with no backtick and no surrounding whitespace is the SQL that runs, unchanged |
| Text.UpperChar | app.py:120 | `upper()` on one character, ASCII only; no contract of its own, UpperCharIsCapital and GateIsCaseInsensitivePrefix state its effect |
| Text.Upper | app.py:120 | `upper()` applied character by character; no contract of its own, GateIsCaseInsensitivePrefix states its effect on the gate |
| Response.PassesGate | app.py:120 | `sql.upper().startswith("SELECT")`: a passing candidate is at least as long as the keyword; GateIsCaseInsensitivePrefix characterises it exactly |
| Response.GateIsCaseInsensitivePrefix | app.py:120 | the SELECT check passes exactly when the first six characters spell "select" in any mix of ASCII case |
| Response.GateExamples | app.py:120 | the check is a prefix test only: `selected_rows` passes and a `WITH ... SELECT` query is refused |
| Response.SqlFenceMissesCapitalTag | app.py:117 | the case-sensitive removal of "```sql" leaves a "```SQL" fence untouched |
| Response.FenceRemovalUnwraps | app.py:117 | removing "```" from a fenced, backtick-free body leaves exactly the body |
| Response.UpperCaseFenceTagIsKept | app.py:117 | for a completion fenced as "```SQL ... ```", the cleaned text is the stripped "SQL ..." with the tag still in front |
| Response.SqPrefixFailsGate | app.py:117-120 | text beginning with "SQL" fails the SELECT check after stripping |
| Response.UpperCaseFenceTagIsRefused | app.py:117-121 | such a completion is refused because it starts with "SQ" |
| Response.GetResponse | app.py:115-142 | a reply with SQL carries the cleaned completion, which passed the gate and executed successfully; a reply without SQL is the refusal or a technical error |
| Response.RefusesUngatedCandidate | app.py:120-121 | a candidate failing the gate gives the fixed refusal message and no SQL |
| Response.RefusalNeverQueries | app.py:120-125 | a refused candidate never reaches the database: any two engines give the same reply |
| Response.EngineSeesOnlyCleanedSql | app.py:117-129 | the engine is consulted on the cleaned completion only, so engines agreeing on it give the same reply |
| Response.OnlyTheGivenModelIsUsed | app.py:115-138 | both generation calls go to the model named in the call: backends agreeing on that model give the same reply |
| Response.EmptyResultReportsNoData | app.py:124-129 | a successful query with zero rows gives the fixed no-data notice with the exact cleaned SQL |
| Response.NonEmptyResultIsExplained | app.py:131-138 | with at least one row, the explanation for this question and this rendered data is returned with the same SQL |
| Response.GenerationFailureIsReported | app.py:115-142 | a failing first generation call gives `"Error técnico: " + message` and no SQL |
| Response.ExecutionFailureIsReported | app.py:124-142 | a failing query gives `"Error técnico: " + message` and no SQL |
| Response.ExplanationFailureIsReported | app.py:137-142 | a failing explanation call gives `"Error técnico: " + message` and no SQL |
| Response.TechnicalError | app.py:142 | the technical-error text is the fixed prefix followed by the underlying message verbatim |
| Response.ShownSqlStartsWithSelect | app.py:117-138 | any SQL returned for display starts with six characters spelling "select" in some ASCII case and holds no code fence |
| Chat.Handle | app.py:153-173 | what one run shows: the answer exactly when the input is non-empty, a model is truthy and the database exists, and then it is `get_response` for that model; otherwise one of the two fixed notices, or nothing |
| Chat.AfterSubmission | app.py:153-176 | the history after one submission keeps the old one as a prefix and grows by at most two turns; SubmissionAppends states exactly what is added |
| Chat.SubmissionAppends | app.py:151-176 | a submission keeps every earlier turn, adds the user turn, and adds one assistant turn holding the reply text if and only if a model is selected and the database exists; empty input changes nothing |
| Chat.ErrorNoticeAddsNoTurn | app.py:157-160 | without a model or database the notice is shown (model checked first) and only the user turn is recorded |
| Chat.SubmissionKeepsWellFormed | app.py:145-176 | submissions preserve the shape of the history: greeting first, every assistant answer right after a user turn, no empty user turn |
| Chat.Replay | app.py:145-176 | the history after a session's script runs, one run per submission, grows by at most two turns per submission; ReplayKeepsHistoryAndCountsQuestions states prefix preservation and the user-turn count |
| Chat.ReplayKeepsHistoryAndCountsQuestions | app.py:145-176 | over a session, earlier turns never change and there is one user turn per non-empty submission |
| Chat.Session.constructor | app.py:145 | a new session has no history yet |
| Chat.Session.SeedIfAbsent | app.py:145-146 | the greeting is added only when the history is absent; an existing history is left as it is |
| Chat.Session.Submit | app.py:151-176 | the history becomes `AfterSubmission` of the old one, the session stays well formed, and what is shown is `Handle` of the inputs |
| Chat.Session.Run | app.py:145-176 | one run of the chat part of the script: seeding, then the submission |

## Left out

- Rendering is left out because it is UI: the Streamlit page, the sidebar, spinners, expanders, the replay of the history on screen, and `st.stop`/`st.rerun` (app.py:7-36, 148-173). What a run shows is abstracted as the `Shown` value.
- Reading the API key and configuring the client (app.py:14-24) is configuration I/O, so it is left out.
- The database upload and `os.path.exists` (app.py:28-36, 159) are file I/O; the model takes a boolean `dbExists` instead.
- `genai.list_models` and `generate_content` are network calls to a foreign service. They are replaced by the `Listing` value and the `generate` oracle. The `genai.GenerativeModel(model_name)` constructor at app.py:56 sits outside the `try`; the model assumes it does not raise.
- SQLite and pandas are a foreign library. The model does not cover running the query, `df.to_string()` or the connection's lifecycle (app.py:124-126, 132). The query becomes `Rows(count, rendered)` or `Failed(message)`. The connection is closed only on success, and the model does not track it.
- The two prompt templates (app.py:59-114, 132) are natural-language text with no checkable meaning. A prompt is the datatype `Prompt`, which holds only what is interpolated into it: the question, and for the explanation the rendered data.
- Text.IsSpace: `strip()` uses Python's ASCII whitespace set (tab to carriage return, 0x1C-0x1F and space). Non-ASCII whitespace is not modelled.
- Text.UpperChar: `upper()` is ASCII only. Non-ASCII characters whose upper case is an ASCII letter are not modelled, so a candidate the real gate would let through (one starting with the long s, say) is refused by the model.
- The chat input is modelled as a string, and the empty string stands for "nothing submitted" (Python's `if prompt:` treats `None` and `""` alike).
