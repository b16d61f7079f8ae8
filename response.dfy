/**
 * `get_response`: one question is turned into a candidate SQL query by
 * the generation backend, cleaned of code fences and whitespace, checked
 * to start with SELECT, executed, and explained by a second generation
 * call. The backend and the SQL engine are oracles passed in as functions.
 */
module Response {
  import opened Wrappers
  import opened Text

  /**
   * The two requests sent to the backend. Each is fully determined by its
   * fields; the fixed instruction text wrapped around them is not modelled.
   */
  datatype Prompt =
    | SqlPrompt(question: string)
    | ExplanationPrompt(question: string, data: string)

  /** `model.generate_content(prompt).text`, or the message of what it raised. */
  datatype Completion = Generated(text: string) | Raised(message: string)

  /**
   * Connecting and `pd.read_sql_query(sql, conn)`: the number of rows and
   * the `df.to_string()` rendering, or the message of what was raised.
   */
  datatype QueryOutcome = Rows(count: nat, rendered: string) | Failed(message: string)

  /** The pair `(response_text, sql_code)` returned to the chat loop. */
  datatype Reply = Reply(text: string, sql: Option<string>)

  const RefusalMessage: string :=
    "No pude generar una consulta SQL válida. Solo puedo dar información de Trade Alliance Corporation y se encuentren la base de datos"
  const NoDataMessage: string := "La consulta es válida pero no hay datos (verifica filtros)."
  const TechnicalErrorPrefix: string := "Error técnico: "

  /** `f"Error técnico: {str(e)}"` */
  function TechnicalError(message: string): (text: string)
    ensures IsPrefix(TechnicalErrorPrefix, text)
    ensures text[|TechnicalErrorPrefix|..] == message
  {
    TechnicalErrorPrefix + message
  }

  /** The fenced-block opener the first replace removes (lower case only). */
  const SqlFence: string := "```sql"

  /**
   * `resp.text.replace("```sql", "").replace("```", "").strip()`: the
   * candidate query has no code fence left in it and no whitespace at
   * either end.
   */
  function CleanCompletion(text: string): (sql: string)
    ensures !Contains(sql, Fence)
    ensures sql == [] || (!IsSpace(sql[0]) && !IsSpace(sql[|sql| - 1]))
  {
    var withoutSqlFence := ReplaceAll(text, SqlFence, "");
    var unfenced := ReplaceAll(withoutSqlFence, Fence, "");
    FenceRemovalShape(withoutSqlFence);
    StripKeepsAbsence(unfenced, Fence);
    Strip(unfenced)
  }

  const SelectKeyword: string := "SELECT"

  /** `sql.upper().startswith("SELECT")` */
  predicate PassesGate(sql: string)
    ensures PassesGate(sql) ==> |sql| >= |SelectKeyword|
  {
    IsPrefix(SelectKeyword, Upper(sql))
  }

  /** Upper-casing yields a given capital letter exactly from that letter or its lower-case form. */
  lemma UpperCharIsCapital(c: char, capital: char)
    requires 'A' <= capital <= 'Z'
    ensures UpperChar(c) == capital <==> c == capital || c as int == capital as int + 32
  {
  }

  /**
   * The gate is a case-insensitive test of the first six characters
   * against "select" and nothing more: it looks at no other character.
   */
  lemma GateIsCaseInsensitivePrefix(sql: string)
    ensures PassesGate(sql) <==>
              |sql| >= 6 && forall k :: 0 <= k < 6 ==> sql[k] == "SELECT"[k] || sql[k] == "select"[k]
  {
    if |sql| >= 6 {
      forall k | 0 <= k < 6
        ensures UpperChar(sql[k]) == "SELECT"[k] <==> sql[k] == "SELECT"[k] || sql[k] == "select"[k]
      {
        UpperCharIsCapital(sql[k], "SELECT"[k]);
      }
      assert Upper(sql)[..6] == seq(6, k requires 0 <= k < 6 => UpperChar(sql[k]));
    }
  }

  /**
   * `get_response(prompt, model_name)`. Every call to the backend goes to
   * `modelName`; the SQL that is executed and returned is the cleaned
   * completion, unchanged.
   */
  function GetResponse(question: string, modelName: string,
                       generate: (string, Prompt) -> Completion,
                       execute: string -> QueryOutcome): (r: Reply)
    ensures r.sql.Some? ==>
              && generate(modelName, SqlPrompt(question)).Generated?
              && r.sql.value == CleanCompletion(generate(modelName, SqlPrompt(question)).text)
              && PassesGate(r.sql.value)
              && execute(r.sql.value).Rows?
    ensures r.sql.None? ==> r.text == RefusalMessage || IsPrefix(TechnicalErrorPrefix, r.text)
  {
    match generate(modelName, SqlPrompt(question))
    case Raised(e) => Reply(TechnicalError(e), None)
    case Generated(completion) =>
      var sql := CleanCompletion(completion);
      if !PassesGate(sql) then Reply(RefusalMessage, None)
      else
        match execute(sql)
        case Failed(e) => Reply(TechnicalError(e), None)
        case Rows(count, rendered) =>
          if count == 0 then Reply(NoDataMessage, Some(sql))
          else
            match generate(modelName, ExplanationPrompt(question, rendered))
            case Raised(e) => Reply(TechnicalError(e), None)
            case Generated(explanation) => Reply(explanation, Some(sql))
  }

  /** A candidate that fails the gate is refused, with no SQL. */
  lemma RefusesUngatedCandidate(question: string, modelName: string,
                                generate: (string, Prompt) -> Completion,
                                execute: string -> QueryOutcome, completion: string)
    requires generate(modelName, SqlPrompt(question)) == Generated(completion)
    requires !PassesGate(CleanCompletion(completion))
    ensures GetResponse(question, modelName, generate, execute) == Reply(RefusalMessage, None)
  {
  }

  /** A refused candidate never reaches the database: any two engines give the same reply. */
  lemma RefusalNeverQueries(question: string, modelName: string,
                            generate: (string, Prompt) -> Completion,
                            execute1: string -> QueryOutcome, execute2: string -> QueryOutcome)
    requires generate(modelName, SqlPrompt(question)).Generated?
    requires !PassesGate(CleanCompletion(generate(modelName, SqlPrompt(question)).text))
    ensures GetResponse(question, modelName, generate, execute1)
         == GetResponse(question, modelName, generate, execute2)
  {
    var completion := generate(modelName, SqlPrompt(question)).text;
    RefusesUngatedCandidate(question, modelName, generate, execute1, completion);
    RefusesUngatedCandidate(question, modelName, generate, execute2, completion);
  }

  /**
   * The engine is consulted on the cleaned completion and on nothing else:
   * engines that agree on that one query give the same reply.
   */
  lemma EngineSeesOnlyCleanedSql(question: string, modelName: string,
                                 generate: (string, Prompt) -> Completion,
                                 execute1: string -> QueryOutcome, execute2: string -> QueryOutcome)
    requires generate(modelName, SqlPrompt(question)).Generated?
    requires var sql := CleanCompletion(generate(modelName, SqlPrompt(question)).text);
             execute1(sql) == execute2(sql)
    ensures GetResponse(question, modelName, generate, execute1)
         == GetResponse(question, modelName, generate, execute2)
  {
    var completion := generate(modelName, SqlPrompt(question)).text;
    var sql := CleanCompletion(completion);
    if !PassesGate(sql) {
      RefusesUngatedCandidate(question, modelName, generate, execute1, completion);
      RefusesUngatedCandidate(question, modelName, generate, execute2, completion);
    } else {
      match execute1(sql)
      case Failed(e) =>
        ExecutionFailureIsReported(question, modelName, generate, execute1, completion, e);
        ExecutionFailureIsReported(question, modelName, generate, execute2, completion, e);
      case Rows(count, rendered) =>
        if count == 0 {
          EmptyResultReportsNoData(question, modelName, generate, execute1, completion, rendered);
          EmptyResultReportsNoData(question, modelName, generate, execute2, completion, rendered);
        } else {
          match generate(modelName, ExplanationPrompt(question, rendered))
          case Raised(e) =>
            ExplanationFailureIsReported(question, modelName, generate, execute1, completion, count, rendered, e);
            ExplanationFailureIsReported(question, modelName, generate, execute2, completion, count, rendered, e);
          case Generated(explanation) =>
            NonEmptyResultIsExplained(question, modelName, generate, execute1, completion, count, rendered, explanation);
            NonEmptyResultIsExplained(question, modelName, generate, execute2, completion, count, rendered, explanation);
        }
    }
  }

  /** Only the given model is asked, for both the query and the explanation. */
  lemma OnlyTheGivenModelIsUsed(question: string, modelName: string,
                                generate1: (string, Prompt) -> Completion,
                                generate2: (string, Prompt) -> Completion,
                                execute: string -> QueryOutcome)
    requires forall p :: generate1(modelName, p) == generate2(modelName, p)
    ensures GetResponse(question, modelName, generate1, execute)
         == GetResponse(question, modelName, generate2, execute)
  {
    var first := generate1(modelName, SqlPrompt(question));
    assert first == generate2(modelName, SqlPrompt(question));
    match first
    case Raised(e) =>
      GenerationFailureIsReported(question, modelName, generate1, execute, e);
      GenerationFailureIsReported(question, modelName, generate2, execute, e);
    case Generated(completion) =>
      var sql := CleanCompletion(completion);
      if !PassesGate(sql) {
        RefusesUngatedCandidate(question, modelName, generate1, execute, completion);
        RefusesUngatedCandidate(question, modelName, generate2, execute, completion);
      } else {
        match execute(sql)
        case Failed(e) =>
          ExecutionFailureIsReported(question, modelName, generate1, execute, completion, e);
          ExecutionFailureIsReported(question, modelName, generate2, execute, completion, e);
        case Rows(count, rendered) =>
          if count == 0 {
            EmptyResultReportsNoData(question, modelName, generate1, execute, completion, rendered);
            EmptyResultReportsNoData(question, modelName, generate2, execute, completion, rendered);
          } else {
            var second := generate1(modelName, ExplanationPrompt(question, rendered));
            assert second == generate2(modelName, ExplanationPrompt(question, rendered));
            match second
            case Raised(e) =>
              ExplanationFailureIsReported(question, modelName, generate1, execute, completion, count, rendered, e);
              ExplanationFailureIsReported(question, modelName, generate2, execute, completion, count, rendered, e);
            case Generated(explanation) =>
              NonEmptyResultIsExplained(question, modelName, generate1, execute, completion, count, rendered, explanation);
              NonEmptyResultIsExplained(question, modelName, generate2, execute, completion, count, rendered, explanation);
          }
      }
  }

  /** A successful query with zero rows gives the no-data notice with the executed SQL. */
  lemma EmptyResultReportsNoData(question: string, modelName: string,
                                 generate: (string, Prompt) -> Completion,
                                 execute: string -> QueryOutcome, completion: string, rendered: string)
    requires generate(modelName, SqlPrompt(question)) == Generated(completion)
    requires PassesGate(CleanCompletion(completion))
    requires execute(CleanCompletion(completion)) == Rows(0, rendered)
    ensures GetResponse(question, modelName, generate, execute)
         == Reply(NoDataMessage, Some(CleanCompletion(completion)))
  {
  }

  /**
   * With at least one row, the explanation the model gives for this
   * question and this rendered data is returned with the executed SQL.
   */
  lemma NonEmptyResultIsExplained(question: string, modelName: string,
                                  generate: (string, Prompt) -> Completion,
                                  execute: string -> QueryOutcome, completion: string,
                                  count: nat, rendered: string, explanation: string)
    requires generate(modelName, SqlPrompt(question)) == Generated(completion)
    requires PassesGate(CleanCompletion(completion))
    requires execute(CleanCompletion(completion)) == Rows(count, rendered) && count > 0
    requires generate(modelName, ExplanationPrompt(question, rendered)) == Generated(explanation)
    ensures GetResponse(question, modelName, generate, execute)
         == Reply(explanation, Some(CleanCompletion(completion)))
  {
  }

  /** A failure of the first generation call becomes the technical-error reply. */
  lemma GenerationFailureIsReported(question: string, modelName: string,
                                    generate: (string, Prompt) -> Completion,
                                    execute: string -> QueryOutcome, message: string)
    requires generate(modelName, SqlPrompt(question)) == Raised(message)
    ensures GetResponse(question, modelName, generate, execute) == Reply(TechnicalError(message), None)
  {
  }

  /** A failure of the query becomes the technical-error reply, without the SQL. */
  lemma ExecutionFailureIsReported(question: string, modelName: string,
                                   generate: (string, Prompt) -> Completion,
                                   execute: string -> QueryOutcome, completion: string, message: string)
    requires generate(modelName, SqlPrompt(question)) == Generated(completion)
    requires PassesGate(CleanCompletion(completion))
    requires execute(CleanCompletion(completion)) == Failed(message)
    ensures GetResponse(question, modelName, generate, execute) == Reply(TechnicalError(message), None)
  {
  }

  /** A failure of the explanation call becomes the technical-error reply, without the SQL. */
  lemma ExplanationFailureIsReported(question: string, modelName: string,
                                     generate: (string, Prompt) -> Completion,
                                     execute: string -> QueryOutcome, completion: string,
                                     count: nat, rendered: string, message: string)
    requires generate(modelName, SqlPrompt(question)) == Generated(completion)
    requires PassesGate(CleanCompletion(completion))
    requires execute(CleanCompletion(completion)) == Rows(count, rendered) && count > 0
    requires generate(modelName, ExplanationPrompt(question, rendered)) == Raised(message)
    ensures GetResponse(question, modelName, generate, execute) == Reply(TechnicalError(message), None)
  {
  }

  /** Any SQL shown to the user starts with six characters spelling "select" in some case. */
  lemma ShownSqlStartsWithSelect(question: string, modelName: string,
                                 generate: (string, Prompt) -> Completion,
                                 execute: string -> QueryOutcome)
    ensures var r := GetResponse(question, modelName, generate, execute);
            r.sql.Some? ==>
              && |r.sql.value| >= 6
              && (forall k :: 0 <= k < 6 ==> r.sql.value[k] == "SELECT"[k] || r.sql.value[k] == "select"[k])
              && !Contains(r.sql.value, Fence)
  {
    var r := GetResponse(question, modelName, generate, execute);
    if r.sql.Some? {
      GateIsCaseInsensitivePrefix(r.sql.value);
    }
  }

  /** The case-sensitive first replace finds nothing in "```" + x + "```" when x starts with a capital S. */
  lemma SqlFenceMissesCapitalTag(x: string)
    requires '`' !in x && x != [] && x[0] == 'S'
    ensures ReplaceAll(Fence + x + Fence, SqlFence, "") == Fence + x + Fence
  {
    var text := Fence + x + Fence;
    var a := text[1..];
    var b := a[1..];
    var c := b[1..];
    assert c == x + Fence;
    assert text[3] == 'S' && a[2] == 'S' && b[1] == 'S';
    ReplaceAllStep(text, SqlFence, "");
    ReplaceAllStep(a, SqlFence, "");
    ReplaceAllStep(b, SqlFence, "");
    ReplaceAllSkipsPlainPrefix(x, Fence, SqlFence, "");
    assert ReplaceAll(Fence, SqlFence, "") == Fence;
    assert ReplaceAll(c, SqlFence, "") == c;
    assert [text[0]] + ([a[0]] + ([b[0]] + c)) == text;
  }

  /** The second replace removes exactly the two fences around backtick-free text. */
  lemma FenceRemovalUnwraps(x: string)
    requires '`' !in x
    ensures ReplaceAll(Fence + x + Fence, Fence, "") == x
  {
    var text := Fence + x + Fence;
    assert IsPrefix(Fence, text);
    assert text[|Fence|..] == x + Fence;
    ReplaceAllSkipsPlainPrefix(x, Fence, Fence, "");
    assert ReplaceAll(Fence, Fence, "") == "";
    assert x + "" == x;
  }

  /**
   * A completion fenced with an upper-case tag, "```SQL ... ```", keeps
   * the tag: the first replace is case-sensitive and misses it, the second
   * only removes the backticks.
   */
  lemma UpperCaseFenceTagIsKept(body: string)
    requires '`' !in body
    ensures CleanCompletion(Fence + "SQL" + body + Fence) == Strip("SQL" + body)
  {
    var x := "SQL" + body;
    assert x[..3] == "SQL" && x[3..] == body;
    assert '`' !in x by {
      forall i | 0 <= i < |x| ensures x[i] != '`' {
        if i >= 3 {
          assert x[i] == body[i - 3];
        }
      }
    }
    assert Fence + "SQL" + body + Fence == Fence + x + Fence;
    SqlFenceMissesCapitalTag(x);
    FenceRemovalUnwraps(x);
  }

  /** Text starting with "SQ" fails the gate after stripping. */
  lemma SqPrefixFailsGate(x: string)
    requires |x| >= 3 && x[0] == 'S' && x[1] == 'Q' && x[2] == 'L'
    ensures !PassesGate(Strip(x))
  {
    var t := TrimStart(x);
    assert t == x;
    var sql := TrimEnd(t);
    assert Strip(x) == sql;
    assert !IsSpace(x[2]);
    assert |sql| >= 3;
    assert sql[1] == x[1];
    GateIsCaseInsensitivePrefix(sql);
    assert sql[1] != "SELECT"[1] && sql[1] != "select"[1];
  }

  /** Such a completion is refused: after stripping it starts with "SQ", not "SE". */
  lemma UpperCaseFenceTagIsRefused(body: string)
    requires '`' !in body
    ensures !PassesGate(CleanCompletion(Fence + "SQL" + body + Fence))
  {
    UpperCaseFenceTagIsKept(body);
    var x := "SQL" + body;
    assert x[0] == 'S' && x[1] == 'Q' && x[2] == 'L';
    SqPrefixFailsGate(x);
  }

  /** A completion without backticks and without surrounding whitespace is executed as it came. */
  lemma PlainCompletionIsKept(text: string)
    requires '`' !in text
    requires text == [] || (!IsSpace(text[0]) && !IsSpace(text[|text| - 1]))
    ensures CleanCompletion(text) == text
  {
    MissingCharNotContained(text, SqlFence, 0);
    ReplaceAllWithoutMatch(text, SqlFence, "");
    MissingCharNotContained(text, Fence, 0);
    ReplaceAllWithoutMatch(text, Fence, "");
    StripKeepsTrimmed(text);
  }

  /** The gate is a prefix test: a longer word starting with SELECT passes, a WITH query does not. */
  lemma GateExamples()
    ensures PassesGate("selected_rows")
    ensures !PassesGate("WITH t AS (SELECT 1) SELECT * FROM t")
  {
    GateIsCaseInsensitivePrefix("selected_rows");
    var withQuery := "WITH t AS (SELECT 1) SELECT * FROM t";
    GateIsCaseInsensitivePrefix(withQuery);
    assert withQuery[0] == 'W';
  }
}
