/**
 * The chat loop: the session keeps an append-only list of (role, content)
 * turns, seeded once with a greeting. A submission always appends the
 * user's turn; the assistant's reply is appended only when a model was
 * selected and the database file exists. The SQL of a reply is shown but
 * never stored in the history.
 */
module Chat {
  import opened Wrappers
  import opened Response
  import ModelSelection

  datatype Role = User | Assistant

  datatype Turn = Turn(role: Role, content: string)

  const Greeting: string :=
    "Hola! Soy tu asistente financiero 'Smart Finance'. Soy un asistente cognitvo, una IA que puede dar explicaciones simples para contadores. No necesitas saber SQL, ni saber programar ni conocer sobre bases de datos. Yo me encargaré por ti y te dare la información que necesitas de una forma clara, sin tantas vueltas y explicada en lenguaje natural. ¿Qué consulta tienes?"

  const GreetingTurn: Turn := Turn(Assistant, Greeting)

  const NoModelNotice: string := "No hay modelo disponible."
  const NoDatabaseNotice: string := "Sube la base de datos."

  /** What one run of the script shows for the chat input, besides the history. */
  datatype Shown =
    | NothingSubmitted
    | ErrorNotice(notice: string)
    | Answer(reply: Reply)

  /** Whether a submission reaches `get_response`: a model is truthy and the database file exists. */
  predicate CanAnswer(validModel: Option<string>, dbExists: bool)
  {
    ModelSelection.Truthy(validModel) && dbExists
  }

  /** What a submission shows: the model check comes before the database check. */
  function Handle(input: string, validModel: Option<string>, dbExists: bool,
                  generate: (string, Prompt) -> Completion,
                  execute: string -> QueryOutcome): (shown: Shown)
    ensures shown.Answer? <==> input != "" && CanAnswer(validModel, dbExists)
    ensures shown.Answer? ==> shown.reply == GetResponse(input, validModel.value, generate, execute)
    ensures shown.ErrorNotice? ==> shown.notice in {NoModelNotice, NoDatabaseNotice}
  {
    if input == "" then NothingSubmitted
    else if !ModelSelection.Truthy(validModel) then ErrorNotice(NoModelNotice)
    else if !dbExists then ErrorNotice(NoDatabaseNotice)
    else Answer(GetResponse(input, validModel.value, generate, execute))
  }

  /** The history after one submission. */
  function AfterSubmission(history: seq<Turn>, input: string, validModel: Option<string>, dbExists: bool,
                           generate: (string, Prompt) -> Completion,
                           execute: string -> QueryOutcome): (after: seq<Turn>)
    ensures |history| <= |after| <= |history| + 2 && after[..|history|] == history
  {
    if input == "" then history
    else
      history + [Turn(User, input)] +
      match Handle(input, validModel, dbExists, generate, execute)
      case Answer(reply) => [Turn(Assistant, reply.text)]
      case _ => []
  }

  /**
   * A well-formed history starts with the greeting, every later assistant
   * turn answers the user turn right before it, and user turns are never
   * empty.
   */
  ghost predicate WellFormed(history: seq<Turn>)
  {
    && |history| >= 1
    && history[0] == GreetingTurn
    && (forall i :: 1 <= i < |history| && history[i].role == Assistant ==> history[i - 1].role == User)
    && (forall i :: 0 <= i < |history| && history[i].role == User ==> history[i].content != "")
  }

  /**
   * A submission keeps every earlier turn, then adds exactly one user turn
   * holding the question, followed by exactly one assistant turn holding
   * the reply text if and only if a model and the database are available.
   */
  lemma SubmissionAppends(history: seq<Turn>, input: string, validModel: Option<string>, dbExists: bool,
                          generate: (string, Prompt) -> Completion,
                          execute: string -> QueryOutcome)
    ensures var after := AfterSubmission(history, input, validModel, dbExists, generate, execute);
            && |history| <= |after| && after[..|history|] == history
            && (input == "" ==> after == history)
            && (input != "" ==>
                  && |after| == |history| + (if CanAnswer(validModel, dbExists) then 2 else 1)
                  && after[|history|] == Turn(User, input))
            && (input != "" && CanAnswer(validModel, dbExists) ==>
                  after[|history| + 1] == Turn(Assistant, GetResponse(input, validModel.value, generate, execute).text))
  {
  }

  /** The error notices are shown but not recorded: without a model or database only the user turn is added. */
  lemma ErrorNoticeAddsNoTurn(history: seq<Turn>, input: string, validModel: Option<string>, dbExists: bool,
                              generate: (string, Prompt) -> Completion,
                              execute: string -> QueryOutcome)
    requires input != "" && !CanAnswer(validModel, dbExists)
    ensures AfterSubmission(history, input, validModel, dbExists, generate, execute) == history + [Turn(User, input)]
    ensures Handle(input, validModel, dbExists, generate, execute)
         == ErrorNotice(if !ModelSelection.Truthy(validModel) then NoModelNotice else NoDatabaseNotice)
  {
  }

  /** Submissions keep the history well formed. */
  lemma SubmissionKeepsWellFormed(history: seq<Turn>, input: string, validModel: Option<string>, dbExists: bool,
                                  generate: (string, Prompt) -> Completion,
                                  execute: string -> QueryOutcome)
    requires WellFormed(history)
    ensures WellFormed(AfterSubmission(history, input, validModel, dbExists, generate, execute))
  {
    var after := AfterSubmission(history, input, validModel, dbExists, generate, execute);
    if input != "" {
      assert after[..|history|] == history;
      assert after[|history|] == Turn(User, input);
    }
  }

  /** One script run's inputs: the chat input and the environment it meets. */
  datatype Submission = Submission(input: string, validModel: Option<string>, dbExists: bool,
                                   generate: (string, Prompt) -> Completion,
                                   execute: string -> QueryOutcome)

  /** The history after a session's submissions, in order. */
  function Replay(history: seq<Turn>, submissions: seq<Submission>): (after: seq<Turn>)
    ensures |history| <= |after| <= |history| + 2 * |submissions|
    decreases |submissions|
  {
    if submissions == [] then history
    else
      var s := submissions[0];
      Replay(AfterSubmission(history, s.input, s.validModel, s.dbExists, s.generate, s.execute), submissions[1..])
  }

  /** Number of user turns in a history. */
  function UserTurns(history: seq<Turn>): (n: nat)
  {
    if history == [] then 0
    else (if history[|history| - 1].role == User then 1 else 0) + UserTurns(history[..|history| - 1])
  }

  /** Number of submissions with a non-empty input. */
  function Questions(submissions: seq<Submission>): (n: nat)
  {
    if submissions == [] then 0
    else (if submissions[0].input != "" then 1 else 0) + Questions(submissions[1..])
  }

  lemma {:induction false} UserTurnsAppend(a: seq<Turn>, b: seq<Turn>)
    ensures UserTurns(a + b) == UserTurns(a) + UserTurns(b)
    decreases |b|
  {
    if b == [] {
      assert a + b == a;
    } else {
      assert (a + b)[..|a + b| - 1] == a + b[..|b| - 1];
      UserTurnsAppend(a, b[..|b| - 1]);
    }
  }

  /**
   * Over a whole session, earlier turns are never changed and the history
   * holds one more user turn for every non-empty submission.
   */
  lemma {:induction false} ReplayKeepsHistoryAndCountsQuestions(history: seq<Turn>, submissions: seq<Submission>)
    ensures |history| <= |Replay(history, submissions)|
    ensures Replay(history, submissions)[..|history|] == history
    ensures UserTurns(Replay(history, submissions)) == UserTurns(history) + Questions(submissions)
    decreases |submissions|
  {
    if submissions != [] {
      var s := submissions[0];
      var next := AfterSubmission(history, s.input, s.validModel, s.dbExists, s.generate, s.execute);
      SubmissionAppends(history, s.input, s.validModel, s.dbExists, s.generate, s.execute);
      ReplayKeepsHistoryAndCountsQuestions(next, submissions[1..]);
      var rest := Replay(next, submissions[1..]);
      assert rest[..|history|] == rest[..|next|][..|history|];
      if s.input != "" {
        var added := next[|history|..];
        assert next == history + added;
        UserTurnsAppend(history, added);
        UserTurnsAppend([added[0]], added[1..]);
        assert [added[0]] + added[1..] == added;
        assert added[1..] == [] || added[1..] == [Turn(Assistant, added[1].content)];
      } else {
        assert next == history;
      }
    }
  }

  /** `st.session_state`, as far as the chat uses it. */
  class Session {
    /** Whether the key "messages" is present. */
    var seeded: bool
    /** `st.session_state.messages` */
    var messages: seq<Turn>

    ghost predicate Valid()
      reads this
    {
      if seeded then WellFormed(messages) else messages == []
    }

    /** A fresh session: no "messages" key yet. */
    constructor ()
      ensures Valid() && !seeded && messages == []
    {
      seeded := false;
      messages := [];
    }

    /** Lines 145-146: the greeting is added only when the history is absent. */
    method SeedIfAbsent()
      requires Valid()
      modifies this
      ensures Valid() && seeded
      ensures messages == if old(seeded) then old(messages) else [GreetingTurn]
    {
      if !seeded {
        messages := [GreetingTurn];
        seeded := true;
      }
    }

    /** Lines 151-176: handle the chat input of one script run. */
    method Submit(input: string, validModel: Option<string>, dbExists: bool,
                  generate: (string, Prompt) -> Completion,
                  execute: string -> QueryOutcome) returns (shown: Shown)
      requires Valid() && seeded
      modifies this
      ensures Valid() && seeded
      ensures messages == AfterSubmission(old(messages), input, validModel, dbExists, generate, execute)
      ensures shown == Handle(input, validModel, dbExists, generate, execute)
    {
      SubmissionKeepsWellFormed(messages, input, validModel, dbExists, generate, execute);
      if input == "" {
        return NothingSubmitted;
      }
      messages := messages + [Turn(User, input)];
      if !ModelSelection.Truthy(validModel) {
        shown := ErrorNotice(NoModelNotice);
      } else if !dbExists {
        shown := ErrorNotice(NoDatabaseNotice);
      } else {
        var reply := GetResponse(input, validModel.value, generate, execute);
        shown := Answer(reply);
        messages := messages + [Turn(Assistant, reply.text)];
      }
    }

    /** One run of the chat part of the script: seed if needed, then handle the input. */
    method Run(input: string, validModel: Option<string>, dbExists: bool,
               generate: (string, Prompt) -> Completion,
               execute: string -> QueryOutcome) returns (shown: Shown)
      requires Valid()
      modifies this
      ensures Valid() && seeded
      ensures messages == AfterSubmission(if old(seeded) then old(messages) else [GreetingTurn],
                                          input, validModel, dbExists, generate, execute)
      ensures shown == Handle(input, validModel, dbExists, generate, execute)
    {
      SeedIfAbsent();
      shown := Submit(input, validModel, dbExists, generate, execute);
    }
  }
}
