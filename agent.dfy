/**
  The question-answering loop of agent.py: a valid question is sent to the
  model chosen by its complexity level, the SQL extracted from the reply is
  sanitised, cleaned once more and executed; on a database error the
  question is tried again with the error in the prompt, at most three times
  in all (agent.py:201-231, 248-286).

  The language model is a function from (generation number, model name,
  prompt) to the standard output of a run that succeeded, or None when the
  run failed; the database is a `Database.Session`.
*/
module Agent {
  import opened Wrappers
  import opened Text
  import opened InputValidation
  import opened Complexity
  import opened Extraction
  import opened Sanitizer
  import opened Database

  const MaxAttempts: nat := 3

  /** What one generation depends on besides the question and the previous
      error: the model runner, the schema text and the relationship text. */
  datatype Context = Context(llm: (nat, string, string) -> Option<string>, schema: string, relationships: string)

  /** Python's truth value of the error slot: None and the empty string are
      false. */
  predicate Truthy(e: Option<string>)
  {
    e.Some? && e.value != []
  }

  // ---------------------------------------------------------------------------
  // agent_generate_sql
  // ---------------------------------------------------------------------------

  /** How the f-string shows the previous error. */
  function RenderError(prev: Option<string>): string
  {
    match prev
    case None => "None"
    case Some(e) => e
  }

  /** The variable sections of the prompt, in order: schema, relationships,
      question and previous error, each under its heading. */
  function BuildPrompt(schema: string, relationships: string, question: string, prev: Option<string>): string
  {
    "SCHEMA:\n" + schema + "\n\n" + relationships + "\n\nUSER QUESTION:\n" + question
    + "\n\nPREVIOUS ERROR (if any):\n" + RenderError(prev) + "\n\n"
  }

  /** The prompt carries the question and the previous error. */
  lemma PromptCarriesQuestionAndError(schema: string, relationships: string, question: string, prev: Option<string>)
    ensures Contains(BuildPrompt(schema, relationships, question, prev), question)
    ensures Contains(BuildPrompt(schema, relationships, question, prev), RenderError(prev))
    ensures prev == None ==> Contains(BuildPrompt(schema, relationships, question, prev), "None")
  {
    var a := "SCHEMA:\n" + schema + "\n\n" + relationships + "\n\nUSER QUESTION:\n";
    var e := RenderError(prev);
    var b := a + question + "\n\nPREVIOUS ERROR (if any):\n";
    var p := BuildPrompt(schema, relationships, question, prev);
    assert p == a + question + ("\n\nPREVIOUS ERROR (if any):\n" + e + "\n\n");
    assert p[|a|..|a| + |question|] == question;
    assert OccursAt(p, question, |a|);
    assert p == b + e + "\n\n";
    assert p[|b|..|b| + |e|] == e;
    assert OccursAt(p, e, |b|);
  }

  /** The model a question is routed to. */
  function RouteFor(question: string): (model: string)
    ensures model in {"llama3", "llama3:instruct", "llama3.1-70b"}
  {
    ModelFor(Level(Score(question)))
  }

  /** `run_ollama_with_routing` followed by `extract_sql` and `sanitize_sql`:
      the SQL of the k-th generation, and the model that produced it. */
  function GenerateSql(ctx: Context, k: nat, question: string, prev: Option<string>): (r: (Option<string>, string))
    ensures r.1 == RouteFor(question)
    ensures var out := ctx.llm(k, RouteFor(question), BuildPrompt(ctx.schema, ctx.relationships, question, prev));
            r.0.None? <==> out.None? || Strip(out.value) == []
    ensures r.0.Some? ==> forall p :: !WholeWordYrAt(r.0.value, p, false)
  {
    var model := RouteFor(question);
    var out := ctx.llm(k, model, BuildPrompt(ctx.schema, ctx.relationships, question, prev));
    var raw := match out
      case None => None
      case Some(o) => Some(Strip(o));
    (SanitizeSql(ExtractSql(raw)), model)
  }

  // ---------------------------------------------------------------------------
  // The second cleaning pass (agent.py:265-266)
  // ---------------------------------------------------------------------------

  /** Backticks removed, surrounding whitespace stripped, and a bare `sql`
      first line dropped. */
  function SecondClean(sql: string): (r: string)
    ensures '`' !in r
    ensures forall c :: c in r ==> c in sql
  {
    var s := Strip(RemoveBackticks(sql));
    var r := RemoveFirstSqlLine(s);
    forall c | c in r
      ensures c in RemoveBackticks(sql) && c in sql
    {
      RemoveFirstSqlLineKeepsChars(s, c);
      StripKeepsChars(RemoveBackticks(sql), c);
    }
    r
  }

  /** Text that is already clean passes the second pass unchanged. */
  lemma SecondCleanOfClean(sql: string)
    requires '`' !in sql && Stripped(sql) && SqlLineMatch(sql).None?
    ensures SecondClean(sql) == sql
  {
    NoBacktickNoPattern(sql, "```");
    ReplaceAbsent(sql, "```", "");
    NoBacktickNoPattern(sql, "`");
    ReplaceAbsent(sql, "`", "");
    StripOfStripped(sql);
  }

  // ---------------------------------------------------------------------------
  // The repair loop (agent.py:252-286)
  // ---------------------------------------------------------------------------

  /** One executed attempt: the error it was given, the model used, the SQL
      sent and what `execute_query` returned. */
  datatype Attempt = Attempt(prevError: Option<string>, model: string, sql: string, result: QueryResult)

  /** How the loop ends: no SQL was produced; an execution came back without
      a (truthy) error, with its rows; or three executions failed. */
  datatype Ending = NoSql | Succeeded(rows: Option<seq<Row>>) | GaveUp(lastError: Option<string>)

  /** The attempts executed for one question, in order, and the ending. */
  datatype Run = Run(attempts: seq<Attempt>, ending: Ending)

  /** The steps of one attempt as the loop sees them: `gen` gives the SQL of
      the k-th generation from the previous error, `clean` is the second
      cleaning pass, and `model` the model the generations run on. */
  datatype Pipeline = Pipeline(gen: (nat, Option<string>) -> Option<string>, clean: string -> string, model: string)

  /** The agent's own pipeline for a question. */
  function PipelineFor(ctx: Context, question: string): Pipeline
  {
    Pipeline((k: nat, prev: Option<string>) => GenerateSql(ctx, k, question, prev).0, SecondClean, RouteFor(question))
  }

  /** The loop from its state after `k` failed attempts, with `prev` in the
      error slot, the session in state `st` and `n` statements sent so far. */
  function Repair(p: Pipeline, server: (nat, string) -> Reply,
                  k: nat, prev: Option<string>, st: TxnState, n: nat): Run
    decreases MaxAttempts - k
  {
    if k >= MaxAttempts then Run([], GaveUp(prev))
    else
      var sql := p.gen(k, prev);
      if sql.None? || sql.value == [] then Run([], NoSql)
      else
        var q := p.clean(sql.value);
        var result := QueryOutcome(st, server(n, q));
        var a := Attempt(prev, p.model, q, result);
        if Truthy(result.error) then
          var rest := Repair(p, server, k + 1, result.error, Idle, StatementsAfter(st, n));
          Run([a] + rest.attempts, rest.ending)
        else Run([a], Succeeded(result.rows))
  }

  /** The attempts of `done` followed by those of `r`. */
  function Prepend(done: seq<Attempt>, r: Run): Run
  {
    Run(done + r.attempts, r.ending)
  }

  /** The calls a run of attempts makes on the connection, from state `st`
      with `n` statements already sent: each attempt is one
      `execute_query`, and every one after the first starts idle. */
  function RunTrace(server: (nat, string) -> Reply, st: TxnState, n: nat, attempts: seq<Attempt>): seq<Event>
    decreases |attempts|
  {
    if attempts == [] then []
    else
      var q := attempts[0].sql;
      QueryTrace(st, server(n, q), q) + RunTrace(server, Idle, StatementsAfter(st, n), attempts[1..])
  }

  /** The statements a history of calls sends, in order. */
  function StatementsOf(h: seq<Event>): seq<string>
    decreases |h|
  {
    if h == [] then []
    else (if h[0].Executed? then [h[0].sql] else []) + StatementsOf(h[1..])
  }

  lemma {:induction false} StatementsOfConcat(u: seq<Event>, v: seq<Event>)
    ensures StatementsOf(u + v) == StatementsOf(u) + StatementsOf(v)
    decreases |u|
  {
    if u != [] {
      assert (u + v)[0] == u[0];
      assert (u + v)[1..] == u[1..] + v;
      StatementsOfConcat(u[1..], v);
      var f := if u[0].Executed? then [u[0].sql] else [];
      assert f + (StatementsOf(u[1..]) + StatementsOf(v)) == (f + StatementsOf(u[1..])) + StatementsOf(v);
    } else {
      assert u + v == v;
    }
  }

  /** Each `execute_query` sends its statement once. */
  lemma QueryTraceStatements(s: TxnState, reply: Reply, sql: string)
    ensures StatementsOf(QueryTrace(s, reply, sql)) == [sql]
  {
    var t := QueryTrace(s, reply, sql);
    assert t[0] == Executed(sql, t[0].ok);
    assert forall i :: 0 < i < |t| ==> !t[i].Executed?;
    StatementsOfRest(t[1..]);
  }

  lemma {:induction false} StatementsOfRest(h: seq<Event>)
    requires forall i :: 0 <= i < |h| ==> !h[i].Executed?
    ensures StatementsOf(h) == []
    decreases |h|
  {
    if h != [] {
      StatementsOfRest(h[1..]);
    }
  }

  /** The SQL of each attempt, in order. */
  function SqlOf(attempts: seq<Attempt>): (r: seq<string>)
    ensures |r| == |attempts| && forall i :: 0 <= i < |r| ==> r[i] == attempts[i].sql
  {
    seq(|attempts|, i requires 0 <= i < |attempts| => attempts[i].sql)
  }

  /** A run sends exactly the SQL of its attempts, each once and in order. */
  lemma {:induction false} RunTraceStatements(server: (nat, string) -> Reply, st: TxnState, n: nat, attempts: seq<Attempt>)
    ensures StatementsOf(RunTrace(server, st, n, attempts)) == SqlOf(attempts)
    decreases |attempts|
  {
    if attempts != [] {
      var q := attempts[0].sql;
      var rest := RunTrace(server, Idle, StatementsAfter(st, n), attempts[1..]);
      StatementsOfConcat(QueryTrace(st, server(n, q), q), rest);
      QueryTraceStatements(st, server(n, q), q);
      RunTraceStatements(server, Idle, StatementsAfter(st, n), attempts[1..]);
      assert SqlOf(attempts) == [q] + SqlOf(attempts[1..]);
    }
  }

  /** The transaction state and statement count after `done`, from state
      `st` with `n` statements sent. */
  predicate AfterAttempts(done: seq<Attempt>, st0: TxnState, n0: nat, st: TxnState, n: nat)
  {
    if done == [] then st == st0 && n == n0
    else st == Idle && n == StatementsAfter(st0, n0) + |done| - 1
  }

  /** One more attempt adds its query's calls to the trace. */
  lemma {:induction false} RunTraceSnoc(server: (nat, string) -> Reply, st0: TxnState, n0: nat,
                                        done: seq<Attempt>, a: Attempt, st: TxnState, n: nat)
    requires AfterAttempts(done, st0, n0, st, n)
    ensures RunTrace(server, st0, n0, done + [a]) == RunTrace(server, st0, n0, done) + QueryTrace(st, server(n, a.sql), a.sql)
    ensures AfterAttempts(done + [a], st0, n0, Idle, StatementsAfter(st, n))
    decreases |done|
  {
    var t := QueryTrace(st, server(n, a.sql), a.sql);
    if done == [] {
      assert ([] + [a])[1..] == [];
      assert t + [] == t;
    } else {
      var m := StatementsAfter(st0, n0);
      var rest := done[1..];
      assert (done + [a])[0] == done[0];
      assert (done + [a])[1..] == rest + [a];
      RunTraceSnoc(server, Idle, m, rest, a, st, n);
      var q := done[0].sql;
      var u := QueryTrace(st0, server(n0, q), q);
      ConcatAssoc(u, RunTrace(server, Idle, m, rest), t);
    }
  }

  /** `h` is `h0` followed by the calls of the attempts `done`, which leave
      the session in state `st` with `n` statements sent. */
  predicate Traced(h: seq<Event>, h0: seq<Event>, server: (nat, string) -> Reply, st0: TxnState, n0: nat,
                   done: seq<Attempt>, st: TxnState, n: nat)
  {
    AfterAttempts(done, st0, n0, st, n) && h == h0 + RunTrace(server, st0, n0, done)
  }

  /** One executed attempt, as the loop's trace invariant sees it. */
  lemma TracedStep(h: seq<Event>, h0: seq<Event>, server: (nat, string) -> Reply, st0: TxnState, n0: nat,
                   done: seq<Attempt>, st: TxnState, n: nat, a: Attempt, h': seq<Event>)
    requires Traced(h, h0, server, st0, n0, done, st, n)
    requires h' == h + QueryTrace(st, server(n, a.sql), a.sql)
    ensures Traced(h', h0, server, st0, n0, done + [a], Idle, StatementsAfter(st, n))
  {
    RunTraceSnoc(server, st0, n0, done, a, st, n);
    ConcatAssoc(h0, RunTrace(server, st0, n0, done), QueryTrace(st, server(n, a.sql), a.sql));
  }

  lemma TracedFacts(h: seq<Event>, h0: seq<Event>, server: (nat, string) -> Reply, st0: TxnState, n0: nat,
                    done: seq<Attempt>, st: TxnState, n: nat)
    requires Traced(h, h0, server, st0, n0, done, st, n)
    ensures done == [] ==> st == st0 && n == n0 && h == h0
    ensures done != [] ==> st == Idle && n == StatementsAfter(st0, n0) + |done| - 1
    ensures h == h0 + RunTrace(server, st0, n0, done)
  {
  }

  lemma ConcatAssoc(u: seq<Event>, v: seq<Event>, w: seq<Event>)
    ensures u + (v + w) == (u + v) + w
  {
  }

  /** The retry loop for one question, executing on `session`; `p` holds
      the generation and cleaning steps for the question. */
  method RepairLoop(session: Session, p: Pipeline) returns (run: Run)
    requires session.Valid()
    modifies session
    ensures session.Valid()
    ensures run == Repair(p, session.server, 0, None, old(session.state), old(session.executed))
    ensures run.attempts == [] ==> && session.state == old(session.state)
                                   && session.executed == old(session.executed)
                                   && session.history == old(session.history)
    ensures run.attempts != [] ==> && session.state == Idle
                                   && session.executed == StatementsAfter(old(session.state), old(session.executed)) + |run.attempts| - 1
    ensures session.history == old(session.history) + RunTrace(session.server, old(session.state), old(session.executed), run.attempts)
  {
    ghost var spec := Repair(p, session.server, 0, None, session.state, session.executed);
    var attempts := 0;
    var errorMessage: Option<string> := None;
    var done: seq<Attempt> := [];
    var ending: Ending := GaveUp(None);
    while attempts < MaxAttempts
      invariant 0 <= attempts <= MaxAttempts
      invariant session.Valid()
      invariant attempts > 0 ==> Truthy(errorMessage)
      invariant LoopState(spec, done, p, session.server, attempts, errorMessage,
                          old(session.history), old(session.state), old(session.executed),
                          session.history, session.state, session.executed)
      decreases MaxAttempts - attempts
    {
      var prev := errorMessage;
      var sql := p.gen(attempts, prev);
      if sql.None? || sql.value == [] {
        ending := NoSql;
        NoSqlStep(spec, done, p, session.server, attempts, prev, old(session.history), old(session.state), old(session.executed),
                  session.history, session.state, session.executed);
        break;
      }
      var q := p.clean(sql.value);
      ghost var st, n, h, done0 := session.state, session.executed, session.history, done;
      var result := ExecuteQuery(session, q);
      errorMessage := result.error;
      var a := Attempt(prev, p.model, q, result);
      done := done + [a];
      if Truthy(errorMessage) {
        attempts := attempts + 1;
        RetryStep(spec, done0, p, session.server, attempts - 1, prev, old(session.history), old(session.state), old(session.executed),
                  h, st, n, a, done, errorMessage, session.history, session.state, session.executed);
      } else {
        ending := Succeeded(result.rows);
        SuccessStep(spec, done0, p, session.server, attempts, prev, old(session.history), old(session.state), old(session.executed),
                    h, st, n, a, done, ending, session.history, session.state, session.executed);
        break;
      }
    }
    if attempts == MaxAttempts && Truthy(errorMessage) {
      ending := GaveUp(errorMessage);
      ExhaustedStep(spec, done, p, session.server, errorMessage, old(session.history), old(session.state), old(session.executed),
                    session.history, session.state, session.executed);
    }
    run := Run(done, ending);
    TracedFacts(session.history, old(session.history), session.server, old(session.state), old(session.executed),
                run.attempts, session.state, session.executed);
  }

  /** The loop's invariant: `spec` is `done` followed by the run from
      attempt `k`, and the session's calls so far are those of `done`. */
  ghost predicate LoopState(spec: Run, done: seq<Attempt>, p: Pipeline, server: (nat, string) -> Reply,
                            k: nat, prev: Option<string>, h0: seq<Event>, st0: TxnState, n0: nat,
                            h: seq<Event>, st: TxnState, n: nat)
  {
    RunAhead(spec, done, p, server, k, prev, st, n) && Traced(h, h0, server, st0, n0, done, st, n)
  }

  /** An attempt whose error is truthy: the loop goes on from the next
      attempt with `done2`, the session having made the attempt's calls. */
  lemma RetryStep(spec: Run, done: seq<Attempt>, p: Pipeline, server: (nat, string) -> Reply,
                  k: nat, prev: Option<string>, h0: seq<Event>, st0: TxnState, n0: nat,
                  h: seq<Event>, st: TxnState, n: nat, a: Attempt,
                  done2: seq<Attempt>, prev2: Option<string>, h2: seq<Event>, st2: TxnState, n2: nat)
    requires LoopState(spec, done, p, server, k, prev, h0, st0, n0, h, st, n)
    requires k < MaxAttempts && p.gen(k, prev).Some? && p.gen(k, prev).value != []
    requires a.prevError == prev && a.model == p.model && a.sql == p.clean(p.gen(k, prev).value)
    requires a.result == QueryOutcome(st, server(n, a.sql)) && Truthy(a.result.error)
    requires h2 == h + QueryTrace(st, server(n, a.sql), a.sql)
    requires done2 == done + [a] && prev2 == a.result.error && st2 == Idle && n2 == StatementsAfter(st, n)
    ensures LoopState(spec, done2, p, server, k + 1, prev2, h0, st0, n0, h2, st2, n2)
  {
    LoopStep(spec, done, p, server, k, prev, st, n, a);
    TracedStep(h, h0, server, st0, n0, done, st, n, a, h2);
  }

  /** An attempt without a truthy error: the run ends with its rows. */
  lemma SuccessStep(spec: Run, done: seq<Attempt>, p: Pipeline, server: (nat, string) -> Reply,
                    k: nat, prev: Option<string>, h0: seq<Event>, st0: TxnState, n0: nat,
                    h: seq<Event>, st: TxnState, n: nat, a: Attempt,
                    done2: seq<Attempt>, ending: Ending, h2: seq<Event>, st2: TxnState, n2: nat)
    requires LoopState(spec, done, p, server, k, prev, h0, st0, n0, h, st, n)
    requires k < MaxAttempts && p.gen(k, prev).Some? && p.gen(k, prev).value != []
    requires a.prevError == prev && a.model == p.model && a.sql == p.clean(p.gen(k, prev).value)
    requires a.result == QueryOutcome(st, server(n, a.sql)) && !Truthy(a.result.error)
    requires h2 == h + QueryTrace(st, server(n, a.sql), a.sql)
    requires done2 == done + [a] && ending == Succeeded(a.result.rows) && st2 == Idle && n2 == StatementsAfter(st, n)
    ensures spec == Run(done2, ending) && Traced(h2, h0, server, st0, n0, done2, st2, n2)
  {
    LoopStep(spec, done, p, server, k, prev, st, n, a);
    TracedStep(h, h0, server, st0, n0, done, st, n, a, h2);
  }

  /** `spec` is the attempts of `done` followed by the run of the loop from
      attempt `k`. */
  ghost predicate RunAhead(spec: Run, done: seq<Attempt>, p: Pipeline, server: (nat, string) -> Reply,
                           k: nat, prev: Option<string>, st: TxnState, n: nat)
  {
    spec == Prepend(done, Repair(p, server, k, prev, st, n))
  }

  /** The generation yields no SQL: the run ends here. */
  lemma NoSqlStep(spec: Run, done: seq<Attempt>, p: Pipeline, server: (nat, string) -> Reply,
                  k: nat, prev: Option<string>, h0: seq<Event>, st0: TxnState, n0: nat,
                  h: seq<Event>, st: TxnState, n: nat)
    requires LoopState(spec, done, p, server, k, prev, h0, st0, n0, h, st, n)
    requires k < MaxAttempts && (p.gen(k, prev).None? || p.gen(k, prev).value == [])
    ensures spec == Run(done, NoSql) && Traced(h, h0, server, st0, n0, done, st, n)
  {
    RepairNoSql(p, server, k, prev, st, n);
    assert done + [] == done;
  }

  /** No attempt is left: the run gives up with the last error. */
  lemma ExhaustedStep(spec: Run, done: seq<Attempt>, p: Pipeline, server: (nat, string) -> Reply,
                      prev: Option<string>, h0: seq<Event>, st0: TxnState, n0: nat,
                      h: seq<Event>, st: TxnState, n: nat)
    requires LoopState(spec, done, p, server, MaxAttempts, prev, h0, st0, n0, h, st, n)
    ensures spec == Run(done, GaveUp(prev)) && Traced(h, h0, server, st0, n0, done, st, n)
  {
    assert done + [] == done;
  }

  /** One executed attempt, as the loop's invariant sees it: after a truthy
      error the rest of the run is the loop from the next attempt, otherwise
      the run ends with this attempt's rows. */
  lemma LoopStep(spec: Run, done: seq<Attempt>, p: Pipeline, server: (nat, string) -> Reply,
                 k: nat, prev: Option<string>, st: TxnState, n: nat, a: Attempt)
    requires RunAhead(spec, done, p, server, k, prev, st, n)
    requires k < MaxAttempts && p.gen(k, prev).Some? && p.gen(k, prev).value != []
    requires a.prevError == prev && a.model == p.model && a.sql == p.clean(p.gen(k, prev).value)
    requires a.result == QueryOutcome(st, server(n, a.sql))
    ensures Truthy(a.result.error) ==>
              RunAhead(spec, done + [a], p, server, k + 1, a.result.error, Idle, StatementsAfter(st, n))
    ensures !Truthy(a.result.error) ==> spec == Run(done + [a], Succeeded(a.result.rows))
  {
    RepairExecutes(p, server, k, prev, st, n);
    assert a == Attempt(prev, p.model, a.sql, a.result);
    var rest := Repair(p, server, k + 1, a.result.error, Idle, StatementsAfter(st, n));
    assert done + ([a] + rest.attempts) == done + [a] + rest.attempts;
  }

  /** The loop stops when the generation yields no SQL. */
  lemma RepairNoSql(p: Pipeline, server: (nat, string) -> Reply, k: nat, prev: Option<string>, st: TxnState, n: nat)
    requires k < MaxAttempts && (p.gen(k, prev).None? || p.gen(k, prev).value == [])
    ensures Repair(p, server, k, prev, st, n) == Run([], NoSql)
  {
  }

  /** An attempt that executes: the loop goes on after a truthy error and
      stops with the rows otherwise. */
  lemma RepairExecutes(p: Pipeline, server: (nat, string) -> Reply, k: nat, prev: Option<string>, st: TxnState, n: nat)
    requires k < MaxAttempts && p.gen(k, prev).Some? && p.gen(k, prev).value != []
    ensures var q := p.clean(p.gen(k, prev).value);
            var result := QueryOutcome(st, server(n, q));
            var a := Attempt(prev, p.model, q, result);
            Repair(p, server, k, prev, st, n)
            == if Truthy(result.error) then Prepend([a], Repair(p, server, k + 1, result.error, Idle, StatementsAfter(st, n)))
               else Run([a], Succeeded(result.rows))
  {
  }

  /** A question outside `is_valid_input` is turned away; any other is
      answered by the loop. */
  function Answer(ctx: Context, server: (nat, string) -> Reply, question: string, st: TxnState, n: nat): (r: Option<Run>)
    ensures r.None? <==> !IsValidInput(question)
  {
    if !IsValidInput(question) then None else Some(Repair(PipelineFor(ctx, question), server, 0, None, st, n))
  }

  /** One question of the command loop. */
  method HandleQuestion(session: Session, ctx: Context, question: string) returns (run: Option<Run>)
    requires session.Valid()
    modifies session
    ensures session.Valid()
    ensures run == Answer(ctx, session.server, question, old(session.state), old(session.executed))
    ensures run.None? ==> && session.state == old(session.state)
                          && session.executed == old(session.executed)
                          && session.history == old(session.history)
    ensures run.Some? && run.value.attempts == [] ==>
              session.state == old(session.state) && session.executed == old(session.executed)
    ensures run.Some? && run.value.attempts != [] ==> session.state == Idle
    ensures run.Some? && run.value.attempts != [] ==>
              session.executed == StatementsAfter(old(session.state), old(session.executed)) + |run.value.attempts| - 1
    ensures run.Some? ==>
              session.history == old(session.history) + RunTrace(session.server, old(session.state), old(session.executed), run.value.attempts)
  {
    if !IsValidInput(question) {
      return None;
    }
    var r := RepairLoop(session, PipelineFor(ctx, question));
    run := Some(r);
  }

  // ---------------------------------------------------------------------------
  // Properties of the loop
  // ---------------------------------------------------------------------------

  /** At most three executions per question. */
  lemma {:induction false} AttemptsBounded(p: Pipeline, server: (nat, string) -> Reply, k: nat, prev: Option<string>, st: TxnState, n: nat)
    requires k <= MaxAttempts
    ensures |Repair(p, server, k, prev, st, n).attempts| <= MaxAttempts - k
    decreases MaxAttempts - k
  {
    if k < MaxAttempts {
      var sql := p.gen(k, prev);
      if sql.Some? && sql.value != [] {
        var q := p.clean(sql.value);
        var result := QueryOutcome(st, server(n, q));
        if Truthy(result.error) {
          AttemptsBounded(p, server, k + 1, result.error, Idle, StatementsAfter(st, n));
        }
      }
    }
  }

  /** Each attempt is given the error of the attempt before it, and the
      first one the error slot it started with. */
  lemma {:induction false} ErrorsChain(p: Pipeline, server: (nat, string) -> Reply, k: nat, prev: Option<string>, st: TxnState, n: nat)
    ensures var a := Repair(p, server, k, prev, st, n).attempts;
            && (a != [] ==> a[0].prevError == prev)
            && (forall i :: 0 < i < |a| ==> a[i].prevError == a[i - 1].result.error)
    decreases MaxAttempts - k
  {
    if k < MaxAttempts {
      var sql := p.gen(k, prev);
      if sql.Some? && sql.value != [] {
        var q := p.clean(sql.value);
        var result := QueryOutcome(st, server(n, q));
        if Truthy(result.error) {
          ErrorsChain(p, server, k + 1, result.error, Idle, StatementsAfter(st, n));
        }
      }
    }
  }

  /** Every attempt of `r` but the last came back with a truthy error; `r`
      ends in success exactly when its last attempt did not, and then
      reports that attempt's rows. */
  predicate StopShape(r: Run)
  {
    var a := r.attempts;
    && (forall i :: 0 <= i < |a| - 1 ==> Truthy(a[i].result.error))
    && (r.ending.Succeeded? <==> a != [] && !Truthy(a[|a| - 1].result.error))
    && (r.ending.Succeeded? ==> r.ending.rows == a[|a| - 1].result.rows)
  }

  /** The loop stops at the first attempt without a truthy error, and only
      there. */
  lemma {:induction false} StopsAtFirstFalsyError(p: Pipeline, server: (nat, string) -> Reply, k: nat, prev: Option<string>, st: TxnState, n: nat)
    ensures StopShape(Repair(p, server, k, prev, st, n))
    decreases MaxAttempts - k
  {
    if k < MaxAttempts {
      var sql := p.gen(k, prev);
      if sql.Some? && sql.value != [] {
        RepairExecutes(p, server, k, prev, st, n);
        var q := p.clean(sql.value);
        var result := QueryOutcome(st, server(n, q));
        var a0 := Attempt(prev, p.model, q, result);
        var r := Repair(p, server, k, prev, st, n);
        if Truthy(result.error) {
          var k', st', n' := k + 1, Idle, StatementsAfter(st, n);
          var rest := Repair(p, server, k', result.error, st', n');
          StopsAtFirstFalsyError(p, server, k', result.error, st', n');
          StopShapeCons(a0, rest);
          assert r == Prepend([a0], rest);
        } else {
          assert r == Run([a0], Succeeded(result.rows));
          assert [a0][0] == a0;
        }
      }
    }
  }

  /** A failed attempt in front keeps the shape. */
  lemma StopShapeCons(a0: Attempt, rest: Run)
    requires Truthy(a0.result.error) && StopShape(rest)
    ensures StopShape(Prepend([a0], rest))
  {
    var a := [a0] + rest.attempts;
    assert a[0] == a0;
    assert forall i :: 1 <= i < |a| ==> a[i] == rest.attempts[i - 1];
  }

  /** `r` gives up exactly when all `MaxAttempts - k` attempts left were made
      and all failed with a truthy error, reporting the last error (`prev`
      when none was left); it stops for lack of SQL only with attempts left. */
  predicate GaveUpShape(r: Run, k: nat, prev: Option<string>)
  {
    var a := r.attempts;
    && (r.ending.GaveUp? <==> |a| == MaxAttempts - k && AllTruthy(a))
    && (r.ending.GaveUp? ==> r.ending.lastError == if a == [] then prev else a[|a| - 1].result.error)
    && (r.ending.NoSql? ==> |a| < MaxAttempts - k)
  }

  lemma {:induction false} GaveUpAfterTruthyErrors(p: Pipeline, server: (nat, string) -> Reply, k: nat, prev: Option<string>, st: TxnState, n: nat)
    requires k <= MaxAttempts && (k > 0 ==> Truthy(prev))
    ensures GaveUpShape(Repair(p, server, k, prev, st, n), k, prev)
    decreases MaxAttempts - k
  {
    if k < MaxAttempts {
      var sql := p.gen(k, prev);
      if sql.Some? && sql.value != [] {
        RepairExecutes(p, server, k, prev, st, n);
        var q := p.clean(sql.value);
        var result := QueryOutcome(st, server(n, q));
        var a0 := Attempt(prev, p.model, q, result);
        var r := Repair(p, server, k, prev, st, n);
        if Truthy(result.error) {
          var k', st', n' := k + 1, Idle, StatementsAfter(st, n);
          var rest := Repair(p, server, k', result.error, st', n');
          GaveUpAfterTruthyErrors(p, server, k', result.error, st', n');
          AttemptsBounded(p, server, k', result.error, st', n');
          GaveUpShapeCons(a0, rest, k, prev);
          assert r == Prepend([a0], rest);
        } else {
          assert r == Run([a0], Succeeded(result.rows));
          assert [a0][0] == a0;
        }
      }
    }
  }

  /** One more failed attempt in front keeps the shape. */
  lemma GaveUpShapeCons(a0: Attempt, rest: Run, k: nat, prev: Option<string>)
    requires k < MaxAttempts && Truthy(a0.result.error)
    requires GaveUpShape(rest, k + 1, a0.result.error) && |rest.attempts| <= MaxAttempts - (k + 1)
    ensures GaveUpShape(Prepend([a0], rest), k, prev)
  {
    var a := [a0] + rest.attempts;
    AllTruthyCons(a0, rest.attempts);
    assert rest.attempts != [] ==> a[|a| - 1] == rest.attempts[|rest.attempts| - 1];
  }

  predicate AllTruthy(a: seq<Attempt>)
  {
    forall i :: 0 <= i < |a| ==> Truthy(a[i].result.error)
  }

  lemma AllTruthyCons(a0: Attempt, rest: seq<Attempt>)
    ensures AllTruthy([a0] + rest) <==> Truthy(a0.result.error) && AllTruthy(rest)
  {
    var a := [a0] + rest;
    assert a[0] == a0;
    assert forall i :: 1 <= i < |a| ==> a[i] == rest[i - 1];
    if AllTruthy(a) {
      assert Truthy(a[0].result.error);
      forall i | 0 <= i < |rest|
        ensures Truthy(rest[i].result.error)
      {
        assert a[i + 1] == rest[i];
      }
    }
    if Truthy(a0.result.error) && AllTruthy(rest) {
      forall i | 0 <= i < |a|
        ensures Truthy(a[i].result.error)
      {
        if i > 0 {
          assert a[i] == rest[i - 1];
        }
      }
    }
  }

  /** Attempt i of `a` is generation k + i, given that attempt's error slot,
      run on the pipeline's model and sent through the second cleaning
      pass. */
  predicate FollowsPipeline(p: Pipeline, k: nat, a: seq<Attempt>)
  {
    forall i :: 0 <= i < |a| ==>
      && a[i].model == p.model
      && p.gen(k + i, a[i].prevError).Some?
      && a[i].sql == p.clean(p.gen(k + i, a[i].prevError).value)
  }

  lemma {:induction false} AttemptsFollowPipeline(p: Pipeline, server: (nat, string) -> Reply, k: nat, prev: Option<string>, st: TxnState, n: nat)
    ensures FollowsPipeline(p, k, Repair(p, server, k, prev, st, n).attempts)
    decreases MaxAttempts - k
  {
    if k < MaxAttempts {
      var sql := p.gen(k, prev);
      if sql.Some? && sql.value != [] {
        RepairExecutes(p, server, k, prev, st, n);
        var q := p.clean(sql.value);
        var result := QueryOutcome(st, server(n, q));
        var a0 := Attempt(prev, p.model, q, result);
        var r := Repair(p, server, k, prev, st, n);
        if Truthy(result.error) {
          var rest := Repair(p, server, k + 1, result.error, Idle, StatementsAfter(st, n));
          AttemptsFollowPipeline(p, server, k + 1, result.error, Idle, StatementsAfter(st, n));
          FollowsPipelineCons(p, k, a0, rest.attempts);
          assert r.attempts == [a0] + rest.attempts;
        } else {
          FollowsPipelineCons(p, k, a0, []);
          assert r.attempts == [a0] + [];
        }
      }
    }
  }

  lemma FollowsPipelineCons(p: Pipeline, k: nat, a0: Attempt, rest: seq<Attempt>)
    requires a0.model == p.model && p.gen(k, a0.prevError).Some?
    requires a0.sql == p.clean(p.gen(k, a0.prevError).value)
    requires FollowsPipeline(p, k + 1, rest)
    ensures FollowsPipeline(p, k, [a0] + rest)
  {
    var a := [a0] + rest;
    forall i | 0 < i < |a|
      ensures a[i] == rest[i - 1] && k + i == (k + 1) + (i - 1)
    {
    }
  }

  // The same properties for a whole question, from an empty error slot.

  /** At most three executions, the first given no error and each later one
      the error of the one before. */
  lemma QuestionAttempts(p: Pipeline, server: (nat, string) -> Reply, st: TxnState, n: nat)
    ensures var a := Repair(p, server, 0, None, st, n).attempts;
            && |a| <= 3
            && (a != [] ==> a[0].prevError == None)
            && (forall i :: 0 < i < |a| ==> a[i].prevError == a[i - 1].result.error)
  {
    AttemptsBounded(p, server, 0, None, st, n);
    ErrorsChain(p, server, 0, None, st, n);
  }

  /** "Failed after 3 attempts" is reached exactly when three attempts all
      failed with a truthy error. */
  lemma FailureReportedOnlyAfterThreeErrors(p: Pipeline, server: (nat, string) -> Reply, st: TxnState, n: nat)
    ensures var r := Repair(p, server, 0, None, st, n);
            r.ending.GaveUp? <==> |r.attempts| == 3 && forall i :: 0 <= i < 3 ==> Truthy(r.attempts[i].result.error)
  {
    GaveUpAfterTruthyErrors(p, server, 0, None, st, n);
  }

  /** When the first generation yields no SQL, nothing is executed. */
  lemma NoSqlExecutesNothing(p: Pipeline, server: (nat, string) -> Reply, st: TxnState, n: nat)
    requires p.gen(0, None).None? || p.gen(0, None) == Some([])
    ensures Repair(p, server, 0, None, st, n) == Run([], NoSql)
  {
  }

  /** A failed model run yields no SQL. */
  lemma FailedModelRunYieldsNoSql(ctx: Context, k: nat, question: string, prev: Option<string>)
    requires ctx.llm(k, RouteFor(question), BuildPrompt(ctx.schema, ctx.relationships, question, prev)).None?
    ensures GenerateSql(ctx, k, question, prev).0.None?
  {
  }

  /** An empty error message counts as success: the loop stops after that
      attempt and reports it as executed, without rows. */
  lemma EmptyErrorCountsAsSuccess(p: Pipeline, server: (nat, string) -> Reply, st: TxnState, n: nat)
    requires var sql := p.gen(0, None);
             && sql.Some? && sql.value != []
             && QueryOutcome(st, server(n, p.clean(sql.value))).error == Some([])
    ensures var r := Repair(p, server, 0, None, st, n);
            |r.attempts| == 1 && r.ending == Succeeded(None)
  {
  }

  /** On the agent's own pipeline every attempt runs on the question's routed
      model and sends SQL with no backtick left. */
  lemma AgentAttemptsRoutedAndClean(ctx: Context, question: string, server: (nat, string) -> Reply, st: TxnState, n: nat)
    ensures var a := Repair(PipelineFor(ctx, question), server, 0, None, st, n).attempts;
            forall i :: 0 <= i < |a| ==> a[i].model == RouteFor(question) && '`' !in a[i].sql
  {
    var p := PipelineFor(ctx, question);
    assert p.model == RouteFor(question);
    assert forall x :: p.clean(x) == SecondClean(x);
    CleanedAttempts(p, server, st, n);
  }

  /** With a cleaning pass that leaves no backtick, no attempt sends one. */
  lemma CleanedAttempts(p: Pipeline, server: (nat, string) -> Reply, st: TxnState, n: nat)
    requires forall x :: '`' !in p.clean(x)
    ensures var a := Repair(p, server, 0, None, st, n).attempts;
            forall i :: 0 <= i < |a| ==> a[i].model == p.model && '`' !in a[i].sql
  {
    AttemptsFollowPipeline(p, server, 0, None, st, n);
  }

  /** An invalid question never reaches the model or the database. */
  lemma InvalidQuestionTurnedAway(ctx: Context, server: (nat, string) -> Reply, st: TxnState, n: nat)
    ensures Answer(ctx, server, "ok", st, n) == None
  {
    TooShortRejected();
  }
}
