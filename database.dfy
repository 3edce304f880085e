/**
  `execute_query` (agent.py:34-45) against an abstract database session.

  The PostgreSQL server is a function from (statement number, SQL text) to
  its reply, held by the session. As with psycopg2 in its default mode, the
  first statement opens a transaction implicitly; a statement that fails
  leaves the transaction aborted, and every later statement is then refused
  by PostgreSQL with SQLSTATE 25P02 until the transaction is ended by a
  commit or a rollback; the model gives that refusal itself and does not
  consult the server function, nor count the statement.
*/
module Database {
  import opened Wrappers

  type Row = seq<string>

  /** What `cursor.fetchall()` finds after a statement that succeeded. */
  datatype Fetch =
    | ResultSet(rows: seq<Row>)
    | NoResultSet              // e.g. an UPDATE: fetchall raises ProgrammingError
    | FetchFailed(message: string)

  /** The server's answer to one statement: it fails, or it succeeds and
      leaves a result for `fetchall` and an outcome for the commit that
      would end its transaction. */
  datatype Reply =
    | ExecFailed(message: string)
    | Done(fetch: Fetch, commitError: Option<string>)

  /** What `fetchall` returns or raises. */
  datatype FetchResult =
    | Fetched(rows: seq<Row>)
    | ProgrammingError(message: string)
    | DatabaseError(message: string)

  datatype TxnState = Idle | InTransaction | InFailedTransaction

  /** One call made on the session; `ok` says whether an execute succeeded. */
  datatype Event = Executed(sql: string, ok: bool) | FetchedAll | Committed | RolledBack

  /** The error a statement meets inside an aborted transaction. */
  const AbortedMessage := "current transaction is aborted, commands ignored until end of transaction block"

  /** psycopg2's message when the last statement produced no result set. */
  const NoResultsMessage := "no results to fetch"

  // ---------------------------------------------------------------------------
  // The transaction state machine
  // ---------------------------------------------------------------------------

  /** The transaction state after one event. */
  function Step(s: TxnState, e: Event): (r: TxnState)
    ensures e.Committed? || e.RolledBack? ==> r == Idle
    ensures e.Executed? && s != InFailedTransaction ==> (r == InTransaction <==> e.ok)
    ensures s == InFailedTransaction && !(e.Committed? || e.RolledBack?) ==> r == InFailedTransaction
  {
    match e
    case Executed(_, ok) => if s == InFailedTransaction || !ok then InFailedTransaction else InTransaction
    case FetchedAll => s
    case Committed => Idle
    case RolledBack => Idle
  }

  /** The transaction state after a history of events, from `s`. */
  function Replay(s: TxnState, h: seq<Event>): TxnState
  {
    if h == [] then s else Step(Replay(s, h[..|h| - 1]), h[|h| - 1])
  }

  lemma ReplayAppend(s: TxnState, h: seq<Event>, e: Event)
    ensures Replay(s, h + [e]) == Step(Replay(s, h), e)
  {
    assert (h + [e])[..|h|] == h;
  }

  lemma {:induction false} ReplayConcat(s: TxnState, h: seq<Event>, k: seq<Event>)
    ensures Replay(s, h + k) == Replay(Replay(s, h), k)
    decreases |k|
  {
    if k == [] {
      assert h + k == h;
    } else {
      var k' := k[..|k| - 1];
      var e := k[|k| - 1];
      assert k == k' + [e];
      assert h + k == (h + k') + [e];
      ReplayAppend(s, h + k', e);
      ReplayConcat(s, h, k');
      ReplayAppend(Replay(s, h), k', e);
    }
  }

  // ---------------------------------------------------------------------------
  // The session
  // ---------------------------------------------------------------------------

  class Session {
    /** The server's reply to the n-th statement it receives. */
    const server: (nat, string) -> Reply
    var state: TxnState
    /** Number of statements the server function has answered. */
    var executed: nat
    /** Reply to the last statement of the open transaction. */
    var current: Option<Reply>
    /** Every call made on the session. */
    var history: seq<Event>

    /** The state is the one the history leads to from a fresh connection. */
    predicate Valid()
      reads this
    {
      state == Replay(Idle, history)
    }

    constructor (server: (nat, string) -> Reply)
      ensures Valid() && state == Idle && executed == 0 && history == []
      ensures this.server == server && current == None
    {
      this.server := server;
      state := Idle;
      executed := 0;
      current := None;
      history := [];
    }

    /** `cursor.execute(sql)`: `err` is the message of the exception raised. */
    method Execute(sql: string) returns (err: Option<string>)
      requires Valid()
      modifies this
      ensures Valid()
      ensures old(state) == InFailedTransaction ==>
                && err == Some(AbortedMessage) && state == InFailedTransaction
                && executed == old(executed) && current == old(current)
                && history == old(history) + [Executed(sql, false)]
      ensures old(state) != InFailedTransaction ==>
                var reply := server(old(executed), sql);
                && executed == old(executed) + 1 && current == Some(reply)
                && err == (if reply.ExecFailed? then Some(reply.message) else None)
                && history == old(history) + [Executed(sql, reply.Done?)]
    {
      var ok: bool;
      if state == InFailedTransaction {
        err, ok := Some(AbortedMessage), false;
      } else {
        var reply := server(executed, sql);
        executed := executed + 1;
        current := Some(reply);
        ok := reply.Done?;
        err := if reply.ExecFailed? then Some(reply.message) else None;
      }
      ReplayAppend(Idle, history, Executed(sql, ok));
      history := history + [Executed(sql, ok)];
      state := Step(state, Executed(sql, ok));
    }

    /** `cursor.fetchall()` on the last statement's result. */
    method FetchAll() returns (r: FetchResult)
      requires Valid()
      modifies this
      ensures Valid()
      ensures r == FetchOf(current)
      ensures state == old(state) && executed == old(executed) && current == old(current)
      ensures history == old(history) + [FetchedAll]
    {
      r := FetchOf(current);
      ReplayAppend(Idle, history, FetchedAll);
      history := history + [FetchedAll];
    }

    /** `connection.commit()`: ends the transaction; `err` is the message
        when the server refuses the commit (the transaction is then rolled
        back by the server). */
    method Commit() returns (err: Option<string>)
      requires Valid()
      modifies this
      ensures Valid()
      ensures err == CommitErrorOf(old(state), old(current))
      ensures state == Idle && current == None && executed == old(executed)
      ensures history == old(history) + [Committed]
    {
      err := CommitErrorOf(state, current);
      ReplayAppend(Idle, history, Committed);
      history := history + [Committed];
      state := Idle;
      current := None;
    }

    /** `connection.rollback()`. */
    method Rollback()
      requires Valid()
      modifies this
      ensures Valid()
      ensures state == Idle && current == None && executed == old(executed)
      ensures history == old(history) + [RolledBack]
    {
      ReplayAppend(Idle, history, RolledBack);
      history := history + [RolledBack];
      state := Idle;
      current := None;
    }
  }

  /** What `fetchall` sees for the reply to the last statement. */
  function FetchOf(current: Option<Reply>): (r: FetchResult)
    ensures r.Fetched? <==> current.Some? && current.value.Done? && current.value.fetch.ResultSet?
    ensures r.DatabaseError? <==> current.Some? && current.value.Done? && current.value.fetch.FetchFailed?
  {
    if current.Some? && current.value.Done? then
      match current.value.fetch
      case ResultSet(rows) => Fetched(rows)
      case NoResultSet => ProgrammingError(NoResultsMessage)
      case FetchFailed(m) => DatabaseError(m)
    else ProgrammingError(NoResultsMessage)
  }

  /** A commit fails only inside a transaction whose statement the server
      says cannot be committed; committing an aborted transaction rolls it
      back without an error. */
  function CommitErrorOf(s: TxnState, current: Option<Reply>): (r: Option<string>)
    ensures r.Some? ==> s == InTransaction
  {
    if s == InTransaction && current.Some? && current.value.Done? then current.value.commitError
    else None
  }

  // ---------------------------------------------------------------------------
  // execute_query
  // ---------------------------------------------------------------------------

  /** The value `execute_query` returns: rows on success, the exception's
      message on failure. */
  datatype QueryResult = QueryResult(rows: Option<seq<Row>>, error: Option<string>)

  /** What `execute_query` returns when the session is in state `s` and the
      server would answer `reply` to the statement. */
  function QueryOutcome(s: TxnState, reply: Reply): (r: QueryResult)
    ensures r.rows.Some? <==> r.error.None?
    ensures s == InFailedTransaction ==> r == QueryResult(None, Some(AbortedMessage))
    ensures s != InFailedTransaction && reply.ExecFailed? ==> r == QueryResult(None, Some(reply.message))
    ensures s != InFailedTransaction && reply.Done? ==>
              match reply.fetch
              case FetchFailed(m) => r == QueryResult(None, Some(m))
              case _ => r.error == reply.commitError
  {
    if s == InFailedTransaction then QueryResult(None, Some(AbortedMessage))
    else match reply
      case ExecFailed(m) => QueryResult(None, Some(m))
      case Done(fetch, commitError) =>
        match fetch
        case FetchFailed(m) => QueryResult(None, Some(m))
        case ResultSet(rows) => AfterCommit(rows, commitError)
        case NoResultSet => AfterCommit([], commitError)
  }

  /** The result once the rows are fetched and the commit is attempted. */
  function AfterCommit(rows: seq<Row>, commitError: Option<string>): (r: QueryResult)
    ensures r.error == commitError && (r.rows.Some? <==> commitError.None?)
  {
    if commitError.Some? then QueryResult(None, commitError) else QueryResult(Some(rows), None)
  }

  /** The calls `execute_query` makes on the session. */
  function QueryTrace(s: TxnState, reply: Reply, sql: string): (t: seq<Event>)
    ensures |t| >= 2 && t[0].Executed? && t[0].sql == sql
  {
    if s == InFailedTransaction then [Executed(sql, false), RolledBack]
    else match reply
      case ExecFailed(_) => [Executed(sql, false), RolledBack]
      case Done(fetch, commitError) =>
        if fetch.FetchFailed? then [Executed(sql, true), FetchedAll, RolledBack]
        else if commitError.Some? then [Executed(sql, true), FetchedAll, Committed, RolledBack]
        else [Executed(sql, true), FetchedAll, Committed]
  }

  /** The statements the server has received once a query is run from
      state `s`: an aborted transaction keeps the statement from it. */
  function StatementsAfter(s: TxnState, n: nat): (m: nat)
    ensures m == n || m == n + 1
  {
    if s == InFailedTransaction then n else n + 1
  }

  /** `execute_query(cur, conn, sql)`. */
  method ExecuteQuery(session: Session, sql: string) returns (result: QueryResult)
    requires session.Valid()
    modifies session
    ensures session.Valid()
    ensures var reply := session.server(old(session.executed), sql);
            && result == QueryOutcome(old(session.state), reply)
            && session.history == old(session.history) + QueryTrace(old(session.state), reply, sql)
    ensures session.state == Idle && session.current == None
    ensures session.executed == StatementsAfter(old(session.state), old(session.executed))
  {
    ghost var h := session.history;
    var reply := session.server(session.executed, sql);
    var err := session.Execute(sql);
    if err.Some? {
      session.Rollback();
      Snoc2(h, Executed(sql, false), RolledBack);
      return QueryResult(None, err);
    }
    var fetched := session.FetchAll();
    var rows: seq<Row>;
    match fetched {
      case Fetched(rs) => rows := rs;
      case ProgrammingError(_) => rows := [];
      case DatabaseError(m) =>
        session.Rollback();
        Snoc3(h, Executed(sql, true), FetchedAll, RolledBack);
        return QueryResult(None, Some(m));
    }
    var commitErr := session.Commit();
    if commitErr.Some? {
      session.Rollback();
      Snoc4(h, Executed(sql, true), FetchedAll, Committed, RolledBack);
      return QueryResult(None, commitErr);
    }
    Snoc3(h, Executed(sql, true), FetchedAll, Committed);
    result := QueryResult(Some(rows), None);
  }

  lemma Snoc2(h: seq<Event>, a: Event, b: Event)
    ensures h + [a] + [b] == h + [a, b]
  {
  }

  lemma Snoc3(h: seq<Event>, a: Event, b: Event, c: Event)
    ensures h + [a] + [b] + [c] == h + [a, b, c]
  {
  }

  lemma Snoc4(h: seq<Event>, a: Event, b: Event, c: Event, d: Event)
    ensures h + [a] + [b] + [c] + [d] == h + [a, b, c, d]
  {
  }

  // ---------------------------------------------------------------------------
  // Properties of the protocol
  // ---------------------------------------------------------------------------

  /** Whatever the server does, `execute_query` leaves no transaction open. */
  lemma QueryEndsIdle(s: TxnState, reply: Reply, sql: string)
    ensures Replay(s, QueryTrace(s, reply, sql)) == Idle
  {
    var t := QueryTrace(s, reply, sql);
    assert t == t[..|t| - 1] + [t[|t| - 1]];
    ReplayAppend(s, t[..|t| - 1], t[|t| - 1]);
  }

  /** Success is exactly the case whose last call is a commit; every
      failure ends with a rollback. */
  lemma CommitIffSuccess(s: TxnState, reply: Reply, sql: string)
    ensures var t := QueryTrace(s, reply, sql);
            && (t[|t| - 1] == Committed <==> QueryOutcome(s, reply).error.None?)
            && (t[|t| - 1] == RolledBack <==> QueryOutcome(s, reply).error.Some?)
  {
  }

  /** A statement that succeeds without a result set (fetchall raising
      ProgrammingError) and commits yields an empty row list. */
  lemma NoResultSetGivesEmptyRows(reply: Reply)
    requires reply == Done(NoResultSet, None)
    ensures QueryOutcome(Idle, reply) == QueryResult(Some([]), None)
  {
  }

  /** Inside an aborted transaction the statement is refused with the
      aborted message whatever the server function would reply. */
  lemma AbortedSessionFailsFast(reply: Reply, sql: string)
    ensures QueryOutcome(InFailedTransaction, reply) == QueryResult(None, Some(AbortedMessage))
    ensures QueryTrace(InFailedTransaction, reply, sql) == [Executed(sql, false), RolledBack]
  {
  }

  /** Since every query ends idle, a session used only through
      `execute_query` is idle before each query, so the aborted-transaction
      case never arises. */
  lemma QueriesKeepSessionIdle(h: seq<Event>, s: TxnState, reply: Reply, sql: string)
    requires Replay(Idle, h) == s
    ensures Replay(Idle, h + QueryTrace(s, reply, sql)) == Idle
  {
    ReplayConcat(Idle, h, QueryTrace(s, reply, sql));
    QueryEndsIdle(s, reply, sql);
  }
}
