/** The database side of both workers as a trace of calls: connect, open a
    cursor, execute one INSERT, commit. SQL semantics are not modelled; what
    matters is which calls are attempted, in which order, and where a raised
    exception stops the sequence. */
module Database {

  import opened Wrappers
  import opened Json

  /** An `INSERT INTO table (columns) VALUES (%s, ...)` statement, reduced to
      what decides whether the driver accepts it. */
  datatype Insert = Insert(table: string, columns: seq<string>, placeholders: nat)

  datatype DbCall = ConnectCall | CursorCall | ExecuteCall | CommitCall

  /** Observable effects of a handler, oldest first. A call that raises is
      still recorded: it was attempted. */
  datatype Effect =
    | Connect
    | OpenCursor
    | Execute(stmt: Insert, params: seq<Json>)
    | Commit
    | Notify(body: Json)
    | CloseCursor
    | CloseConn

  /** A value mysql-connector can convert to SQL: None, a boolean, a number
      or a string. It has no conversion for a list or a dict and raises
      ProgrammingError at `execute`. */
  predicate Bindable(v: Json)
  {
    !v.JArr? && !v.JObj?
  }

  predicate AllBindable(params: seq<Json>)
  {
    forall i :: 0 <= i < |params| ==> Bindable(params[i])
  }

  /** The driver binds one parameter per `%s`, each of a convertible type,
      and raises otherwise; the server then needs one value per named
      column. */
  predicate Accepts(stmt: Insert, params: seq<Json>)
  {
    stmt.placeholders == |params| && |stmt.columns| == stmt.placeholders && AllBindable(params)
  }

  /** The calls of a transaction that goes through. */
  function Calls(stmt: Insert, params: seq<Json>): seq<Effect>
  {
    [Connect, OpenCursor, Execute(stmt, params), Commit]
  }

  function Position(c: DbCall): nat
  {
    match c
    case ConnectCall => 0
    case CursorCall => 1
    case ExecuteCall => 2
    case CommitCall => 3
  }

  /** `connect()`, `cursor()`, `execute(stmt, params)`, `commit()`. `down`
      says which calls the server or the network makes raise; execute also
      raises when the driver does not accept the statement and its
      parameters. The result names
      the call that raised, if any. */
  function Transaction(stmt: Insert, params: seq<Json>, down: DbCall -> bool): (r: (Option<DbCall>, seq<Effect>))
    ensures r.0.None? <==>
      !down(ConnectCall) && !down(CursorCall) && !down(ExecuteCall) && Accepts(stmt, params) && !down(CommitCall)
    ensures r.0.None? ==> r.1 == Calls(stmt, params)
    ensures r.0.Some? ==> r.1 == Calls(stmt, params)[..Position(r.0.value) + 1]
    ensures r.0 == Some(ExecuteCall) <==>
      !down(ConnectCall) && !down(CursorCall) && (down(ExecuteCall) || !Accepts(stmt, params))
  {
    var all := Calls(stmt, params);
    if down(ConnectCall) then (Some(ConnectCall), all[..1])
    else if down(CursorCall) then (Some(CursorCall), all[..2])
    else if down(ExecuteCall) || !Accepts(stmt, params) then (Some(ExecuteCall), all[..3])
    else if down(CommitCall) then (Some(CommitCall), all)
    else (None, all)
  }

  /** A transaction that raises has connected (unless connect itself raised)
      and has not committed. */
  lemma FailedTransaction(stmt: Insert, params: seq<Json>, down: DbCall -> bool)
    requires Transaction(stmt, params, down).0.Some?
    ensures var r := Transaction(stmt, params, down);
      && |r.1| > 0 && r.1[0] == Connect
      && (r.0 != Some(CommitCall) ==> Commit !in r.1)
      && (forall e | e in r.1 :: !e.Notify? && e != CloseCursor && e != CloseConn)
  {
  }
}
