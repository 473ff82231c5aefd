/** `on_message` of the plain worker: decode the envelope, skip a message
    without a usable node, build the ten-value row and store it with one
    INSERT and a commit. Every exception is caught inside the handler. */
module PlainWorker {

  import opened Wrappers
  import opened Json
  import opened Telemetry
  import opened Database

  const COLUMNS: seq<string> :=
    ["node_id", "timestamp", "temperature", "humidity", "flame", "smoke",
     "latitude", "longitude", "rssi", "snr"]

  /** The INSERT into sensor_readings: ten columns, ten placeholders. */
  const INSERT: Insert := Insert("sensor_readings", COLUMNS, 10)

  /** The row tuple, in the order the handler writes it. */
  function Row(r: Reading): (row: seq<Json>)
    ensures |row| == |COLUMNS|
    ensures forall i :: 0 <= i < |COLUMNS| ==> Column(r, COLUMNS[i]) == Some(row[i])
  {
    [r.node, r.receivedAt, r.temp, r.hum, r.flame, r.smoke, r.lat, r.lon, r.rssi, r.snr]
  }

  /** Where the handler stopped. */
  datatype Stage = Decode | FieldAccess | Db(call: DbCall)

  datatype Handled = Skipped | Failed(stage: Stage) | Stored(row: seq<Json>)

  /** One message. `data` is `json.loads(msg.payload.decode())`, `None` when
      either raises; `down` says which database calls raise. The result is
      what the handler did and the effects it had, in order. */
  function OnMessage(data: Option<Json>, down: DbCall -> bool): (r: (Handled, seq<Effect>))
    ensures r.0.Stored? <==>
      data.Some? && Extract(data.value).Extracted?
      && Transaction(INSERT, Row(Extract(data.value).reading), down).0.None?
    ensures r.0.Stored? ==> r.0.row == Row(Extract(data.value).reading)
    ensures r.0.Skipped? <==> data.Some? && Extract(data.value).Skip?
    ensures r.0 == Failed(Decode) <==> data.None?
    ensures r.0 == Failed(FieldAccess) <==> data.Some? && Extract(data.value).Raised?
  {
    match data
    case None => (Failed(Decode), [])
    case Some(wrapper) =>
      match Extract(wrapper)
      case Raised => (Failed(FieldAccess), [])
      case Skip => (Skipped, [])
      case Extracted(reading) =>
        var row := Row(reading);
        var (failed, effects) := Transaction(INSERT, row, down);
        if failed.Some? then (Failed(Db(failed.value)), effects)
        else (Stored(row), effects + [CloseCursor, CloseConn])
  }

  /** The statement has as many placeholders as there are columns and row
      values, so the driver accepts a row exactly when it can convert each
      of its values. */
  lemma InsertAcceptsRows(r: Reading)
    ensures Accepts(INSERT, Row(r)) <==> forall i :: 0 <= i < |COLUMNS| ==> Bindable(Row(r)[i])
  {
  }

  /** A field holding a list or a dict (a truthy dict `node`, say) reaches
      `execute`, which raises: the handler has connected and opened a cursor,
      commits nothing and closes nothing. */
  lemma UnbindableFailsAtExecute(wrapper: Json, down: DbCall -> bool, i: nat)
    requires Extract(wrapper).Extracted? && i < |COLUMNS|
    requires !Bindable(Row(Extract(wrapper).reading)[i])
    requires !down(ConnectCall) && !down(CursorCall)
    ensures var row := Row(Extract(wrapper).reading);
      OnMessage(Some(wrapper), down) == (Failed(Db(ExecuteCall)), [Connect, OpenCursor, Execute(INSERT, row)])
  {
    var row := Row(Extract(wrapper).reading);
    assert !Accepts(INSERT, row);
    assert Calls(INSERT, row)[..3] == [Connect, OpenCursor, Execute(INSERT, row)];
  }

  /** The message `{"payload": {"node": "N1", "temp": [1]}}` is not stored. */
  lemma ListTemperatureNotStored(down: DbCall -> bool)
    requires !down(ConnectCall) && !down(CursorCall)
    ensures var wrapper := JObj(map["payload" := JObj(map["node" := JStr("N1"), "temp" := JArr([JNum(1.0)])])]);
      OnMessage(Some(wrapper), down).0 == Failed(Db(ExecuteCall))
  {
    var wrapper := JObj(map["payload" := JObj(map["node" := JStr("N1"), "temp" := JArr([JNum(1.0)])])]);
    assert Extract(wrapper).Extracted?;
    assert Row(Extract(wrapper).reading)[2] == JArr([JNum(1.0)]);
    UnbindableFailsAtExecute(wrapper, down, 2);
  }

  /** Each row value is the message field that its column names. */
  lemma RowFollowsColumns(wrapper: Json, i: nat)
    requires Extract(wrapper).Extracted? && i < |COLUMNS|
    ensures ColumnOrigin(COLUMNS[i]).Some?
    ensures Row(Extract(wrapper).reading)[i]
      == Lookup(wrapper.fields, wrapper.fields["payload"].fields, ColumnOrigin(COLUMNS[i]).value)
  {
    var r := Extract(wrapper).reading;
    assert Column(r, COLUMNS[i]) == Some(Row(r)[i]);
    ExtractFollowsOrigins(wrapper, COLUMNS[i]);
  }

  /** A message that is skipped or fails before the row exists touches no
      database: the row is built before `connect`. */
  lemma NoRowNoConnection(data: Option<Json>, down: DbCall -> bool)
    requires data.None? || !Extract(data.value).Extracted?
    ensures OnMessage(data, down).1 == []
  {
  }

  /** With a reachable database and a row the driver can convert, the
      handler connects, inserts the row, commits and closes the cursor and
      then the connection. */
  lemma StoredEffects(wrapper: Json, down: DbCall -> bool)
    requires Extract(wrapper).Extracted?
    requires AllBindable(Row(Extract(wrapper).reading))
    requires !down(ConnectCall) && !down(CursorCall) && !down(ExecuteCall) && !down(CommitCall)
    ensures var row := Row(Extract(wrapper).reading);
      OnMessage(Some(wrapper), down)
      == (Stored(row), [Connect, OpenCursor, Execute(INSERT, row), Commit, CloseCursor, CloseConn])
  {
    var row := Row(Extract(wrapper).reading);
    InsertAcceptsRows(Extract(wrapper).reading);
    assert Transaction(INSERT, row, down) == (None, Calls(INSERT, row));
    assert OnMessage(Some(wrapper), down) == (Stored(row), Calls(INSERT, row) + [CloseCursor, CloseConn]);
    assert Calls(INSERT, row) + [CloseCursor, CloseConn]
      == [Connect, OpenCursor, Execute(INSERT, row), Commit, CloseCursor, CloseConn];
  }

  /** A database call that raises ends the handler there: the effects are a
      prefix of the successful ones, nothing is committed after it, and
      neither the cursor nor the connection is closed (there is no
      `finally`), so a connection once opened is left open. */
  lemma FailureLeavesConnectionOpen(wrapper: Json, down: DbCall -> bool)
    requires Extract(wrapper).Extracted?
    requires OnMessage(Some(wrapper), down).0.Failed?
    ensures var row := Row(Extract(wrapper).reading);
      var (h, effects) := OnMessage(Some(wrapper), down);
      && h.stage.Db?
      && effects == Calls(INSERT, row)[..Position(h.stage.call) + 1]
      && CloseCursor !in effects && CloseConn !in effects
  {
    var row := Row(Extract(wrapper).reading);
    FailedTransaction(INSERT, row, down);
  }
}
