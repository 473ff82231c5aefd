/** `on_message` of the ML worker: the same extraction as the plain worker,
    a fire classification of the reading, an INSERT of the reading with the
    prediction and its confidence, a commit, then a best-effort notification of
    the API, with the cursor and connection closed whether or not the
    notification goes through.

    The INSERT as the handler writes it names 13 columns but has only 11
    placeholders while 13 parameters are passed; the driver raises at
    `execute`, the outer `except` swallows it, and nothing is ever committed
    or notified. `Handle` is parametric in the statement: `OnMessageAsWritten`
    uses the statement as written, `OnMessage` the one with 13 placeholders. */
module AiWorker {

  import opened Wrappers
  import opened Json
  import opened Telemetry
  import opened Database

  // ---------------------------------------------------------------------
  // Feature vector

  /** The classifier's input columns, in the order the frame lists them. */
  const FEATURE_COLUMNS: seq<string> := ["smoke", "temperature", "flame", "humidity"]

  /** `[[smoke, temp, flame, hum]]`, the one row of the input frame. */
  function Features(r: Reading): (f: seq<Json>)
    ensures |f| == |FEATURE_COLUMNS|
    ensures forall i :: 0 <= i < |FEATURE_COLUMNS| ==> Column(r, FEATURE_COLUMNS[i]) == Some(f[i])
  {
    [r.smoke, r.temp, r.flame, r.hum]
  }

  /** Each feature is the message field its column names (smoke and flame
      defaulting to 0 when absent). */
  lemma FeaturesFollowColumns(wrapper: Json, i: nat)
    requires Extract(wrapper).Extracted? && i < |FEATURE_COLUMNS|
    ensures ColumnOrigin(FEATURE_COLUMNS[i]).Some?
    ensures Features(Extract(wrapper).reading)[i]
      == Lookup(wrapper.fields, wrapper.fields["payload"].fields, ColumnOrigin(FEATURE_COLUMNS[i]).value)
  {
    var r := Extract(wrapper).reading;
    assert Column(r, FEATURE_COLUMNS[i]) == Some(Features(r)[i]);
    ExtractFollowsOrigins(wrapper, FEATURE_COLUMNS[i]);
  }

  /** A node reporting smoke 920, 52.3 degrees, flame 1 and 25 % humidity is
      classified on the vector [920, 52.3, 1, 25]. */
  lemma FeaturesExample()
    ensures var payload := JObj(map["node" := JStr("N1"), "smoke" := JNum(920.0), "temp" := JNum(52.3),
                                    "flame" := JNum(1.0), "hum" := JNum(25.0)]);
      var wrapper := JObj(map["payload" := payload]);
      && Extract(wrapper).Extracted?
      && Features(Extract(wrapper).reading) == [JNum(920.0), JNum(52.3), JNum(1.0), JNum(25.0)]
  {
    var payload := JObj(map["node" := JStr("N1"), "smoke" := JNum(920.0), "temp" := JNum(52.3),
                            "flame" := JNum(1.0), "hum" := JNum(25.0)]);
    var wrapper := JObj(map["payload" := payload]);
    assert JStr("N1").s == "N1";
    assert Truthy(JStr("N1"));
  }

  // ---------------------------------------------------------------------
  // Label selection

  /** `np.argmax`: the first index holding the maximum. */
  function ArgMax(p: seq<real>): (i: nat)
    requires |p| > 0
    ensures i < |p|
    ensures forall j :: 0 <= j < |p| ==> p[j] <= p[i]
    ensures forall j :: 0 <= j < i ==> p[j] < p[i]
  {
    if |p| == 1 then 0
    else
      var k := ArgMax(p[..|p| - 1]);
      if p[|p| - 1] > p[k] then |p| - 1 else k
  }

  /** `np.max`. */
  function Max(p: seq<real>): real
    requires |p| > 0
  {
    if |p| == 1 then p[0]
    else
      var m := Max(p[..|p| - 1]);
      if p[|p| - 1] > m then p[|p| - 1] else m
  }

  /** The maximum is an element and bounds every element. */
  lemma {:induction false} MaxIsMaximum(p: seq<real>)
    requires |p| > 0
    ensures Max(p) in p
    ensures forall j :: 0 <= j < |p| ==> p[j] <= Max(p)
  {
    if |p| > 1 {
      var q := p[..|p| - 1];
      MaxIsMaximum(q);
      assert forall j :: 0 <= j < |q| ==> p[j] == q[j];
    }
  }

  /** The confidence is the probability of the selected prediction. */
  lemma ConfidenceIsArgMaxValue(p: seq<real>)
    requires |p| > 0
    ensures p[ArgMax(p)] == Max(p)
  {
    MaxIsMaximum(p);
  }

  /** `class_names[np.argmax(p)]` and `float(np.max(p))`. An empty
      probability vector makes argmax raise; an index past the class list
      raises IndexError. `predict` stands for `scaler.transform` followed by
      `model.predict_proba(...)[0]`, `None` when either raises (a missing
      model file included). */
  function Infer(features: seq<Json>, predict: seq<Json> -> Option<seq<real>>,
                 classNames: seq<string>): (r: Option<(string, real)>)
    ensures r.Some? <==>
      predict(features).Some? && |predict(features).value| > 0
      && ArgMax(predict(features).value) < |classNames|
    ensures r.Some? ==>
      var p := predict(features).value;
      && r.value.0 == classNames[ArgMax(p)]
      && r.value.1 == Max(p)
      && (forall j :: 0 <= j < |p| ==> p[j] <= r.value.1)
  {
    match predict(features)
    case None => None
    case Some(p) =>
      if |p| == 0 then None
      else
        var i := ArgMax(p);
        ConfidenceIsArgMaxValue(p);
        if i < |classNames| then Some((classNames[i], p[i])) else None
  }

  // ---------------------------------------------------------------------
  // Storage and notification

  const COLUMNS: seq<string> :=
    ["node_id", "timestamp", "local_timestamp", "temperature", "humidity", "flame", "smoke",
     "latitude", "longitude", "rssi", "snr", "ai_prediction", "confidence"]

  /** The statement as written: 13 columns, 11 placeholders. */
  const WRITTEN_INSERT: Insert := Insert("sensor_readings", COLUMNS, 11)

  /** The evidently intended statement: one placeholder per column. */
  const INSERT: Insert := Insert("sensor_readings", COLUMNS, 13)

  /** The parameter tuple: the reading, the gateway time twice, the prediction and
      the confidence. */
  function Params(r: Reading, prediction: string, confidence: real): (ps: seq<Json>)
    ensures |ps| == |COLUMNS|
    ensures forall i :: 0 <= i < |COLUMNS| - 2 ==> Column(r, COLUMNS[i]) == Some(ps[i])
    ensures ps[|COLUMNS| - 2] == JStr(prediction) && ps[|COLUMNS| - 1] == JNum(confidence)
  {
    [r.node, r.receivedAt, r.receivedAt, r.temp, r.hum, r.flame, r.smoke, r.lat, r.lon,
     r.rssi, r.snr, JStr(prediction), JNum(confidence)]
  }

  /** Every parameter but the last two is the message field its column
      names; both time columns hold the gateway's `received_at`. */
  lemma ParamsFollowColumns(wrapper: Json, prediction: string, confidence: real, i: nat)
    requires Extract(wrapper).Extracted? && i < |COLUMNS| - 2
    ensures ColumnOrigin(COLUMNS[i]).Some?
    ensures Params(Extract(wrapper).reading, prediction, confidence)[i]
      == Lookup(wrapper.fields, wrapper.fields["payload"].fields, ColumnOrigin(COLUMNS[i]).value)
    ensures var ps := Params(Extract(wrapper).reading, prediction, confidence);
      ps[1] == ps[2] == (if "received_at" in wrapper.fields then wrapper.fields["received_at"] else JNull)
  {
    var r := Extract(wrapper).reading;
    assert Column(r, COLUMNS[i]) == Some(Params(r, prediction, confidence)[i]);
    ExtractFollowsOrigins(wrapper, COLUMNS[i]);
    ExtractFollowsOrigins(wrapper, "timestamp");
  }

  /** The body posted to the API: every stored column except
      `local_timestamp`, the confidence rendered by `percent` (the
      `f"{confidence*100:.2f}%"` formatting). */
  function NewReading(r: Reading, prediction: string, confidence: real, percent: real -> string): (body: Json)
    ensures body.JObj? && body.fields.Keys == NOTIFIED_KEYS
    ensures "gateway_id" !in body.fields
  {
    var fields := map[
      "node_id" := r.node, "timestamp" := r.receivedAt,
      "temperature" := r.temp, "humidity" := r.hum,
      "flame" := r.flame, "smoke" := r.smoke,
      "latitude" := r.lat, "longitude" := r.lon,
      "rssi" := r.rssi, "snr" := r.snr,
      "ai_prediction" := JStr(prediction), "confidence" := JStr(percent(confidence))];
    assert fields.Keys == NOTIFIED_KEYS;
    NoGatewayKey();
    JObj(fields)
  }

  /** Each key of the notification (the stored columns other than
      `local_timestamp`, by `NewReading`'s contract) carries the value stored
      for it, apart from the confidence, which is sent as text. */
  lemma NewReadingMatchesRow(r: Reading, prediction: string, confidence: real, percent: real -> string)
    ensures var body := NewReading(r, prediction, confidence, percent);
      var ps := Params(r, prediction, confidence);
      forall i :: 0 <= i < |COLUMNS| - 1 && i != 2 ==> body.fields[COLUMNS[i]] == ps[i]
  {
    var body := NewReading(r, prediction, confidence, percent);
    var ps := Params(r, prediction, confidence);
    forall i | 0 <= i < |COLUMNS| - 1 && i != 2
      ensures body.fields[COLUMNS[i]] == ps[i]
    {
      assert COLUMNS[i] in body.fields;
    }
  }

  const NOTIFIED_KEYS: set<string> :=
    {"node_id", "timestamp", "temperature", "humidity", "flame", "smoke",
     "latitude", "longitude", "rssi", "snr", "ai_prediction", "confidence"}

  /** The notification names no gateway. */
  lemma NoGatewayKey()
    ensures "gateway_id" !in NOTIFIED_KEYS
  {
  }

  /** The stored columns other than `local_timestamp`, written out. */
  lemma ColumnKeys()
    ensures (set c | c in COLUMNS && c != "local_timestamp") == NOTIFIED_KEYS
  {
    forall c | c in COLUMNS && c != "local_timestamp"
      ensures c in NOTIFIED_KEYS
    {
    }
  }

  datatype Stage = Decode | FieldAccess | Inference | Db(call: DbCall)

  datatype Handled = Skipped | Failed(stage: Stage) | Stored(params: seq<Json>)

  /** One message with INSERT statement `stmt`. The notification is a single
      attempt whose failure is caught and printed: it changes neither the
      result nor the closing calls, so it is not a parameter. */
  function Handle(stmt: Insert, data: Option<Json>, predict: seq<Json> -> Option<seq<real>>,
                  classNames: seq<string>, percent: real -> string, down: DbCall -> bool): (r: (Handled, seq<Effect>))
    ensures r.0.Skipped? <==> data.Some? && Extract(data.value).Skip?
    ensures r.0 == Failed(Decode) <==> data.None?
    ensures r.0 == Failed(FieldAccess) <==> data.Some? && Extract(data.value).Raised?
    ensures r.0 == Failed(Inference) <==>
      data.Some? && Extract(data.value).Extracted?
      && Infer(Features(Extract(data.value).reading), predict, classNames).None?
  {
    match data
    case None => (Failed(Decode), [])
    case Some(wrapper) =>
      match Extract(wrapper)
      case Raised => (Failed(FieldAccess), [])
      case Skip => (Skipped, [])
      case Extracted(reading) =>
        match Infer(Features(reading), predict, classNames)
        case None => (Failed(Inference), [])
        case Some((prediction, confidence)) =>
          var params := Params(reading, prediction, confidence);
          var (failed, effects) := Transaction(stmt, params, down);
          if failed.Some? then (Failed(Db(failed.value)), effects)
          else (Stored(params),
                effects + [Notify(NewReading(reading, prediction, confidence, percent)), CloseCursor, CloseConn])
  }

  /** The handler as written. */
  function OnMessageAsWritten(data: Option<Json>, predict: seq<Json> -> Option<seq<real>>,
                              classNames: seq<string>, percent: real -> string,
                              down: DbCall -> bool): (r: (Handled, seq<Effect>))
    ensures !r.0.Stored?
  {
    WrittenInsertNeverStores(data, predict, classNames, percent, down);
    Handle(WRITTEN_INSERT, data, predict, classNames, percent, down)
  }

  /** The message decodes, has a usable node, is classified, and the
      parameters it reaches `execute` with are all convertible. */
  predicate Insertable(data: Option<Json>, predict: seq<Json> -> Option<seq<real>>, classNames: seq<string>)
  {
    && data.Some? && Extract(data.value).Extracted?
    && var reading := Extract(data.value).reading;
       var inferred := Infer(Features(reading), predict, classNames);
       inferred.Some? && AllBindable(Params(reading, inferred.value.0, inferred.value.1))
  }

  /** The handler with the corrected statement. */
  function OnMessage(data: Option<Json>, predict: seq<Json> -> Option<seq<real>>,
                     classNames: seq<string>, percent: real -> string,
                     down: DbCall -> bool): (r: (Handled, seq<Effect>))
    ensures r.0.Stored? ==> Accepts(INSERT, r.0.params)
    ensures r.0.Stored? <==>
      Insertable(data, predict, classNames)
      && !down(ConnectCall) && !down(CursorCall) && !down(ExecuteCall) && !down(CommitCall)
  {
    if data.Some? && Extract(data.value).Extracted?
       && Infer(Features(Extract(data.value).reading), predict, classNames).Some?
    then
      var inferred := Infer(Features(Extract(data.value).reading), predict, classNames).value;
      WrittenInsertRefused(Extract(data.value).reading, inferred.0, inferred.1);
      Handle(INSERT, data, predict, classNames, percent, down)
    else
      Handle(INSERT, data, predict, classNames, percent, down)
  }

  /** The written statement is refused for every parameter tuple the
      handler can pass: its 11 placeholders match neither the 13 columns nor
      the 13 parameters. The corrected one is refused only for a value the
      driver cannot convert. */
  lemma WrittenInsertRefused(r: Reading, prediction: string, confidence: real)
    ensures !Accepts(WRITTEN_INSERT, Params(r, prediction, confidence))
    ensures Accepts(INSERT, Params(r, prediction, confidence)) <==> AllBindable(Params(r, prediction, confidence))
  {
  }

  /** As written, no message is ever committed or notified: whatever the
      message, the classifier and the database, `execute` raises at the
      latest, so the effects hold no Commit and no Notify. */
  lemma WrittenInsertNeverStores(data: Option<Json>, predict: seq<Json> -> Option<seq<real>>,
                                 classNames: seq<string>, percent: real -> string, down: DbCall -> bool)
    ensures var (h, effects) := Handle(WRITTEN_INSERT, data, predict, classNames, percent, down);
      && !h.Stored?
      && Commit !in effects
      && (forall e | e in effects :: !e.Notify?)
      && CloseConn !in effects
  {
    if data.Some? && Extract(data.value).Extracted? {
      var reading := Extract(data.value).reading;
      var inferred := Infer(Features(reading), predict, classNames);
      if inferred.Some? {
        var (prediction, confidence) := inferred.value;
        var params := Params(reading, prediction, confidence);
        WrittenInsertRefused(reading, prediction, confidence);
        assert Transaction(WRITTEN_INSERT, params, down).0.Some?;
        FailedTransaction(WRITTEN_INSERT, params, down);
      }
    }
  }

  /** A message skipped, failing a lookup or failing classification returns
      before `connect`, whatever the statement: no database call and no
      notification, in the handler as written and in the corrected one. */
  lemma EarlyReturnTouchesNothing(stmt: Insert, data: Option<Json>, predict: seq<Json> -> Option<seq<real>>,
                                  classNames: seq<string>, percent: real -> string, down: DbCall -> bool)
    requires data.None? || !Extract(data.value).Extracted?
             || Infer(Features(Extract(data.value).reading), predict, classNames).None?
    ensures Handle(stmt, data, predict, classNames, percent, down).1 == []
    ensures OnMessageAsWritten(data, predict, classNames, percent, down).1 == []
    ensures OnMessage(data, predict, classNames, percent, down).1 == []
  {
  }

  /** With the corrected statement, convertible values and a reachable
      database: connect, open a
      cursor, insert, commit, notify, close the cursor, close the connection,
      in that order; the stored prediction is the class of the first most probable
      index and the confidence its probability. */
  lemma CorrectedOrder(wrapper: Json, predict: seq<Json> -> Option<seq<real>>,
                       classNames: seq<string>, percent: real -> string, down: DbCall -> bool)
    requires Extract(wrapper).Extracted?
    requires Infer(Features(Extract(wrapper).reading), predict, classNames).Some?
    requires var reading := Extract(wrapper).reading;
      var p := predict(Features(reading)).value;
      AllBindable(Params(reading, classNames[ArgMax(p)], p[ArgMax(p)]))
    requires !down(ConnectCall) && !down(CursorCall) && !down(ExecuteCall) && !down(CommitCall)
    ensures var reading := Extract(wrapper).reading;
      var p := predict(Features(reading)).value;
      var prediction, confidence := classNames[ArgMax(p)], p[ArgMax(p)];
      var params := Params(reading, prediction, confidence);
      OnMessage(Some(wrapper), predict, classNames, percent, down)
      == (Stored(params),
          [Connect, OpenCursor, Execute(INSERT, params), Commit,
           Notify(NewReading(reading, prediction, confidence, percent)), CloseCursor, CloseConn])
  {
    var reading := Extract(wrapper).reading;
    var p := predict(Features(reading)).value;
    ConfidenceIsArgMaxValue(p);
    var prediction, confidence := classNames[ArgMax(p)], p[ArgMax(p)];
    var params := Params(reading, prediction, confidence);
    WrittenInsertRefused(reading, prediction, confidence);
    assert Transaction(INSERT, params, down) == (None, Calls(INSERT, params));
    var body := NewReading(reading, prediction, confidence, percent);
    assert OnMessage(Some(wrapper), predict, classNames, percent, down)
      == (Stored(params), Calls(INSERT, params) + [Notify(body), CloseCursor, CloseConn]);
    assert Calls(INSERT, params) + [Notify(body), CloseCursor, CloseConn]
      == [Connect, OpenCursor, Execute(INSERT, params), Commit, Notify(body), CloseCursor, CloseConn];
  }

  /** From `connect` on, a notification comes only after a transaction that
      went through, so right after its commit, and is followed by closing the
      cursor and the connection. */
  lemma NotifyAfterTransaction(stmt: Insert, params: seq<Json>, down: DbCall -> bool, body: Json)
    ensures var t := Transaction(stmt, params, down);
      var effects := if t.0.Some? then t.1 else t.1 + [Notify(body), CloseCursor, CloseConn];
      forall i :: 0 <= i < |effects| && effects[i].Notify? ==>
        0 < i && effects[i - 1] == Commit && effects[i + 1..] == [CloseCursor, CloseConn]
  {
    var t := Transaction(stmt, params, down);
    if t.0.Some? {
      FailedTransaction(stmt, params, down);
      forall i | 0 <= i < |t.1|
        ensures !t.1[i].Notify?
      {
        assert t.1[i] in t.1;
      }
    } else {
      var effects := t.1 + [Notify(body), CloseCursor, CloseConn];
      assert effects == [Connect, OpenCursor, Execute(stmt, params), Commit, Notify(body), CloseCursor, CloseConn];
      forall i | 0 <= i < |effects| && effects[i].Notify?
        ensures 0 < i && effects[i - 1] == Commit && effects[i + 1..] == [CloseCursor, CloseConn]
      {
        assert i == 4;
      }
    }
  }

  /** Whatever happens, a notification is only ever attempted right after
      the commit, and is followed by closing the cursor and the connection. */
  lemma NotifyOnlyAfterCommit(stmt: Insert, data: Option<Json>, predict: seq<Json> -> Option<seq<real>>,
                              classNames: seq<string>, percent: real -> string, down: DbCall -> bool)
    ensures var effects := Handle(stmt, data, predict, classNames, percent, down).1;
      forall i :: 0 <= i < |effects| && effects[i].Notify? ==>
        0 < i && effects[i - 1] == Commit && effects[i + 1..] == [CloseCursor, CloseConn]
  {
    var (h, effects) := Handle(stmt, data, predict, classNames, percent, down);
    if data.Some? && Extract(data.value).Extracted? {
      var reading := Extract(data.value).reading;
      var inferred := Infer(Features(reading), predict, classNames);
      if inferred.Some? {
        var (prediction, confidence) := inferred.value;
        var params := Params(reading, prediction, confidence);
        var t := Transaction(stmt, params, down);
        var body := NewReading(reading, prediction, confidence, percent);
        assert effects == if t.0.Some? then t.1 else t.1 + [Notify(body), CloseCursor, CloseConn];
        NotifyAfterTransaction(stmt, params, down, body);
      } else {
        assert effects == [];
      }
    } else {
      assert effects == [];
    }
  }
}
