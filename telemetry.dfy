/** The reading both workers pull out of an uplink envelope: the wrapper
    dict the gateway publishes, with the node's own JSON under "payload".

    Lookups follow `dict.get`: a missing key yields the default (`{}` for the
    payload, 0 for flame and smoke, None otherwise) and a present key yields
    its value even when that is null. Calling `.get` on something that is not
    a dict raises, which the handlers' outer `except` catches. */
module Telemetry {

  import opened Wrappers
  import opened Json

  /** The fields of one sensor reading, as the handlers bind them. */
  datatype Reading = Reading(
    node: Json, receivedAt: Json,
    temp: Json, hum: Json, flame: Json, smoke: Json, lat: Json, lon: Json,
    rssi: Json, snr: Json)

  /** `.get` raised, the node check skipped the message, or a reading. */
  datatype Extraction = Raised | Skip | Extracted(reading: Reading)

  /** `payload = wrapper.get("payload", {})`, `node = payload.get("node")`,
      `if not node: return`, then the remaining lookups. */
  function Extract(wrapper: Json): (e: Extraction)
    ensures e.Raised? <==>
      !wrapper.JObj? || ("payload" in wrapper.fields && !wrapper.fields["payload"].JObj?)
    ensures e.Extracted? ==>
      "payload" in wrapper.fields && wrapper.fields["payload"].JObj?
      && "node" in wrapper.fields["payload"].fields
      && e.reading.node == wrapper.fields["payload"].fields["node"]
      && Truthy(e.reading.node)
  {
    match Get(wrapper, "payload", JObj(map[]))
    case None => Raised
    case Some(payload) =>
      match Get(payload, "node", JNull)
      case None => Raised
      case Some(node) =>
        if !Truthy(node) then Skip
        else Extracted(Reading(
          node,
          Get(wrapper, "received_at", JNull).value,
          Get(payload, "temp", JNull).value,
          Get(payload, "hum", JNull).value,
          Get(payload, "flame", JNum(0.0)).value,
          Get(payload, "smoke", JNum(0.0)).value,
          Get(payload, "lat", JNull).value,
          Get(payload, "lon", JNull).value,
          Get(wrapper, "rssi", JNull).value,
          Get(wrapper, "snr", JNull).value))
  }

  /** Where a stored value comes from: a key of the wrapper, or a key of the
      payload with the default used when it is absent. */
  datatype Origin = FromWrapper(key: string) | FromPayload(key: string, default: Json)

  /** The origin of each database column the workers fill from the message,
      by the column's meaning. */
  function ColumnOrigin(column: string): Option<Origin>
  {
    match column
    case "node_id" => Some(FromPayload("node", JNull))
    case "timestamp" => Some(FromWrapper("received_at"))
    case "local_timestamp" => Some(FromWrapper("received_at"))
    case "temperature" => Some(FromPayload("temp", JNull))
    case "humidity" => Some(FromPayload("hum", JNull))
    case "flame" => Some(FromPayload("flame", JNum(0.0)))
    case "smoke" => Some(FromPayload("smoke", JNum(0.0)))
    case "latitude" => Some(FromPayload("lat", JNull))
    case "longitude" => Some(FromPayload("lon", JNull))
    case "rssi" => Some(FromWrapper("rssi"))
    case "snr" => Some(FromWrapper("snr"))
    case _ => None
  }

  /** The value an origin names in a message whose payload is a dict. */
  function Lookup(wrapper: map<string, Json>, payload: map<string, Json>, o: Origin): Json
  {
    match o
    case FromWrapper(k) => if k in wrapper then wrapper[k] else JNull
    case FromPayload(k, d) => if k in payload then payload[k] else d
  }

  /** The value a reading holds for a column it has. */
  function Column(r: Reading, column: string): Option<Json>
  {
    match column
    case "node_id" => Some(r.node)
    case "timestamp" => Some(r.receivedAt)
    case "local_timestamp" => Some(r.receivedAt)
    case "temperature" => Some(r.temp)
    case "humidity" => Some(r.hum)
    case "flame" => Some(r.flame)
    case "smoke" => Some(r.smoke)
    case "latitude" => Some(r.lat)
    case "longitude" => Some(r.lon)
    case "rssi" => Some(r.rssi)
    case "snr" => Some(r.snr)
    case _ => None
  }

  /** Every column of an extracted reading holds what its origin names in the
      message: the wrapper's key, or the payload's key with its default only
      when the key is absent (a present null stays null). */
  lemma ExtractFollowsOrigins(wrapper: Json, column: string)
    requires Extract(wrapper).Extracted? && ColumnOrigin(column).Some?
    ensures var p := wrapper.fields["payload"].fields;
      Column(Extract(wrapper).reading, column) == Some(Lookup(wrapper.fields, p, ColumnOrigin(column).value))
  {
  }

  /** A dict message without a usable node is skipped: no payload key, a
      payload without "node", or a falsy node. */
  lemma SkipIff(wrapper: Json)
    ensures Extract(wrapper).Skip? <==>
      wrapper.JObj?
      && ("payload" !in wrapper.fields
          || (wrapper.fields["payload"].JObj?
              && ("node" !in wrapper.fields["payload"].fields
                  || !Truthy(wrapper.fields["payload"].fields["node"]))))
  {
  }

  /** A payload key present with value null is not replaced by the default. */
  lemma NullIsNotAbsent(wrapper: Json)
    requires Extract(wrapper).Extracted?
    requires "flame" in wrapper.fields["payload"].fields
    requires wrapper.fields["payload"].fields["flame"] == JNull
    ensures Extract(wrapper).reading.flame == JNull
  {
  }
}
