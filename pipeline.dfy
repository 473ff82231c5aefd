/** The gateway and the workers together: the envelope the gateway publishes
    for a relayed frame is a message the workers extract a reading from, and
    that reading is made of the gateway's own values. */
module Pipeline {

  import Wrappers
  import opened Json
  import opened Telemetry
  import Bits
  import Codec
  import Transceiver
  import Gateway

  /** A worker reads back, from the envelope of payload `p`, the gateway's
      timestamp and link metrics and the node's fields. */
  lemma ExtractEnvelope(env: Gateway.Envelope)
    requires env.payload.JObj? && "node" in env.payload.fields && Truthy(env.payload.fields["node"])
    ensures var p := env.payload.fields;
      Extract(Gateway.EnvelopeJson(env)) == Extracted(Reading(
        p["node"], JStr(env.receivedAt),
        if "temp" in p then p["temp"] else JNull,
        if "hum" in p then p["hum"] else JNull,
        if "flame" in p then p["flame"] else JNum(0.0),
        if "smoke" in p then p["smoke"] else JNum(0.0),
        if "lat" in p then p["lat"] else JNull,
        if "lon" in p then p["lon"] else JNull,
        JNum(env.rssi as real), JNum(env.snr)))
  {
  }

  /** Every frame the gateway relays reaches the workers as an extracted
      reading: the node the gateway checked is the node the workers extract,
      with the RSSI and SNR the gateway read from the radio. Whether it is
      then stored depends on the worker and its database. */
  lemma RelayedFramesAreExtracted(s: Transceiver.ChipState, parse: seq<Bits.Byte> -> Wrappers.Option<Json>, ts: string)
    requires Transceiver.WellFormed(s) && Gateway.Expected(s, parse, ts).Relayed?
    ensures var env := Gateway.Expected(s, parse, ts).envelope;
      var e := Extract(Gateway.EnvelopeJson(env));
      && e.Extracted?
      && e.reading.node == Gateway.CheckFrame(Gateway.RxFrame(s), parse).node
      && e.reading.receivedAt == JStr(ts)
      && e.reading.rssi == JNum(Codec.RssiDbm(s.regs[Codec.REG_PKT_RSSI_VALUE]) as real)
      && e.reading.snr == JNum(Codec.SnrDb(s.regs[Codec.REG_PKT_SNR_VALUE]))
  {
    var env := Gateway.Expected(s, parse, ts).envelope;
    Gateway.RelayTrace(s, parse, (_: Json) => "", ts, []);
    assert Gateway.CheckFrame(Gateway.RxFrame(s), parse).Accept?;
    ExtractEnvelope(env);
  }
}
