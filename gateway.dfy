/** The gateway script's radio initialisation and one iteration of its
    `while True` receive loop: poll RegIrqFlags, write the flags back, drop
    CRC failures, drain the frame, pre-filter it, read the link metrics,
    acknowledge, then publish the envelope once. */
module Gateway {

  import opened Wrappers
  import opened Bits
  import opened Codec
  import opened Json
  import opened Transceiver
  import Utf8

  const GATEWAY_ID: string := "GW1"
  const MQTT_TOPIC: string := "lora/uplink"

  /** The message the gateway publishes for a relayed frame. */
  datatype Envelope = Envelope(gateway: string, rssi: int, snr: real, receivedAt: string, payload: Json)

  /** The dict `json.dumps` serialises (serialisation itself is not modelled):
      five keys, the gateway under `gateway` (there is no `gateway_id`), and
      the parsed frame carried unchanged. */
  function EnvelopeJson(e: Envelope): (j: Json)
    ensures j.JObj? && j.fields.Keys == {"gateway", "rssi", "snr", "received_at", "payload"}
    ensures "gateway_id" !in j.fields
    ensures j.fields["payload"] == e.payload
  {
    JObj(map[
      "gateway" := JStr(e.gateway),
      "rssi" := JNum(e.rssi as real),
      "snr" := JNum(e.snr),
      "received_at" := JStr(e.receivedAt),
      "payload" := e.payload])
  }

  datatype Drop = CrcError | NotBraced | Unparsable | NoNode

  /** What one loop iteration does: nothing pending, flags cleared without a
      frame, a frame dropped, or a frame acknowledged and relayed. */
  datatype Outcome = Idle | Cleared | Dropped(reason: Drop) | Relayed(envelope: Envelope)

  /** `raw.startswith("{") and raw.endswith("}")`. Both characters are ASCII,
      which lenient UTF-8 decoding maps only from and to their own byte, so
      the test on the decoded text is this test on the bytes. */
  predicate Braced(b: seq<Byte>)
  {
    |b| > 0 && b[0] == '{' as int && b[|b| - 1] == '}' as int
  }

  datatype Check = Reject(reason: Drop) | Accept(parsed: Json, node: Json)

  /** The pre-filter before the acknowledgment: braces, parse, a truthy
      `node`. `parse` stands for `json.loads(payload.decode(errors="replace"))`,
      `None` when it raises; `.get` on a non-dict raises too, and the bare
      `except` turns both into a drop. */
  function CheckFrame(frame: seq<Byte>, parse: seq<Byte> -> Option<Json>): (c: Check)
    ensures c.Accept? <==>
      Braced(frame) && parse(frame).Some? && parse(frame).value.JObj?
      && "node" in parse(frame).value.fields && Truthy(parse(frame).value.fields["node"])
    ensures c.Accept? ==> c.parsed == parse(frame).value && c.node == c.parsed.fields["node"]
    ensures c == Reject(NotBraced) <==> !Braced(frame)
    ensures c == Reject(Unparsable) <==>
      Braced(frame) && (parse(frame).None? || !parse(frame).value.JObj?)
  {
    if !Braced(frame) then Reject(NotBraced)
    else match parse(frame)
      case None => Reject(Unparsable)
      case Some(j) =>
        match Get(j, "node", JNull)
        case None => Reject(Unparsable)
        case Some(node) => if Truthy(node) then Accept(j, node) else Reject(NoNode)
  }

  /** For a frame that is well-formed UTF-8, the test on the bytes is
      `raw.startswith("{") and raw.endswith("}")` on the decoded text. */
  lemma BracedText(b: seq<Byte>)
    requires Utf8.Decode(b).Some?
    ensures var raw := Utf8.Decode(b).value;
      Braced(b) <==> |raw| > 0 && raw[0] == '{' && raw[|raw| - 1] == '}'
  {
    Utf8.DecodeAsciiEnds(b, '{' as int);
    Utf8.DecodeAsciiEnds(b, '}' as int);
  }

  /** `f"ACK:{node}"` formats `str(node)`: the text itself for a string, and
      Python's rendering `repr` of any other value. */
  function NodeText(node: Json, repr: Json -> string): string
  {
    if node.JStr? then node.s else repr(node)
  }

  /** The received frame: RegRxNbBytes bytes from RegFifoRxCurrentAddr. */
  function RxFrame(s: ChipState): seq<Byte>
    requires WellFormed(s)
  {
    Window(s.fifo, s.regs[REG_FIFO_RX_CURRENT_ADDR], s.regs[REG_RX_NB_BYTES])
  }

  /** Where the FIFO pointer stands after the drain. */
  function RxEnd(s: ChipState): Byte
    requires WellFormed(s)
  {
    (s.regs[REG_FIFO_RX_CURRENT_ADDR] as int + s.regs[REG_RX_NB_BYTES] as int) % 256
  }

  /** The receive path runs: some flag is set, CRC_ERROR is not, RX_DONE is. */
  predicate Receives(irq: Byte)
  {
    irq != 0 && !HasFlag(irq, IRQ_PAYLOAD_CRC_ERROR) && HasFlag(irq, IRQ_RX_DONE)
  }

  /** The outcome of one iteration from chip state `s`: idle exactly when no
      flag is pending; a CRC drop exactly when CRC_ERROR is set, RX_DONE or
      not; flags cleared without a frame exactly when neither is set; and a
      relay only for a received frame that passes the pre-filter. */
  function Expected(s: ChipState, parse: seq<Byte> -> Option<Json>, ts: string): (o: Outcome)
    requires WellFormed(s)
    ensures o.Idle? <==> s.regs[REG_IRQ_FLAGS] == 0
    ensures o == Dropped(CrcError) <==>
      s.regs[REG_IRQ_FLAGS] != 0 && HasFlag(s.regs[REG_IRQ_FLAGS], IRQ_PAYLOAD_CRC_ERROR)
    ensures o.Cleared? <==>
      s.regs[REG_IRQ_FLAGS] != 0 && !HasFlag(s.regs[REG_IRQ_FLAGS], IRQ_PAYLOAD_CRC_ERROR)
      && !HasFlag(s.regs[REG_IRQ_FLAGS], IRQ_RX_DONE)
    ensures o.Relayed? ==> Receives(s.regs[REG_IRQ_FLAGS]) && CheckFrame(RxFrame(s), parse).Accept?
  {
    var irq := s.regs[REG_IRQ_FLAGS];
    if irq == 0 then Idle
    else if HasFlag(irq, IRQ_PAYLOAD_CRC_ERROR) then Dropped(CrcError)
    else if !HasFlag(irq, IRQ_RX_DONE) then Cleared
    else FrameOutcome(s, parse, ts)
  }

  /** The outcome of the receive path: the pre-filter's verdict, or the
      envelope with the metrics of the frame. */
  function FrameOutcome(s: ChipState, parse: seq<Byte> -> Option<Json>, ts: string): (o: Outcome)
    requires WellFormed(s)
    ensures o.Dropped? || o.Relayed?
  {
    match CheckFrame(RxFrame(s), parse)
    case Reject(why) => Dropped(why)
    case Accept(j, _) =>
      Relayed(Envelope(GATEWAY_ID, RssiDbm(s.regs[REG_PKT_RSSI_VALUE]),
                       SnrDb(s.regs[REG_PKT_SNR_VALUE]), ts, j))
  }

  /** SPI traffic of the drain: count, current address, pointer, bytes. */
  function RxLog(s: ChipState): seq<Event>
    requires WellFormed(s)
  {
    var addr := s.regs[REG_FIFO_RX_CURRENT_ADDR];
    [Spi(ReadFrame(REG_RX_NB_BYTES), s.regs[REG_RX_NB_BYTES]),
     Spi(ReadFrame(REG_FIFO_RX_CURRENT_ADDR), addr),
     W(REG_FIFO_ADDR_PTR, addr)]
    + FifoReadLog(RxFrame(s))
  }

  function MetricsLog(s: ChipState): seq<Event>
    requires WellFormed(s)
  {
    [Spi(ReadFrame(REG_PKT_RSSI_VALUE), s.regs[REG_PKT_RSSI_VALUE]),
     Spi(ReadFrame(REG_PKT_SNR_VALUE), s.regs[REG_PKT_SNR_VALUE])]
  }

  /** The bytes of the acknowledgment for an accepted frame. */
  function AckFor(s: ChipState, parse: seq<Byte> -> Option<Json>, repr: Json -> string): seq<Byte>
    requires WellFormed(s) && CheckFrame(RxFrame(s), parse).Accept?
  {
    AckBytes(NodeText(CheckFrame(RxFrame(s), parse).node, repr))
  }

  /** The traffic of the receive path: the drain, then, for a frame that
      passes the pre-filter, the metrics, the acknowledgment and the publish. */
  function FrameTrace(s: ChipState, parse: seq<Byte> -> Option<Json>, repr: Json -> string,
                      ts: string, raised: seq<Byte>): seq<Event>
    requires WellFormed(s)
  {
    RxLog(s)
    + match FrameOutcome(s, parse, ts)
      case Relayed(env) =>
        MetricsLog(s) + AckLog(AckFor(s, parse, repr), raised) + [MqttPublish(MQTT_TOPIC, EnvelopeJson(env))]
      case _ => []
  }

  /** Everything one iteration from chip state `s` appends to the trace: the
      flag read, then what the loop body does with the flags. */
  function StepTrace(s: ChipState, parse: seq<Byte> -> Option<Json>, repr: Json -> string,
                     ts: string, raised: seq<Byte>): seq<Event>
    requires WellFormed(s)
  {
    [Spi(ReadFrame(REG_IRQ_FLAGS), s.regs[REG_IRQ_FLAGS])] + ServiceTrace(s, parse, repr, ts, raised)
  }

  /** The traffic after the flag read: the write-back unless no flag was set;
      the receive path when CRC_ERROR is clear and RX_DONE set. */
  function ServiceTrace(s: ChipState, parse: seq<Byte> -> Option<Json>, repr: Json -> string,
                        ts: string, raised: seq<Byte>): seq<Event>
    requires WellFormed(s)
  {
    var irq := s.regs[REG_IRQ_FLAGS];
    (if irq == 0 then [] else [W(REG_IRQ_FLAGS, irq)])
    + (if Receives(irq) then FrameTrace(s, parse, repr, ts, raised) else [])
  }

  /** The chip after the receive path: the pointer past the frame when the
      pre-filter drops it, the acknowledged chip otherwise. */
  function FrameAfter(s: ChipState, parse: seq<Byte> -> Option<Json>, repr: Json -> string): (t: ChipState)
    requires WellFormed(s)
    ensures WellFormed(t)
  {
    match CheckFrame(RxFrame(s), parse)
    case Reject(_) => s.(ptr := RxEnd(s))
    case Accept(_, node) => Acknowledged(s, AckBytes(NodeText(node, repr)))
  }

  /** The chip after one iteration: unchanged when no flag was pending;
      otherwise every flag cleared, then the receive path when it runs. */
  function StepAfter(s: ChipState, parse: seq<Byte> -> Option<Json>, repr: Json -> string): (t: ChipState)
    requires WellFormed(s)
    ensures WellFormed(t)
  {
    var irq := s.regs[REG_IRQ_FLAGS];
    var cleared := s.(regs := s.regs[REG_IRQ_FLAGS := 0]);
    if irq == 0 then s
    else if Receives(irq) then FrameAfter(cleared, parse, repr)
    else cleared
  }

  /** The receive path reads neither RegIrqFlags nor anything it changes
      before the read, so clearing the flags first changes nothing in it. */
  lemma FrameIgnoresFlags(s: ChipState, v: Byte, parse: seq<Byte> -> Option<Json>,
                          repr: Json -> string, ts: string, raised: seq<Byte>)
    requires WellFormed(s)
    ensures var t := s.(regs := s.regs[REG_IRQ_FLAGS := v]);
      && RxFrame(t) == RxFrame(s)
      && FrameOutcome(t, parse, ts) == FrameOutcome(s, parse, ts)
      && FrameTrace(t, parse, repr, ts, raised) == FrameTrace(s, parse, repr, ts, raised)
  {
    var t := s.(regs := s.regs[REG_IRQ_FLAGS := v]);
    assert RxFrame(t) == RxFrame(s);
  }

  /** The receive path of a frame the pre-filter drops. */
  lemma RejectedFrame(s: ChipState, parse: seq<Byte> -> Option<Json>, repr: Json -> string,
                      ts: string, raised: seq<Byte>)
    requires WellFormed(s) && CheckFrame(RxFrame(s), parse).Reject?
    ensures FrameOutcome(s, parse, ts) == Dropped(CheckFrame(RxFrame(s), parse).reason)
    ensures FrameTrace(s, parse, repr, ts, raised) == RxLog(s)
    ensures FrameAfter(s, parse, repr) == s.(ptr := RxEnd(s))
  {
    assert FrameTrace(s, parse, repr, ts, raised) == RxLog(s) + [];
  }

  /** The receive path of a frame the pre-filter accepts. */
  lemma AcceptedFrame(s: ChipState, parse: seq<Byte> -> Option<Json>, repr: Json -> string,
                      ts: string, raised: seq<Byte>)
    requires WellFormed(s) && CheckFrame(RxFrame(s), parse).Accept?
    ensures var c := CheckFrame(RxFrame(s), parse);
      var env := Envelope(GATEWAY_ID, RssiDbm(s.regs[REG_PKT_RSSI_VALUE]), SnrDb(s.regs[REG_PKT_SNR_VALUE]), ts, c.parsed);
      var msg := AckBytes(NodeText(c.node, repr));
      && FrameOutcome(s, parse, ts) == Relayed(env)
      && FrameTrace(s, parse, repr, ts, raised)
         == RxLog(s) + (MetricsLog(s) + AckLog(msg, raised) + [MqttPublish(MQTT_TOPIC, EnvelopeJson(env))])
      && FrameAfter(s, parse, repr) == Acknowledged(s, msg)
  {
    var c := CheckFrame(RxFrame(s), parse);
    assert FrameOutcome(s, parse, ts).Relayed?;
    assert AckFor(s, parse, repr) == AckBytes(NodeText(c.node, repr));
  }

  /** The flag read, then the loop body's traffic, after any earlier trace. */
  lemma StepTraceSplit(t0: seq<Event>, s: ChipState, parse: seq<Byte> -> Option<Json>, repr: Json -> string,
                       ts: string, raised: seq<Byte>)
    requires WellFormed(s)
    ensures t0 + [Spi(ReadFrame(REG_IRQ_FLAGS), s.regs[REG_IRQ_FLAGS])] + ServiceTrace(s, parse, repr, ts, raised)
      == t0 + StepTrace(s, parse, repr, ts, raised)
  {
    var head := [Spi(ReadFrame(REG_IRQ_FLAGS), s.regs[REG_IRQ_FLAGS])];
    var rest := ServiceTrace(s, parse, repr, ts, raised);
    assert StepTrace(s, parse, repr, ts, raised) == head + rest;
    assert t0 + head + rest == t0 + (head + rest);
  }

  /** The traffic of a relayed frame, after any earlier trace. */
  lemma RelayTraceSplit(t0: seq<Event>, s: ChipState, msg: seq<Byte>, raised: seq<Byte>, message: Json)
    requires WellFormed(s)
    ensures t0 + RxLog(s) + MetricsLog(s) + AckLog(msg, raised) + [MqttPublish(MQTT_TOPIC, message)]
      == t0 + (RxLog(s) + (MetricsLog(s) + AckLog(msg, raised) + [MqttPublish(MQTT_TOPIC, message)]))
  {
  }

  /** No flag pending: nothing but the read happens. */
  lemma IdleStep(s: ChipState, parse: seq<Byte> -> Option<Json>, repr: Json -> string,
                 ts: string, raised: seq<Byte>)
    requires WellFormed(s) && s.regs[REG_IRQ_FLAGS] == 0
    ensures Expected(s, parse, ts) == Idle
    ensures ServiceTrace(s, parse, repr, ts, raised) == []
    ensures StepAfter(s, parse, repr) == s
  {
    assert ServiceTrace(s, parse, repr, ts, raised) == [];
  }

  /** Flags without a frame to receive: they are written back and cleared. */
  lemma FlagsOnlyStep(t0: seq<Event>, s: ChipState, parse: seq<Byte> -> Option<Json>, repr: Json -> string,
                      ts: string, raised: seq<Byte>)
    requires WellFormed(s) && s.regs[REG_IRQ_FLAGS] != 0 && !Receives(s.regs[REG_IRQ_FLAGS])
    ensures var irq := s.regs[REG_IRQ_FLAGS];
      Expected(s, parse, ts) == if HasFlag(irq, IRQ_PAYLOAD_CRC_ERROR) then Dropped(CrcError) else Cleared
    ensures t0 + [W(REG_IRQ_FLAGS, s.regs[REG_IRQ_FLAGS])] == t0 + ServiceTrace(s, parse, repr, ts, raised)
    ensures StepAfter(s, parse, repr) == s.(regs := s.regs[REG_IRQ_FLAGS := 0])
  {
    assert ServiceTrace(s, parse, repr, ts, raised) == [W(REG_IRQ_FLAGS, s.regs[REG_IRQ_FLAGS])] + [];
  }

  /** A frame to receive: the write-back, then the receive path on the chip
      with its flags cleared, which sees what the chip held before. */
  lemma FrameStep(t0: seq<Event>, s: ChipState, parse: seq<Byte> -> Option<Json>, repr: Json -> string,
                  ts: string, raised: seq<Byte>)
    requires WellFormed(s) && Receives(s.regs[REG_IRQ_FLAGS])
    ensures var c := s.(regs := s.regs[REG_IRQ_FLAGS := 0]);
      && Expected(s, parse, ts) == FrameOutcome(c, parse, ts)
      && t0 + [W(REG_IRQ_FLAGS, s.regs[REG_IRQ_FLAGS])] + FrameTrace(c, parse, repr, ts, raised)
         == t0 + ServiceTrace(s, parse, repr, ts, raised)
      && StepAfter(s, parse, repr) == FrameAfter(c, parse, repr)
  {
    var irq := s.regs[REG_IRQ_FLAGS];
    var c := s.(regs := s.regs[REG_IRQ_FLAGS := 0]);
    FrameIgnoresFlags(s, 0, parse, repr, ts, raised);
    assert Expected(s, parse, ts) == FrameOutcome(s, parse, ts);
    assert ServiceTrace(s, parse, repr, ts, raised) == [W(REG_IRQ_FLAGS, irq)] + FrameTrace(s, parse, repr, ts, raised);
  }

  /** One iteration of the receive loop. `parse` and `repr` stand for
      `json.loads` and `str`, `ts` for the local timestamp, and `raised` for
      the flags the chip raises during the transmit-done poll. */
  method ReceiveStep(r: Radio, parse: seq<Byte> -> Option<Json>, repr: Json -> string,
                     ts: string, raised: seq<Byte>) returns (out: Outcome)
    requires r.Valid()
    modifies r, r.fifo
    ensures r.Valid()
    ensures out == Expected(old(r.State()), parse, ts)
    ensures r.trace == old(r.trace) + StepTrace(old(r.State()), parse, repr, ts, raised)
    ensures r.State() == StepAfter(old(r.State()), parse, repr)
  {
    ghost var s, t0 := r.State(), r.trace;
    var irq := r.GetReg(REG_IRQ_FLAGS);
    out := Service(r, irq, parse, repr, ts, raised);
    StepTraceSplit(t0, s, parse, repr, ts, raised);
  }

  /** The loop body after the flag read: the write-back, the CRC check and,
      once RX_DONE is set, the receive path. */
  method Service(r: Radio, irq: Byte, parse: seq<Byte> -> Option<Json>, repr: Json -> string,
                 ts: string, raised: seq<Byte>) returns (out: Outcome)
    requires r.Valid() && r.regs[REG_IRQ_FLAGS] == irq
    modifies r, r.fifo
    ensures r.Valid()
    ensures out == Expected(old(r.State()), parse, ts)
    ensures r.trace == old(r.trace) + ServiceTrace(old(r.State()), parse, repr, ts, raised)
    ensures r.State() == StepAfter(old(r.State()), parse, repr)
  {
    ghost var s, t0 := r.State(), r.trace;
    if irq == 0 {
      IdleStep(s, parse, repr, ts, raised);
      return Idle;
    }
    WriteBack(r, irq);
    if !Receives(irq) {
      FlagsOnlyStep(t0, s, parse, repr, ts, raised);
      if HasFlag(irq, IRQ_PAYLOAD_CRC_ERROR) {
        return Dropped(CrcError);
      }
      return Cleared;
    }
    FrameStep(t0, s, parse, repr, ts, raised);
    out := ReceiveFrame(r, parse, repr, ts, raised);
  }

  /** `write_reg(REG_IRQ_FLAGS, irq)` with the flags just read: since the
      register is write-1-to-clear, this clears every one of them. */
  method WriteBack(r: Radio, irq: Byte)
    requires r.Valid() && r.regs[REG_IRQ_FLAGS] == irq
    modifies r, r.fifo
    ensures r.Valid() && r.State() == old(r.State()).(regs := old(r.regs)[REG_IRQ_FLAGS := 0])
    ensures r.trace == old(r.trace) + [W(REG_IRQ_FLAGS, irq)]
  {
    ClearSelf(irq);
    assert irq % 256 == irq;
    assert Clear(irq, irq % 256) == 0;
    r.ClearFlags(irq);
  }

  /** The flag read and the write-back with an interrupt in between that
      raises `late`. Writing back what was read, rather than 0xFF, clears
      only those flags: the register keeps exactly the late flags that were
      not already read, for the next iteration to see. */
  method InterruptedWriteBack(r: Radio, late: Byte) returns (irq: Byte)
    requires r.Valid()
    modifies r, r.fifo
    ensures r.Valid() && irq == old(r.regs[REG_IRQ_FLAGS])
    ensures r.State() == old(r.State()).(regs := old(r.regs)[REG_IRQ_FLAGS := Clear(late, irq)])
    ensures r.trace == old(r.trace) + [Spi(ReadFrame(REG_IRQ_FLAGS), irq), W(REG_IRQ_FLAGS, irq)]
  {
    irq := r.GetReg(REG_IRQ_FLAGS);
    r.Raise(late);
    ClearAfterOr(irq, late);
    assert irq % 256 == irq;
    r.ClearFlags(irq);
  }

  /** What the write-back leaves of flags raised after the read: a flag not
      among those read stays pending, while a repeat of one already read is
      cleared without being seen. */
  lemma LateFlags(irq: Byte, late: Byte)
    ensures Clear(Or(irq, late), irq) == Clear(late, irq)
    ensures And(irq, late) == 0 ==> Clear(Or(irq, late), irq) == late
    ensures Or(irq, late) == irq ==> Clear(Or(irq, late), irq) == 0
  {
    ClearAfterOr(irq, late);
    ClearSelf(irq);
    if And(irq, late) == 0 {
      ClearDisjoint(irq, late);
    }
  }

  /** The receive path once RX_DONE is set: drain, pre-filter, metrics,
      acknowledgment and publish. */
  method ReceiveFrame(r: Radio, parse: seq<Byte> -> Option<Json>, repr: Json -> string,
                      ts: string, raised: seq<Byte>) returns (out: Outcome)
    requires r.Valid()
    modifies r, r.fifo
    ensures r.Valid()
    ensures out == FrameOutcome(old(r.State()), parse, ts)
    ensures r.trace == old(r.trace) + FrameTrace(old(r.State()), parse, repr, ts, raised)
    ensures r.State() == FrameAfter(old(r.State()), parse, repr)
  {
    ghost var s, t0 := r.State(), r.trace;
    var payload := Drain(r);
    var check := CheckFrame(payload, parse);
    if check.Reject? {
      RejectedFrame(s, parse, repr, ts, raised);
      return Dropped(check.reason);
    }
    AcceptedFrame(s, parse, repr, ts, raised);
    var rssi, snr := ReadMetrics(r);
    var _ := r.SendAck(NodeText(check.node, repr), raised);
    var env := Envelope(GATEWAY_ID, rssi, snr, ts, check.parsed);
    r.Publish(MQTT_TOPIC, EnvelopeJson(env));
    out := Relayed(env);
    RelayTraceSplit(t0, s, AckFor(s, parse, repr), raised, EnvelopeJson(env));
  }

  /** The FIFO drain: the frame's length and start address, the pointer set
      there, and one FIFO read per byte. */
  method Drain(r: Radio) returns (payload: seq<Byte>)
    requires r.Valid()
    modifies r, r.fifo
    ensures r.Valid() && r.regs == old(r.regs) && r.fifo[..] == old(r.fifo[..])
    ensures r.ptr == RxEnd(old(r.State()))
    ensures payload == RxFrame(old(r.State()))
    ensures r.trace == old(r.trace) + RxLog(old(r.State()))
  {
    ghost var s, t0 := r.State(), r.trace;
    var length := r.GetReg(REG_RX_NB_BYTES);
    var addr := r.GetReg(REG_FIFO_RX_CURRENT_ADDR);
    r.SetPtr(addr);
    payload := r.ReadFifo(length);
    assert payload == RxFrame(s);
    DrainTraceSplit(t0, s);
  }

  /** The parts of the drain's traffic, after any earlier trace. */
  lemma DrainTraceSplit(t0: seq<Event>, s: ChipState)
    requires WellFormed(s)
    ensures t0 + [Spi(ReadFrame(REG_RX_NB_BYTES), s.regs[REG_RX_NB_BYTES])]
      + [Spi(ReadFrame(REG_FIFO_RX_CURRENT_ADDR), s.regs[REG_FIFO_RX_CURRENT_ADDR])]
      + [W(REG_FIFO_ADDR_PTR, s.regs[REG_FIFO_RX_CURRENT_ADDR])] + FifoReadLog(RxFrame(s))
      == t0 + RxLog(s)
  {
  }

  /** `rssi_dbm()` then `snr_db()`. */
  method ReadMetrics(r: Radio) returns (rssi: int, snr: real)
    requires r.Valid()
    modifies r, r.fifo
    ensures r.Valid() && r.State() == old(r.State())
    ensures rssi == RssiDbm(old(r.regs)[REG_PKT_RSSI_VALUE])
    ensures snr == SnrDb(old(r.regs)[REG_PKT_SNR_VALUE])
    ensures r.trace == old(r.trace) + MetricsLog(old(r.State()))
  {
    var rssiRaw := r.GetReg(REG_PKT_RSSI_VALUE);
    var snrRaw := r.GetReg(REG_PKT_SNR_VALUE);
    rssi, snr := RssiDbm(rssiRaw), SnrDb(snrRaw);
  }


  /** The SPI traffic of the radio set-up, `version` being the byte the
      version register returns. */
  function InitLog(version: Byte): seq<Event>
  {
    [W(REG_OP_MODE, MODE_SLEEP), W(REG_OP_MODE, MODE_STDBY), Spi(ReadFrame(REG_VERSION), version)]
    + FrequencyLog(433_000_000) + FrontEndLog() + ModemLog()
    + [W(REG_IRQ_FLAGS, 0xFF), W(REG_OP_MODE, MODE_RX_CONTINUOUS)]
  }

  function FrontEndLog(): seq<Event>
  {
    [W(REG_PA_CONFIG, 0x8F), W(REG_LNA, 0x23), W(REG_FIFO_RX_BASE_ADDR, 0), W(REG_FIFO_ADDR_PTR, 0)]
  }

  function ModemLog(): seq<Event>
  {
    [W(REG_MODEM_CONFIG_1, 0x72), W(REG_MODEM_CONFIG_2, 0xC4), W(REG_MODEM_CONFIG_3, 0x0C),
     W(REG_SYNC_WORD, 0x12)]
  }

  /** PA at +17 dBm on PA_BOOST, LNA boost, both FIFO bases and the pointer at 0. */
  method SetFrontEnd(r: Radio)
    requires r.Valid()
    modifies r, r.fifo
    ensures r.Valid() && r.fifo[..] == old(r.fifo[..]) && r.ptr == 0
    ensures r.regs == old(r.regs)[REG_PA_CONFIG := 0x8F][REG_LNA := 0x23][REG_FIFO_RX_BASE_ADDR := 0]
    ensures r.trace == old(r.trace) + FrontEndLog()
  {
    r.SetReg(REG_PA_CONFIG, 0x8F);
    r.SetReg(REG_LNA, 0x23);
    r.SetReg(REG_FIFO_RX_BASE_ADDR, 0x00);
    r.SetPtr(0x00);
  }

  /** Modem profile BW125 CR4/5, SF12 with CRC, LDRO and AGC, sync word 0x12. */
  method SetModem(r: Radio)
    requires r.Valid()
    modifies r, r.fifo
    ensures r.Valid() && r.fifo[..] == old(r.fifo[..]) && r.ptr == old(r.ptr)
    ensures r.regs == old(r.regs)[REG_MODEM_CONFIG_1 := 0x72][REG_MODEM_CONFIG_2 := 0xC4]
      [REG_MODEM_CONFIG_3 := 0x0C][REG_SYNC_WORD := 0x12]
    ensures r.trace == old(r.trace) + ModemLog()
  {
    r.SetReg(REG_MODEM_CONFIG_1, 0x72);
    r.SetReg(REG_MODEM_CONFIG_2, 0xC4);
    r.SetReg(REG_MODEM_CONFIG_3, 0x0C);
    r.SetReg(REG_SYNC_WORD, 0x12);
  }

  /** Sleep, then standby, then the silicon version. */
  method Wake(r: Radio) returns (version: Byte)
    requires r.Valid()
    modifies r, r.fifo
    ensures r.Valid() && r.fifo[..] == old(r.fifo[..]) && r.ptr == old(r.ptr)
    ensures version == old(r.regs)[REG_VERSION]
    ensures r.regs == old(r.regs)[REG_OP_MODE := MODE_STDBY]
    ensures r.trace == old(r.trace) + [W(REG_OP_MODE, MODE_SLEEP)] + [W(REG_OP_MODE, MODE_STDBY)]
      + [Spi(ReadFrame(REG_VERSION), version)]
  {
    r.SetReg(REG_OP_MODE, MODE_SLEEP);
    r.SetReg(REG_OP_MODE, MODE_STDBY);
    version := r.GetReg(REG_VERSION);
  }

  /** `set_frequency(433e6)`: RegFrf holds 0x6C4000. */
  method Tune(r: Radio)
    requires r.Valid()
    modifies r, r.fifo
    ensures r.Valid() && r.fifo[..] == old(r.fifo[..]) && r.ptr == old(r.ptr)
    ensures r.regs == old(r.regs)[REG_FRF_MSB := 0x6C][REG_FRF_MID := 0x40][REG_FRF_LSB := 0x00]
    ensures r.trace == old(r.trace) + FrequencyLog(433_000_000)
  {
    Frf433MHz();
    r.SetFrequency(433_000_000);
  }

  /** Every flag cleared, then RX continuous mode. */
  method StartReceive(r: Radio)
    requires r.Valid()
    modifies r, r.fifo
    ensures r.Valid() && r.fifo[..] == old(r.fifo[..]) && r.ptr == old(r.ptr)
    ensures r.regs == old(r.regs)[REG_IRQ_FLAGS := 0][REG_OP_MODE := MODE_RX_CONTINUOUS]
    ensures r.trace == old(r.trace) + [W(REG_IRQ_FLAGS, 0xFF)] + [W(REG_OP_MODE, MODE_RX_CONTINUOUS)]
  {
    ClearAll(r.regs[REG_IRQ_FLAGS]);
    r.ClearFlags(0xFF);
    r.SetReg(REG_OP_MODE, MODE_RX_CONTINUOUS);
  }

  /** Radio set-up at start-up (reset timing left out): sleep, standby, read
      the version, 433 MHz, front end, modem profile, clear the flags, RX
      continuous. */
  method InitRadio(r: Radio) returns (version: Byte)
    requires r.Valid()
    modifies r, r.fifo
    ensures r.Valid() && r.fifo[..] == old(r.fifo[..]) && r.ptr == 0
    ensures version == old(r.regs)[REG_VERSION]
    ensures r.regs == old(r.regs)[REG_OP_MODE := MODE_RX_CONTINUOUS]
      [REG_FRF_MSB := 0x6C][REG_FRF_MID := 0x40][REG_FRF_LSB := 0x00]
      [REG_PA_CONFIG := 0x8F][REG_LNA := 0x23][REG_FIFO_RX_BASE_ADDR := 0]
      [REG_MODEM_CONFIG_1 := 0x72][REG_MODEM_CONFIG_2 := 0xC4][REG_MODEM_CONFIG_3 := 0x0C]
      [REG_SYNC_WORD := 0x12][REG_IRQ_FLAGS := 0]
    ensures r.trace == old(r.trace) + InitLog(version)
  {
    ghost var r0, t0 := r.regs, r.trace;
    version := Wake(r);
    Tune(r);
    SetFrontEnd(r);
    SetModem(r);
    StartReceive(r);
    InitRegisters(r0);
    InitTraceSplit(t0, version);
  }

  /** The register writes of the set-up, in order, amount to the final
      register file `InitRadio` states. */
  lemma InitRegisters(r0: seq<Byte>)
    requires |r0| == 128
    ensures r0[REG_OP_MODE := MODE_STDBY][REG_FRF_MSB := 0x6C][REG_FRF_MID := 0x40][REG_FRF_LSB := 0x00]
              [REG_PA_CONFIG := 0x8F][REG_LNA := 0x23][REG_FIFO_RX_BASE_ADDR := 0]
              [REG_MODEM_CONFIG_1 := 0x72][REG_MODEM_CONFIG_2 := 0xC4][REG_MODEM_CONFIG_3 := 0x0C]
              [REG_SYNC_WORD := 0x12][REG_IRQ_FLAGS := 0][REG_OP_MODE := MODE_RX_CONTINUOUS]
         == r0[REG_OP_MODE := MODE_RX_CONTINUOUS]
              [REG_FRF_MSB := 0x6C][REG_FRF_MID := 0x40][REG_FRF_LSB := 0x00]
              [REG_PA_CONFIG := 0x8F][REG_LNA := 0x23][REG_FIFO_RX_BASE_ADDR := 0]
              [REG_MODEM_CONFIG_1 := 0x72][REG_MODEM_CONFIG_2 := 0xC4][REG_MODEM_CONFIG_3 := 0x0C]
              [REG_SYNC_WORD := 0x12][REG_IRQ_FLAGS := 0]
  {
  }

  /** The parts of the set-up traffic, after any earlier trace. */
  lemma InitTraceSplit(t0: seq<Event>, version: Byte)
    ensures t0 + [W(REG_OP_MODE, MODE_SLEEP)] + [W(REG_OP_MODE, MODE_STDBY)]
      + [Spi(ReadFrame(REG_VERSION), version)] + FrequencyLog(433_000_000) + FrontEndLog() + ModemLog()
      + [W(REG_IRQ_FLAGS, 0xFF)] + [W(REG_OP_MODE, MODE_RX_CONTINUOUS)]
      == t0 + InitLog(version)
  {
  }

  // ---------------------------------------------------------------------
  // Properties of one iteration

  /** Event `e` is an SPI write to register `a`: its first byte is the write
      header of `a` (WritesToDecodes). */
  predicate WritesTo(e: Event, a: Addr)
  {
    e.Spi? && |e.frame| == 2 && e.frame[0] == a + 0x80
  }

  /** The chip performs a write to `a` exactly for the frames `WritesTo`
      names. */
  lemma WritesToDecodes(e: Event, a: Addr)
    requires e.Spi? && |e.frame| == 2
    ensures WritesTo(e, a) <==> DecodeFrame(e.frame) == WriteAccess(a, e.frame[1])
  {
    MaskBelow128(e.frame[0]);
  }

  /** Traffic that neither publishes, nor changes the operating mode, nor
      puts a byte into the FIFO: no acknowledgment can be under way. */
  predicate Quiet(t: seq<Event>)
  {
    forall i :: 0 <= i < |t| ==> t[i].Spi? && !WritesTo(t[i], REG_OP_MODE) && !WritesTo(t[i], REG_FIFO)
  }

  lemma QuietAppend(a: seq<Event>, b: seq<Event>)
    requires Quiet(a) && Quiet(b)
    ensures Quiet(a + b)
  {
    forall i | 0 <= i < |a + b|
      ensures (a + b)[i].Spi? && !WritesTo((a + b)[i], REG_OP_MODE) && !WritesTo((a + b)[i], REG_FIFO)
    {
      if i >= |a| {
        assert (a + b)[i] == b[i - |a|];
      }
    }
  }

  /** A read frame writes nothing; a write frame writes only its register. */
  lemma FrameTargets(a: Addr, v: int, x: Addr, b: Byte)
    ensures !WritesTo(Spi(ReadFrame(a), b), x)
    ensures WritesTo(W(a, v), x) <==> a == x
  {
  }

  /** The drain only reads, apart from setting the FIFO pointer. */
  lemma RxLogQuiet(s: ChipState)
    requires WellFormed(s)
    ensures Quiet(RxLog(s))
  {
    var addr := s.regs[REG_FIFO_RX_CURRENT_ADDR];
    var head := [Spi(ReadFrame(REG_RX_NB_BYTES), s.regs[REG_RX_NB_BYTES]),
                 Spi(ReadFrame(REG_FIFO_RX_CURRENT_ADDR), addr),
                 W(REG_FIFO_ADDR_PTR, addr)];
    DrainHeadQuiet(s.regs[REG_RX_NB_BYTES], addr);
    FifoReadLogQuiet(RxFrame(s));
    QuietAppend(head, FifoReadLog(RxFrame(s)));
  }

  lemma DrainHeadQuiet(n: Byte, addr: Byte)
    ensures Quiet([Spi(ReadFrame(REG_RX_NB_BYTES), n), Spi(ReadFrame(REG_FIFO_RX_CURRENT_ADDR), addr),
                   W(REG_FIFO_ADDR_PTR, addr)])
  {
    FrameTargets(REG_RX_NB_BYTES, 0, REG_OP_MODE, n);
    FrameTargets(REG_RX_NB_BYTES, 0, REG_FIFO, n);
    FrameTargets(REG_FIFO_RX_CURRENT_ADDR, 0, REG_OP_MODE, addr);
    FrameTargets(REG_FIFO_RX_CURRENT_ADDR, 0, REG_FIFO, addr);
    FrameTargets(REG_FIFO_ADDR_PTR, addr, REG_OP_MODE, 0);
    FrameTargets(REG_FIFO_ADDR_PTR, addr, REG_FIFO, 0);
  }

  lemma FifoReadLogQuiet(m: seq<Byte>)
    ensures Quiet(FifoReadLog(m))
  {
    forall i | 0 <= i < |m|
      ensures !WritesTo(FifoReadLog(m)[i], REG_OP_MODE) && !WritesTo(FifoReadLog(m)[i], REG_FIFO)
    {
      FrameTargets(REG_FIFO, 0, REG_OP_MODE, m[i]);
      FrameTargets(REG_FIFO, 0, REG_FIFO, m[i]);
    }
  }

  /** The transmit-done poll consists of reads only. */
  lemma {:induction false} PollLogSpi(raised: seq<Byte>, acc: Byte)
    ensures NoPublish(PollLog(raised, acc))
    decreases |raised|
  {
    if raised != [] {
      var v := Or(acc, raised[0]);
      PollLogSpi(raised[1..], v);
    }
  }

  /** No flag pending: the iteration is idle, reads RegIrqFlags once and
      writes nothing. */
  lemma IdleReadsOnce(s: ChipState, parse: seq<Byte> -> Option<Json>, repr: Json -> string,
                      ts: string, raised: seq<Byte>)
    requires WellFormed(s)
    ensures Expected(s, parse, ts) == Idle <==> s.regs[REG_IRQ_FLAGS] == 0
    ensures s.regs[REG_IRQ_FLAGS] == 0 ==>
      StepTrace(s, parse, repr, ts, raised) == [Spi(ReadFrame(REG_IRQ_FLAGS), 0)]
  {
  }

  /** With some flag set, the second transfer writes the flags back exactly
      as read. */
  lemma WriteBackAsRead(s: ChipState, parse: seq<Byte> -> Option<Json>, repr: Json -> string,
                        ts: string, raised: seq<Byte>)
    requires WellFormed(s) && s.regs[REG_IRQ_FLAGS] != 0
    ensures var t := StepTrace(s, parse, repr, ts, raised);
      |t| >= 2 && t[1] == W(REG_IRQ_FLAGS, s.regs[REG_IRQ_FLAGS])
  {
  }

  /** A set CRC_ERROR flag drops the frame, RX_DONE or not: the flags are
      written back and nothing else happens. */
  lemma CrcErrorDrops(s: ChipState, parse: seq<Byte> -> Option<Json>, repr: Json -> string,
                      ts: string, raised: seq<Byte>)
    requires WellFormed(s) && HasFlag(s.regs[REG_IRQ_FLAGS], IRQ_PAYLOAD_CRC_ERROR)
    ensures Expected(s, parse, ts) == Dropped(CrcError)
    ensures var irq := s.regs[REG_IRQ_FLAGS];
      StepTrace(s, parse, repr, ts, raised) == [Spi(ReadFrame(REG_IRQ_FLAGS), irq), W(REG_IRQ_FLAGS, irq)]
  {
  }

  /** Unless the frame is relayed, the iteration publishes nothing, never
      changes the operating mode and never writes the FIFO: there is no
      acknowledgment and no MQTT message. */
  lemma NotRelayedIsQuiet(s: ChipState, parse: seq<Byte> -> Option<Json>, repr: Json -> string,
                          ts: string, raised: seq<Byte>)
    requires WellFormed(s) && !Expected(s, parse, ts).Relayed?
    ensures Quiet(StepTrace(s, parse, repr, ts, raised))
  {
    var irq := s.regs[REG_IRQ_FLAGS];
    var head := [Spi(ReadFrame(REG_IRQ_FLAGS), irq)];
    FrameTargets(REG_IRQ_FLAGS, 0, REG_OP_MODE, irq);
    FrameTargets(REG_IRQ_FLAGS, 0, REG_FIFO, irq);
    assert Quiet(head);
    if irq != 0 {
      var wb := [W(REG_IRQ_FLAGS, irq)];
      FrameTargets(REG_IRQ_FLAGS, irq, REG_OP_MODE, 0);
      FrameTargets(REG_IRQ_FLAGS, irq, REG_FIFO, 0);
      assert Quiet(wb);
      QuietAppend(head, wb);
      if Receives(irq) {
        RxLogQuiet(s);
        assert FrameTrace(s, parse, repr, ts, raised) == RxLog(s);
        QuietAppend(head + wb, RxLog(s));
        assert StepTrace(s, parse, repr, ts, raised) == head + wb + RxLog(s);
      } else {
        assert StepTrace(s, parse, repr, ts, raised) == head + wb;
      }
    }
  }

  /** A relayed frame: nothing is transmitted before the metrics; RSSI then
      SNR are read; the acknowledgment follows, starting with standby; the
      publish comes last, exactly once, on the uplink topic, and the envelope
      carries the gateway id, the metrics just read, the timestamp and the
      parsed frame. */
  lemma RelayOrder(s: ChipState, parse: seq<Byte> -> Option<Json>, repr: Json -> string,
                   ts: string, raised: seq<Byte>)
    requires WellFormed(s) && Expected(s, parse, ts).Relayed?
    ensures var t := StepTrace(s, parse, repr, ts, raised);
      var env := Expected(s, parse, ts).envelope;
      var k := s.regs[REG_RX_NB_BYTES] as int + 5;
      && |t| == k + 3 + |AckLog(AckFor(s, parse, repr), raised)|
      && Quiet(t[..k])
      && t[k] == Spi(ReadFrame(REG_PKT_RSSI_VALUE), s.regs[REG_PKT_RSSI_VALUE])
      && t[k + 1] == Spi(ReadFrame(REG_PKT_SNR_VALUE), s.regs[REG_PKT_SNR_VALUE])
      && t[k + 2] == W(REG_OP_MODE, MODE_STDBY)
      && t[k + 2..|t| - 1] == AckLog(AckFor(s, parse, repr), raised)
      && t[|t| - 1] == MqttPublish(MQTT_TOPIC, EnvelopeJson(env))
      && NoPublish(t[..|t| - 1])
      && env == Envelope(GATEWAY_ID, RssiDbm(t[k].reply), SnrDb(t[k + 1].reply), ts, parse(RxFrame(s)).value)
  {
    var irq := s.regs[REG_IRQ_FLAGS];
    var env := Expected(s, parse, ts).envelope;
    var ack := AckLog(AckFor(s, parse, repr), raised);
    var pre := [Spi(ReadFrame(REG_IRQ_FLAGS), irq), W(REG_IRQ_FLAGS, irq)] + RxLog(s);
    var p := MqttPublish(MQTT_TOPIC, EnvelopeJson(env));
    var m0 := Spi(ReadFrame(REG_PKT_RSSI_VALUE), s.regs[REG_PKT_RSSI_VALUE]);
    var m1 := Spi(ReadFrame(REG_PKT_SNR_VALUE), s.regs[REG_PKT_SNR_VALUE]);
    RelayPrefixQuiet(s);
    AckLogSpi(AckFor(s, parse, repr), raised);
    RelayTrace(s, parse, repr, ts, raised);
    assert StepTrace(s, parse, repr, ts, raised) == pre + [m0, m1] + ack + [p];
    RelayShape(pre, m0, m1, ack, p);
  }

  /** The relay path's trace, unfolded. */
  lemma RelayTrace(s: ChipState, parse: seq<Byte> -> Option<Json>, repr: Json -> string,
                   ts: string, raised: seq<Byte>)
    requires WellFormed(s) && Expected(s, parse, ts).Relayed?
    ensures var irq := s.regs[REG_IRQ_FLAGS];
      && Receives(irq)
      && StepTrace(s, parse, repr, ts, raised)
         == [Spi(ReadFrame(REG_IRQ_FLAGS), irq), W(REG_IRQ_FLAGS, irq)] + RxLog(s) + MetricsLog(s)
            + AckLog(AckFor(s, parse, repr), raised)
            + [MqttPublish(MQTT_TOPIC, EnvelopeJson(Expected(s, parse, ts).envelope))]
      && Expected(s, parse, ts).envelope
         == Envelope(GATEWAY_ID, RssiDbm(s.regs[REG_PKT_RSSI_VALUE]), SnrDb(s.regs[REG_PKT_SNR_VALUE]),
                     ts, parse(RxFrame(s)).value)
  {
    var irq := s.regs[REG_IRQ_FLAGS];
    assert Receives(irq);
    assert CheckFrame(RxFrame(s), parse).Accept?;
    AcceptedFrame(s, parse, repr, ts, raised);
    var out := FrameOutcome(s, parse, ts);
    assert Expected(s, parse, ts) == out;
    var read, wb := Spi(ReadFrame(REG_IRQ_FLAGS), irq), W(REG_IRQ_FLAGS, irq);
    var tail := MetricsLog(s) + AckLog(AckFor(s, parse, repr), raised) + [MqttPublish(MQTT_TOPIC, EnvelopeJson(out.envelope))];
    assert ServiceTrace(s, parse, repr, ts, raised) == [wb] + (RxLog(s) + tail);
    RelayTraceSplit([read, wb], s, AckFor(s, parse, repr), raised, EnvelopeJson(out.envelope));
  }

  /** What precedes the metrics on the relay path is quiet. */
  lemma RelayPrefixQuiet(s: ChipState)
    requires WellFormed(s) && Receives(s.regs[REG_IRQ_FLAGS])
    ensures var pre := [Spi(ReadFrame(REG_IRQ_FLAGS), s.regs[REG_IRQ_FLAGS]),
                        W(REG_IRQ_FLAGS, s.regs[REG_IRQ_FLAGS])] + RxLog(s);
      Quiet(pre) && |pre| == s.regs[REG_RX_NB_BYTES] as int + 5
  {
    var irq := s.regs[REG_IRQ_FLAGS];
    var head := [Spi(ReadFrame(REG_IRQ_FLAGS), irq), W(REG_IRQ_FLAGS, irq)];
    FrameTargets(REG_IRQ_FLAGS, 0, REG_OP_MODE, irq);
    FrameTargets(REG_IRQ_FLAGS, 0, REG_FIFO, irq);
    FrameTargets(REG_IRQ_FLAGS, irq, REG_OP_MODE, 0);
    FrameTargets(REG_IRQ_FLAGS, irq, REG_FIFO, 0);
    assert Quiet(head);
    RxLogQuiet(s);
    QuietAppend(head, RxLog(s));
  }

  /** The acknowledgment's traffic is SPI only and starts with standby. */
  lemma AckLogSpi(msg: seq<Byte>, raised: seq<Byte>)
    ensures NoPublish(AckLog(msg, raised))
    ensures |AckLog(msg, raised)| > 0 && AckLog(msg, raised)[0] == W(REG_OP_MODE, MODE_STDBY)
  {
    var ack := AckLog(msg, raised);
    var setup := AckSetupLog(msg);
    var poll := PollLog(raised, 0);
    PollLogSpi(raised, 0);
    forall i | 0 <= i < |ack|
      ensures ack[i].Spi?
    {
      if i < |setup| {
        assert ack[i] == setup[i];
      } else if i < |setup| + |poll| {
        assert ack[i] == poll[i - |setup|];
      }
    }
  }

  /** Index facts about a trace shaped prefix, two metric reads,
      acknowledgment, publish. */
  lemma RelayShape(pre: seq<Event>, m0: Event, m1: Event, ack: seq<Event>, p: Event)
    requires Quiet(pre) && m0.Spi? && m1.Spi? && |ack| > 0 && NoPublish(ack)
    ensures var t := pre + [m0, m1] + ack + [p];
      && |t| == |pre| + 3 + |ack|
      && Quiet(t[..|pre|])
      && t[|pre|] == m0 && t[|pre| + 1] == m1 && t[|pre| + 2] == ack[0]
      && t[|pre| + 2..|t| - 1] == ack
      && t[|t| - 1] == p
      && NoPublish(t[..|t| - 1])
  {
    var t := pre + [m0, m1] + ack + [p];
    assert t[..|pre|] == pre;
    assert t[|pre| + 2..|t| - 1] == ack;
    forall i | 0 <= i < |t| - 1
      ensures t[i].Spi?
    {
      if i < |pre| {
        assert t[i] == pre[i];
      } else if i >= |pre| + 2 {
        assert t[i] == ack[i - |pre| - 2];
      }
    }
  }

  /** The acknowledgment a node receives decodes to "ACK:" and the node text. */
  lemma AckDecodes(s: ChipState, parse: seq<Byte> -> Option<Json>, repr: Json -> string)
    requires WellFormed(s) && CheckFrame(RxFrame(s), parse).Accept?
    ensures Utf8.Decode(AckFor(s, parse, repr)) == Some("ACK:" + NodeText(CheckFrame(RxFrame(s), parse).node, repr))
  {
    Utf8.DecodeEncode("ACK:" + NodeText(CheckFrame(RxFrame(s), parse).node, repr));
  }

  /** A string node is acknowledged with its own text, without quotes and
      whatever `str()` makes of other values: the frame is the ASCII bytes of
      `ACK:` followed by the node's UTF-8, and decodes to `ACK:` + the node. */
  lemma StringNodeAck(s: ChipState, parse: seq<Byte> -> Option<Json>, repr: Json -> string)
    requires WellFormed(s) && CheckFrame(RxFrame(s), parse).Accept? && CheckFrame(RxFrame(s), parse).node.JStr?
    ensures var n := CheckFrame(RxFrame(s), parse).node.s;
      && AckFor(s, parse, repr) == [0x41, 0x43, 0x4B, 0x3A] + Utf8.Encode(n)
      && Utf8.Decode(AckFor(s, parse, repr)) == Some("ACK:" + n)
  {
    var n := CheckFrame(RxFrame(s), parse).node.s;
    assert NodeText(CheckFrame(RxFrame(s), parse).node, repr) == n;
    assert AckFor(s, parse, repr) == Utf8.Encode("ACK:" + n);
    Utf8.EncodeAppend("ACK:", n);
    Utf8.EncodeAscii("ACK:");
    assert Utf8.Encode("ACK:") == [0x41, 0x43, 0x4B, 0x3A];
    Utf8.DecodeEncode("ACK:" + n);
  }

  /** Every iteration writes back the flags it saw, so the chip is left with
      none pending and, with no new interrupt, the next iteration is idle.
      Here flags are raised only during the transmit-done poll, which the
      final 0xFF clear covers; a flag raised between the read and the
      write-back is the subject of `InterruptedWriteBack`. */
  lemma FlagsHandledOnce(s: ChipState, parse: seq<Byte> -> Option<Json>, repr: Json -> string, ts: string)
    requires WellFormed(s)
    ensures StepAfter(s, parse, repr).regs[REG_IRQ_FLAGS] == 0
    ensures Expected(StepAfter(s, parse, repr), parse, ts) == Idle
  {
  }

  /** A dropped frame leaves the registers (bar the flags) and the FIFO as
      they were. A CRC failure does not even move the FIFO pointer; any other
      drop leaves it just past the frame it drained. */
  lemma DropKeepsFifo(s: ChipState, parse: seq<Byte> -> Option<Json>, repr: Json -> string, ts: string)
    requires WellFormed(s) && Expected(s, parse, ts).Dropped?
    ensures var t := StepAfter(s, parse, repr);
      && t.fifo == s.fifo
      && t.regs == s.regs[REG_IRQ_FLAGS := 0]
      && (Expected(s, parse, ts).reason == CrcError ==> t.ptr == s.ptr)
      && (Expected(s, parse, ts).reason != CrcError ==> t.ptr == RxEnd(s))
  {
    var c := s.(regs := s.regs[REG_IRQ_FLAGS := 0]);
    FrameIgnoresFlags(s, 0, parse, repr, ts, []);
    assert RxEnd(c) == RxEnd(s);
  }

  /** After relaying, the acknowledgment is in the FIFO from address 0 with
      the rest of the FIFO untouched, RegPayloadLength holds its length, the
      pointer stands just past it and the radio is back in RX continuous
      mode, its TX base at 0. */
  lemma RelayLeavesAck(s: ChipState, parse: seq<Byte> -> Option<Json>, repr: Json -> string, ts: string)
    requires WellFormed(s) && Expected(s, parse, ts).Relayed?
    requires |AckFor(s, parse, repr)| <= 256
    ensures var t, msg := StepAfter(s, parse, repr), AckFor(s, parse, repr);
      && t.fifo[..|msg|] == msg
      && t.fifo[|msg|..] == s.fifo[|msg|..]
      && t.regs[REG_PAYLOAD_LENGTH] == |msg| % 256
      && t.ptr == |msg| % 256
      && t.regs[REG_OP_MODE] == MODE_RX_CONTINUOUS
      && t.regs[REG_FIFO_TX_BASE_ADDR] == 0
  {
    var c := s.(regs := s.regs[REG_IRQ_FLAGS := 0]);
    var msg := AckFor(s, parse, repr);
    assert Receives(s.regs[REG_IRQ_FLAGS]);
    FrameIgnoresFlags(s, 0, parse, repr, ts, []);
    assert AckFor(c, parse, repr) == msg;
    assert StepAfter(s, parse, repr) == Acknowledged(c, msg);
    AcknowledgedChip(c, msg);
  }

  /** The chip after an acknowledgment of at most 256 bytes: the message at
      the start of the FIFO, the rest as it was, the length and pointer at
      the message's end, receive mode and TX base 0. */
  lemma AcknowledgedChip(c: ChipState, msg: seq<Byte>)
    requires WellFormed(c) && |msg| <= 256
    ensures var t := Acknowledged(c, msg);
      && t.fifo[..|msg|] == msg
      && t.fifo[|msg|..] == c.fifo[|msg|..]
      && t.regs[REG_PAYLOAD_LENGTH] == |msg| % 256
      && t.ptr == |msg| % 256
      && t.regs[REG_OP_MODE] == MODE_RX_CONTINUOUS
      && t.regs[REG_FIFO_TX_BASE_ADDR] == 0
  {
    WrittenFromZero(c.fifo, msg);
  }
}
