/** The SX1278 as the gateway sees it over SPI, and the register-level
    procedures of the gateway script: `write_reg`, `read_reg`,
    `set_frequency`, the FIFO drain of the receive path and `send_ack`.

    The chip is a register file of 128 bytes, a 256-byte FIFO and the FIFO
    address pointer, which every FIFO access advances modulo 256. RegIrqFlags
    is write-1-to-clear; every other register stores what is written. The
    trace records, in order, every SPI transfer (frame sent, byte received)
    and every MQTT publish of the gateway process. */
module Transceiver {

  import opened Bits
  import opened Codec
  import opened Json
  import Utf8

  datatype Event =
    | Spi(frame: seq<Byte>, reply: Byte)
    | MqttPublish(topic: string, message: Json)

  /** The chip's state, as a value. */
  datatype ChipState = ChipState(regs: seq<Byte>, fifo: seq<Byte>, ptr: Byte)

  predicate WellFormed(s: ChipState)
  {
    |s.regs| == 128 && |s.fifo| == 256
  }

  /** One register access as the chip performs it: the new state and the byte
      it shifts out. A write's reply is not used by the gateway (0 here). */
  function Apply(s: ChipState, acc: Access): (r: (ChipState, Byte))
    requires WellFormed(s)
    ensures WellFormed(r.0)
  {
    match acc
    case WriteAccess(a, v) =>
      if a == REG_FIFO then (s.(fifo := s.fifo[s.ptr := v], ptr := (s.ptr + 1) % 256), 0)
      else if a == REG_FIFO_ADDR_PTR then (s.(ptr := v), 0)
      else if a == REG_IRQ_FLAGS then (s.(regs := s.regs[a := Clear(s.regs[a], v)]), 0)
      else (s.(regs := s.regs[a := v]), 0)
    case ReadAccess(a) =>
      if a == REG_FIFO then (s.(ptr := (s.ptr + 1) % 256), s.fifo[s.ptr])
      else if a == REG_FIFO_ADDR_PTR then (s, s.ptr)
      else (s, s.regs[a])
  }

  /** The trace entry of `write_reg(a, v)`. */
  function W(a: Addr, v: int): Event
  {
    Spi(WriteFrame(a, v), 0)
  }

  /** `f` after writing `m` through the FIFO port starting at pointer `p`:
      byte k of `m` lands at `(p + k) mod 256`, later bytes overwriting
      earlier ones once the pointer wraps. */
  function Written(f: seq<Byte>, p: Byte, m: seq<Byte>): (r: seq<Byte>)
    requires |f| == 256
    ensures |r| == 256
    decreases |m|
  {
    if m == [] then f
    else Written(f, p, m[..|m| - 1])[(p + |m| - 1) % 256 := m[|m| - 1]]
  }

  /** The bytes `n` successive FIFO reads return from pointer `p`. */
  function Window(f: seq<Byte>, p: Byte, n: nat): (r: seq<Byte>)
    requires |f| == 256
    ensures |r| == n
  {
    seq(n, i requires 0 <= i < n => f[(p + i) % 256])
  }

  function FifoWriteLog(m: seq<Byte>): (r: seq<Event>)
    ensures |r| == |m|
  {
    seq(|m|, i requires 0 <= i < |m| => W(REG_FIFO, m[i]))
  }

  function FifoReadLog(m: seq<Byte>): (r: seq<Event>)
    ensures |r| == |m|
  {
    seq(|m|, i requires 0 <= i < |m| => Spi(ReadFrame(REG_FIFO), m[i]))
  }

  /** Flags OR-ed together, as RegIrqFlags accumulates them. */
  function OrAll(s: seq<Byte>): Byte
  {
    if s == [] then 0 else Or(OrAll(s[..|s| - 1]), s[|s| - 1])
  }

  /** The reads of RegIrqFlags in the transmit-done poll. The chip raises
      `raised[i]` before poll i; RegIrqFlags holds `acc` before that. Polling
      stops at the first read that shows TX_DONE or when the polls run out. */
  function PollLog(raised: seq<Byte>, acc: Byte): seq<Event>
  {
    if raised == [] then []
    else
      var v := Or(acc, raised[0]);
      [Spi(ReadFrame(REG_IRQ_FLAGS), v)]
      + (if HasFlag(v, IRQ_TX_DONE) then [] else PollLog(raised[1..], v))
  }

  /** Some poll before the deadline sees the chip raise TX_DONE. */
  predicate TxDoneRaised(raised: seq<Byte>)
  {
    exists i :: 0 <= i < |raised| && HasFlag(raised[i], IRQ_TX_DONE)
  }

  /** The writes of `set_frequency(freq)`: the register value shifted right by
      16, by 8 and not at all, each truncated to its low byte by `write_reg`. */
  function FrequencyLog(freq: int): seq<Event>
  {
    var frf := Frf(freq);
    [W(REG_FRF_MSB, Shr(frf, 16)), W(REG_FRF_MID, Shr(frf, 8)), W(REG_FRF_LSB, frf)]
  }

  /** The bytes `send_ack(node)` transmits. */
  function AckBytes(node: string): seq<Byte>
  {
    Utf8.Encode("ACK:" + node)
  }

  /** Register writes of `send_ack` before the poll: standby, TX base and
      FIFO pointer at 0, the message, its length, IRQ clear, TX mode. */
  function AckSetupLog(msg: seq<Byte>): seq<Event>
  {
    [W(REG_OP_MODE, MODE_STDBY), W(REG_FIFO_TX_BASE_ADDR, 0), W(REG_FIFO_ADDR_PTR, 0)]
    + FifoWriteLog(msg)
    + [W(REG_PAYLOAD_LENGTH, |msg|), W(REG_IRQ_FLAGS, 0xFF), W(REG_OP_MODE, MODE_TX)]
  }

  /** The chip after `send_ack` of `msg`: the message in the FIFO from
      address 0, RegPayloadLength its length modulo 256, the pointer just past
      it, TX base 0, no flag pending and RX continuous mode. */
  function Acknowledged(s: ChipState, msg: seq<Byte>): (t: ChipState)
    requires WellFormed(s)
    ensures WellFormed(t)
  {
    ChipState(s.regs[REG_OP_MODE := MODE_RX_CONTINUOUS][REG_FIFO_TX_BASE_ADDR := 0]
                    [REG_PAYLOAD_LENGTH := |msg| % 256][REG_IRQ_FLAGS := 0],
              Written(s.fifo, 0, msg), |msg| % 256)
  }

  /** The whole SPI traffic of `send_ack`. */
  function AckLog(msg: seq<Byte>, raised: seq<Byte>): seq<Event>
  {
    AckSetupLog(msg) + PollLog(raised, 0)
    + [W(REG_IRQ_FLAGS, 0xFF), W(REG_OP_MODE, MODE_RX_CONTINUOUS)]
  }

  predicate NoPublish(t: seq<Event>)
  {
    forall i :: 0 <= i < |t| ==> t[i].Spi?
  }

  class Radio {
    var regs: seq<Byte>
    const fifo: array<Byte>
    var ptr: Byte
    /** Observable effects of the gateway process, oldest first. */
    var trace: seq<Event>

    ghost predicate Valid()
      reads this
    {
      |regs| == 128 && fifo.Length == 256
    }

    function State(): (s: ChipState)
      reads this, fifo
      requires Valid()
      ensures WellFormed(s)
    {
      ChipState(regs, fifo[..], ptr)
    }

    /** A chip with the given register contents, an all-zero FIFO, the FIFO
        pointer at 0 and an empty trace. */
    constructor (regs0: seq<Byte>)
      requires |regs0| == 128
      ensures Valid() && fresh(fifo)
      ensures State() == ChipState(regs0, seq(256, _ => 0), 0) && trace == []
    {
      regs := regs0;
      fifo := new Byte[256](_ => 0);
      ptr := 0;
      trace := [];
    }

    /** `spi.xfer2(frame)`: the chip performs the access the frame encodes. */
    method Xfer(frame: seq<Byte>) returns (reply: Byte)
      requires Valid() && |frame| == 2
      modifies this, fifo
      ensures Valid()
      ensures (State(), reply) == Apply(old(State()), DecodeFrame(frame))
      ensures trace == old(trace) + [Spi(frame, reply)]
    {
      var acc := DecodeFrame(frame);
      var r := Apply(State(), acc);
      if acc.WriteAccess? && acc.addr == REG_FIFO {
        fifo[ptr] := acc.value;
      }
      regs, ptr, reply := r.0.regs, r.0.ptr, r.1;
      trace := trace + [Spi(frame, reply)];
    }

    /** `write_reg(a, v)`: register `a` receives `v & 0xFF` (FIFO and FIFO
        pointer as the chip defines them, RegIrqFlags cleared where `v` has
        ones). */
    method WriteReg(a: Addr, v: int)
      requires Valid()
      modifies this, fifo
      ensures Valid()
      ensures a == REG_FIFO ==>
        regs == old(regs) && fifo[..] == old(fifo[..])[old(ptr) := v % 256] && ptr == (old(ptr) + 1) % 256
      ensures a == REG_FIFO_ADDR_PTR ==>
        regs == old(regs) && fifo[..] == old(fifo[..]) && ptr == v % 256
      ensures a == REG_IRQ_FLAGS ==>
        regs == old(regs)[a := Clear(old(regs)[a], v % 256)] && fifo[..] == old(fifo[..]) && ptr == old(ptr)
      ensures a != REG_FIFO && a != REG_FIFO_ADDR_PTR && a != REG_IRQ_FLAGS ==>
        regs == old(regs)[a := v % 256] && fifo[..] == old(fifo[..]) && ptr == old(ptr)
      ensures trace == old(trace) + [W(a, v)]
    {
      DecodeWriteFrame(a, v);
      var _ := Xfer(WriteFrame(a, v));
    }

    /** `read_reg(a)`. */
    method ReadReg(a: Addr) returns (v: Byte)
      requires Valid()
      modifies this, fifo
      ensures Valid()
      ensures regs == old(regs) && fifo[..] == old(fifo[..])
      ensures a == REG_FIFO ==> v == old(fifo[ptr]) && ptr == (old(ptr) + 1) % 256
      ensures a == REG_FIFO_ADDR_PTR ==> v == old(ptr) && ptr == old(ptr)
      ensures a != REG_FIFO && a != REG_FIFO_ADDR_PTR ==> v == old(regs)[a] && ptr == old(ptr)
      ensures trace == old(trace) + [Spi(ReadFrame(a), v)]
    {
      DecodeReadFrame(a);
      v := Xfer(ReadFrame(a));
    }

    /** `write_reg(a, v)` for an ordinary register: it receives `v & 0xFF`. */
    method SetReg(a: Addr, v: int)
      requires Valid() && a != REG_FIFO && a != REG_FIFO_ADDR_PTR && a != REG_IRQ_FLAGS
      modifies this, fifo
      ensures Valid() && regs == old(regs)[a := v % 256]
      ensures fifo[..] == old(fifo[..]) && ptr == old(ptr)
      ensures trace == old(trace) + [W(a, v)]
    {
      WriteReg(a, v);
    }

    /** `write_reg(REG_FIFO_ADDR_PTR, v)`: the FIFO pointer moves to `v & 0xFF`. */
    method SetPtr(v: int)
      requires Valid()
      modifies this, fifo
      ensures Valid() && regs == old(regs) && fifo[..] == old(fifo[..]) && ptr == v % 256
      ensures trace == old(trace) + [W(REG_FIFO_ADDR_PTR, v)]
    {
      WriteReg(REG_FIFO_ADDR_PTR, v);
    }

    /** `write_reg(REG_IRQ_FLAGS, v)`: the flags where `v` has ones are cleared. */
    method ClearFlags(v: int)
      requires Valid()
      modifies this, fifo
      ensures Valid() && regs == old(regs)[REG_IRQ_FLAGS := Clear(old(regs)[REG_IRQ_FLAGS], v % 256)]
      ensures fifo[..] == old(fifo[..]) && ptr == old(ptr)
      ensures trace == old(trace) + [W(REG_IRQ_FLAGS, v)]
    {
      WriteReg(REG_IRQ_FLAGS, v);
    }

    /** `read_reg(a)` for a register other than the FIFO and its pointer. */
    method GetReg(a: Addr) returns (v: Byte)
      requires Valid() && a != REG_FIFO && a != REG_FIFO_ADDR_PTR
      modifies this, fifo
      ensures Valid() && regs == old(regs) && fifo[..] == old(fifo[..]) && ptr == old(ptr)
      ensures State() == old(State())
      ensures v == regs[a]
      ensures trace == old(trace) + [Spi(ReadFrame(a), v)]
    {
      v := ReadReg(a);
    }

    /** `read_reg(REG_FIFO)`: the byte under the FIFO pointer, which advances. */
    method PopFifo() returns (v: Byte)
      requires Valid()
      modifies this, fifo
      ensures Valid() && regs == old(regs) && fifo[..] == old(fifo[..])
      ensures v == old(fifo[ptr]) && ptr == (old(ptr) + 1) % 256
      ensures trace == old(trace) + [Spi(ReadFrame(REG_FIFO), v)]
    {
      v := ReadReg(REG_FIFO);
    }

    /** An interrupt source of the chip sets `flags` in RegIrqFlags (reception
        or transmission finished); this is hardware, not SPI traffic. */
    method Raise(flags: Byte)
      requires Valid()
      modifies this
      ensures Valid()
      ensures regs == old(regs)[REG_IRQ_FLAGS := Or(old(regs)[REG_IRQ_FLAGS], flags)]
      ensures ptr == old(ptr) && trace == old(trace)
    {
      regs := regs[REG_IRQ_FLAGS := Or(regs[REG_IRQ_FLAGS], flags)];
    }

    /** `mqttc.publish(topic, message)`, recorded in the same trace. */
    method Publish(topic: string, message: Json)
      requires Valid()
      modifies this
      ensures Valid()
      ensures regs == old(regs) && ptr == old(ptr)
      ensures trace == old(trace) + [MqttPublish(topic, message)]
    {
      trace := trace + [MqttPublish(topic, message)];
    }

    /** `set_frequency(freq)`: the three Frf registers receive the bytes of
        `Frf(freq)`, which the chip assembles into `Frf(freq) mod 2^24`. */
    method SetFrequency(freq: int)
      requires Valid()
      modifies this, fifo
      ensures Valid() && fifo[..] == old(fifo[..]) && ptr == old(ptr)
      ensures var b := FrfBytes(Frf(freq));
        regs == old(regs)[REG_FRF_MSB := b.0][REG_FRF_MID := b.1][REG_FRF_LSB := b.2]
      ensures Assemble(regs[REG_FRF_MSB], regs[REG_FRF_MID], regs[REG_FRF_LSB]) == Frf(freq) % 0x100_0000
      ensures trace == old(trace) + FrequencyLog(freq)
    {
      var frf := Frf(freq);
      SetReg(REG_FRF_MSB, Shr(frf, 16));
      SetReg(REG_FRF_MID, Shr(frf, 8));
      SetReg(REG_FRF_LSB, frf);
      assert FrfBytes(frf) == (regs[REG_FRF_MSB], regs[REG_FRF_MID], regs[REG_FRF_LSB]);
    }

    /** `bytes(read_reg(REG_FIFO) for _ in range(n))`. */
    method ReadFifo(n: nat) returns (bytes: seq<Byte>)
      requires Valid()
      modifies this, fifo
      ensures Valid() && regs == old(regs) && fifo[..] == old(fifo[..])
      ensures bytes == Window(old(fifo[..]), old(ptr), n)
      ensures ptr == (old(ptr) + n) % 256
      ensures trace == old(trace) + FifoReadLog(bytes)
    {
      bytes := [];
      var i := 0;
      while i < n
        invariant 0 <= i <= n && Valid()
        invariant regs == old(regs) && fifo[..] == old(fifo[..])
        invariant ptr == (old(ptr) + i) % 256
        invariant bytes == Window(old(fifo[..]), old(ptr), i)
        invariant trace == old(trace) + FifoReadLog(bytes)
      {
        var b := PopFifo();
        WrapSucc(old(ptr) + i);
        assert FifoReadLog(bytes + [b]) == FifoReadLog(bytes) + [Spi(ReadFrame(REG_FIFO), b)];
        assert Window(old(fifo[..]), old(ptr), i + 1) == Window(old(fifo[..]), old(ptr), i) + [b];
        bytes := bytes + [b];
        i := i + 1;
      }
    }

    /** `write_reg(REG_FIFO, b)`: the byte goes to the slot under the FIFO
        pointer, which advances. */
    method PushFifo(b: Byte)
      requires Valid()
      modifies this, fifo
      ensures Valid() && regs == old(regs)
      ensures fifo[..] == old(fifo[..])[old(ptr) := b] && ptr == (old(ptr) + 1) % 256
      ensures trace == old(trace) + [W(REG_FIFO, b)]
    {
      WriteReg(REG_FIFO, b);
    }

    /** Writes `msg` into the FIFO one register write per byte. */
    method WriteFifo(msg: seq<Byte>)
      requires Valid()
      modifies this, fifo
      ensures Valid() && regs == old(regs)
      ensures fifo[..] == Written(old(fifo[..]), old(ptr), msg)
      ensures ptr == (old(ptr) + |msg|) % 256
      ensures trace == old(trace) + FifoWriteLog(msg)
    {
      var i := 0;
      while i < |msg|
        invariant 0 <= i <= |msg| && Valid()
        invariant regs == old(regs)
        invariant fifo[..] == Written(old(fifo[..]), old(ptr), msg[..i])
        invariant ptr == (old(ptr) + i) % 256
        invariant trace == old(trace) + FifoWriteLog(msg[..i])
      {
        PushFifo(msg[i]);
        WrapSucc(old(ptr) + i);
        WrittenSnoc(old(fifo[..]), old(ptr), msg, i);
        FifoWriteLogSnoc(msg, i);
        i := i + 1;
      }
      assert msg[..|msg|] == msg;
    }

    /** The transmit-done poll of `send_ack`: one read of RegIrqFlags per
        element of `raised`, leaving early once TX_DONE shows. */
    method PollTxDone(raised: seq<Byte>) returns (txDone: bool)
      requires Valid() && regs[REG_IRQ_FLAGS] == 0
      modifies this, fifo
      ensures Valid() && fifo[..] == old(fifo[..]) && ptr == old(ptr)
      ensures regs == old(regs)[REG_IRQ_FLAGS := regs[REG_IRQ_FLAGS]]
      ensures txDone == TxDoneRaised(raised)
      ensures trace == old(trace) + PollLog(raised, 0)
    {
      txDone := false;
      var i := 0;
      ghost var done: seq<Event> := [];
      while i < |raised|
        invariant 0 <= i <= |raised| && Valid()
        invariant fifo[..] == old(fifo[..]) && ptr == old(ptr)
        invariant regs == old(regs)[REG_IRQ_FLAGS := regs[REG_IRQ_FLAGS]]
        invariant !HasFlag(regs[REG_IRQ_FLAGS], IRQ_TX_DONE)
        invariant forall j :: 0 <= j < i ==> !HasFlag(raised[j], IRQ_TX_DONE)
        invariant trace == old(trace) + done
        invariant done + PollLog(raised[i..], regs[REG_IRQ_FLAGS]) == PollLog(raised, 0)
      {
        var acc := regs[REG_IRQ_FLAGS];
        Raise(raised[i]);
        var v := GetReg(REG_IRQ_FLAGS);
        PollAdvance(old(trace), done, PollLog(raised, 0), raised, i, acc);
        OrHasFlag(acc, raised[i], IRQ_TX_DONE);
        done := done + [Spi(ReadFrame(REG_IRQ_FLAGS), v)];
        if HasFlag(v, IRQ_TX_DONE) {
          assert HasFlag(raised[i], IRQ_TX_DONE);
          txDone := true;
          return;
        }
        i := i + 1;
      }
    }

    /** `send_ack(node)`: the chip ends as `Acknowledged` describes, whether
        or not TX_DONE showed before the polls ran out. */
    method SendAck(node: string, raised: seq<Byte>) returns (txDone: bool)
      requires Valid()
      modifies this, fifo
      ensures Valid()
      ensures State() == Acknowledged(old(State()), AckBytes(node))
      ensures trace == old(trace) + AckLog(AckBytes(node), raised)
      ensures txDone == TxDoneRaised(raised)
    {
      var msg := AckBytes(node);
      ghost var s, t0 := State(), trace;
      LoadAndTransmit(msg);
      txDone := PollTxDone(raised);
      ghost var polled := regs[REG_IRQ_FLAGS];
      BackToReceive();
      AckRegisters(s.regs, |msg| % 256, polled);
      AckTraceSplit(t0, msg, raised);
    }

    /** The part of `send_ack` before the poll: standby, TX base and FIFO
        pointer at 0, the message into the FIFO, its length, every flag
        cleared, then TX mode. */
    method LoadAndTransmit(msg: seq<Byte>)
      requires Valid()
      modifies this, fifo
      ensures Valid()
      ensures regs == old(regs)[REG_OP_MODE := MODE_STDBY][REG_FIFO_TX_BASE_ADDR := 0]
                               [REG_PAYLOAD_LENGTH := |msg| % 256][REG_IRQ_FLAGS := 0][REG_OP_MODE := MODE_TX]
      ensures fifo[..] == Written(old(fifo[..]), 0, msg) && ptr == |msg| % 256
      ensures trace == old(trace) + AckSetupLog(msg)
    {
      ghost var r0, t0 := regs, trace;
      SetReg(REG_OP_MODE, MODE_STDBY);
      SetReg(REG_FIFO_TX_BASE_ADDR, 0x00);
      SetPtr(0x00);
      WriteFifo(msg);
      SetReg(REG_PAYLOAD_LENGTH, |msg|);
      ClearAll(r0[REG_IRQ_FLAGS]);
      ClearFlags(0xFF);
      SetReg(REG_OP_MODE, MODE_TX);
      SetupTraceSplit(t0, msg);
    }

    /** The end of `send_ack`: every flag cleared and RX continuous mode. */
    method BackToReceive()
      requires Valid()
      modifies this, fifo
      ensures Valid() && fifo[..] == old(fifo[..]) && ptr == old(ptr)
      ensures regs == old(regs)[REG_IRQ_FLAGS := 0][REG_OP_MODE := MODE_RX_CONTINUOUS]
      ensures trace == old(trace) + [W(REG_IRQ_FLAGS, 0xFF), W(REG_OP_MODE, MODE_RX_CONTINUOUS)]
    {
      ClearAll(regs[REG_IRQ_FLAGS]);
      ClearFlags(0xFF);
      SetReg(REG_OP_MODE, MODE_RX_CONTINUOUS);
    }
  }

  /** Byte j of a FIFO write lands at `(p + j) mod 256` and stays there unless
      a byte 256 or more positions later overwrites it. */
  lemma {:induction false} WrittenAt(f: seq<Byte>, p: Byte, m: seq<Byte>, j: nat)
    requires |f| == 256 && j < |m| && |m| <= j + 256
    ensures Written(f, p, m)[(p + j) % 256] == m[j]
    decreases |m|
  {
    var last := |m| - 1;
    if j < last {
      DistinctSlots(p + j, p + last);
      assert m[..last][j] == m[j];
      WrittenAt(f, p, m[..last], j);
    }
  }

  /** Writing fewer than k + 1 bytes from address 0 leaves slot k alone. */
  lemma {:induction false} WrittenElsewhere(f: seq<Byte>, m: seq<Byte>, k: nat)
    requires |f| == 256 && |m| <= k < 256
    ensures Written(f, 0, m)[k] == f[k]
    decreases |m|
  {
    if m != [] {
      WrittenElsewhere(f, m[..|m| - 1], k);
    }
  }

  /** A message of at most 256 bytes written from address 0 occupies the
      first |m| FIFO slots, in order; the other slots keep their content. */
  lemma WrittenFromZero(f: seq<Byte>, m: seq<Byte>)
    requires |f| == 256 && |m| <= 256
    ensures Written(f, 0, m)[..|m|] == m
    ensures Written(f, 0, m)[|m|..] == f[|m|..]
  {
    var w := Written(f, 0, m);
    forall j | 0 <= j < |m|
      ensures w[..|m|][j] == m[j]
    {
      WrittenFromZeroAt(f, m, j);
    }
    forall k | 0 <= k < 256 - |m|
      ensures w[|m|..][k] == f[|m|..][k]
    {
      WrittenElsewhere(f, m, |m| + k);
    }
  }

  /** Byte j of a message of at most 256 bytes written from address 0 is in slot j. */
  lemma WrittenFromZeroAt(f: seq<Byte>, m: seq<Byte>, j: nat)
    requires |f| == 256 && j < |m| <= 256
    ensures Written(f, 0, m)[j] == m[j]
  {
    WrittenAt(f, 0, m, j);
  }

  /** Two FIFO positions less than 256 apart are different slots. */
  lemma DistinctSlots(x: nat, y: nat)
    requires x < y < x + 256
    ensures x % 256 != y % 256
  {
  }

  /** One step of the FIFO pointer, which counts modulo 256. */
  lemma WrapSucc(x: nat)
    ensures (x % 256 + 1) % 256 == (x + 1) % 256
  {
  }

  /** Writing one more byte of `m` updates one more FIFO slot. */
  lemma WrittenSnoc(f: seq<Byte>, p: Byte, m: seq<Byte>, i: nat)
    requires |f| == 256 && i < |m|
    ensures Written(f, p, m[..i + 1]) == Written(f, p, m[..i])[(p + i) % 256 := m[i]]
  {
    assert m[..i + 1][..i] == m[..i];
  }

  lemma FifoWriteLogSnoc(m: seq<Byte>, i: nat)
    requires i < |m|
    ensures FifoWriteLog(m[..i + 1]) == FifoWriteLog(m[..i]) + [W(REG_FIFO, m[i])]
  {
  }

  /** One poll: the read shows the flags so far with `raised[i]` added, and
      polling goes on only if TX_DONE is still clear. */
  lemma PollStep(raised: seq<Byte>, i: nat, acc: Byte)
    requires i < |raised|
    ensures var v := Or(acc, raised[i]);
      PollLog(raised[i..], acc)
      == [Spi(ReadFrame(REG_IRQ_FLAGS), v)] + (if HasFlag(v, IRQ_TX_DONE) then [] else PollLog(raised[i + 1..], v))
  {
    assert raised[i..][1..] == raised[i + 1..];
  }

  /** The writes before the poll, one call at a time, after any earlier trace. */
  lemma SetupTraceSplit(t0: seq<Event>, msg: seq<Byte>)
    ensures t0 + [W(REG_OP_MODE, MODE_STDBY)] + [W(REG_FIFO_TX_BASE_ADDR, 0)] + [W(REG_FIFO_ADDR_PTR, 0)]
      + FifoWriteLog(msg) + [W(REG_PAYLOAD_LENGTH, |msg|)] + [W(REG_IRQ_FLAGS, 0xFF)] + [W(REG_OP_MODE, MODE_TX)]
      == t0 + AckSetupLog(msg)
  {
  }

  /** The three parts of `send_ack`'s traffic, after any earlier trace. */
  lemma AckTraceSplit(t0: seq<Event>, msg: seq<Byte>, raised: seq<Byte>)
    ensures t0 + AckSetupLog(msg) + PollLog(raised, 0)
      + [W(REG_IRQ_FLAGS, 0xFF), W(REG_OP_MODE, MODE_RX_CONTINUOUS)]
      == t0 + AckLog(msg, raised)
  {
  }

  /** The invariant of the poll loop carried over one poll: `done` followed
      by the polls still to come is the whole poll log `all`. */
  lemma PollAdvance(t0: seq<Event>, done: seq<Event>, all: seq<Event>, raised: seq<Byte>, i: nat, acc: Byte)
    requires i < |raised| && done + PollLog(raised[i..], acc) == all
    ensures var e := Spi(ReadFrame(REG_IRQ_FLAGS), Or(acc, raised[i]));
      && t0 + done + [e] == t0 + (done + [e])
      && (HasFlag(Or(acc, raised[i]), IRQ_TX_DONE) ==> done + [e] == all)
      && (!HasFlag(Or(acc, raised[i]), IRQ_TX_DONE) ==>
            done + [e] + PollLog(raised[i + 1..], Or(acc, raised[i])) == all)
  {
    var v := Or(acc, raised[i]);
    var e := Spi(ReadFrame(REG_IRQ_FLAGS), v);
    PollStep(raised, i, acc);
    Associative(t0, done, [e]);
    if HasFlag(v, IRQ_TX_DONE) {
      assert [e] + [] == [e];
    } else {
      Associative(done, [e], PollLog(raised[i + 1..], v));
    }
  }

  lemma Associative(a: seq<Event>, b: seq<Event>, c: seq<Event>)
    ensures a + b + c == a + (b + c)
  {
  }

  /** The register writes of `send_ack` and the flags the poll leaves in
      RegIrqFlags, which are cleared at the end, amount to `Acknowledged`'s
      registers. */
  lemma AckRegisters(r0: seq<Byte>, len: Byte, polled: Byte)
    requires |r0| == 128
    ensures r0[REG_OP_MODE := MODE_STDBY][REG_FIFO_TX_BASE_ADDR := 0][REG_PAYLOAD_LENGTH := len]
              [REG_IRQ_FLAGS := 0][REG_OP_MODE := MODE_TX][REG_IRQ_FLAGS := polled]
              [REG_IRQ_FLAGS := 0][REG_OP_MODE := MODE_RX_CONTINUOUS]
         == r0[REG_OP_MODE := MODE_RX_CONTINUOUS][REG_FIFO_TX_BASE_ADDR := 0]
              [REG_PAYLOAD_LENGTH := len][REG_IRQ_FLAGS := 0]
  {
  }
}
