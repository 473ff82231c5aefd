/** Register-level codec for the SX1278 LoRa transceiver as the gateway drives
    it: register addresses, the two-byte SPI frames of a register access, and
    the integer transforms for the carrier frequency, RSSI and SNR. */
module Codec {

  import opened Bits

  /** A register address: seven bits, the eighth bit of the first SPI byte
      selects write (1) or read (0). */
  type Addr = a: int | 0 <= a < 128

  // Register map (LoRa mode) used by the gateway.
  const REG_FIFO: Addr := 0x00
  const REG_OP_MODE: Addr := 0x01
  const REG_FRF_MSB: Addr := 0x06
  const REG_FRF_MID: Addr := 0x07
  const REG_FRF_LSB: Addr := 0x08
  const REG_PA_CONFIG: Addr := 0x09
  const REG_LNA: Addr := 0x0C
  const REG_FIFO_ADDR_PTR: Addr := 0x0D
  const REG_FIFO_TX_BASE_ADDR: Addr := 0x0E
  const REG_FIFO_RX_BASE_ADDR: Addr := 0x0F
  const REG_FIFO_RX_CURRENT_ADDR: Addr := 0x10
  const REG_IRQ_FLAGS: Addr := 0x12
  const REG_RX_NB_BYTES: Addr := 0x13
  const REG_PKT_SNR_VALUE: Addr := 0x19
  const REG_PKT_RSSI_VALUE: Addr := 0x1A
  const REG_MODEM_CONFIG_1: Addr := 0x1D
  const REG_MODEM_CONFIG_2: Addr := 0x1E
  const REG_PREAMBLE_MSB: Addr := 0x20
  const REG_PREAMBLE_LSB: Addr := 0x21
  const REG_PAYLOAD_LENGTH: Addr := 0x22
  const REG_MODEM_CONFIG_3: Addr := 0x26
  const REG_SYNC_WORD: Addr := 0x39
  const REG_VERSION: Addr := 0x42

  // Bits of RegIrqFlags.
  const IRQ_RX_DONE: Byte := 0x40
  const IRQ_TX_DONE: Byte := 0x08
  const IRQ_PAYLOAD_CRC_ERROR: Byte := 0x20

  // Values written to RegOpMode: long-range (LoRa) mode plus the mode bits.
  const MODE_SLEEP: Byte := 0x80
  const MODE_STDBY: Byte := 0x81
  const MODE_TX: Byte := 0x83
  const MODE_RX_CONTINUOUS: Byte := 0x85

  /** Python's `v & 0xFF` on an arbitrary-precision integer: two's complement
      makes it the non-negative remainder modulo 256, also for negative `v`. */
  function LowByte(v: int): Byte
  {
    v % 256
  }

  /** The two bytes `write_reg(a, v)` hands to `spi.xfer2`: `a | 0x80`,
      which for a seven-bit address is `a + 0x80`, and `v & 0xFF`. */
  function WriteFrame(a: Addr, v: int): (f: seq<Byte>)
    ensures |f| == 2 && f[0] == Or(a, 0x80) && f[0] >= 0x80 && f[1] == LowByte(v)
  {
    OrHigh(a);
    [a + 0x80, LowByte(v)]
  }

  /** The two bytes `read_reg(a)` hands to `spi.xfer2`: `a & 0x7F`, which
      for a seven-bit address is `a`, and a dummy byte; the reply's second
      byte is the register value. */
  function ReadFrame(a: Addr): (f: seq<Byte>)
    ensures |f| == 2 && f[0] == And(a, 0x7F) && f[0] < 0x80 && f[1] == 0
  {
    MaskBelow128(a);
    [a, 0]
  }

  /** How the transceiver interprets a two-byte SPI frame. */
  datatype Access = WriteAccess(addr: Addr, value: Byte) | ReadAccess(addr: Addr)

  function DecodeFrame(f: seq<Byte>): Access
    requires |f| == 2
  {
    var a := And(f[0], 0x7F);
    assert a < 128 by { MaskBelow128(f[0]); }
    if HasFlag(f[0], 0x80) then WriteAccess(a, f[1]) else ReadAccess(a)
  }

  /** A register write selects write mode, carries the address unchanged and
      carries the low byte of the value: the chip stores `v & 0xFF` in `a`. */
  lemma DecodeWriteFrame(a: Addr, v: int)
    ensures |WriteFrame(a, v)| == 2
    ensures DecodeFrame(WriteFrame(a, v)) == WriteAccess(a, v % 256)
  {
    var hi: Byte := a + 128;
    MaskBelow128(hi);
    assert hi % 128 == a;
    assert WriteFrame(a, v) == [hi, v % 256];
  }

  /** A register read selects read mode and carries the address unchanged. */
  lemma DecodeReadFrame(a: Addr)
    ensures |ReadFrame(a)| == 2
    ensures DecodeFrame(ReadFrame(a)) == ReadAccess(a)
  {
    MaskBelow128(a);
  }

  // ---------------------------------------------------------------------
  // Carrier frequency

  /** `int(freq / 61.03515625)`: the step of the frequency synthesiser is
      FXOSC / 2^19 = 32 MHz / 524288 = 15625/256 Hz, so the quotient is
      `freq * 256 / 15625`, truncated toward zero as Python's `int()` does. */
  function Frf(freq: int): (frf: int)
    ensures freq >= 0 ==> 0 <= frf && frf * 15625 <= freq * 256 < (frf + 1) * 15625
    ensures freq < 0 ==> frf <= 0 && -frf * 15625 <= -freq * 256 < (-frf + 1) * 15625
  {
    if freq >= 0 then freq * 256 / 15625 else -((-freq) * 256 / 15625)
  }

  /** Python's `x >> k` for k >= 0: division by 2^k rounded toward minus
      infinity, which is Dafny's division by a positive divisor. */
  function Shr(x: int, k: nat): int
  {
    x / Pow2(k)
  }

  /** The three bytes `set_frequency` writes to RegFrfMsb, RegFrfMid and
      RegFrfLsb: `frf >> 16`, `frf >> 8` and `frf`, each masked by `write_reg`.
      The split keeps exactly the low 24 bits: what the chip assembles is
      `frf mod 2^24`, for every integer `frf`. */
  function FrfBytes(frf: int): (b: (Byte, Byte, Byte))
    ensures Assemble(b.0, b.1, b.2) == frf % 0x100_0000
  {
    ShiftsAssemble(frf);
    (LowByte(Shr(frf, 16)), LowByte(Shr(frf, 8)), LowByte(frf))
  }

  /** The 24-bit value the chip assembles from its three frequency registers. */
  function Assemble(msb: Byte, mid: Byte, lsb: Byte): (v: int)
    ensures 0 <= v < 0x100_0000
  {
    msb * 0x1_0000 + mid * 0x100 + lsb
  }

  /** The step of `FrfBytes`' contract, on the shifted and masked values. */
  lemma {:induction false} ShiftsAssemble(frf: int)
    ensures Assemble(LowByte(Shr(frf, 16)), LowByte(Shr(frf, 8)), LowByte(frf)) == frf % 0x100_0000
  {
    ShrValues(frf);
    var r := frf % 0x100_0000;
    var q := frf / 0x100_0000;
    var hi := r / 65536;
    var lo16 := r % 65536;
    var mid := lo16 / 256;
    var lsb := lo16 % 256;
    DivMod65536(frf, q * 256 + hi, lo16);
    DivMod256(q * 256 + hi, q, hi);
    DivMod256(frf, q * 65536 + hi * 256 + mid, lsb);
    DivMod256(q * 65536 + hi * 256 + mid, q * 256 + hi, mid);
    assert (LowByte(Shr(frf, 16)), LowByte(Shr(frf, 8)), LowByte(frf)) == (hi, mid, lsb);
  }

  /** Assembling three register bytes and splitting again returns the bytes. */
  lemma AssembleFrfBytes(msb: Byte, mid: Byte, lsb: Byte)
    ensures FrfBytes(Assemble(msb, mid, lsb)) == (msb, mid, lsb)
  {
    var v := Assemble(msb, mid, lsb);
    var low := mid * 256 + lsb;
    var high := msb * 256 + mid;
    assert 0 <= low < 65536 && v == msb * 65536 + low && v == high * 256 + lsb;
    ShrValues(v);
    DivMod65536(v, msb, low);
    DivMod256(v, high, lsb);
    DivMod256(high, msb, mid);
    DivMod256(msb, 0, msb);
    assert FrfBytes(v) == (LowByte(msb), LowByte(high), LowByte(v));
  }

  /** Euclidean division by 256 and by 65536 is determined by the quotient
      and the remainder. */
  lemma DivMod256(x: int, q: int, r: int)
    requires 0 <= r < 256 && x == q * 256 + r
    ensures x / 256 == q && x % 256 == r
  {
  }

  lemma DivMod65536(x: int, q: int, r: int)
    requires 0 <= r < 65536 && x == q * 65536 + r
    ensures x / 65536 == q && x % 65536 == r
  {
  }

  lemma Pow2Values()
    ensures Pow2(8) == 256 && Pow2(16) == 65536
  {
    assert Pow2(4) == 16 && Pow2(8) == 256 && Pow2(12) == 4096;
  }

  /** The two shifts of `set_frequency` as divisions by constants. */
  lemma ShrValues(x: int)
    ensures Shr(x, 16) == x / 65536 && Shr(x, 8) == x / 256
  {
    Pow2Values();
  }

  /** The deployment's carrier, 433 MHz, programs Frf = 0x6C4000. */
  lemma Frf433MHz()
    ensures Frf(433_000_000) == 0x6C4000
    ensures FrfBytes(Frf(433_000_000)) == (0x6C, 0x40, 0x00)
    ensures Shr(0x6C4000, 16) == 0x6C && Shr(0x6C4000, 8) == 0x6C40
  {
    assert Frf(433_000_000) == 433_000_000 * 256 / 15625 == 0x6C4000;
    ShrValues(0x6C4000);
    assert Shr(0x6C4000, 16) == 0x6C && Shr(0x6C4000, 8) == 0x6C40;
    assert FrfBytes(0x6C4000) == (LowByte(0x6C), LowByte(0x6C40), LowByte(0x6C4000));
  }

  // ---------------------------------------------------------------------
  // Link metrics

  /** RSSI offset of the low-frequency port (section 5.5.5 of the Semtech
      SX1276/77/78/79 datasheet: RSSI = -164 + PacketRssi on the LF port). */
  const RSSI_OFFSET_LF: int := 164

  /** `rssi_dbm()` applied to the byte read from RegPktRssiValue. */
  function RssiDbm(raw: Byte): (dbm: int)
    ensures -164 <= dbm <= 91
  {
    raw - RSSI_OFFSET_LF
  }

  /** The register value that reports `dbm`, for every reportable level. */
  function RssiRaw(dbm: int): (raw: Byte)
    requires -164 <= dbm <= 91
  {
    dbm + RSSI_OFFSET_LF
  }

  /** RSSI conversion is a bijection between register bytes and [-164, 91]. */
  lemma RssiRoundTrip(raw: Byte, dbm: int)
    requires -164 <= dbm <= 91
    ensures RssiRaw(RssiDbm(raw)) == raw
    ensures RssiDbm(RssiRaw(dbm)) == dbm
    ensures RssiDbm(raw) == dbm <==> raw == RssiRaw(dbm)
  {
  }

  /** RegPktSnrValue read as a two's-complement byte: SNR in quarters of a dB.
      Negative exactly when bit 7 is set; reducing it modulo 256 gives back the
      register byte. */
  function SnrQuarters(raw: Byte): (q: int)
    ensures -128 <= q <= 127
    ensures q < 0 <==> HasFlag(raw, 0x80)
    ensures q % 256 == raw
  {
    MaskBelow128(raw);
    if HasFlag(raw, 0x80) then raw - 256 else raw
  }

  /** `snr_db()`: the quarter-dB count divided by four (exact in binary
      floating point, so the real quotient is the float Python computes). */
  function SnrDb(raw: Byte): (db: real)
    ensures -32.0 <= db <= 31.75
    ensures db * 4.0 == SnrQuarters(raw) as real
  {
    SnrQuarters(raw) as real / 4.0
  }

  /** Every quarter-dB value in [-128, 127] is reported by exactly one byte. */
  lemma SnrQuartersRoundTrip(q: int)
    requires -128 <= q <= 127
    ensures SnrQuarters(q % 256) == q
  {
  }
}
