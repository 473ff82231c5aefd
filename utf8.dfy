/** UTF-8, as used by `f"ACK:{node}".encode("utf-8")` in the acknowledgment
    path: each Unicode scalar value becomes one to four bytes. The decoder is
    the partner that a receiving node applies to the acknowledgment frame. */
module Utf8 {

  import opened Wrappers
  import opened Bits

  /** The UTF-8 bytes of one scalar value. */
  function EncodeChar(c: char): (b: seq<Byte>)
    ensures 1 <= |b| <= 4
    ensures |b| == 1 <==> c as int < 0x80
  {
    var n := c as int;
    if n < 0x80 then [n]
    else if n < 0x800 then [0xC0 + n / 64, 0x80 + n % 64]
    else if n < 0x10000 then [0xE0 + n / 4096, 0x80 + (n / 64) % 64, 0x80 + n % 64]
    else [0xF0 + n / 262144, 0x80 + (n / 4096) % 64, 0x80 + (n / 64) % 64, 0x80 + n % 64]
  }

  /** `s.encode("utf-8")`. */
  function Encode(s: string): (b: seq<Byte>)
    ensures |s| <= |b| <= 4 * |s|
  {
    if s == [] then [] else EncodeChar(s[0]) + Encode(s[1..])
  }

  predicate IsContinuation(b: Byte)
  {
    0x80 <= b < 0xC0
  }

  /** Decodes the first scalar value of `b`: the value and the number of
      bytes it occupies, or `None` for a malformed, overlong, surrogate or
      truncated sequence. */
  function DecodeFirst(b: seq<Byte>): (r: Option<(char, nat)>)
    ensures r.Some? ==> 1 <= r.value.1 <= |b|
  {
    if |b| == 0 then None
    else if b[0] < 0x80 then Some((b[0] as char, 1))
    else if 0xC0 <= b[0] < 0xE0 then
      if |b| < 2 || !IsContinuation(b[1]) then None
      else
        var n := (b[0] as int - 0xC0) * 64 + (b[1] as int - 0x80);
        if n < 0x80 then None else Some((n as char, 2))
    else if 0xE0 <= b[0] < 0xF0 then
      if |b| < 3 || !IsContinuation(b[1]) || !IsContinuation(b[2]) then None
      else
        var n := (b[0] as int - 0xE0) * 4096 + (b[1] as int - 0x80) * 64 + (b[2] as int - 0x80);
        if n < 0x800 || (0xD800 <= n < 0xE000) then None else Some((n as char, 3))
    else if 0xF0 <= b[0] < 0xF8 then
      if |b| < 4 || !IsContinuation(b[1]) || !IsContinuation(b[2]) || !IsContinuation(b[3]) then None
      else
        var n := (b[0] as int - 0xF0) * 262144 + (b[1] as int - 0x80) * 4096 + (b[2] as int - 0x80) * 64 + (b[3] as int - 0x80);
        if n < 0x10000 || n >= 0x110000 then None else Some((n as char, 4))
    else None
  }

  /** Strict UTF-8 decoding of a whole byte string. */
  function Decode(b: seq<Byte>): Option<string>
    decreases |b|
  {
    if b == [] then Some("")
    else match DecodeFirst(b)
      case None => None
      case Some((c, k)) =>
        match Decode(b[k..])
        case None => None
        case Some(rest) => Some([c] + rest)
  }

  /** A one-byte sequence is an ASCII character; a longer one encodes a
      value of at least 0x80 and ends with a continuation byte. */
  lemma DecodeFirstShape(b: seq<Byte>)
    requires DecodeFirst(b).Some?
    ensures var (c, k) := DecodeFirst(b).value;
      && (k == 1 <==> b[0] < 0x80)
      && (k == 1 ==> c as int == b[0])
      && (k > 1 ==> c as int >= 0x80 && IsContinuation(b[k - 1]))
  {
  }

  /** For well-formed UTF-8 and an ASCII character `x`, the text starts (ends)
      with `x` exactly when the bytes start (end) with `x`'s code. */
  lemma {:induction false} DecodeAsciiEnds(b: seq<Byte>, x: Byte)
    requires x < 0x80 && Decode(b).Some?
    ensures |Decode(b).value| == 0 <==> |b| == 0
    ensures |b| > 0 ==> (Decode(b).value[0] as int == x <==> b[0] == x)
    ensures |b| > 0 ==> (Decode(b).value[|Decode(b).value| - 1] as int == x <==> b[|b| - 1] == x)
    decreases |b|
  {
    if |b| > 0 {
      var (c, k) := DecodeFirst(b).value;
      DecodeFirstShape(b);
      var rest := Decode(b[k..]).value;
      assert Decode(b).value == [c] + rest;
      DecodeAsciiEnds(b[k..], x);
      if k < |b| {
        assert b[k..][|b[k..]| - 1] == b[|b| - 1];
      }
    }
  }

  /** The bytes of one scalar value decode to that value, whatever follows. */
  lemma DecodeFirstEncodeChar(c: char, rest: seq<Byte>)
    ensures DecodeFirst(EncodeChar(c) + rest) == Some((c, |EncodeChar(c)|))
  {
    var n := c as int;
    if n < 0x80 {
    } else if n < 0x800 {
      DecodeTwo(c, rest);
    } else if n < 0x10000 {
      DecodeThree(c, rest);
    } else {
      DecodeFour(c, rest);
    }
  }

  lemma DecodeTwo(c: char, rest: seq<Byte>)
    requires 0x80 <= c as int < 0x800
    ensures DecodeFirst(EncodeChar(c) + rest) == Some((c, 2))
  {
    var n := c as int;
    var b := EncodeChar(c) + rest;
    var q, r := n / 64, n % 64;
    assert n == q * 64 + r && 2 <= q < 32;
    assert b[0] == 0xC0 + q && b[1] == 0x80 + r;
    assert (b[0] as int - 0xC0) * 64 + (b[1] as int - 0x80) == n;
  }

  lemma DecodeThree(c: char, rest: seq<Byte>)
    requires 0x800 <= c as int < 0x10000
    ensures DecodeFirst(EncodeChar(c) + rest) == Some((c, 3))
  {
    var n := c as int;
    var b := EncodeChar(c) + rest;
    var q, m, r := n / 4096, (n / 64) % 64, n % 64;
    assert n / 64 == q * 64 + m;
    assert n == q * 4096 + m * 64 + r && q < 16;
    assert b[0] == 0xE0 + q && b[1] == 0x80 + m && b[2] == 0x80 + r;
    assert (b[0] as int - 0xE0) * 4096 + (b[1] as int - 0x80) * 64 + (b[2] as int - 0x80) == n;
  }

  lemma DecodeFour(c: char, rest: seq<Byte>)
    requires 0x10000 <= c as int
    ensures DecodeFirst(EncodeChar(c) + rest) == Some((c, 4))
  {
    var n := c as int;
    var b := EncodeChar(c) + rest;
    var q, h, m, r := n / 262144, (n / 4096) % 64, (n / 64) % 64, n % 64;
    assert n / 4096 == q * 64 + h;
    assert n / 64 == (n / 4096) * 64 + m;
    assert n == q * 262144 + h * 4096 + m * 64 + r && q < 5;
    assert b[0] == 0xF0 + q && b[1] == 0x80 + h && b[2] == 0x80 + m && b[3] == 0x80 + r;
    assert (b[0] as int - 0xF0) * 262144 + (b[1] as int - 0x80) * 4096
      + (b[2] as int - 0x80) * 64 + (b[3] as int - 0x80) == n;
  }

  /** Decoding undoes encoding: the node reads back the exact text sent. */
  lemma {:induction false} DecodeEncode(s: string)
    ensures Decode(Encode(s)) == Some(s)
  {
    if s != [] {
      var e := EncodeChar(s[0]);
      DecodeFirstEncodeChar(s[0], Encode(s[1..]));
      assert (e + Encode(s[1..]))[|e|..] == Encode(s[1..]);
      DecodeEncode(s[1..]);
      assert [s[0]] + s[1..] == s;
    }
  }

  /** Encoding a concatenation concatenates the encodings. */
  lemma {:induction false} EncodeAppend(s: string, t: string)
    ensures Encode(s + t) == Encode(s) + Encode(t)
  {
    if s == [] {
      assert s + t == t;
    } else {
      var e := EncodeChar(s[0]);
      assert (s + t)[0] == s[0] && (s + t)[1..] == s[1..] + t;
      assert Encode(s + t) == e + Encode(s[1..] + t);
      EncodeAppend(s[1..], t);
      assert Encode(s) == e + Encode(s[1..]);
      assert e + (Encode(s[1..]) + Encode(t)) == (e + Encode(s[1..])) + Encode(t);
    }
  }

  /** Characters below 0x80 encode as their own code, one byte each. */
  lemma {:induction false} EncodeAscii(s: string)
    requires forall i :: 0 <= i < |s| ==> s[i] as int < 0x80
    ensures |Encode(s)| == |s|
    ensures forall i :: 0 <= i < |s| ==> Encode(s)[i] == s[i] as int
  {
    if s != [] {
      EncodeAscii(s[1..]);
    }
  }
}
