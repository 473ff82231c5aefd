/** Eight-bit register values and the bitwise operators the gateway applies
    to them. Python's `&` and `|` on non-negative integers work bit by bit;
    here they are defined that way, most significant bit first, so that the
    facts the model needs about them follow by plain integer arithmetic. */
module Bits {

  /** A value on the SPI bus or in an 8-bit register. */
  type Byte = x: int | 0 <= x < 256

  function Pow2(k: nat): (p: int)
    ensures p >= 1
  {
    if k == 0 then 1 else 2 * Pow2(k - 1)
  }

  /** `&`, `|` and `& ~`. */
  datatype Op = AndOp | OrOp | AndNotOp

  function Combine(op: Op, p: bool, q: bool): bool
  {
    match op
    case AndOp => p && q
    case OrOp => p || q
    case AndNotOp => p && !q
  }

  /** `op` applied to each bit of two `n`-bit values, most significant bit
      first: bit `n - 1` of the result combines the top bits, the rest is the
      operation on what remains below them. The result has `n` bits too. */
  function Bitwise(op: Op, x: nat, y: nat, n: nat): (r: nat)
    requires x < Pow2(n) && y < Pow2(n)
    ensures r < Pow2(n)
  {
    if n == 0 then 0
    else
      var h := Pow2(n - 1);
      var top := if Combine(op, x >= h, y >= h) then h else 0;
      top + Bitwise(op, if x >= h then x - h else x, if y >= h then y - h else y, n - 1)
  }

  lemma Pow2Eight()
    ensures Pow2(7) == 128 && Pow2(8) == 256
  {
    assert Pow2(4) == 16;
  }

  function And(x: Byte, y: Byte): Byte
  {
    Pow2Eight();
    Bitwise(AndOp, x, y, 8)
  }

  function Or(x: Byte, y: Byte): Byte
  {
    Pow2Eight();
    Bitwise(OrOp, x, y, 8)
  }

  /** `x & ~y` on eight bits: what a write-1-to-clear register keeps. */
  function Clear(x: Byte, y: Byte): Byte
  {
    Pow2Eight();
    Bitwise(AndNotOp, x, y, 8)
  }

  /** `irq & flag` is non-zero. */
  predicate HasFlag(irq: Byte, flag: Byte)
  {
    And(irq, flag) != 0
  }

  /** Masking with 0x7F keeps the seven low bits, and bit 7 is set exactly in
      the upper half of the byte range. */
  lemma MaskBelow128(x: Byte)
    ensures And(x, 0x7F) < 128
    ensures And(x, 0x7F) == x % 128
    ensures HasFlag(x, 0x80) <==> x >= 128
  {
    Pow2Eight();
    var low := if x >= 128 then x - 128 else x;
    AndOnes(low, 7);
    AndZero(low, 7);
    assert And(x, 0x7F) == low;
    assert And(x, 0x80) == (if x >= 128 then 128 else 0);
  }

  /** `x & (2^n - 1)` is `x` for an `n`-bit `x`. */
  lemma {:induction false} AndOnes(x: nat, n: nat)
    requires x < Pow2(n)
    ensures Bitwise(AndOp, x, Pow2(n) - 1, n) == x
  {
    if n > 0 {
      var h := Pow2(n - 1);
      AndOnes(if x >= h then x - h else x, n - 1);
    }
  }

  /** `x & 0` is zero. */
  lemma {:induction false} AndZero(x: nat, n: nat)
    requires x < Pow2(n)
    ensures Bitwise(AndOp, x, 0, n) == 0
  {
    if n > 0 {
      var h := Pow2(n - 1);
      AndZero(if x >= h then x - h else x, n - 1);
    }
  }

  /** `x | 0` is `x`. */
  lemma {:induction false} OrZero(x: nat, n: nat)
    requires x < Pow2(n)
    ensures Bitwise(OrOp, x, 0, n) == x
  {
    if n > 0 {
      var h := Pow2(n - 1);
      OrZero(if x >= h then x - h else x, n - 1);
    }
  }

  /** Setting bit 7 of an address adds 128. */
  lemma OrHigh(a: Byte)
    requires a < 128
    ensures Or(a, 0x80) == a + 128
  {
    Pow2Eight();
    OrZero(a, 7);
  }

  /** `x & ~x` is zero: writing back the flags just read clears them all. */
  lemma ClearSelf(x: Byte)
    ensures Clear(x, x) == 0
  {
    Pow2Eight();
    AndNotSelf(x, 8);
  }

  lemma {:induction false} AndNotSelf(x: nat, n: nat)
    requires x < Pow2(n)
    ensures Bitwise(AndNotOp, x, x, n) == 0
  {
    if n > 0 {
      var h := Pow2(n - 1);
      AndNotSelf(if x >= h then x - h else x, n - 1);
    }
  }

  /** Writing 0xFF to a write-1-to-clear register clears every flag. */
  lemma ClearAll(x: Byte)
    ensures Clear(x, 0xFF) == 0
  {
    Pow2Eight();
    AndNotOnes(x, 8);
  }

  lemma {:induction false} AndNotOnes(x: nat, n: nat)
    requires x < Pow2(n)
    ensures Bitwise(AndNotOp, x, Pow2(n) - 1, n) == 0
  {
    if n > 0 {
      var h := Pow2(n - 1);
      AndNotOnes(if x >= h then x - h else x, n - 1);
    }
  }

  /** Clearing `a` after `b` was OR-ed in keeps exactly the bits of `b` not
      in `a`: `(a | b) & ~a == b & ~a`. */
  lemma ClearAfterOr(a: Byte, b: Byte)
    ensures Clear(Or(a, b), a) == Clear(b, a)
  {
    Pow2Eight();
    OrThenClear(a, b, 8);
  }

  lemma {:induction false} OrThenClear(a: nat, b: nat, n: nat)
    requires a < Pow2(n) && b < Pow2(n)
    ensures Bitwise(AndNotOp, Bitwise(OrOp, a, b, n), a, n) == Bitwise(AndNotOp, b, a, n)
  {
    if n > 0 {
      var h := Pow2(n - 1);
      var a', b' := if a >= h then a - h else a, if b >= h then b - h else b;
      assert Pow2(n) == 2 * h && a' < h && b' < h;
      var o := Bitwise(OrOp, a, b, n);
      OrStep(a, b, n);
      AndNotStep(o, a, n);
      AndNotStep(b, a, n);
      OrThenClear(a', b', n - 1);
    }
  }

  /** The top bit of `x & ~y` is set when `x` has it and `y` does not; below
      it is `& ~` of what remains. */
  lemma AndNotStep(x: nat, y: nat, n: nat)
    requires 0 < n && x < Pow2(n) && y < Pow2(n)
    ensures var h := Pow2(n - 1);
      Bitwise(AndNotOp, x, y, n)
      == (if x >= h && y < h then h else 0)
         + Bitwise(AndNotOp, if x >= h then x - h else x, if y >= h then y - h else y, n - 1)
  {
  }

  /** Clearing bits that `b` does not have leaves `b` as it is. */
  lemma ClearDisjoint(a: Byte, b: Byte)
    requires And(a, b) == 0
    ensures Clear(b, a) == b
  {
    Pow2Eight();
    AndNotDisjoint(a, b, 8);
  }

  lemma {:induction false} AndNotDisjoint(a: nat, b: nat, n: nat)
    requires a < Pow2(n) && b < Pow2(n) && Bitwise(AndOp, a, b, n) == 0
    ensures Bitwise(AndNotOp, b, a, n) == b
  {
    if n > 0 {
      var h := Pow2(n - 1);
      var a', b' := if a >= h then a - h else a, if b >= h then b - h else b;
      assert Pow2(n) == 2 * h && a' < h && b' < h;
      AndStep(a, b, n);
      AndNotDisjoint(a', b', n - 1);
    }
  }

  /** A flag is set in `a | b` exactly when it is set in `a` or in `b`. */
  lemma OrHasFlag(a: Byte, b: Byte, f: Byte)
    ensures HasFlag(Or(a, b), f) <==> HasFlag(a, f) || HasFlag(b, f)
  {
    Pow2Eight();
    OrThenAnd(a, b, f, 8);
  }

  lemma {:induction false} OrThenAnd(a: nat, b: nat, f: nat, n: nat)
    requires a < Pow2(n) && b < Pow2(n) && f < Pow2(n)
    ensures Bitwise(AndOp, Bitwise(OrOp, a, b, n), f, n) == 0
      <==> Bitwise(AndOp, a, f, n) == 0 && Bitwise(AndOp, b, f, n) == 0
  {
    if n > 0 {
      var h := Pow2(n - 1);
      var a', b', f' := if a >= h then a - h else a, if b >= h then b - h else b, if f >= h then f - h else f;
      assert Pow2(n) == 2 * h && a' < h && b' < h && f' < h;
      var o := Bitwise(OrOp, a, b, n);
      OrStep(a, b, n);
      AndStep(o, f, n);
      AndStep(a, f, n);
      AndStep(b, f, n);
      OrThenAnd(a', b', f', n - 1);
    }
  }

  /** The top bit of an `n`-bit OR is set when either top bit is, and below
      it is the OR of what remains. */
  lemma OrStep(a: nat, b: nat, n: nat)
    requires 0 < n && a < Pow2(n) && b < Pow2(n)
    ensures var h := Pow2(n - 1);
      var o := Bitwise(OrOp, a, b, n);
      var rest := Bitwise(OrOp, if a >= h then a - h else a, if b >= h then b - h else b, n - 1);
      (o >= h <==> a >= h || b >= h) && (if o >= h then o - h else o) == rest
  {
  }

  /** An `n`-bit AND is zero exactly when the top bits are not both set and
      the AND of what remains below them is zero. */
  lemma AndStep(x: nat, f: nat, n: nat)
    requires 0 < n && x < Pow2(n) && f < Pow2(n)
    ensures var h := Pow2(n - 1);
      Bitwise(AndOp, x, f, n) == 0 <==>
        !(x >= h && f >= h)
        && Bitwise(AndOp, if x >= h then x - h else x, if f >= h then f - h else f, n - 1) == 0
  {
  }
}
