/**
  `rotateRight` (disassemble.go), which expands the 8-bit immediate of a Data
  Processing instruction: a 32-bit rotation to the right.
 */
module Rotation {

  import opened Bits

  /**
    `rotateRight(value, by)`: the amount `by` is reduced modulo 32, `value & mask` with
    `mask = (1 << by) - 1` keeps the bits that fall off the bottom, and they
    come back shifted to the top; every operation wraps at 32 bits as Go's
    `uint32` does. The result is a true rotation: bit `i` of the result is
    bit `(i + by) mod 32` of `value`.
   */
  function RotateRight(value: Word, amount: nat): (r: Word)
    ensures forall i :: 0 <= i < 32 ==> Bit(r, i) == Bit(value, (i + amount) % 32)
  {
    var b := amount % 32;
    var mask := Pow2(b) - 1;
    var r := (value / Pow2(b) + value % (mask + 1) * Pow2(32 - b) % 0x1_0000_0000) % 0x1_0000_0000;
    RotationBits(value, amount, r);
    r
  }

  /** Neither the shift to the top nor the sum of the two halves wraps. */
  lemma RotationNoWrap(value: Word, b: nat, r: nat)
    requires 0 < b < 32
    requires r == (value / Pow2(b) + value % Pow2(b) * Pow2(32 - b) % 0x1_0000_0000) % 0x1_0000_0000
    ensures value / Pow2(b) < Pow2(32 - b)
    ensures r == value / Pow2(b) + value % Pow2(b) * Pow2(32 - b)
  {
    Pow2Of32();
    Pow2Add(b, 32 - b);
    HalvesFit(value, Pow2(b), Pow2(32 - b), r);
  }

  /** With `p * top == 2^32`, `value / p + (value % p) * top` stays below `2^32`. */
  lemma HalvesFit(value: nat, p: nat, top: nat, r: nat)
    requires p > 0 && top > 0 && p * top == 0x1_0000_0000 && value < 0x1_0000_0000
    requires r == (value / p + value % p * top % 0x1_0000_0000) % 0x1_0000_0000
    ensures value / p < top
    ensures r == value / p + value % p * top
  {
    DivNat(value, p);
    var hi, lo := value / p, value % p;
    DivBelow(value, p, top);
    MulMono(top, lo, p - 1);
    Distrib(top, p - 1, 1);
    MulAssoc(top, p, 1);
    MulAssoc(top, lo, 1);
    assert lo * top + top <= 0x1_0000_0000;
    DivModUnique(lo * top, 0x1_0000_0000, 0, lo * top);
    DivModUnique(hi + lo * top, 0x1_0000_0000, 0, hi + lo * top);
  }

  lemma RotationBits(value: Word, amount: nat, r: nat)
    requires r == (value / Pow2(amount % 32)
                   + value % Pow2(amount % 32) * Pow2(32 - amount % 32) % 0x1_0000_0000) % 0x1_0000_0000
    ensures forall i :: 0 <= i < 32 ==> Bit(r, i) == Bit(value, (i + amount) % 32)
  {
    var b := amount % 32;
    if b == 0 {
      RotationByZero(value, amount, r);
    } else {
      RotationNoWrap(value, b, r);
      RotationByNonZero(value, amount, b, r);
    }
  }

  /** With `0 < by % 32`, bit `i` of the two halves put together is bit `(i + by) mod 32`. */
  lemma RotationByNonZero(value: Word, amount: nat, b: nat, r: nat)
    requires b == amount % 32 && 0 < b
    requires value / Pow2(b) < Pow2(32 - b)
    requires r == value / Pow2(b) + value % Pow2(b) * Pow2(32 - b)
    ensures forall i :: 0 <= i < 32 ==> Bit(r, i) == Bit(value, (i + amount) % 32)
  {
    forall i | 0 <= i < 32
      ensures Bit(r, i) == Bit(value, (i + amount) % 32)
    {
      ModAddMod(amount, i, 32);
      assert (i + amount) % 32 == (i + b) % 32;
      RotatedBit(value, b, r, i);
    }
  }

  /** With `by % 32 == 0` nothing is shifted: the result is the value itself. */
  lemma RotationByZero(value: Word, amount: nat, r: nat)
    requires amount % 32 == 0
    requires r == (value / Pow2(amount % 32)
                   + value % Pow2(amount % 32) * Pow2(32 - amount % 32) % 0x1_0000_0000) % 0x1_0000_0000
    ensures forall i :: 0 <= i < 32 ==> Bit(r, i) == Bit(value, (i + amount) % 32)
  {
    RotationByZeroValue(value, amount, r);
    forall i | 0 <= i < 32
      ensures Bit(r, i) == Bit(value, (i + amount) % 32)
    {
      ModAddMod(amount, i, 32);
      DivModUnique(i, 32, 0, i);
    }
  }

  /** A rotation by a multiple of 32 computes the value itself. */
  lemma RotationByZeroValue(value: Word, amount: nat, r: nat)
    requires amount % 32 == 0
    requires r == (value / Pow2(amount % 32)
                   + value % Pow2(amount % 32) * Pow2(32 - amount % 32) % 0x1_0000_0000) % 0x1_0000_0000
    ensures r == value
  {
    Pow2Of32();
    WholeTurn(value, Pow2(amount % 32), Pow2(32 - amount % 32), r);
  }

  /** With a shift of 0, the two halves are the value and nothing. */
  lemma WholeTurn(value: Word, p: nat, top: nat, r: nat)
    requires p == 1 && top == 0x1_0000_0000
    requires r == (value / p + value % p * top % 0x1_0000_0000) % 0x1_0000_0000
    ensures r == value
  {
    assert value / p == value && value % p == 0;
    DivModUnique(value, 0x1_0000_0000, 0, value);
  }

  lemma RotatedBit(value: Word, b: nat, r: nat, i: nat)
    requires 0 < b < 32 && i < 32
    requires value / Pow2(b) < Pow2(32 - b)
    requires r == value / Pow2(b) + value % Pow2(b) * Pow2(32 - b)
    ensures Bit(r, i) == Bit(value, (i + b) % 32)
  {
    DivNat(value, Pow2(b));
    if i < 32 - b {
      DivModUnique(i + b, 32, 0, i + b);
      RotatedLowBit(value, b, value / Pow2(b), value % Pow2(b), r, i);
    } else {
      DivModUnique(i + b, 32, 1, i + b - 32);
      RotatedHighBit(value, b, value / Pow2(b), value % Pow2(b), r, i);
    }
  }

  /** The low `32 - b` bits of the rotation are the bits of `value` from `b` up. */
  lemma RotatedLowBit(value: Word, b: nat, hi: nat, lo: nat, r: nat, i: nat)
    requires 0 < b < 32 && i < 32 - b
    requires hi == value / Pow2(b) && lo == value % Pow2(b) && hi < Pow2(32 - b)
    requires r == hi + lo * Pow2(32 - b)
    ensures Bit(r, i) == Bit(value, i + b)
  {
    BitOfSumLow(r, hi, lo, 32 - b, i);
    BitOfShifted(value, b, i);
    assert Shr(value, b) == hi;
  }

  /** The high `b` bits of the rotation are the low `b` bits of `value`. */
  lemma RotatedHighBit(value: Word, b: nat, hi: nat, lo: nat, r: nat, i: nat)
    requires 0 < b < 32 && 32 - b <= i < 32
    requires lo == value % Pow2(b) && hi < Pow2(32 - b)
    requires r == hi + lo * Pow2(32 - b)
    ensures Bit(r, i) == Bit(value, i + b - 32)
  {
    BitOfSumHigh(r, hi, lo, 32 - b, i);
    BitOfLow(value, b, i - (32 - b));
  }

  /** A rotation by a multiple of 32 changes nothing. */
  lemma RotateRightZero(value: Word, amount: nat)
    requires amount % 32 == 0
    ensures RotateRight(value, amount) == value
  {
    var r := RotateRight(value, amount);
    forall i | 0 <= i < 32
      ensures Bit(r, i) == Bit(value, i)
    {
      ModAddMod(amount, i, 32);
      DivModUnique(i, 32, 0, i);
    }
    Pow2Of32();
    BitsDetermine(r, value, 32);
  }

  /** Two rotations in a row are one rotation by the sum of the amounts. */
  lemma RotateRightCompose(value: Word, a: nat, b: nat)
    ensures RotateRight(RotateRight(value, a), b) == RotateRight(value, a + b)
  {
    var once := RotateRight(value, a);
    var twice := RotateRight(once, b);
    var whole := RotateRight(value, a + b);
    forall i | 0 <= i < 32
      ensures Bit(twice, i) == Bit(whole, i)
    {
      ComposedBit(value, once, twice, whole, a, b, i);
    }
    Pow2Of32();
    BitsDetermine(twice, whole, 32);
  }

  /** Bit `i` after rotating by `a` and then by `b` is bit `(i + a + b) mod 32` of the value. */
  lemma ComposedBit(value: Word, once: Word, twice: Word, whole: Word, a: nat, b: nat, i: nat)
    requires i < 32
    requires forall k :: 0 <= k < 32 ==> Bit(once, k) == Bit(value, (k + a) % 32)
    requires forall k :: 0 <= k < 32 ==> Bit(twice, k) == Bit(once, (k + b) % 32)
    requires forall k :: 0 <= k < 32 ==> Bit(whole, k) == Bit(value, (k + (a + b)) % 32)
    ensures Bit(twice, i) == Bit(whole, i)
  {
    var j := (i + b) % 32;
    assert Bit(twice, i) == Bit(once, j);
    assert Bit(once, j) == Bit(value, (j + a) % 32);
    ModAddMod(i + b, a, 32);
    assert (j + a) % 32 == (i + (a + b)) % 32;
  }

  /** Rotating on by the rest of 32 undoes a rotation. */
  lemma RotateRightInverse(value: Word, amount: nat)
    ensures RotateRight(RotateRight(value, amount), 32 - amount % 32) == value
  {
    RotateRightCompose(value, amount, 32 - amount % 32);
    DivModParts(amount, 32);
    MulAssoc(32, amount / 32, 1);
    DivAddMultiple(0, amount / 32 + 1, 32);
    RotateRightZero(value, amount + (32 - amount % 32));
  }
}
