/**
  Unsigned 32-bit words as natural numbers, and the arithmetic facts that the
  disassembler's shift-and-mask reasoning rests on. A field of width `w` at
  bit `k`, `(x >> k) & ((1 << w) - 1)` in Go, is `(x / Pow2(k)) % Pow2(w)` here.
 */
module Bits {

  /** A Go `uint32`. */
  type Word = w: nat | w < 0x1_0000_0000

  function Pow2(n: nat): (p: nat)
    ensures p >= 1
  {
    if n == 0 then 1 else 2 * Pow2(n - 1)
  }

  /** Bit `i` of `x`, that is `x & (1 << i) >> i`. */
  function Bit(x: nat, i: nat): (b: nat)
    ensures b < 2
  {
    (x / Pow2(i)) % 2
  }

  lemma {:induction false} Pow2Add(a: nat, b: nat)
    ensures Pow2(a + b) == Pow2(a) * Pow2(b)
  {
    if a > 0 {
      Pow2Add(a - 1, b);
      assert Pow2(a + b) == 2 * Pow2(a - 1 + b);
    }
  }

  lemma Pow2Of32()
    ensures Pow2(32) == 0x1_0000_0000
  {
    assert Pow2(4) == 16;
    Pow2Add(4, 4);
    Pow2Add(8, 8);
    Pow2Add(16, 16);
  }

  /** The powers the instruction flags sit at. */
  lemma Pow2Flags()
    ensures Pow2(20) == 0x10_0000 && Pow2(21) == 0x20_0000 && Pow2(22) == 0x40_0000
    ensures Pow2(23) == 0x80_0000 && Pow2(24) == 0x100_0000 && Pow2(25) == 0x200_0000
  {
    assert Pow2(4) == 16;
    Pow2Add(4, 4);
    Pow2Add(8, 8);
    Pow2Add(16, 4);
  }

  lemma Distrib(a: int, b: int, c: int)
    ensures a * (b + c) == a * b + a * c
  {
  }

  lemma MulAssoc(a: int, b: int, c: int)
    ensures a * (b * c) == (a * b) * c && a * b == b * a
  {
  }

  lemma DivModParts(a: nat, d: nat)
    requires d > 0
    ensures a == d * (a / d) + a % d && a % d < d
  {
  }

  /** Dividing a natural number by a positive one gives a natural number. */
  lemma DivNat(x: nat, d: nat)
    requires d > 0
    ensures x / d >= 0
  {
  }

  lemma {:induction false} MulStep(d: nat, x: nat, y: nat)
    requires x < y
    ensures d * x + d <= d * y
  {
    Distrib(d, y - 1, 1);
    if x < y - 1 {
      MulStep(d, x, y - 1);
    }
  }

  lemma MulMono(d: nat, x: nat, y: nat)
    requires x <= y
    ensures d * x <= d * y
  {
    if x < y {
      MulStep(d, x, y);
    }
  }

  /** Division with remainder has one answer. */
  lemma DivModUnique(a: nat, d: nat, q: nat, r: nat)
    requires 0 <= r < d
    requires a == d * q + r
    ensures a / d == q && a % d == r
  {
    var q', r' := a / d, a % d;
    DivModParts(a, d);
    if q' < q {
      MulStep(d, q', q);
    } else if q' > q {
      MulStep(d, q, q');
    }
  }

  lemma DivBelow(n: nat, d: nat, p: nat)
    requires d > 0 && n < d * p
    ensures n / d < p
  {
    DivModParts(n, d);
    DivNat(n, d);
    if n / d >= p {
      MulMono(d, p, n / d);
    }
  }

  /** Dividing by two or more makes a positive number smaller. */
  lemma DivSmaller(n: nat, d: nat)
    requires d >= 2 && n > 0
    ensures n / d < n
    ensures n >= d ==> n / d > 0
  {
    DivModParts(n, d);
    DivNat(n, d);
    MulMono(n / d, 2, d);
    MulAssoc(n / d, d, 1);
  }

  lemma DivDiv(a: nat, b: nat, c: nat)
    requires b > 0 && c > 0
    ensures a / b / c == a / (b * c)
  {
    var q, r := a / b, a % b;
    var q2, r2 := q / c, q % c;
    DivModParts(a, b);
    DivModParts(q, c);
    Distrib(b, c * q2, r2);
    MulAssoc(b, c, q2);
    assert a == (b * c) * q2 + (b * r2 + r);
    MulStep(b, r2, c);
    DivModUnique(a, b * c, q2, b * r2 + r);
  }

  lemma DivAddMultiple(x: nat, m: nat, d: nat)
    requires d > 0
    ensures (x + m * d) / d == x / d + m
    ensures (x + m * d) % d == x % d
  {
    DivModParts(x, d);
    DivNat(x, d);
    Distrib(d, x / d, m);
    MulAssoc(m, d, 1);
    DivModUnique(x + m * d, d, x / d + m, x % d);
  }

  /** Adding before or after reducing modulo `d` gives the same remainder. */
  lemma ModAddMod(x: nat, a: nat, d: nat)
    requires d > 0
    ensures (x % d + a) % d == (x + a) % d
  {
    DivModParts(x, d);
    DivNat(x, d);
    MulAssoc(d, x / d, 1);
    DivAddMultiple(x % d + a, x / d, d);
  }

  /** `x >> n` is `x >> (n + 1)` shifted back left, plus bit `n`. */
  lemma ShiftStep(x: nat, n: nat)
    ensures x / Pow2(n) == (x / Pow2(n + 1)) * 2 + Bit(x, n)
  {
    var y := x / Pow2(n);
    assert Pow2(n + 1) == 2 * Pow2(n);
    MulAssoc(Pow2(n), 2, 1);
    DivDiv(x, Pow2(n), 2);
    DivModParts(y, 2);
    MulAssoc(2, y / 2, 1);
  }

  /** `x >> n` */
  function Shr(x: nat, n: nat): nat {
    var d := Pow2(n);
    DivNat(x, d);
    x / d
  }

  /** Shifting right by `b` moves bit `i + b` down to bit `i`. */
  lemma BitOfShifted(x: nat, b: nat, i: nat)
    ensures Bit(Shr(x, b), i) == Bit(x, i + b)
  {
    DivDiv(x, Pow2(b), Pow2(i));
    Pow2Add(b, i);
  }

  lemma LowBitOfSum(a: nat, c: nat, p: nat, h: nat)
    requires p > 0
    ensures (a + c * (p * (h * 2))) / p % 2 == a / p % 2
  {
    var m := c * h;
    MulAssoc(c, p, h * 2);
    MulAssoc(c * p, h, 2);
    MulAssoc(c, p, h);
    MulAssoc(c, h, p);
    MulAssoc(m * p, 2, 1);
    MulAssoc(m, p, 2);
    MulAssoc(m, 2, p);
    assert c * (p * (h * 2)) == (m * 2) * p;
    DivAddMultiple(a, m * 2, p);
    DivNat(a, p);
    DivAddMultiple(a / p, m, 2);
  }

  /** Below bit `k`, the bits of `a + c * 2^k` with `a < 2^k` are those of `a`. */
  lemma BitOfSumLow(x: nat, a: nat, c: nat, k: nat, i: nat)
    requires x == a + c * Pow2(k) && a < Pow2(k) && i < k
    ensures Bit(x, i) == Bit(a, i)
  {
    Pow2Add(i, k - i);
    assert Pow2(k - i) == Pow2(k - i - 1) * 2;
    LowBitOfSum(a, c, Pow2(i), Pow2(k - i - 1));
  }

  /** From bit `k` up, the bits of `a + c * 2^k` with `a < 2^k` are those of `c`. */
  lemma BitOfSumHigh(x: nat, a: nat, c: nat, k: nat, i: nat)
    requires x == a + c * Pow2(k) && a < Pow2(k) && k <= i
    ensures Bit(x, i) == Bit(c, i - k)
  {
    DivModUnique(a, Pow2(k), 0, a);
    DivAddMultiple(a, c, Pow2(k));
    BitOfShifted(x, k, i - k);
  }

  /** Masking with `(1 << b) - 1` keeps the bits below `b`. */
  lemma BitOfLow(x: nat, b: nat, i: nat)
    requires i < b
    ensures Bit(x % Pow2(b), i) == Bit(x, i)
  {
    var p := Pow2(b);
    DivModParts(x, p);
    DivNat(x, p);
    MulAssoc(p, x / p, 1);
    BitOfSumLow(x, x % p, x / p, b, i);
  }

  /** Below `2^n`, a number is determined by its lowest `n` bits. */
  lemma {:induction false} BitsDetermine(x: nat, y: nat, n: nat)
    requires x < Pow2(n) && y < Pow2(n)
    requires forall i :: 0 <= i < n ==> Bit(x, i) == Bit(y, i)
    ensures x == y
  {
    if n > 0 {
      forall i | 0 <= i < n - 1
        ensures Bit(x / 2, i) == Bit(y / 2, i)
      {
        BitOfShifted(x, 1, i);
        BitOfShifted(y, 1, i);
      }
      BitsDetermine(x / 2, y / 2, n - 1);
      assert Bit(x, 0) == x % 2 && Bit(y, 0) == y % 2;
    }
  }
}
