/**
  The numerals the disassembler prints through Go's `fmt` verbs: `%X` (upper-case
  hexadecimal, no leading zeros), `%08X` (the same, left-padded with zeros to
  eight digits) and `%d` (decimal); and the readers that take a numeral back.
 */
module Numerals {

  import opened Options
  import opened Bits

  const DigitChars: string := "0123456789ABCDEF"

  function DigitChar(d: nat): char
    requires d < 16
  {
    DigitChars[d]
  }

  /** The value of an upper-case hexadecimal or decimal digit; 16 for any other character. */
  function DigitValue(c: char): (v: nat)
    ensures v <= 16
  {
    if '0' <= c <= '9' then c as nat - '0' as nat
    else if 'A' <= c <= 'F' then c as nat - 'A' as nat + 10
    else 16
  }

  predicate IsDigit(c: char, base: nat) {
    DigitValue(c) < base
  }

  lemma DigitRoundTrip(d: nat)
    requires d < 16
    ensures DigitValue(DigitChar(d)) == d
  {
  }

  function Pow(base: nat, k: nat): (p: nat)
    requires base >= 1
    ensures p >= 1
  {
    if k == 0 then 1 else base * Pow(base, k - 1)
  }

  /**
    The digits of `n` in `base`, most significant first, without leading zeros
    (`0` alone for zero): what `%X` and `%d` print.
   */
  function Numeral(n: nat, base: nat): (s: string)
    requires 2 <= base <= 16
    ensures |s| >= 1
    ensures forall i :: 0 <= i < |s| ==> IsDigit(s[i], base)
    ensures s[0] == '0' ==> n == 0
    decreases n
  {
    DigitRoundTrip(n % base);
    if n < base then [DigitChar(n)]
    else
      DivSmaller(n, base);
      DivNat(n, base);
      Numeral(n / base, base) + [DigitChar(n % base)]
  }

  /** `%X` */
  function Hex(n: nat): string {
    Numeral(n, 16)
  }

  /** `%d` */
  function Decimal(n: nat): string {
    Numeral(n, 10)
  }

  function Zeros(k: nat): (s: string)
    ensures |s| == k && forall i :: 0 <= i < k ==> s[i] == '0'
  {
    seq(k, _ => '0')
  }

  /** A width flag with the `0` flag: pad on the left with zeros up to `width` characters. */
  function ZeroPad(s: string, width: nat): string {
    if |s| >= width then s else Zeros(width - |s|) + s
  }

  /** `%08X` */
  function Hex8(n: nat): string {
    ZeroPad(Hex(n), 8)
  }

  /** The number a string of digits in `base` denotes, most significant digit first. */
  function Value(s: string, base: nat): nat {
    if s == [] then 0 else Value(s[..|s| - 1], base) * base + DigitValue(s[|s| - 1])
  }

  lemma {:induction false} ValueOfNumeral(n: nat, base: nat)
    requires 2 <= base <= 16
    ensures Value(Numeral(n, base), base) == n
    decreases n
  {
    var s := Numeral(n, base);
    DigitRoundTrip(n % base);
    if n < base {
      assert s[..0] == [];
      assert Value(s, base) == 0 * base + n;
    } else {
      DivNat(n, base);
      var front, q, r := Numeral(n / base, base), n / base, n % base;
      assert s == front + [DigitChar(r)];
      assert s[..|s| - 1] == front;
      DivSmaller(n, base);
      ValueOfNumeral(q, base);
      DivModParts(n, base);
      MulAssoc(base, q, 1);
      assert Value(s, base) == q * base + r;
    }
  }

  lemma {:induction false} NumeralLength(n: nat, base: nat, k: nat)
    requires 2 <= base <= 16 && k >= 1
    requires n < Pow(base, k)
    ensures |Numeral(n, base)| <= k
    decreases k
  {
    if n >= base {
      DivBelow(n, base, Pow(base, k - 1));
      DivNat(n, base);
      DivModParts(n, base);
      NumeralLength(n / base, base, k - 1);
    }
  }

  lemma {:induction false} ValueOfZeros(k: nat, base: nat)
    ensures Value(Zeros(k), base) == 0
  {
    if k > 0 {
      assert Zeros(k)[..k - 1] == Zeros(k - 1);
      ValueOfZeros(k - 1, base);
    }
  }

  /** Leading zeros do not change the value. */
  lemma {:induction false} ValueOfPadded(k: nat, s: string, base: nat)
    ensures Value(Zeros(k) + s, base) == Value(s, base)
  {
    if s == [] {
      assert Zeros(k) + s == Zeros(k);
      ValueOfZeros(k, base);
    } else {
      var t := Zeros(k) + s;
      assert t[..|t| - 1] == Zeros(k) + s[..|s| - 1];
      ValueOfPadded(k, s[..|s| - 1], base);
    }
  }

  lemma PowSixteenEight()
    ensures Pow(16, 8) == 0x1_0000_0000
  {
    assert Pow(16, 2) == 0x100;
    assert Pow(16, 4) == 0x1_0000 by {
      assert Pow(16, 3) == 16 * 0x100;
    }
    assert Pow(16, 6) == 0x100_0000 by {
      assert Pow(16, 5) == 16 * 0x1_0000;
    }
    assert Pow(16, 7) == 16 * 0x100_0000;
  }

  /** `%08X` of a 32-bit word is exactly eight hexadecimal digits denoting the word. */
  lemma Hex8OfWord(n: nat)
    requires n < 0x1_0000_0000
    ensures |Hex8(n)| == 8
    ensures forall i :: 0 <= i < 8 ==> IsDigit(Hex8(n)[i], 16)
    ensures Value(Hex8(n), 16) == n
  {
    PowSixteenEight();
    NumeralLength(n, 16, 8);
    ValueOfNumeral(n, 16);
    ZeroPadFacts(Hex(n), 8, 16);
  }

  /** Padding with zeros reaches the width, keeps every character a digit, and keeps the value. */
  lemma ZeroPadFacts(s: string, width: nat, base: nat)
    requires base >= 1
    requires forall i :: 0 <= i < |s| ==> IsDigit(s[i], base)
    ensures |s| <= width ==> |ZeroPad(s, width)| == width
    ensures forall i :: 0 <= i < |ZeroPad(s, width)| ==> IsDigit(ZeroPad(s, width)[i], base)
    ensures Value(ZeroPad(s, width), base) == Value(s, base)
  {
    if |s| < width {
      var z := Zeros(width - |s|);
      ValueOfPadded(width - |s|, s, base);
      assert forall i :: 0 <= i < |z + s| ==> (z + s)[i] == if i < |z| then '0' else s[i - |z|];
    }
  }

  /** A numeral is all digits, so it holds no line break. */
  lemma NumeralOneLine(n: nat, base: nat)
    requires 2 <= base <= 16
    ensures '\n' !in Numeral(n, base)
  {
  }

  /** The number of digits at the front of `s`. */
  function DigitRun(s: string, base: nat): (k: nat)
    ensures k <= |s|
  {
    if s == [] || !IsDigit(s[0], base) then 0 else 1 + DigitRun(s[1..], base)
  }

  /** Reads a numeral at the front of `s`: its value and the text after it. */
  function ReadNumeral(s: string, base: nat): Option<(nat, string)> {
    var k := DigitRun(s, base);
    if k == 0 then None else Some((Value(s[..k], base), s[k..]))
  }

  lemma {:induction false} DigitRunOf(s: string, rest: string, base: nat)
    requires forall i :: 0 <= i < |s| ==> IsDigit(s[i], base)
    requires rest == [] || !IsDigit(rest[0], base)
    ensures DigitRun(s + rest, base) == |s|
  {
    if s != [] {
      assert (s + rest)[1..] == s[1..] + rest;
      DigitRunOf(s[1..], rest, base);
    }
  }

  /** Reading back what `Numeral` printed stops exactly where the numeral ends. */
  lemma ReadNumeralOf(n: nat, base: nat, rest: string)
    requires 2 <= base <= 16
    requires rest == [] || !IsDigit(rest[0], base)
    ensures ReadNumeral(Numeral(n, base) + rest, base) == Some((n, rest))
  {
    var s := Numeral(n, base);
    DigitRunOf(s, rest, base);
    ValueOfNumeral(n, base);
    assert (s + rest)[..|s|] == s;
    assert (s + rest)[|s|..] == rest;
  }
}
