/**
  The header printed for every word read (disassemble.go): the word as eight
  upper-case hexadecimal digits, a space, and its 32 bits from bit 31 down to
  bit 0 with a space after each group of eight.
 */
module Headers {

  import opened Bits
  import opened Numerals
  import opened Concat

  /**
    The binary part of the header for bits 31 down to `n`: each bit printed with
    `%d`, and a space after every bit whose index is a multiple of 8.
   */
  function BinaryDigits(w: Word, n: nat): string
    requires n <= 32
    decreases 32 - n
  {
    if n == 32 then ""
    else BinaryDigits(w, n + 1) + Decimal(Bit(w, n)) + (if n % 8 == 0 then " " else "")
  }

  /** `%08X ` and then the 32 bits: printed for every word read. */
  function Header(w: Word): string {
    Hex8(w) + " " + BinaryDigits(w, 0)
  }

  /** The number a string of digits in `base` denotes, skipping any spaces between them. */
  function SpacedValue(s: string, base: nat): nat {
    if s == [] then 0
    else if s[|s| - 1] == ' ' then SpacedValue(s[..|s| - 1], base)
    else SpacedValue(s[..|s| - 1], base) * base + DigitValue(s[|s| - 1])
  }

  /** A bit printed with `%d` is the one character `0` or `1`. */
  lemma BitDigit(b: nat)
    requires b < 2
    ensures Decimal(b) == [DigitChar(b)] && DigitValue(DigitChar(b)) == b
  {
  }

  /**
    Bits 31 down to `n` take `32 - n` digits and a space for every multiple
    of 8 among them.
   */
  lemma {:induction false} BinaryDigitsLength(w: Word, n: nat)
    requires n <= 32
    ensures |BinaryDigits(w, n)| == 32 - n + 4 - (n + 7) / 8
    decreases 32 - n
  {
    if n < 32 {
      BinaryDigitsLength(w, n + 1);
      BinaryDigitsLengthStep(w, n);
    }
  }

  /** Bit `n` adds one digit, and a space when `n` is a multiple of 8. */
  lemma BinaryDigitsLengthStep(w: Word, n: nat)
    requires n < 32
    requires |BinaryDigits(w, n + 1)| == 32 - (n + 1) + 4 - (n + 1 + 7) / 8
    ensures |BinaryDigits(w, n)| == 32 - n + 4 - (n + 7) / 8
  {
    BinaryDigitsStep(w, n);
    LengthArith(n);
  }

  /** Counting the digit of bit `n` and its space, if any, into the length of bits 31 down to `n + 1`. */
  lemma LengthArith(n: nat)
    requires n < 32
    ensures 32 - (n + 1) + 4 - (n + 1 + 7) / 8 + 1 + (if n % 8 == 0 then 1 else 0) == 32 - n + 4 - (n + 7) / 8
  {
    var q, r := n / 8, n % 8;
    DivModParts(n, 8);
    if r == 0 {
      DivModUnique(n + 7, 8, q, 7);
      DivModUnique(n + 8, 8, q + 1, 0);
    } else {
      DivModUnique(n + 7, 8, q + 1, r - 1);
      DivModUnique(n + 8, 8, q + 1, r);
    }
  }

  /** One more digit, and perhaps a space, after `prefix`. */
  lemma SpacedValueStep(prefix: string, b: nat, sep: string)
    requires b < 2 && (sep == "" || sep == " ")
    ensures SpacedValue(prefix + Decimal(b) + sep, 2) == SpacedValue(prefix, 2) * 2 + b
  {
    BitDigit(b);
    var digit := prefix + [DigitChar(b)];
    assert digit[..|prefix|] == prefix;
    if sep == " " {
      assert (digit + sep)[..|digit|] == digit;
    } else {
      assert digit + sep == digit;
    }
  }

  /** Skipping the spaces, bits 31 down to `n` read in base 2 are `w >> n`. */
  lemma BinaryDigitsValue(w: Word, n: nat)
    requires n <= 32
    ensures SpacedValue(BinaryDigits(w, n), 2) == w / Pow2(n)
  {
    BinaryDigitsValueTop(w);
    var k := 32;
    while k > n
      invariant n <= k <= 32
      invariant SpacedValue(BinaryDigits(w, k), 2) == w / Pow2(k)
    {
      BinaryDigitsValueStep(w, k - 1);
      k := k - 1;
    }
  }

  /** No bits at all read as `w >> 32`, which is 0. */
  lemma BinaryDigitsValueTop(w: Word)
    ensures SpacedValue(BinaryDigits(w, 32), 2) == w / Pow2(32)
  {
    assert SpacedValue(BinaryDigits(w, 32), 2) == 0;
    Pow2Of32();
    DivModUnique(w, 0x1_0000_0000, 0, w);
  }

  /** Printing bit `n` after the bits above it shifts their value left and adds the bit. */
  lemma BinaryDigitsValueStep(w: Word, n: nat)
    requires n < 32
    requires SpacedValue(BinaryDigits(w, n + 1), 2) == w / Pow2(n + 1)
    ensures SpacedValue(BinaryDigits(w, n), 2) == w / Pow2(n)
  {
    var sep := if n % 8 == 0 then " " else "";
    var front, b := BinaryDigits(w, n + 1), Bit(w, n);
    assert BinaryDigits(w, n) == front + Decimal(b) + sep;
    SpacedValueStep(front, b, sep);
    ShiftStep(w, n);
  }

  /** The bits hold no line break. */
  lemma {:induction false} BinaryDigitsOneLine(w: Word, n: nat)
    requires n <= 32
    ensures '\n' !in BinaryDigits(w, n)
    decreases 32 - n
  {
    if n < 32 {
      BinaryDigitsOneLine(w, n + 1);
      BitDigit(Bit(w, n));
    }
  }

  /** A header holds no line break. */
  lemma HeaderOneLine(w: Word)
    ensures '\n' !in Header(w)
  {
    NumeralOneLine(w, 16);
    var h := Hex(w);
    if |h| < 8 {
      var zeros := Zeros(8 - |h|);
      assert '\n' !in zeros;
    }
    BinaryDigitsOneLine(w, 0);
  }

  /** Where bit `k` is printed among the bits: its place from the left, plus one space per group before it. */
  function BitPosition(k: nat): (p: nat)
    requires k < 32
    ensures p < 35 && (k % 8 == 0 ==> p + 1 < 36)
  {
    (31 - k) + (31 - k) / 8
  }

  /** `32 - (n + 1)` digits and their spaces end where `BitPosition(n)` says bit `n` goes. */
  lemma BitPositionArith(n: nat)
    requires n < 32
    ensures 32 - (n + 1) + 4 - (n + 1 + 7) / 8 == BitPosition(n)
  {
    DivModParts(n, 8);
    DivModUnique(31 - n, 8, 3 - n / 8, 7 - n % 8);
    DivModUnique(n + 8, 8, n / 8 + 1, n % 8);
  }

  /** Bit `n` and its separator after the bits above it. */
  lemma BinaryDigitsStep(w: Word, n: nat)
    requires n < 32
    ensures BinaryDigits(w, n) == BinaryDigits(w, n + 1) + ([DigitChar(Bit(w, n))] + (if n % 8 == 0 then " " else ""))
  {
    BitDigit(Bit(w, n));
  }

  /** `s` holds `c` at `p`, followed by a space when `spaced`. */
  predicate DigitAt(s: string, p: nat, c: char, spaced: bool) {
    p < |s| && s[p] == c && (spaced ==> p + 1 < |s| && s[p + 1] == ' ')
  }

  /** Appending keeps what the front holds. */
  lemma DigitAtFront(front: string, tail: string, p: nat, c: char, spaced: bool)
    requires DigitAt(front, p, c, spaced)
    ensures DigitAt(front + tail, p, c, spaced)
  {
    KeepFront(front, tail, p);
    if spaced {
      KeepFront(front, tail, p + 1);
    }
  }

  /** A digit and its optional space appended at the end sit right after the front. */
  lemma DigitAtBack(front: string, c: char, spaced: bool)
    ensures DigitAt(front + ([c] + (if spaced then " " else "")), |front|, c, spaced)
  {
    var tail := [c] + (if spaced then " " else "");
    assert (front + tail)[|front|] == c;
    if spaced {
      assert (front + tail)[|front| + 1] == ' ';
    }
  }

  /** Bit `n` is the last digit of the bits from 31 down to `n`. */
  lemma BinaryDigitsLast(w: Word, n: nat)
    requires n < 32
    ensures DigitAt(BinaryDigits(w, n), BitPosition(n), DigitChar(Bit(w, n)), n % 8 == 0)
  {
    BinaryDigitsStep(w, n);
    BinaryDigitsLength(w, n + 1);
    BitPositionArith(n);
    DigitAtBack(BinaryDigits(w, n + 1), DigitChar(Bit(w, n)), n % 8 == 0);
  }

  /**
    Bits 31 down to `n` are printed most significant first: bit `k` is the
    digit at `BitPosition(k)`, and a space follows bits 24, 16, 8 and 0.
   */
  lemma {:induction false} BinaryDigitsAt(w: Word, n: nat, k: nat)
    requires n <= k < 32
    ensures DigitAt(BinaryDigits(w, n), BitPosition(k), DigitChar(Bit(w, k)), k % 8 == 0)
    decreases 32 - n
  {
    if n < k {
      BinaryDigitsStep(w, n);
      BinaryDigitsAt(w, n + 1, k);
      DigitAtFront(BinaryDigits(w, n + 1), [DigitChar(Bit(w, n))] + (if n % 8 == 0 then " " else ""), BitPosition(k), DigitChar(Bit(w, k)), k % 8 == 0);
    } else {
      BinaryDigitsLast(w, n);
    }
  }

  /** A header is 45 characters: eight hexadecimal digits, a space, and 36 characters of bits. */
  lemma HeaderLength(w: Word)
    ensures |Header(w)| == 45
    ensures Header(w)[8] == ' '
  {
    Hex8OfWord(w);
    BinaryDigitsLength(w, 0);
    Split(Hex8(w), BinaryDigits(w, 0));
  }

  /** The eight hexadecimal digits at the front of a header denote the word. */
  lemma HeaderHex(w: Word)
    ensures Value(Header(w)[..8], 16) == w
  {
    Hex8OfWord(w);
    Split(Hex8(w), BinaryDigits(w, 0));
  }

  /** The binary digits after the first space of a header denote the word too. */
  lemma HeaderBits(w: Word)
    ensures SpacedValue(Header(w)[9..], 2) == w
  {
    var hex, bits := Hex8(w), BinaryDigits(w, 0);
    Hex8OfWord(w);
    BinaryDigitsValue(w, 0);
    assert Pow2(0) == 1;
    Split(hex, bits);
    assert Header(w)[9..] == bits;
  }

  lemma Split(hex: string, bits: string)
    requires |hex| == 8
    ensures (hex + " " + bits)[..8] == hex
    ensures (hex + " " + bits)[8] == ' '
    ensures (hex + " " + bits)[9..] == bits
  {
  }

  /** Different words get different headers. */
  lemma HeaderInjective(w1: Word, w2: Word)
    requires Header(w1) == Header(w2)
    ensures w1 == w2
  {
    HeaderHex(w1);
    HeaderHex(w2);
  }
  /**
    The bits of a header start after the hexadecimal digits and a space: bit
    `k` is printed as `0` or `1` at `9 + BitPosition(k)`, most significant
    first, and each group of eight is followed by a space.
   */
  lemma HeaderLayout(w: Word, k: nat)
    requires k < 32
    ensures |Header(w)| == 45
    ensures Header(w)[9 + BitPosition(k)] == DigitChar(Bit(w, k))
    ensures k % 8 == 0 ==> Header(w)[9 + BitPosition(k) + 1] == ' '
  {
    var bits := BinaryDigits(w, 0);
    HeaderLength(w);
    Hex8OfWord(w);
    Split(Hex8(w), bits);
    BinaryDigitsAt(w, 0, k);
    assert Header(w)[9 + BitPosition(k)] == bits[BitPosition(k)];
  }
}
