/**
  Reading an instruction's text back. `ParseInstruction` takes the text that
  follows a header apart again, and `ParseInstructionText` shows that it
  recovers every field the text shows: the printed formats are unambiguous.
  `View` is what the text shows of a word; two words with the same text have
  the same view.
 */
module Reading {

  import opened Options
  import opened Bits
  import opened Numerals
  import opened Instructions
  import opened Concat

  /** Operand 2 of a Data Processing instruction, as printed. */
  datatype Operand2 = RegisterOperand | ImmediateOperand(value: nat)

  /**
    The address of a Single Data Transfer, as printed. With an immediate offset
    the brackets show whether it is pre-indexed; with a register offset they do
    not, and only a `!` (pre-indexed with write-back) is visible.
   */
  datatype Address =
    | OffsetAddress(rn: nat, preIndexed: bool, up: bool, offset: nat, writeBack: bool)
    | RegisterAddress(rn: nat, writeBack: bool)

  /** What the text printed after a header shows of the word. */
  datatype View =
    | Transfer(load: bool, cond: nat, byte: bool, bit21: bool, target: nat, address: Address)
    | Processing(opcode: nat, cond: nat, setFlags: bool, rd: Option<nat>, rn: Option<nat>, operand2: Operand2)
    | NoText

  function AddressOf(w: Word): Address {
    var pre := IsSet(w, 24);
    var writeBack := pre && IsSet(w, 21);
    if !IsSet(w, 25) then OffsetAddress(Rn(w), pre, IsSet(w, 23), Offset12(w), writeBack)
    else RegisterAddress(Rn(w), writeBack)
  }

  /**
    The fields of `w` its text shows: a test prints no `S` and no destination,
    a move no first operand, and an unhandled class nothing at all.
   */
  function ViewOf(w: Word): View
    requires Cond(w) != InvalidCond
  {
    match ClassOf(w)
    case SingleDataTransfer =>
      Transfer(IsSet(w, 20), Cond(w), IsSet(w, 22), IsSet(w, 21), Rd(w), AddressOf(w))
    case DataProcessing =>
      var op := OpCode(w);
      Processing(op, Cond(w), !IsTest(op) && IsSet(w, 20),
                 if IsTest(op) then None else Some(Rd(w)),
                 if IsMove(op) then None else Some(Rn(w)),
                 Operand2Of(w))
    case Unhandled => NoText
  }

  // Readers. Each takes something off the front of a string and returns the rest.

  function ReadLiteral(lit: string, s: string): Option<string> {
    if lit <= s then Some(s[|lit|..]) else None
  }

  /** Whether `s` starts with `lit`, and the rest after it if so. */
  function ReadFlag(lit: string, s: string): (bool, string) {
    if lit <= s then (true, s[|lit|..]) else (false, s)
  }

  /** The first condition mnemonic from position `c` of the table that starts `s`; 14 (none) otherwise. */
  function FindCondition(s: string, c: nat): (nat, string)
    requires c <= 14
    decreases 14 - c
  {
    if c == 14 then (14, s)
    else if Conditions[c] <= s then (c, s[|Conditions[c]|..])
    else FindCondition(s, c + 1)
  }

  function ReadCondition(s: string): (nat, string) {
    FindCondition(s, 0)
  }

  /** The first opcode mnemonic from position `op` of the table that starts `s`. */
  function FindOpCode(s: string, op: nat): Option<(nat, string)>
    requires op <= 16
    decreases 16 - op
  {
    if op == 16 then None
    else if OpCodes[op] <= s then Some((op, s[|OpCodes[op]|..]))
    else FindOpCode(s, op + 1)
  }

  /** `-` when the offset is subtracted, `0x` and the offset; the first result is the U bit. */
  function ReadOffset(s: string): Option<(bool, nat, string)> {
    var (negative, s1) := ReadFlag("-", s);
    var s2 :- ReadLiteral("0x", s1);
    var p :- ReadNumeral(s2, 16);
    Some((!negative, p.0, p.1))
  }

  function ParseAddress(s: string): Option<(Address, string)> {
    var s1 :- ReadLiteral("[R", s);
    var p :- ReadNumeral(s1, 10);
    var (closed, s2) := ReadFlag("]", p.1);
    if closed then AfterClose(p.0, s2) else BeforeClose(p.0, s2)
  }

  /** After `[R<n>]`: a post-indexed offset, or `!` for a pre-indexed register offset with write-back. */
  function AfterClose(rn: nat, s: string): Option<(Address, string)> {
    var (hasOffset, s1) := ReadFlag(", #", s);
    if hasOffset then
      var q :- ReadOffset(s1);
      Some((OffsetAddress(rn, false, q.0, q.1, false), q.2))
    else
      var (bang, s2) := ReadFlag("!", s);
      Some((RegisterAddress(rn, bang), s2))
  }

  /** After `[R<n>` with no `]`: a pre-indexed offset, `]` and `!` with write-back. */
  function BeforeClose(rn: nat, s: string): Option<(Address, string)> {
    var s1 :- ReadLiteral(", #", s);
    var q :- ReadOffset(s1);
    var s2 :- ReadLiteral("]", q.2);
    var (bang, s3) := ReadFlag("!", s2);
    Some((OffsetAddress(rn, true, q.0, q.1, bang), s3))
  }

  /** What follows `LDR` or `STR`. */
  function ParseTransfer(load: bool, s: string): Option<View> {
    var (cond, s1) := ReadCondition(s);
    var (byte, s2) := ReadFlag("B", s1);
    var (bit21, s3) := ReadFlag("T", s2);
    var s4 :- ReadLiteral(" R", s3);
    var p :- ReadNumeral(s4, 10);
    var s5 :- ReadLiteral(", ", p.1);
    var a :- ParseAddress(s5);
    if a.1 == [] then Some(Transfer(load, cond, byte, bit21, p.0, a.0)) else None
  }

  /** `R<n>, ` */
  function ReadRegister(s: string): Option<(Option<nat>, string)> {
    var s1 :- ReadLiteral("R", s);
    var p :- ReadNumeral(s1, 10);
    var s2 :- ReadLiteral(", ", p.1);
    Some((Some(p.0), s2))
  }

  function ReadOperand2(s: string): Option<Operand2> {
    if s == "reg" then Some(RegisterOperand)
    else
      var s1 :- ReadLiteral("#0x", s);
      var p :- ReadNumeral(s1, 16);
      if p.1 == [] then Some(ImmediateOperand(p.0)) else None
  }

  function ParseProcessing(s: string): Option<View> {
    var p :- FindOpCode(s, 0);
    var (cond, s1) := ReadCondition(p.1);
    ParseOperands(p.0, cond, s1)
  }

  /** What follows the mnemonic and condition of opcode `op`: `S` unless a test, and the register printed first. */
  function ParseOperands(op: nat, cond: nat, s: string): Option<View> {
    var (setFlags, s1) := if IsTest(op) then (false, s) else ReadFlag("S", s);
    var s2 :- ReadLiteral(" R", s1);
    var q :- ReadNumeral(s2, 10);
    var s3 :- ReadLiteral(", ", q.1);
    ParseOperand2(op, cond, setFlags, q.0, s3)
  }

  /**
    After the register printed first (the destination, or the first operand of
    a test): the first operand unless a move or a test, then operand 2.
   */
  function ParseOperand2(op: nat, cond: nat, setFlags: bool, first: nat, s: string): Option<View> {
    var r :- if IsMove(op) || IsTest(op) then Some((None, s)) else ReadRegister(s);
    var operand2 :- ReadOperand2(r.1);
    Some(Processing(op, cond, setFlags,
                    if IsTest(op) then None else Some(first),
                    if IsTest(op) then Some(first) else r.0,
                    operand2))
  }

  /** Reads the text printed after a header. */
  function ParseInstruction(s: string): Option<View> {
    if s == [] then Some(NoText)
    else if "LDR" <= s then ParseTransfer(true, s[3..])
    else if "STR" <= s then ParseTransfer(false, s[3..])
    else ParseProcessing(s)
  }

  // The tables.

  lemma ConditionsDistinct(i: nat, j: nat)
    requires i < 14 && j < 14 && i != j
    ensures |Conditions[i]| == 2 && Conditions[i] != Conditions[j]
  {
  }

  lemma OpCodesDistinct(i: nat, j: nat)
    requires i < 16 && j < 16 && i != j
    ensures |OpCodes[i]| == 3 && OpCodes[i] != OpCodes[j]
  {
  }

  lemma ConditionStart(i: nat)
    requires i < 14
    ensures |Conditions[i]| == 2 && Conditions[i][0] !in "BTS "
  {
  }

  lemma OpCodeNotTransfer(op: nat)
    requires op < 16
    ensures |OpCodes[op]| == 3 && OpCodes[op] != "LDR" && OpCodes[op] != "STR"
  {
  }

  // Each reader takes back exactly what was printed.

  lemma ReadLiteralOf(lit: string, rest: string)
    ensures ReadLiteral(lit, lit + rest) == Some(rest)
  {
    assert (lit + rest)[..|lit|] == lit;
    assert (lit + rest)[|lit|..] == rest;
  }

  lemma ReadFlagOf(lit: string, b: bool, rest: string)
    requires b || !(lit <= rest)
    ensures ReadFlag(lit, (if b then lit else "") + rest) == (b, rest)
  {
    if b {
      ReadLiteralOf(lit, rest);
    } else {
      assert "" + rest == rest;
    }
  }

  /** What can follow a condition: `B`, `T`, `S` or the space before the operands. */
  predicate MayFollowCondition(rest: string) {
    rest == [] || rest[0] in "BTS "
  }

  lemma {:induction false} FindConditionOf(c: nat, j: nat, rest: string)
    requires j <= c <= 14 && MayFollowCondition(rest)
    ensures FindCondition(Conditions[c] + rest, j) == (c, rest)
    decreases 14 - j
  {
    var s := Conditions[c] + rest;
    if j < c {
      ConditionStart(j);
      if c < 14 {
        ConditionsDistinct(j, c);
        assert s[..2] == Conditions[c];
      } else {
        assert s == rest;
      }
      FindConditionOf(c, j + 1, rest);
    } else if c < 14 {
      ConditionStart(c);
      ReadLiteralOf(Conditions[c], rest);
    } else {
      assert s == rest;
    }
  }

  /** A condition mnemonic, or none for 14, is read back as its number. */
  lemma ReadConditionOf(c: nat, rest: string)
    requires c <= 14 && MayFollowCondition(rest)
    ensures ReadCondition(Conditions[c] + rest) == (c, rest)
  {
    FindConditionOf(c, 0, rest);
  }

  lemma {:induction false} FindOpCodeOf(op: nat, j: nat, rest: string)
    requires j <= op < 16
    ensures FindOpCode(OpCodes[op] + rest, j) == Some((op, rest))
    decreases 16 - j
  {
    var s := OpCodes[op] + rest;
    OpCodeNotTransfer(op);
    if j < op {
      OpCodesDistinct(j, op);
      assert s[..3] == OpCodes[op];
      FindOpCodeOf(op, j + 1, rest);
    } else {
      ReadLiteralOf(OpCodes[op], rest);
    }
  }

  lemma ReadOffsetOf(up: bool, offset: nat, rest: string)
    requires rest == [] || !IsDigit(rest[0], 16)
    ensures ReadOffset((if !up then "-" else "") + "0x" + Hex(offset) + rest) == Some((up, offset, rest))
  {
    var h := Hex(offset);
    var sign := if !up then "-" else "";
    Regroup3(sign, "0x", h, rest);
    assert ("0x" + (h + rest))[0] == '0';
    ReadFlagOf("-", !up, "0x" + (h + rest));
    ReadLiteralOf("0x", h + rest);
    ReadNumeralOf(offset, 16, rest);
  }

  /** Why a numeral stops where it does: none of these characters is a digit. */
  lemma NotDigits()
    ensures !IsDigit(']', 16) && !IsDigit(',', 16) && !IsDigit('!', 16)
    ensures !IsDigit(']', 10) && !IsDigit(',', 10)
  {
  }

  /** `[R<n>` and, unless an offset follows, `]`. */
  lemma AddressStart(n: nat, closed: bool, rest: string)
    requires closed || (rest != [] && rest[0] == ',')
    ensures ParseAddress("[R" + (Decimal(n) + ((if closed then "]" else "") + rest)))
         == if closed then AfterClose(n, rest) else BeforeClose(n, rest)
  {
    var r := (if closed then "]" else "") + rest;
    NotDigits();
    ReadLiteralOf("[R", Decimal(n) + r);
    if closed {
      assert r[0] == ']';
    } else {
      assert r == rest;
    }
    ReadNumeralOf(n, 10, r);
    if !closed {
      assert !("]" <= rest);
    }
    ReadFlagOf("]", closed, rest);
  }

  /** `, #<offset>` after `]`: post-indexed, immediate offset. */
  lemma PostIndexedRead(n: nat, up: bool, offset: nat)
    ensures AfterClose(n, ", #" + (if !up then "-" else "") + "0x" + Hex(offset) + "")
         == Some((OffsetAddress(n, false, up, offset, false), ""))
  {
    var sign := if !up then "-" else "";
    var o := sign + "0x" + Hex(offset) + "";
    assert ", #" + sign + "0x" + Hex(offset) + "" == ", #" + o;
    ReadFlagOf(", #", true, o);
    ReadOffsetOf(up, offset, "");
  }

  /** Nothing after `]`: post-indexed, register offset. */
  lemma PostRegisterRead(n: nat)
    ensures AfterClose(n, "") == Some((RegisterAddress(n, false), ""))
  {
    ReadFlagOf(", #", false, "");
    ReadFlagOf("!", false, "");
  }

  /** `, #<offset>]` and `!` with write-back: pre-indexed, immediate offset. */
  lemma PreIndexedRead(n: nat, up: bool, offset: nat, bang: bool)
    ensures BeforeClose(n, ", #" + (if !up then "-" else "") + "0x" + Hex(offset) + ("]" + (if bang then "!" else "")))
         == Some((OffsetAddress(n, true, up, offset, bang), ""))
  {
    var sign := if !up then "-" else "";
    var b := if bang then "!" else "";
    var close := "]" + b;
    var o := sign + "0x" + Hex(offset) + close;
    assert ", #" + sign + "0x" + Hex(offset) + close == ", #" + o;
    ReadLiteralOf(", #", o);
    NotDigits();
    assert close[0] == ']';
    ReadOffsetOf(up, offset, close);
    ReadLiteralOf("]", b);
    assert b == b + "";
    ReadFlagOf("!", bang, "");
  }

  /** `!` with write-back after `]`: pre-indexed, register offset. */
  lemma PreRegisterRead(n: nat, bang: bool)
    ensures AfterClose(n, if bang then "!" else "") == Some((RegisterAddress(n, bang), ""))
  {
    var b := if bang then "!" else "";
    assert !(", #" <= b);
    assert b == b + "";
    ReadFlagOf("!", bang, "");
  }

  /** `AddressText` as its four parts: `[R<n>`, the `]` of post-indexing, the offset, and the `]` of pre-indexing. */
  lemma AddressParts(w: Word)
    ensures AddressText(w) == "[R" + (Decimal(Rn(w)) + (AddressClose(w, false) + (AddressOffset(w) + AddressClose(w, true))))
  {
    Regroup3("[R", Decimal(Rn(w)), AddressClose(w, false), AddressOffset(w) + AddressClose(w, true));
  }

  function AddressClose(w: Word, pre: bool): string {
    if IsSet(w, 24) != pre then "" else if pre then "]" + (if IsSet(w, 21) then "!" else "") else "]"
  }

  function AddressOffset(w: Word): string {
    if !IsSet(w, 25) then ", #" + (if !IsSet(w, 23) then "-" else "") + "0x" + Hex(Offset12(w)) else ""
  }

  /** The address of a Single Data Transfer is read back as the fields it shows. */
  lemma AddressRoundTrip(w: Word)
    ensures ParseAddress(AddressText(w)) == Some((AddressOf(w), ""))
  {
    var n, pre, imm, up, bang := Rn(w), IsSet(w, 24), !IsSet(w, 25), IsSet(w, 23), IsSet(w, 21);
    var b := if bang then "!" else "";
    var offset := AddressOffset(w);
    AddressParts(w);
    if !pre {
      assert AddressClose(w, false) == "]" && AddressClose(w, true) == "";
      AddressStart(n, true, offset + "");
      if imm {
        PostIndexedRead(n, up, Offset12(w));
      } else {
        assert offset + "" == "";
        PostRegisterRead(n);
      }
    } else {
      assert AddressClose(w, false) == "" && AddressClose(w, true) == "]" + b;
      if imm {
        assert "" + (offset + ("]" + b)) == offset + ("]" + b);
        AddressStart(n, false, offset + ("]" + b));
        PreIndexedRead(n, up, Offset12(w), bang);
      } else {
        assert "" + ("" + ("]" + b)) == "]" + b;
        AddressStart(n, true, b);
        PreRegisterRead(n, bang);
      }
    }
  }

  /** A Single Data Transfer's text as the pieces it is printed in. */
  lemma TransferParts(w: Word)
    requires Cond(w) != InvalidCond
    ensures SingleDataTransferText(w)
         == (if IsSet(w, 20) then "LDR" else "STR")
          + (Conditions[Cond(w)] + ((if IsSet(w, 22) then "B" else "") + ((if IsSet(w, 21) then "T" else "")
          + (" R" + (Decimal(Rd(w)) + (", " + AddressText(w)))))))
  {
    Regroup7(if IsSet(w, 20) then "LDR" else "STR", Conditions[Cond(w)], if IsSet(w, 22) then "B" else "",
             if IsSet(w, 21) then "T" else "", " R", Decimal(Rd(w)), ", ", AddressText(w));
  }

  /** What follows `LDR` or `STR` is read back field by field. */
  lemma TransferBodyRead(load: bool, cond: nat, byte: bool, bit21: bool, rd: nat, a: string, address: Address)
    requires cond <= 14 && ParseAddress(a) == Some((address, ""))
    ensures ParseTransfer(load, Conditions[cond] + ((if byte then "B" else "") + ((if bit21 then "T" else "")
              + (" R" + (Decimal(rd) + (", " + a))))))
         == Some(Transfer(load, cond, byte, bit21, rd, address))
  {
    var regs := " R" + (Decimal(rd) + (", " + a));
    var t := (if bit21 then "T" else "") + regs;
    var b := (if byte then "B" else "") + t;
    assert regs[0] == ' ';
    assert t[0] == if bit21 then 'T' else ' ';
    assert b[0] == if byte then 'B' else t[0];
    ReadConditionOf(cond, b);
    ReadFlagOf("B", byte, t);
    ReadFlagOf("T", bit21, regs);
    ReadLiteralOf(" R", Decimal(rd) + (", " + a));
    NotDigits();
    ReadNumeralOf(rd, 10, ", " + a);
    ReadLiteralOf(", ", a);
  }

  lemma TransferMnemonicRead(load: bool, rest: string)
    ensures ParseInstruction((if load then "LDR" else "STR") + rest) == ParseTransfer(load, rest)
  {
    var text := (if load then "LDR" else "STR") + rest;
    assert text[3..] == rest;
    if load {
      assert text[..3] == "LDR";
    } else {
      assert text[..3] == "STR";
      assert text[0] == 'S';
    }
  }

  /** A Single Data Transfer is read back as the fields its text shows. */
  lemma TransferRoundTrip(w: Word)
    requires Cond(w) != InvalidCond && ClassOf(w) == SingleDataTransfer
    ensures ParseInstruction(SingleDataTransferText(w)) == Some(ViewOf(w))
  {
    var load := IsSet(w, 20);
    var rest := Conditions[Cond(w)] + ((if IsSet(w, 22) then "B" else "") + ((if IsSet(w, 21) then "T" else "")
                + (" R" + (Decimal(Rd(w)) + (", " + AddressText(w))))));
    TransferParts(w);
    TransferMnemonicRead(load, rest);
    AddressRoundTrip(w);
    TransferBodyRead(load, Cond(w), IsSet(w, 22), IsSet(w, 21), Rd(w), AddressText(w), AddressOf(w));
    assert ViewOf(w) == Transfer(load, Cond(w), IsSet(w, 22), IsSet(w, 21), Rd(w), AddressOf(w));
  }

  /** Operand 2 is read back as the placeholder or the immediate's value. */
  lemma Operand2Read(w: Word)
    ensures ReadOperand2(Operand2Text(w)) == Some(Operand2Of(w))
  {
    if IsSet(w, 25) {
      var h := Hex(Immediate(w));
      assert ("#0x" + h)[0] == '#';
      ReadLiteralOf("#0x", h);
      assert h == h + "";
      ReadNumeralOf(Immediate(w), 16, "");
    }
  }

  /** The register printed first, after `S` when the flags are set. */
  lemma FirstRegisterRead(op: nat, cond: nat, setFlags: bool, first: nat, tail: string)
    requires IsTest(op) ==> !setFlags
    ensures ParseOperands(op, cond, (if setFlags then "S" else "") + (" R" + (Decimal(first) + (", " + tail))))
         == ParseOperand2(op, cond, setFlags, first, tail)
  {
    var regs := " R" + (Decimal(first) + (", " + tail));
    assert regs[0] == ' ';
    if !IsTest(op) {
      ReadFlagOf("S", setFlags, regs);
    } else {
      assert "" + regs == regs;
    }
    ReadLiteralOf(" R", Decimal(first) + (", " + tail));
    NotDigits();
    ReadNumeralOf(first, 10, ", " + tail);
    ReadLiteralOf(", ", tail);
  }

  /** `R<n>, ` and operand 2 after the destination of an opcode that takes a first operand. */
  lemma SecondRegisterRead(op: nat, cond: nat, setFlags: bool, first: nat, rn: nat, tail: string, operand2: Operand2)
    requires !IsMove(op) && !IsTest(op) && ReadOperand2(tail) == Some(operand2)
    ensures ParseOperand2(op, cond, setFlags, first, "R" + (Decimal(rn) + (", " + tail)))
         == Some(Processing(op, cond, setFlags, Some(first), Some(rn), operand2))
  {
    ReadLiteralOf("R", Decimal(rn) + (", " + tail));
    NotDigits();
    ReadNumeralOf(rn, 10, ", " + tail);
    ReadLiteralOf(", ", tail);
  }

  /** Operand 2 alone after the register of a move or a test. */
  lemma LoneOperand2Read(op: nat, cond: nat, setFlags: bool, first: nat, tail: string, operand2: Operand2)
    requires (IsMove(op) || IsTest(op)) && ReadOperand2(tail) == Some(operand2)
    ensures ParseOperand2(op, cond, setFlags, first, tail)
         == Some(Processing(op, cond, setFlags, if IsTest(op) then None else Some(first),
                            if IsTest(op) then Some(first) else None, operand2))
  {
  }

  /** The operand 2 a word shows. */
  function Operand2Of(w: Word): Operand2 {
    if IsSet(w, 25) then ImmediateOperand(Immediate(w)) else RegisterOperand
  }

  lemma MoveOperandsRoundTrip(w: Word, cond: nat)
    requires IsMove(OpCode(w))
    ensures ParseOperands(OpCode(w), cond, OperandsText(w) + Operand2Text(w))
         == Some(Processing(OpCode(w), cond, IsSet(w, 20), Some(Rd(w)), None, Operand2Of(w)))
  {
    var op, tail := OpCode(w), Operand2Text(w);
    var flag := if IsSet(w, 20) then "S" else "";
    assert OperandsText(w) == flag + " R" + Decimal(Rd(w)) + ", ";
    Regroup4(flag, " R", Decimal(Rd(w)), ", ", tail);
    FirstRegisterRead(op, cond, IsSet(w, 20), Rd(w), tail);
    Operand2Read(w);
    LoneOperand2Read(op, cond, IsSet(w, 20), Rd(w), tail, Operand2Of(w));
  }

  lemma TestOperandsRoundTrip(w: Word, cond: nat)
    requires IsTest(OpCode(w))
    ensures ParseOperands(OpCode(w), cond, OperandsText(w) + Operand2Text(w))
         == Some(Processing(OpCode(w), cond, false, None, Some(Rn(w)), Operand2Of(w)))
  {
    var op, tail := OpCode(w), Operand2Text(w);
    assert OperandsText(w) == "" + " R" + Decimal(Rn(w)) + ", ";
    Regroup4("", " R", Decimal(Rn(w)), ", ", tail);
    FirstRegisterRead(op, cond, false, Rn(w), tail);
    Operand2Read(w);
    LoneOperand2Read(op, cond, false, Rn(w), tail, Operand2Of(w));
  }

  /** The text of an opcode with a first operand, as the pieces it is printed in. */
  lemma BinaryOperandsText(w: Word)
    requires !IsMove(OpCode(w)) && !IsTest(OpCode(w))
    ensures OperandsText(w) + Operand2Text(w)
         == (if IsSet(w, 20) then "S" else "") + (" R" + (Decimal(Rd(w)) + (", "
          + ("R" + (Decimal(Rn(w)) + (", " + Operand2Text(w)))))))
  {
    var flag := if IsSet(w, 20) then "S" else "";
    assert ", R" == ", " + "R";
    assert OperandsText(w) == flag + " R" + Decimal(Rd(w)) + ", " + "R" + Decimal(Rn(w)) + ", ";
    Regroup7(flag, " R", Decimal(Rd(w)), ", ", "R", Decimal(Rn(w)), ", ", Operand2Text(w));
  }

  lemma BinaryOperandsRoundTrip(w: Word, cond: nat)
    requires !IsMove(OpCode(w)) && !IsTest(OpCode(w))
    ensures ParseOperands(OpCode(w), cond, OperandsText(w) + Operand2Text(w))
         == Some(Processing(OpCode(w), cond, IsSet(w, 20), Some(Rd(w)), Some(Rn(w)), Operand2Of(w)))
  {
    var tail := Operand2Text(w);
    BinaryOperandsText(w);
    FirstRegisterRead(OpCode(w), cond, IsSet(w, 20), Rd(w), "R" + (Decimal(Rn(w)) + (", " + tail)));
    Operand2Read(w);
    SecondRegisterRead(OpCode(w), cond, IsSet(w, 20), Rd(w), Rn(w), tail, Operand2Of(w));
  }

  /** A Data Processing text is an opcode, a condition, and operands that may follow a condition. */
  lemma ProcessingParts(w: Word)
    requires Cond(w) != InvalidCond
    ensures DataProcessingText(w) == OpCodes[OpCode(w)] + (Conditions[Cond(w)] + (OperandsText(w) + Operand2Text(w)))
    ensures MayFollowCondition(OperandsText(w) + Operand2Text(w))
  {
    var operands := OperandsText(w);
    Regroup3(OpCodes[OpCode(w)], Conditions[Cond(w)], operands, Operand2Text(w));
    OperandsStart(w);
    assert (operands + Operand2Text(w))[0] == operands[0];
  }

  lemma OperandsStart(w: Word)
    ensures |OperandsText(w)| > 0
    ensures OperandsText(w)[0] == if IsTest(OpCode(w)) || !IsSet(w, 20) then ' ' else 'S'
  {
  }

  /** An opcode mnemonic is not taken for `LDR` or `STR`, and the condition after it is read. */
  lemma OpCodeRead(op: nat, cond: nat, operands: string)
    requires op < 16 && cond <= 14 && MayFollowCondition(operands)
    ensures ParseInstruction(OpCodes[op] + (Conditions[cond] + operands)) == ParseOperands(op, cond, operands)
  {
    var rest := Conditions[cond] + operands;
    var text := OpCodes[op] + rest;
    OpCodeNotTransfer(op);
    assert text[..3] == OpCodes[op];
    ReadConditionOf(cond, operands);
    FindOpCodeOf(op, 0, rest);
  }

  /** A Data Processing instruction is read back as the fields its text shows. */
  lemma ProcessingRoundTrip(w: Word)
    requires Cond(w) != InvalidCond && ClassOf(w) == DataProcessing
    ensures ParseInstruction(DataProcessingText(w)) == Some(ViewOf(w))
  {
    var op, cond := OpCode(w), Cond(w);
    ProcessingParts(w);
    OpCodeRead(op, cond, OperandsText(w) + Operand2Text(w));
    if IsMove(op) {
      MoveOperandsRoundTrip(w, cond);
    } else if IsTest(op) {
      TestOperandsRoundTrip(w, cond);
    } else {
      BinaryOperandsRoundTrip(w, cond);
    }
  }

  /**
    The text printed after a header determines the fields it shows: reading it
    back gives the word's view.
   */
  lemma ParseInstructionText(w: Word)
    requires Cond(w) != InvalidCond
    ensures ParseInstruction(InstructionText(w)) == Some(ViewOf(w))
  {
    match ClassOf(w)
    case SingleDataTransfer => TransferRoundTrip(w);
    case DataProcessing => ProcessingRoundTrip(w);
    case Unhandled =>
  }

  /** Two words printed with the same text agree on every field the text shows. */
  lemma SameTextSameView(w1: Word, w2: Word)
    requires Cond(w1) != InvalidCond && Cond(w2) != InvalidCond
    requires InstructionText(w1) == InstructionText(w2)
    ensures ViewOf(w1) == ViewOf(w2)
  {
    ParseInstructionText(w1);
    ParseInstructionText(w2);
  }
}
