/**
  How one 32-bit ARM instruction word is printed after its header
  (disassemble.go): the condition and opcode tables, the class dispatch on
  bits 27-26, and the Single Data Transfer and Data Processing formats.
 */
module Instructions {

  import opened Bits
  import opened Numerals
  import opened Rotation
  import opened Headers
  import opened Concat

  // Fields of an instruction word. Each is the source's `(instr & mask) >> shift`.

  /** Bits 31-28, `instr & 0xF0000000 >> 28`. */
  function Cond(w: Word): (c: nat)
    ensures c < 16
  {
    w / 0x1000_0000
  }

  /** Bits 24-21, `(instr & 0x01E00000) >> 21`. */
  function OpCode(w: Word): (op: nat)
    ensures op < 16
  {
    w / 0x20_0000 % 0x10
  }

  /** Bits 19-16, `(instr & 0x000F0000) >> 16`. */
  function Rn(w: Word): (r: nat)
    ensures r < 16
  {
    w / 0x1_0000 % 0x10
  }

  /** Bits 15-12, `(instr & 0x0000F000) >> 12`. */
  function Rd(w: Word): (r: nat)
    ensures r < 16
  {
    w / 0x1000 % 0x10
  }

  /** Bits 11-8, `(instr & 0xF00) >> 8`: half the rotation of a Data Processing immediate. */
  function Rotate(w: Word): (r: nat)
    ensures r < 16
  {
    w / 0x100 % 0x10
  }

  /** Bits 11-0, `instr & 0xFFF`. */
  function Offset12(w: Word): (v: nat)
    ensures v < 0x1000
  {
    w % 0x1000
  }

  /** Bits 7-0, `instr & 0xFF`. */
  function Imm8(w: Word): (v: nat)
    ensures v < 0x100
  {
    w % 0x100
  }

  /** `instr & (1 << i) != 0` */
  predicate IsSet(w: Word, i: nat) {
    Bit(w, i) == 1
  }

  /** The condition mnemonics, indexed by bits 31-28; 14 (always) prints nothing. */
  const Conditions: seq<string> := [
    "EQ", "NE", "CS", "CC",
    "MI", "PL", "VS", "VC",
    "HI", "LS", "GE", "LT",
    "GT", "LE", "", "ERROR"
  ]

  /** The condition value that stops the listing. */
  const InvalidCond: nat := 0xF

  const AND: nat := 0
  const EOR: nat := 1
  const SUB: nat := 2
  const RSB: nat := 3
  const ADD: nat := 4
  const ADC: nat := 5
  const SBC: nat := 6
  const RSC: nat := 7
  const TST: nat := 8
  const TEQ: nat := 9
  const CMP: nat := 10
  const CMN: nat := 11
  const ORR: nat := 12
  const MOV: nat := 13
  const BIC: nat := 14
  const MVN: nat := 15

  /** The Data Processing mnemonics; an opcode's position is its value. */
  const OpCodes: seq<string> := [
    "AND", "EOR", "SUB", "RSB",
    "ADD", "ADC", "SBC", "RSC",
    "TST", "TEQ", "CMP", "CMN",
    "ORR", "MOV", "BIC", "MVN"
  ]

  /** Each opcode constant is the position of its own mnemonic, and condition 0xF is the `ERROR` entry. */
  lemma TableEntries()
    ensures |Conditions| == 16 && |OpCodes| == 16
    ensures Conditions[InvalidCond] == "ERROR" && Conditions[14] == ""
    ensures OpCodes[AND] == "AND" && OpCodes[EOR] == "EOR" && OpCodes[SUB] == "SUB" && OpCodes[RSB] == "RSB"
    ensures OpCodes[ADD] == "ADD" && OpCodes[ADC] == "ADC" && OpCodes[SBC] == "SBC" && OpCodes[RSC] == "RSC"
    ensures OpCodes[TST] == "TST" && OpCodes[TEQ] == "TEQ" && OpCodes[CMP] == "CMP" && OpCodes[CMN] == "CMN"
    ensures OpCodes[ORR] == "ORR" && OpCodes[MOV] == "MOV" && OpCodes[BIC] == "BIC" && OpCodes[MVN] == "MVN"
  {
  }

  /** MOV and MVN take no first operand register. */
  predicate IsMove(op: nat) {
    op == MOV || op == MVN
  }

  /** CMP, CMN, TEQ and TST write no destination register and print no `S`. */
  predicate IsTest(op: nat) {
    op == CMP || op == CMN || op == TEQ || op == TST
  }

  /** The value printed for a Data Processing immediate operand. */
  function Immediate(w: Word): Word {
    RotateRight(Imm8(w), Rotate(w) * 2)
  }

  /** The instruction classes told apart by bits 27-26. */
  datatype InstructionClass = SingleDataTransfer | DataProcessing | Unhandled

  /** `instr & 0x0C000000` compared with `0x04000000` and with `0`. */
  function ClassOf(w: Word): InstructionClass {
    var bits := w / 0x400_0000 % 4;
    if bits == 1 then SingleDataTransfer
    else if bits == 0 then DataProcessing
    else Unhandled
  }

  /** `[R<n>` and what follows it in a Single Data Transfer. */
  function AddressText(w: Word): string {
    var pre := IsSet(w, 24);
    "[R" + Decimal(Rn(w))
    + (if !pre then "]" else "")
    + (if !IsSet(w, 25) then ", #" + (if !IsSet(w, 23) then "-" else "") + "0x" + Hex(Offset12(w)) else "")
    + (if pre then "]" + (if IsSet(w, 21) then "!" else "") else "")
  }

  /** A Single Data Transfer (bits 27-26 are `01`), as printed after the header. */
  function SingleDataTransferText(w: Word): string
    requires Cond(w) != InvalidCond
  {
    (if IsSet(w, 20) then "LDR" else "STR") + Conditions[Cond(w)]
    + (if IsSet(w, 22) then "B" else "")
    + (if IsSet(w, 21) then "T" else "")
    + " R" + Decimal(Rd(w)) + ", "
    + AddressText(w)
  }

  /** The registers printed between a Data Processing mnemonic and its second operand. */
  function OperandsText(w: Word): string {
    var op := OpCode(w);
    if IsMove(op) then
      (if IsSet(w, 20) then "S" else "") + " R" + Decimal(Rd(w)) + ", "
    else if IsTest(op) then
      " R" + Decimal(Rn(w)) + ", "
    else
      (if IsSet(w, 20) then "S" else "") + " R" + Decimal(Rd(w)) + ", R" + Decimal(Rn(w)) + ", "
  }

  /** Operand 2: the placeholder `reg` for a register, or the rotated immediate. */
  function Operand2Text(w: Word): string {
    if !IsSet(w, 25) then "reg" else "#0x" + Hex(Immediate(w))
  }

  /** A Data Processing instruction (bits 27-26 are `00`), as printed after the header. */
  function DataProcessingText(w: Word): string
    requires Cond(w) != InvalidCond
  {
    OpCodes[OpCode(w)] + Conditions[Cond(w)] + OperandsText(w) + Operand2Text(w)
  }

  /** What follows the header of a word whose condition is valid. */
  function InstructionText(w: Word): string
    requires Cond(w) != InvalidCond
  {
    match ClassOf(w)
    case SingleDataTransfer => SingleDataTransferText(w)
    case DataProcessing => DataProcessingText(w)
    case Unhandled => ""
  }

  /** The whole line printed for a word whose condition is valid. */
  function Line(w: Word): string
    requires Cond(w) != InvalidCond
  {
    Header(w) + InstructionText(w) + "\n"
  }

  lemma TablesOneLine(c: nat, op: nat)
    requires c < 16 && op < 16
    ensures '\n' !in Conditions[c] && '\n' !in OpCodes[op]
  {
  }

  lemma AddressOneLine(w: Word)
    ensures '\n' !in AddressText(w)
  {
    NumeralOneLine(Rn(w), 10);
    NumeralOneLine(Offset12(w), 16);
  }

  lemma TransferOneLine(w: Word)
    requires Cond(w) != InvalidCond
    ensures '\n' !in SingleDataTransferText(w)
  {
    TablesOneLine(Cond(w), 0);
    NumeralOneLine(Rd(w), 10);
    AddressOneLine(w);
    TransferPiecesOneLine(IsSet(w, 20), IsSet(w, 22), IsSet(w, 21), Conditions[Cond(w)], Decimal(Rd(w)), AddressText(w));
  }

  /** Whatever the flags, the transfer text joins pieces that hold no line break. */
  lemma TransferPiecesOneLine(load: bool, byte: bool, t: bool, cond: string, rd: string, address: string)
    requires '\n' !in cond && '\n' !in rd && '\n' !in address
    ensures '\n' !in (if load then "LDR" else "STR") + cond + (if byte then "B" else "") + (if t then "T" else "")
                     + " R" + rd + ", " + address
  {
    var mnemonic := if load then "LDR" else "STR";
    var b := if byte then "B" else "";
    var tt := if t then "T" else "";
    assert '\n' !in mnemonic && '\n' !in b && '\n' !in tt;
    Regroup7(mnemonic, cond, b, tt, " R", rd, ", ", address);
  }

  lemma ProcessingOneLine(w: Word)
    requires Cond(w) != InvalidCond
    ensures '\n' !in DataProcessingText(w)
  {
    var ops := OperandsText(w) + Operand2Text(w);
    TablesOneLine(Cond(w), OpCode(w));
    OperandsOneLine(w);
    assert DataProcessingText(w) == OpCodes[OpCode(w)] + Conditions[Cond(w)] + ops;
  }

  lemma OperandsOneLine(w: Word)
    ensures '\n' !in OperandsText(w) + Operand2Text(w)
  {
    NumeralOneLine(Rd(w), 10);
    NumeralOneLine(Rn(w), 10);
    assert '\n' !in OperandsText(w);
    NumeralOneLine(Immediate(w), 16);
    assert '\n' !in Operand2Text(w);
  }

  /** What follows a header holds no line break. */
  lemma InstructionTextOneLine(w: Word)
    requires Cond(w) != InvalidCond
    ensures '\n' !in InstructionText(w)
  {
    match ClassOf(w)
    case SingleDataTransfer => TransferOneLine(w);
    case DataProcessing => ProcessingOneLine(w);
    case Unhandled =>
  }

  /** The only line break of a line is the one that ends it. */
  lemma OneBreak(a: string, b: string)
    requires '\n' !in a && '\n' !in b
    ensures multiset(a + b + "\n")['\n'] == 1
    ensures (a + b + "\n")[|a + b + "\n"| - 1] == '\n'
  {
    assert multiset(a + b + "\n") == multiset(a) + multiset(b) + multiset{'\n'};
  }

  /** Each word takes exactly one line: its line holds one line break, at its end. */
  lemma LineBreaks(w: Word)
    requires Cond(w) != InvalidCond
    ensures multiset(Line(w))['\n'] == 1
    ensures |Line(w)| > 0 && Line(w)[|Line(w)| - 1] == '\n'
  {
    HeaderOneLine(w);
    InstructionTextOneLine(w);
    OneBreak(Header(w), InstructionText(w));
  }
}
