/**
  `Disassemble` (disassemble.go): the byte slice is read four bytes at a time as
  little-endian words, every word gets its header, a word whose condition is
  0xF stops the listing with an error, and every other word gets its line.
 */
module Listing {

  import opened Options
  import opened Bits
  import opened Numerals
  import opened Rotation
  import opened Headers
  import opened Instructions
  import opened Concat

  type Byte = b: nat | b < 0x100

  /** `uint32(b0) + uint32(b1)<<8 + uint32(b2)<<16 + uint32(b3)<<24` */
  function LittleEndian(b0: Byte, b1: Byte, b2: Byte, b3: Byte): Word {
    b0 + b1 * 0x100 + b2 * 0x1_0000 + b3 * 0x100_0000
  }

  /** The words read from `code`, four bytes each; a tail of one to three bytes is not read. */
  function Words(code: seq<Byte>): (ws: seq<Word>)
    ensures |ws| == |code| / 4
    decreases |code|
  {
    if |code| < 4 then []
    else [LittleEndian(code[0], code[1], code[2], code[3])] + Words(code[4..])
  }

  predicate AllValid(ws: seq<Word>) {
    forall i :: 0 <= i < |ws| ==> Cond(ws[i]) != InvalidCond
  }

  /** The lines printed for words that all have a valid condition, in order. */
  function Lines(ws: seq<Word>): string
    requires AllValid(ws)
  {
    if ws == [] then "" else Line(ws[0]) + Lines(ws[1..])
  }

  /** The position of the first word whose condition is 0xF; `|ws|` when there is none. */
  function FirstInvalid(ws: seq<Word>): (k: nat)
    ensures k <= |ws|
    ensures AllValid(ws[..k])
    ensures k < |ws| ==> Cond(ws[k]) == InvalidCond
  {
    if ws == [] || Cond(ws[0]) == InvalidCond then 0
    else
      var k := 1 + FirstInvalid(ws[1..]);
      assert ws[..k] == [ws[0]] + ws[1..][..k - 1];
      k
  }

  /** The error returned for a word whose condition is 0xF. */
  datatype DisassemblyError = InvalidCondition

  /**
    What `Disassemble` returns for the words it reads: every line when all
    conditions are valid; otherwise the lines before the first invalid word and
    that word's header, with the error.
   */
  function Disassembly(ws: seq<Word>): (string, Option<DisassemblyError>) {
    var k := FirstInvalid(ws);
    if k == |ws| then (Lines(ws), None)
    else (Lines(ws[..k]) + Header(ws[k]), Some(InvalidCondition))
  }

  /**
    What the loop prints from `code` on, one word at a time: the line of each
    word, until a word whose condition is 0xF, of which only the header is printed.
   */
  function Output(code: seq<Byte>): (string, Option<DisassemblyError>)
    decreases |code|
  {
    if |code| < 4 then ("", None)
    else
      var w := LittleEndian(code[0], code[1], code[2], code[3]);
      if Cond(w) == InvalidCond then (Header(w), Some(InvalidCondition))
      else (Line(w) + Output(code[4..]).0, Output(code[4..]).1)
  }

  /**
    `nextARM`: takes the next word off the front of `code` when four bytes
    remain. The closure's captured slice is passed in and handed back.
   */
  method NextArm(code: seq<Byte>) returns (instr: Word, ok: bool, rest: seq<Byte>)
    ensures ok == (|code| >= 4)
    ensures ok ==> instr == LittleEndian(code[0], code[1], code[2], code[3]) && rest == code[4..]
    ensures !ok ==> instr == 0 && rest == code
  {
    if |code| >= 4 {
      instr := code[0] as nat + code[1] as nat * 0x100 + code[2] as nat * 0x1_0000 + code[3] as nat * 0x100_0000;
      rest := code[4..];
      return instr, true, rest;
    }
    return 0, false, code;
  }

  /**
    `Disassemble`: the listing of `code`, and an error when a word with
    condition 0xF is met. It agrees with the word-level `Disassembly`.
   */
  method Disassemble(code: seq<Byte>) returns (text: string, err: Option<DisassemblyError>)
    ensures (text, err) == Output(code)
    ensures (text, err) == Disassembly(Words(code))
  {
    OutputIsDisassembly(code);
    var rest := code;
    var buf := "";
    while true
      invariant buf + Output(rest).0 == Output(code).0
      invariant Output(rest).1 == Output(code).1
      decreases |rest|
    {
      ghost var unread := rest;
      var instr, ok;
      instr, ok, rest := NextArm(rest);
      if !ok {
        assert buf + "" == buf;
        break;
      }
      ghost var before := buf;
      var header := HeaderPrint(instr);
      buf := buf + header;

      var cond := Cond(instr);
      if cond == InvalidCond {
        assert Output(unread) == (header, Some(InvalidCondition));
        return buf, Some(InvalidCondition);
      }

      var body := InstructionPrint(instr);
      buf := buf + body + "\n";
      Associative(before, header, body, "\n");
      Associative(before, Line(instr), Output(rest).0, "");
    }
    return buf, None;
  }

  /** The header of the loop: `%08X ` and then bits 31 down to 0, a space after every eighth. */
  method HeaderPrint(instr: Word) returns (t: string)
    ensures t == Header(instr)
  {
    t := Hex8(instr) + " ";
    t := BitsPrint(instr, t);
  }

  /** The bit loop of the header: appends bits 31 down to 0 to `t`, a space after every eighth. */
  method BitsPrint(instr: Word, t0: string) returns (t: string)
    ensures t == t0 + BinaryDigits(instr, 0)
  {
    t := t0;
    var i: int := 31;
    while i >= 0
      invariant -1 <= i <= 31
      invariant t == t0 + BinaryDigits(instr, i + 1)
    {
      var digit := Decimal(Bit(instr, i));
      var separator := if i % 8 == 0 then " " else "";
      HeaderPrintStep(instr, i, t0, t);
      t := t + digit + separator;
      i := i - 1;
    }
  }

  /** One turn of the bit loop appends the digit of bit `i` and, when `i` is a multiple of 8, a space. */
  lemma HeaderPrintStep(w: Word, i: nat, hex: string, t: string)
    requires i < 32 && t == hex + BinaryDigits(w, i + 1)
    ensures t + Decimal(Bit(w, i)) + (if i % 8 == 0 then " " else "") == hex + BinaryDigits(w, i)
  {
    Associative(hex, BinaryDigits(w, i + 1), Decimal(Bit(w, i)), if i % 8 == 0 then " " else "");
  }

  /** The class dispatch of the loop: what is printed after the header of a valid word. */
  method InstructionPrint(instr: Word) returns (t: string)
    requires Cond(instr) != InvalidCond
    ensures t == InstructionText(instr)
  {
    t := "";
    if ClassOf(instr) == SingleDataTransfer {
      t := SingleDataTransferPrint(instr);
    } else if ClassOf(instr) == DataProcessing {
      t := DataProcessingPrint(instr);
    }
  }

  /** The Single Data Transfer branch of the loop: the mnemonic and operands it prints. */
  method SingleDataTransferPrint(instr: Word) returns (t: string)
    requires Cond(instr) != InvalidCond
    ensures t == SingleDataTransferText(instr)
  {
    t := if IsSet(instr, 20) then "LDR" else "STR";
    t := t + Conditions[Cond(instr)] + (if IsSet(instr, 22) then "B" else "") + (if IsSet(instr, 21) then "T" else "");
    t := t + " R" + Decimal(Rd(instr)) + ", ";
    var address := AddressPrint(instr);
    t := t + address;
  }
  /** The address part of a Single Data Transfer, from `[R<n>` on. */
  method AddressPrint(instr: Word) returns (t: string)
    ensures t == AddressText(instr)
  {
    var preIndexed := IsSet(instr, 24);
    var base := "[R" + Decimal(Rn(instr));
    var offset := ", #" + (if !IsSet(instr, 23) then "-" else "") + "0x" + Hex(Offset12(instr));
    var close := "]" + (if IsSet(instr, 21) then "!" else "");
    t := base;
    if !preIndexed {
      t := t + "]";
    }
    ghost var t1 := t;
    assert t1 == base + (if !preIndexed then "]" else "");
    if !IsSet(instr, 25) {
      t := t + offset;
    }
    ghost var t2 := t;
    assert t2 == t1 + (if !IsSet(instr, 25) then offset else "");
    if preIndexed {
      t := t + close;
    }
    assert t == t2 + (if preIndexed then close else "");
  }
  /** The Data Processing branch of the loop: the mnemonic and operands it prints. */
  method DataProcessingPrint(instr: Word) returns (t: string)
    requires Cond(instr) != InvalidCond
    ensures t == DataProcessingText(instr)
  {
    t := OpCodes[OpCode(instr)] + Conditions[Cond(instr)];
    var operands := OperandsPrint(instr);
    t := t + operands;
    if !IsSet(instr, 25) {
      t := t + "reg";
    } else {
      var value, rotate := Imm8(instr), Rotate(instr);
      t := t + "#0x" + Hex(RotateRight(value, rotate * 2));
    }
  }
  /** The registers of a Data Processing instruction, chosen by its opcode. */
  method OperandsPrint(instr: Word) returns (t: string)
    ensures t == OperandsText(instr)
  {
    var opCode := OpCode(instr);
    var flag := if IsSet(instr, 20) then "S" else "";
    var rd, rn := Decimal(Rd(instr)), Decimal(Rn(instr));
    if opCode == MOV || opCode == MVN {
      t := flag + " R" + rd + ", ";
    } else if opCode == CMP || opCode == CMN || opCode == TEQ || opCode == TST {
      t := " R" + rn + ", ";
    } else {
      t := flag + " R" + rd + ", R" + rn + ", ";
    }
  }
  /** The `i`-th word read is made of bytes `4i` to `4i + 3`. */
  lemma {:induction false} WordAt(code: seq<Byte>, i: nat)
    requires i < |code| / 4
    ensures Words(code)[i] == LittleEndian(code[4 * i], code[4 * i + 1], code[4 * i + 2], code[4 * i + 3])
  {
    if i > 0 {
      WordAt(code[4..], i - 1);
    }
  }

  /** The four bytes of a word, least significant first. */
  function BytesOf(w: Word): (bs: seq<Byte>)
    ensures |bs| == 4
  {
    [w % 0x100, w / 0x100 % 0x100, w / 0x1_0000 % 0x100, w / 0x100_0000]
  }

  /** Reading the bytes of a word gives the word back. */
  lemma LittleEndianOfBytes(w: Word)
    ensures LittleEndian(BytesOf(w)[0], BytesOf(w)[1], BytesOf(w)[2], BytesOf(w)[3]) == w
  {
    DivModParts(w, 0x100);
    DivModParts(w / 0x100, 0x100);
    DivModParts(w / 0x100 / 0x100, 0x100);
    DivDiv(w, 0x100, 0x100);
    DivDiv(w / 0x100, 0x100, 0x100);
    DivDiv(w, 0x100, 0x1_0000);
    DivDiv(w, 0x1_0000, 0x100);
  }

  /** Every choice of four bytes is read as a different word. */
  lemma BytesOfLittleEndian(b0: Byte, b1: Byte, b2: Byte, b3: Byte)
    ensures BytesOf(LittleEndian(b0, b1, b2, b3)) == [b0, b1, b2, b3]
  {
    var w := LittleEndian(b0, b1, b2, b3);
    var q1 := b1 + b2 * 0x100 + b3 * 0x1_0000;
    var q2 := b2 + b3 * 0x100;
    DivModUnique(w, 0x100, q1, b0);
    DivModUnique(q1, 0x100, q2, b1);
    DivModUnique(q2, 0x100, b3, b2);
    DivDiv(w, 0x100, 0x100);
    DivDiv(w, 0x1_0000, 0x100);
    DivDiv(w, 0x100, 0x1_0000);
    DivModUnique(b3, 0x100, 0, b3);
  }

  /** The bytes that hold the words `ws`, in order. */
  function Encode(ws: seq<Word>): (code: seq<Byte>)
    ensures |code| == 4 * |ws|
  {
    if ws == [] then [] else BytesOf(ws[0]) + Encode(ws[1..])
  }

  /** Reading the encoding of `ws`, followed by fewer than four stray bytes, gives `ws` back. */
  lemma {:induction false} WordsOfEncode(ws: seq<Word>, tail: seq<Byte>)
    requires |tail| < 4
    ensures Words(Encode(ws) + tail) == ws
  {
    if ws != [] {
      var code := Encode(ws) + tail;
      var bs := BytesOf(ws[0]);
      assert code[..4] == bs;
      assert code[4..] == Encode(ws[1..]) + tail;
      LittleEndianOfBytes(ws[0]);
      WordsOfEncode(ws[1..], tail);
    } else {
      assert Encode(ws) + tail == tail;
    }
  }

  /** Stray bytes after the last whole word are not read. */
  lemma {:induction false} WordsIgnoreTail(code: seq<Byte>, tail: seq<Byte>)
    requires |code| % 4 == 0 && |tail| < 4
    ensures Words(code + tail) == Words(code)
    decreases |code|
  {
    if |code| == 0 {
      assert code + tail == tail;
    } else {
      assert (code + tail)[4..] == code[4..] + tail;
      WordsIgnoreTail(code[4..], tail);
    }
  }

  /** The loop's output is the word-level `Disassembly` of the words read. */
  lemma {:induction false} OutputIsDisassembly(code: seq<Byte>)
    ensures Output(code) == Disassembly(Words(code))
    decreases |code|
  {
    var ws := Words(code);
    if |code| < 4 {
      assert ws == [] && FirstInvalid(ws) == 0;
    } else {
      var w := ws[0];
      assert ws == [w] + Words(code[4..]);
      if Cond(w) == InvalidCond {
        assert FirstInvalid(ws) == 0;
        assert ws[..0] == [] && Lines([]) == "";
        assert "" + Header(w) == Header(w);
      } else {
        OutputIsDisassembly(code[4..]);
        DisassemblyCons(w, Words(code[4..]));
      }
    }
  }

  /** A word with a valid condition puts its line in front of the rest of the listing. */
  lemma DisassemblyCons(w: Word, ws: seq<Word>)
    requires Cond(w) != InvalidCond
    ensures Disassembly([w] + ws) == (Line(w) + Disassembly(ws).0, Disassembly(ws).1)
  {
    var all := [w] + ws;
    assert all[0] == w && all[1..] == ws;
    var k := FirstInvalid(ws);
    assert FirstInvalid(all) == k + 1;
    if k < |ws| {
      var front := all[..k + 1];
      assert front[0] == w && front[1..] == ws[..k];
      LinesCons(front);
      assert all[k + 1] == ws[k];
      Associative(Line(w), Lines(ws[..k]), Header(ws[k]), "");
    } else {
      assert ws[..k] == ws && all[..k + 1] == all;
      LinesCons(all);
    }
  }

  /** The listing ends in an error exactly when some word has condition 0xF. */
  lemma ErrorIffInvalid(ws: seq<Word>)
    ensures Disassembly(ws).1 == None <==> AllValid(ws)
  {
    var k := FirstInvalid(ws);
    if k == |ws| {
      assert ws[..k] == ws;
    }
  }

  /** `FirstInvalid` is the only position with the properties it promises. */
  lemma {:induction false} FirstInvalidAt(ws: seq<Word>, k: nat)
    requires k <= |ws| && AllValid(ws[..k])
    requires k < |ws| ==> Cond(ws[k]) == InvalidCond
    ensures FirstInvalid(ws) == k
  {
    if k > 0 {
      assert ws[..k][0] == ws[0];
      assert ws[1..][..k - 1] == ws[..k][1..];
      FirstInvalidAt(ws[1..], k - 1);
    }
  }

  /** The lines of valid words, one after the other. */
  lemma LinesCons(ws: seq<Word>)
    requires AllValid(ws) && ws != []
    ensures AllValid(ws[1..])
    ensures Lines(ws) == Line(ws[0]) + Lines(ws[1..])
  {
  }

  /** Each line holds one line break, so the lines of `ws` hold `|ws|` of them. */
  lemma {:induction false} LinesBreaks(ws: seq<Word>)
    requires AllValid(ws)
    ensures multiset(Lines(ws))['\n'] == |ws|
  {
    if ws != [] {
      LinesCons(ws);
      LinesBreaks(ws[1..]);
      LinesBreaksStep(ws);
    }
  }

  /** The first line adds one line break to those of the lines after it. */
  lemma LinesBreaksStep(ws: seq<Word>)
    requires AllValid(ws) && ws != []
    requires AllValid(ws[1..]) && multiset(Lines(ws[1..]))['\n'] == |ws| - 1
    ensures multiset(Lines(ws))['\n'] == |ws|
  {
    LinesCons(ws);
    LineBreaks(ws[0]);
    CountAppend(Line(ws[0]), Lines(ws[1..]), '\n');
  }

  /**
    The listing holds one line break for each word before the first with
    condition 0xF: with no such word, one for each word.
   */
  lemma DisassemblyBreaks(ws: seq<Word>)
    ensures multiset(Disassembly(ws).0)['\n'] == FirstInvalid(ws)
  {
    var k := FirstInvalid(ws);
    LinesBreaks(ws[..k]);
    if k < |ws| {
      HeaderOneLine(ws[k]);
      CountAppend(Lines(ws[..k]), Header(ws[k]), '\n');
    } else {
      assert ws[..k] == ws;
    }
  }

  /**
    After an error, the listing ends in the 45 characters of the header of the
    word with condition 0xF: nothing is printed after it.
   */
  lemma ErrorEndsInHeader(ws: seq<Word>)
    requires Disassembly(ws).1 != None
    ensures FirstInvalid(ws) < |ws|
    ensures |Disassembly(ws).0| >= 45 && Disassembly(ws).0[|Disassembly(ws).0| - 45..] == Header(ws[FirstInvalid(ws)])
  {
    var k := FirstInvalid(ws);
    HeaderLength(ws[k]);
    SuffixAppend(Lines(ws[..k]), Header(ws[k]));
  }

  /**
    Without an error, the listing of `code` is `|code| / 4` lines, each ending
    in a line break: a tail of one to three bytes prints nothing.
   */
  lemma ListingLines(code: seq<Byte>)
    ensures Disassembly(Words(code)).1 == None ==> multiset(Disassembly(Words(code)).0)['\n'] == |code| / 4
  {
    DisassemblyBreaks(Words(code));
  }
}
