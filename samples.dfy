/**
  Worked instances of the formats, for words whose text is fixed: an immediate
  offset is printed even when it is zero, and a Data Processing immediate is
  the rotated 8-bit value.
 */
module Samples {
  import opened Bits
  import opened Numerals
  import opened Rotation
  import opened Instructions

  /** Bits shifted off the bottom come back at the top. */
  lemma RotateRightExample()
    ensures RotateRight(0xFF, 4) == 0xF000_000F
  {
    Pow2Flags();
    Pow2Add(4, 24);
    assert Pow2(4) == 16;
    assert Pow2(28) == 0x1000_0000;
    DivModUnique(0xFF, 16, 15, 15);
    assert 0xFF / Pow2(4 % 32) == 15 && 0xFF % (Pow2(4 % 32) - 1 + 1) == 15;
    assert Pow2(32 - 4 % 32) == 0x1000_0000;
    DivModUnique(0xF000_0000, 0x1_0000_0000, 0, 0xF000_0000);
    DivModUnique(0xF000_000F, 0x1_0000_0000, 0, 0xF000_000F);
  }

  /** `0xE5901000`: a word load, pre-indexed, offset added, no write-back, immediate offset 0. */
  lemma LoadExampleFields()
    ensures Cond(0xE590_1000) == 14 && ClassOf(0xE590_1000) == SingleDataTransfer
    ensures Rd(0xE590_1000) == 1 && Rn(0xE590_1000) == 0 && Offset12(0xE590_1000) == 0
    ensures IsSet(0xE590_1000, 20) && !IsSet(0xE590_1000, 21) && !IsSet(0xE590_1000, 22)
    ensures IsSet(0xE590_1000, 23) && IsSet(0xE590_1000, 24) && !IsSet(0xE590_1000, 25)
  {
    Pow2Flags();
    LoadExampleFlags(0xE590_1000);
  }

  lemma LoadExampleFlags(w: Word)
    requires w == 0xE590_1000
    requires Pow2(20) == 0x10_0000 && Pow2(21) == 0x20_0000 && Pow2(22) == 0x40_0000
    requires Pow2(23) == 0x80_0000 && Pow2(24) == 0x100_0000 && Pow2(25) == 0x200_0000
    ensures IsSet(w, 20) && !IsSet(w, 21) && !IsSet(w, 22)
    ensures IsSet(w, 23) && IsSet(w, 24) && !IsSet(w, 25)
  {
    assert w / 0x10_0000 == 0xE59;
    assert w / 0x20_0000 == 0x72C;
    assert w / 0x40_0000 == 0x396;
    assert w / 0x80_0000 == 0x1CB;
    assert w / 0x100_0000 == 0xE5;
    assert w / 0x200_0000 == 0x72;
  }

  lemma LoadExampleAddress()
    ensures AddressText(0xE590_1000) == "[R0, #0x0]"
  {
    LoadExampleFields();
    assert Decimal(0) == "0" && Hex(0) == "0";
  }

  lemma LoadExampleTransfer()
    ensures Cond(0xE590_1000) != InvalidCond
    ensures SingleDataTransferText(0xE590_1000) == "LDR R1, [R0, #0x0]"
  {
    LoadExampleFields();
    LoadExampleAddress();
    assert Decimal(1) == "1";
    assert Conditions[14] == "";
    LoadExampleJoin();
  }

  lemma LoadExampleJoin()
    ensures "LDR" + "" + "" + "" + " R" + "1" + ", " + "[R0, #0x0]" == "LDR R1, [R0, #0x0]"
  {
  }

  /** The zero offset is printed: `LDR R1, [R0, #0x0]`, not `LDR R1, [R0]`. */
  lemma LoadExample()
    ensures Cond(0xE590_1000) != InvalidCond
    ensures InstructionText(0xE590_1000) == "LDR R1, [R0, #0x0]"
  {
    LoadExampleFields();
    LoadExampleTransfer();
  }

  /** `0xE3A01001`: MOV with an immediate operand 1 and rotation 0. */
  lemma MoveExampleFields()
    ensures Cond(0xE3A0_1001) == 14 && ClassOf(0xE3A0_1001) == DataProcessing
    ensures OpCode(0xE3A0_1001) == MOV && !IsSet(0xE3A0_1001, 20) && IsSet(0xE3A0_1001, 25)
    ensures Rd(0xE3A0_1001) == 1 && Rotate(0xE3A0_1001) == 0 && Imm8(0xE3A0_1001) == 1
  {
    Pow2Flags();
    MoveExampleFlags(0xE3A0_1001);
  }

  lemma MoveExampleFlags(w: Word)
    requires w == 0xE3A0_1001
    requires Pow2(20) == 0x10_0000 && Pow2(25) == 0x200_0000
    ensures !IsSet(w, 20) && IsSet(w, 25)
  {
    assert w / 0x10_0000 == 0xE3A;
    assert w / 0x200_0000 == 0x71;
  }

  lemma MoveExampleOperands()
    ensures OperandsText(0xE3A0_1001) == " R1, " && Operand2Text(0xE3A0_1001) == "#0x1"
  {
    MoveExampleFields();
    MoveExampleImmediate();
    assert Decimal(1) == "1" && Hex(1) == "1";
  }

  lemma MoveExampleImmediate()
    ensures Immediate(0xE3A0_1001) == 1
  {
    MoveExampleFields();
    RotateRightZero(1, 0);
  }

  lemma MoveExample()
    ensures Cond(0xE3A0_1001) != InvalidCond
    ensures InstructionText(0xE3A0_1001) == "MOV R1, #0x1"
  {
    MoveExampleFields();
    MoveExampleOperands();
    assert DataProcessingText(0xE3A0_1001) == "MOV" + "" + " R1, " + "#0x1";
  }
}
