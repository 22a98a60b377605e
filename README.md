# armasm `Disassemble` in Dafny

A model of `Disassemble` from the Go package `armasm`: a single-pass
disassembler for the classic 32-bit ARM instruction set (ARM7TDMI data sheet,
ARM DDI 0029, sections 4.2 "The condition field", 4.5 "Data processing" and
4.9 "Single data transfer").

`Disassemble` reads its byte slice four bytes at a time as little-endian words.
For every word it prints a header: the word as `%08X`, a space, and its 32 bits
from bit 31 down, with a space after every eighth bit. A word whose condition
field (bits 31-28) is `0xF` ends the listing with an error, and the text
printed so far is returned with it. Otherwise, bits 27-26 pick the format:

- `01` is a Single Data Transfer (`LDR`/`STR` with its flags, its registers and
  its address);
- `00` is Data Processing (one of sixteen opcodes with its registers and
  operand 2, where an immediate is expanded by `rotateRight`);
- any other class prints nothing more.

Each line then ends with `\n`.

Modules, one per file:

- `Bits` (bits.dfy): `Word` (a Go `uint32` as a bounded `nat`) and the
  shift/mask arithmetic. A field of `width` bits at bit `k`, which the code
  masks in place and then shifts right by `k`, is `(x / 2^k) % 2^width`.
- `Numerals` (numerals.dfy): the `%X`, `%08X` and `%d` verbs, their values,
  and a reader that takes a numeral back off a string.
- `Rotation` (rotation.dfy): `rotateRight`, with Go's 32-bit wrap-around
  written out.
- `Headers` (headers.dfy): the header of a word and its layout.
- `Instructions` (instructions.dfy): the instruction fields, the condition
  and opcode tables, the class dispatch, and the text of each format as
  functions.
- `Listing` (listing.dfy): the byte-to-word cursor `nextARM` and the
  imperative loop of `Disassemble`. The loop appends to its buffer step by
  step and is proved equal to the listing functions.
- `Reading` (reading.dfy): a parser for the instruction text. It is the
  partner of the formatter: parsing the text of any valid word gives back
  every field the text shows. So the printed formats are unambiguous, and two
  words with the same text agree on those fields.
- `Samples` (samples.dfy): the instances `0xE5901000`, `0xE3A01001` and
  `rotateRight(0xFF, 4)`, worked out.
- `Concat` (concat.dfy) and `Options` (options.dfy) are generic helpers.

An immediate offset is printed even when it is zero, so `0xE5901000` reads
`LDR R1, [R0, #0x0]`, not `LDR R1, [R0]` (see `Samples.LoadExample`).

## Model

| member | source | states |
|---|---|---|
| Listing.NextArm | disassemble.go:10-21 | A word is read exactly when at least four bytes remain. It is `b0 + b1<<8 + b2<<16 + b3<<24` of the first four, and the cursor moves past them. Otherwise the result is `(0, false)` and the cursor stays put. |
| Listing.LittleEndian | disassemble.go:12-16 | The definition of `uint32(b0) + uint32(b1)<<8 + uint32(b2)<<16 + uint32(b3)<<24`, a sum that never wraps. `LittleEndianOfBytes` and `BytesOfLittleEndian` state its properties. |
| Listing.Words | disassemble.go:10-21 | The bytes give `len(code)/4` words: a tail of one to three bytes is not read. |
| Listing.WordAt | disassemble.go:10-21 | Word `i` is made of bytes `4i` to `4i+3`, least significant first. |
| Listing.LittleEndianOfBytes | disassemble.go:12-16 | Splitting a word into its four bytes and reading them back gives the word. |
| Listing.BytesOfLittleEndian | disassemble.go:12-16 | Different byte quadruples are read as different words. |
| Listing.WordsOfEncode | disassemble.go:58-62 | Reading the byte encoding of any word sequence, followed by up to three stray bytes, gives back those words in order. |
| Listing.WordsIgnoreTail | disassemble.go:10-21 | Stray bytes after the last whole word change nothing that is read. |
| Listing.Lines | disassemble.go:58-148 | The definition of the lines printed for words whose conditions are all valid: the line of each word, one after the other, in input order. |
| Listing.Disassembly | disassemble.go:58-150 | The definition of the word-level listing. If every word has a valid condition, it is the line of every word in order, with no error. Otherwise it is the lines before the first `0xF` word and that word's header, with `InvalidCondition`. |
| Listing.Output | disassemble.go:58-150 | The definition of what the loop prints from a byte slice, one word at a time. Fewer than four bytes print nothing. A `0xF` word prints its header and stops with the error. Any other word prints its line and the loop continues. |
| Listing.Disassemble | disassemble.go:9-150 | The loop returns the byte-level listing. That equals the word-level one: with all conditions valid, every word's line in input order and no error; otherwise the lines before the first `0xF` word, then that word's header, and the error. |
| Listing.HeaderPrint | disassemble.go:64-70 | The bit loop, counting `i` from 31 down to 0, prints exactly the header of the word. |
| Listing.BitsPrint | disassemble.go:65-70 | The loop from `i = 31` down to `0` appends the digit of bit `i`, and a space when `i % 8 == 0`, to what is already printed. The result is that text followed by the binary digits of the word. |
| Listing.InstructionPrint | disassemble.go:77-146 | The bits 27-26 dispatch prints the Single Data Transfer text for `01`, the Data Processing text for `00`, and nothing for other classes. |
| Listing.SingleDataTransferPrint | disassemble.go:79-115 | The appends of the transfer branch print the transfer text of the word. |
| Listing.AddressPrint | disassemble.go:93-115 | The three conditional appends of the address print the address text of the word. |
| Listing.DataProcessingPrint | disassemble.go:118-145 | The appends of the data-processing branch print the data-processing text of the word. |
| Listing.OperandsPrint | disassemble.go:122-135 | The opcode-dependent register appends print the operand text of the word. |
| Listing.FirstInvalid | disassemble.go:72-75 | The position where the listing stops is within the words. Every word before it has a valid condition. The word at it, if any, has condition `0xF`. |
| Listing.FirstInvalidAt | disassemble.go:72-75 | Only one position has those properties: the listing stops at the first `0xF` word and nowhere else. |
| Listing.OutputIsDisassembly | disassemble.go:58-150 | Printing while reading bytes gives the same text and error as listing the words read. |
| Listing.DisassemblyCons | disassemble.go:58-148 | A word with a valid condition puts its line in front of the listing of the words after it, and the error outcome is theirs. |
| Listing.ErrorIffInvalid | disassemble.go:72-75 | The error is returned if and only if some word has condition `0xF`. |
| Listing.LinesBreaks | disassemble.go:148 | The lines of `n` valid words contain exactly `n` line breaks. |
| Listing.DisassemblyBreaks | disassemble.go:64-148 | The text returned contains one line break per word before the first `0xF` word. The header of that word adds none. |
| Listing.ErrorEndsInHeader | disassemble.go:64-75 | After an error, the text ends with the 45-character header of the `0xF` word. No mnemonic, newline or later word follows it. |
| Listing.ListingLines | disassemble.go:58-62 | Without an error, the text has exactly `len(code)/4` line breaks. |
| Instructions.Cond | disassemble.go:72 | The condition is 4 bits, so it always indexes the 16-entry condition table. |
| Instructions.OpCode | disassemble.go:118 | The opcode is 4 bits, so it always indexes the 16-entry opcode table. |
| Instructions.Rn | disassemble.go:93 | The base (first operand) register number is below 16. |
| Instructions.Rd | disassemble.go:91 | The destination or source register number is below 16. |
| Instructions.Rotate | disassemble.go:143 | The rotation field is below 16, so the rotation amount is at most 30. |
| Instructions.Offset12 | disassemble.go:105 | The immediate offset is below `0x1000`. |
| Instructions.Imm8 | disassemble.go:142 | The immediate value is below `0x100`. |
| Bits.Bit | disassemble.go:66 | The definition of `instr&(1<<uint(i))>>uint(i)`: bit `i` of the word, always `0` or `1`. |
| Instructions.IsSet | disassemble.go:79-137 | The definition of every `instr&(1<<n) != 0` test of the transfer and data-processing branches (lines 79, 85, 88, 94, 98, 101, 112, 123, 131 and 137): bit `n` is `1`. |
| Instructions.IsMove | disassemble.go:122 | The definition of the test that the opcode is `MOV` or `MVN`. |
| Instructions.IsTest | disassemble.go:127-128 | The definition of the test that the opcode is `CMP`, `CMN`, `TEQ` or `TST`. |
| Instructions.TableEntries | disassemble.go:23-52 | Both tables have sixteen entries. Each opcode constant of the `iota` block, `AND` = 0 to `MVN` = 15, is the position of its own mnemonic in the opcode table. Condition `0xF` is the `ERROR` entry and condition 14 prints nothing. |
| Instructions.Conditions | disassemble.go:23-28 | The definition of the condition table, indexed by bits 31-28. |
| Instructions.InvalidCond | disassemble.go:72-75 | The definition of the condition `0xF` that stops the listing. |
| Instructions.OpCodes | disassemble.go:47-52 | The definition of the opcode table, indexed by bits 24-21. |
| Instructions.ClassOf | disassemble.go:77-116 | The definition of the dispatch on `instr & 0x0C000000`. `0x04000000` (bits 27-26 are `01`) is a Single Data Transfer, `0` is Data Processing, and anything else is unhandled. |
| Instructions.Immediate | disassemble.go:142-144 | The definition of the immediate operand 2: the 8-bit value rotated right by twice the 4-bit rotate field. |
| Instructions.AddressText | disassemble.go:93-115 | The definition of the address text. It is `[R<n>`, then `]` when not pre-indexed. An immediate offset adds `, #`, a `-` when the up bit is clear, and `0x<hex>`. When pre-indexed it ends with `]`, plus `!` when the write-back bit is set. |
| Instructions.SingleDataTransferText | disassemble.go:79-115 | The definition of the transfer text: `LDR` or `STR` by bit 20, the condition suffix, `B` for bit 22, `T` for bit 21, ` R<d>, `, and the address. |
| Instructions.OperandsText | disassemble.go:122-135 | The definition of the register text. MOV and MVN print an optional `S` and ` R<d>, `. TST, TEQ, CMP and CMN print ` R<n>, `. The other opcodes print an optional `S` and ` R<d>, R<n>, `. |
| Instructions.Operand2Text | disassemble.go:137-145 | The definition of operand 2: `reg` when bit 25 is clear, otherwise `#0x` and the hexadecimal of the rotated immediate. |
| Instructions.DataProcessingText | disassemble.go:118-145 | The definition of the data-processing text: the mnemonic of bits 24-21, the condition suffix, the registers and operand 2. |
| Instructions.InstructionText | disassemble.go:77-146 | The definition of what follows the header of a valid word: the text of its class, or nothing for an unhandled class. |
| Instructions.Line | disassemble.go:64-148 | The definition of the line of a valid word: the header, the instruction text and `\n`. |
| Instructions.TablesOneLine | disassemble.go:23-52 | No table entry contains a line break. |
| Instructions.InstructionTextOneLine | disassemble.go:77-146 | The text after a header never contains a line break. |
| Instructions.LineBreaks | disassemble.go:64-148 | The line of a valid word contains exactly one line break, and it is the last character. |
| Rotation.RotateRight | disassemble.go:153-157 | Even with 32-bit wrap-around, the result is a true right rotation: bit `i` of the result is bit `(i + by) mod 32` of the value. |
| Rotation.RotationNoWrap | disassemble.go:155-156 | For `0 < by < 32`, neither the left shift of the low bits nor the sum wraps at 32 bits. |
| Rotation.RotateRightZero | disassemble.go:154-156 | A rotation by a multiple of 32 returns the value unchanged. |
| Rotation.RotateRightCompose | disassemble.go:153-157 | Rotating by `a` and then by `b` is rotating by `a + b`. |
| Rotation.RotateRightInverse | disassemble.go:153-157 | Rotating by `by` and then by `32 - by mod 32` gives the value back. |
| Numerals.Hex | disassemble.go:105 | The definition of `%X`: the base-16 numeral, with upper-case digits. |
| Numerals.Hex8 | disassemble.go:64 | The definition of `%08X`: the base-16 numeral, padded on the left with zeros to eight characters. |
| Numerals.Decimal | disassemble.go:91 | The definition of `%d`: the base-10 numeral. |
| Numerals.Numeral | disassemble.go:105 | `%X` and `%d` print at least one digit of the base, with no leading zero except for zero itself. |
| Numerals.ValueOfNumeral | disassemble.go:105 | The digits printed denote the number. |
| Numerals.NumeralLength | disassemble.go:64 | A number below `base^k` prints as at most `k` digits. |
| Numerals.ZeroPadFacts | disassemble.go:64 | The `0` flag with a width pads on the left: the result reaches the width, every character is still a digit, and the value does not change. |
| Numerals.Hex8OfWord | disassemble.go:64 | `%08X` of a 32-bit word is exactly eight hexadecimal digits that denote the word. |
| Numerals.ReadNumeralOf | disassemble.go:91 | Reading a printed numeral back gives its value and stops exactly where the numeral ends. |
| Headers.BinaryDigits | disassemble.go:65-70 | The definition of the bit loop from bit 31 down to bit `n`: each bit printed with `%d`, and a space after every bit whose index is a multiple of 8. |
| Headers.Header | disassemble.go:64-70 | The definition of the header: `%08X` of the word, a space, and the binary digits of bits 31 down to 0. |
| Headers.BitDigit | disassemble.go:66 | Each bit prints as the single character `0` or `1`. |
| Headers.BinaryDigitsLength | disassemble.go:65-70 | Bits 31 down to `n` take `32 - n` digits plus one space per multiple of 8 among them. |
| Headers.BinaryDigitsValue | disassemble.go:65-70 | Without their spaces, the digits of bits 31 down to `n` are the binary numeral of `w >> n`. |
| Headers.BinaryDigitsAt | disassemble.go:65-70 | Most significant bit first: bit `k` is at position `(31 - k) + (31 - k) / 8`, and bits 24, 16, 8 and 0 are each followed by a space. |
| Headers.HeaderLength | disassemble.go:64-70 | Every header is 45 characters long, with a space after the eight hexadecimal digits. |
| Headers.HeaderHex | disassemble.go:64 | The first eight characters of the header denote the word in hexadecimal. |
| Headers.HeaderBits | disassemble.go:65-70 | With the spaces removed, the binary part of the header denotes the word. |
| Headers.HeaderLayout | disassemble.go:64-70 | Bit `k` is the header character at `9 + (31 - k) + (31 - k) / 8`, so the four groups of eight are each followed by a space. |
| Headers.HeaderInjective | disassemble.go:64-70 | Different words have different headers. |
| Headers.HeaderOneLine | disassemble.go:64-70 | A header contains no line break. |
| Reading.ConditionsDistinct | disassemble.go:23-28 | The fourteen printed condition suffixes are two letters each and pairwise different. |
| Reading.OpCodesDistinct | disassemble.go:47-52 | The sixteen opcode mnemonics are three letters each and pairwise different. |
| Reading.ConditionStart | disassemble.go:84-90 | No condition suffix starts with a letter or space that can follow it (`B`, `T`, `S`, space), so the suffix is read without ambiguity. |
| Reading.OpCodeNotTransfer | disassemble.go:47-52 | No opcode mnemonic is `LDR` or `STR`, so the two formats are told apart by their first three letters. |
| Reading.ReadConditionOf | disassemble.go:84 | Reading a condition suffix back gives its index (14 for the empty suffix) and stops exactly after it. |
| Reading.FindOpCodeOf | disassemble.go:119 | Reading an opcode mnemonic back gives its position in the table. |
| Reading.ReadOffsetOf | disassemble.go:100-105 | Reading a printed offset back gives its sign (`-` exactly when the up bit is clear) and its value. |
| Reading.AddressRoundTrip | disassemble.go:93-115 | Parsing the printed address gives back the base register, the indexing, the up bit, the offset and the write-back flag: all of them for an immediate offset. For a register offset, where pre- and post-indexing print alike, it gives the base register and the write-back flag. |
| Reading.TransferRoundTrip | disassemble.go:79-115 | Parsing the text of a Single Data Transfer gives back the load bit, the condition, the B and T flags, the register and the address. |
| Reading.Operand2Read | disassemble.go:137-145 | Parsing operand 2 gives `reg` for a register and the rotated value for an immediate. |
| Reading.MoveOperandsRoundTrip | disassemble.go:122-126 | The operands of MOV and MVN parse back to the S flag, the destination register and operand 2. |
| Reading.TestOperandsRoundTrip | disassemble.go:127-129 | The operands of TST, TEQ, CMP and CMN parse back to the first operand register and operand 2, and never to an S flag. |
| Reading.BinaryOperandsRoundTrip | disassemble.go:130-135 | The operands of the other opcodes parse back to the S flag, the destination register, the first operand register and operand 2. |
| Reading.ProcessingRoundTrip | disassemble.go:118-145 | Parsing the text of a Data Processing instruction gives back its opcode, condition and operands. |
| Reading.ParseInstructionText | disassemble.go:77-146 | The text after the header of any valid word parses back to that word's view. The view is every field the text shows, and empty text for an unhandled class. |
| Reading.SameTextSameView | disassemble.go:77-146 | Two valid words with the same instruction text have the same view. The text loses nothing that the view records. |
| Samples.RotateRightExample | disassemble.go:153-157 | `rotateRight(0xFF, 4)` is `0xF000000F`. |
| Samples.LoadExample | disassemble.go:79-115 | `0xE5901000` prints `LDR R1, [R0, #0x0]`. |
| Samples.MoveExample | disassemble.go:118-145 | `0xE3A01001` prints `MOV R1, #0x1`. |

## Left out

- `bytes.Buffer` and `fmt.Fprintf`: output is a string that is appended to. Table entries are used as format strings, which changes nothing because none contains `%`.
- The error value is the datatype variant `InvalidCondition`; the text of the `errors.New` message is not modelled.
- The `nextARM` closure reassigns its captured slice; `Listing.NextArm` takes the slice and returns the remainder instead.
- Register-offset shifts of a Single Data Transfer and a register operand 2 are not decoded. The model keeps what the code prints: nothing for the register offset and the placeholder `reg` for operand 2.
- Branch, multiply, block transfer, coprocessor and other classes are not decoded. Their line is only the header and `\n`, as in the code.
- The `ERROR` entry of the condition table (index 15) is never printed, because the early return comes first. The instruction-text functions require a valid condition.
- Reading.AddressRoundTrip: with a register offset and no write-back, the text does not show whether the transfer is pre- or post-indexed. The view records only the base register and the write-back flag.
- Reading.SameTextSameView: two words with the same text agree on the fields the text shows, not on all 32 bits. Register-offset bits, the operand-2 register, a test's S and Rd bits and a move's Rn bits are not printed. An immediate operand 2 is printed only as its rotated value, so different immediate and rotate fields can print alike: `0x04` rotated right by 2 and `0x01` rotated by 0 both print `#0x1`. A word of an unhandled class has empty instruction text, the same as every other unhandled word; only its header tells it apart.
