# rustboyadvance-ng: ARM disassembly text and the system bus, in Dafny

This project models two parts of the rustboyadvance-ng Game Boy Advance emulator.

**The ARM disassembler's text.** This is `src/arm7tdmi/arm/display.rs`. A decoded ARM7TDMI instruction is
turned into one line of text: a mnemonic (the operation, flag markers and the condition suffix), a tab,
the operands separated by `", "`, and for some forms a `"\t; "` comment.

- The model is a set of pure functions over an instruction record. Each field of the record is one
  accessor of the Rust `ArmInstruction` (module `ArmDisplay`, over `ArmTypes` and `Text`).
- `Text` renders integers the way Rust's `{}` and `{:#x}` do. It also reads the digits back, so
  numbers in the text can be tied to the values they show.
- Layout lemmas give the whole line for data processing (`DataProcessingLayout`) and MUL/MLA
  (`MulMlaLayout`). The long multiplies have two: `MullMlalAsWrittenLayout` gives the line the
  renderer prints, and `MullMlalLayout` the corrected one (see "## Findings"). Two more lemmas give
  the rotated-immediate and shifted-register operands. `LdmStmMarks` gives the LDM/STM markers by
  position.
- A "determines" lemma per form states which fields a line fixes: two instructions of one form with
  the same text agree on each field the lemma names. An operand is fixed as text: the offset or
  operand2 text, which other lemmas read back as the value shown. Some flags are not printed, such as
  the write-back bit of a post-indexed halfword transfer. The lemmas do not claim those.

**The system bus.** This is `src/sysbus.rs`.

- `Memory.BoxedMemory` is a fixed byte buffer with a wait-state record. `Memory.DummyBus` is the open
  bus: it reads zero, ignores writes and costs one cycle.
- `SysBusModel.SysBus` owns the memory regions as fields. `SysBusModel.Route` is the routing table. It
  sends each 32-bit address to one region, and the region is handed `addr & 0xff_ffff` as its offset.
- Bus writes are methods that change the routed region's array in place. Their contracts give the
  region's new contents, the value read back, and that every other region and the open bus's scratch bytes are unchanged.
- `LittleEndian` holds the byte order the regions use. `Encode` and `Decode` are each other's inverse,
  and `Splice` is the effect of an in-place write.

Routing follows the code, not a reading of the bus as decoding only the low 24 bits:

- The region is chosen on the **full** address (`sysbus.rs:178`), and the range arms are **inclusive**
  at both ends. So 0x0400_03FE is an I/O register and 0x0400_03FF is open bus.
- The upper byte matters. 0x0A00_1000 has the same low 24 bits as 0x0200_1000, yet it goes to the open
  bus rather than work RAM. 0x0A20_1000 goes to the open bus too, and its low 24 bits are 0x20_1000,
  not 0x1000.
- Only the cartridge window, which spans two 16 MiB pages, shows the same bytes at two addresses.

## Model

| member | source | states |
|---|---|---|
| ArmDisplay.CondSuffix | src/arm7tdmi/arm/display.rs:8-28 | the suffix is empty for AL and two letters otherwise, none of them a separator or marker, and never starts with the letters b, s or t that could precede it |
| ArmDisplay.CondSuffixInjective | src/arm7tdmi/arm/display.rs:8-28 | distinct conditions get distinct suffixes; only AL has the empty one; HS prints "cs" and LO prints "cc" |
| ArmDisplay.AluName | src/arm7tdmi/arm/display.rs:31-53 | each opcode name is three lower-case letters |
| ArmDisplay.AluNameInjective | src/arm7tdmi/arm/display.rs:31-53 | distinct opcodes get distinct names |
| ArmDisplay.ShiftName | src/arm7tdmi/arm/display.rs:55-65 | each shift name is three plain letters |
| ArmDisplay.ShiftNameInjective | src/arm7tdmi/arm/display.rs:55-65 | distinct shift types have distinct names, in both directions |
| ArmDisplay.HalfwordSuffix | src/arm7tdmi/arm/display.rs:67-76 | the halfword transfer suffix has one or two plain letters |
| ArmDisplay.HalfwordSuffixInjective | src/arm7tdmi/arm/display.rs:67-76 | distinct halfword transfer types have distinct suffixes, in both directions |
| ArmTypes.RegName | src/arm7tdmi/arm/display.rs:87 | a register name has two or three plain characters |
| ArmTypes.RegNameInjective | src/arm7tdmi/arm/display.rs:87 | distinct registers get distinct names |
| ArmDisplay.IsShift | src/arm7tdmi/arm/display.rs:78-83 | a shift counts as one exactly when it is not LSL by 0 |
| ArmDisplay.ShiftedRegString | src/arm7tdmi/arm/display.rs:86-96 | the text starts with the register name and holds no '!', '-' or tab |
| ArmDisplay.ShiftedRegStringCases | src/arm7tdmi/arm/display.rs:78-96 | the bare register name is printed exactly for a shift by 0 LSL; otherwise "R, op #n" for a shift by amount and "R, op Rs" for a shift by register |
| ArmDisplay.RenderBx | src/arm7tdmi/arm/display.rs:98-100 | a BX line starts with a lower-case letter |
| ArmDisplay.BxTextDeterminesRn | src/arm7tdmi/arm/display.rs:98-100 | two BX lines are equal exactly when their target registers are |
| ArmDisplay.BranchTarget | src/arm7tdmi/arm/display.rs:108 | the shown target is pc + 8 + offset modulo 2^32, and exactly pc + 8 + offset when that does not wrap |
| ArmDisplay.RenderBranch | src/arm7tdmi/arm/display.rs:102-110 | a branch line starts with 'b' |
| ArmDisplay.BranchTextDeterminesFields | src/arm7tdmi/arm/display.rs:102-110 | equal branch lines have equal link flags, conditions and targets |
| ArmDisplay.BranchExample | src/arm7tdmi/arm/display.rs:102-110 | BL at pc 0x2000 with offset -8 prints "bl\t0x2000" |
| ArmDisplay.DecodeRotatedImmediate | src/arm7tdmi/arm/display.rs:124 | the operand value has the bit pattern of the immediate rotated right over 32 bits |
| ArmDisplay.Operand2Text | src/arm7tdmi/arm/display.rs:120-138 | the operand text is non-empty and holds no '!' |
| ArmDisplay.ShiftedRegOperandText | src/arm7tdmi/arm/display.rs:128-135 | a register operand2 is printed as its shifted-register text |
| ArmDisplay.Operand2Value | src/arm7tdmi/arm/display.rs:120-138 | a value is returned exactly for a rotated immediate, and it is the immediate rotated right over 32 bits |
| ArmDisplay.RotatedImmediateShowsOneValue | src/arm7tdmi/arm/display.rs:123-127 | a rotated immediate is printed as "#" + decimal + "\t; " + hex, and the decimal reads back as the value and the hex as its 32-bit pattern |
| ArmDisplay.RenderDataProcessing | src/arm7tdmi/arm/display.rs:140-174 | a data-processing line starts with a lower-case letter |
| ArmDisplay.SetCondMark | src/arm7tdmi/arm/display.rs:112-118 | "s" exactly when the S flag is set, "" exactly when it is clear |
| ArmDisplay.ShownRegisters | src/arm7tdmi/arm/display.rs:145-170 | one or two registers precede operand2 |
| ArmDisplay.DataProcessingLayout | src/arm7tdmi/arm/display.rs:140-174 | the line is opcode, "s" iff the flag is set and the opcode is not a comparison, condition, tab, then Rd unless a comparison, Rn unless a move, then operand2 |
| ArmDisplay.MoveLayout | src/arm7tdmi/arm/display.rs:146-153 | MOV and MVN show "s" iff the flag is set, then only Rd before operand2 |
| ArmDisplay.CompareLayout | src/arm7tdmi/arm/display.rs:154-160 | CMP, CMN, TEQ and TST never show "s" and show only Rn before operand2 |
| ArmDisplay.DataProcessingMnemonicUnambiguous | src/arm7tdmi/arm/display.rs:145-170 | the mnemonic determines the opcode, whether "s" is shown, and the condition |
| ArmDisplay.DataProcessingTextDeterminesFields | src/arm7tdmi/arm/display.rs:140-174 | equal data-processing lines agree on opcode, whether "s" is shown, condition, Rd unless a comparison, Rn unless a move, and the operand2 text |
| ArmDisplay.AsI32 | src/arm7tdmi/arm/display.rs:189 | the signed value has the given 32-bit pattern |
| ArmDisplay.ImmediateCommentValue | src/arm7tdmi/arm/display.rs:188-192 | the comment value is imm + pc + 8 modulo 2^32 when Rn is the PC, and imm otherwise |
| ArmDisplay.OffsetString | src/arm7tdmi/arm/display.rs:186-211 | the offset text is non-empty and holds no '!' or tab |
| ArmDisplay.OffsetComment | src/arm7tdmi/arm/display.rs:186-197 | the comment never holds '!' |
| ArmDisplay.RnOffsetText | src/arm7tdmi/arm/display.rs:184-224 | the addressing text starts with '[' |
| ArmDisplay.RnOffsetTextDeterminesFields | src/arm7tdmi/arm/display.rs:184-224 | equal addressing texts agree on Rn, pre-indexing, offset text and comment, and on write-back when pre-indexed: "[Rn, ofs]" with an optional "!", or "[Rn], ofs" |
| ArmDisplay.AutoIncrementMark | src/arm7tdmi/arm/display.rs:176-182 | "!" exactly when the write-back flag is set, "" exactly when it is clear |
| ArmDisplay.RnOffsetWriteBackMark | src/arm7tdmi/arm/display.rs:213-217 | '!' appears exactly for a pre-indexed offset with write-back, never for a post-indexed one |
| ArmDisplay.RegisterOffsetSign | src/arm7tdmi/arm/display.rs:198-207 | a register offset carries '-' exactly when it is subtracted |
| ArmDisplay.ImmediateOffsetText | src/arm7tdmi/arm/display.rs:187-196 | an immediate offset is '#' followed by a decimal that reads back as the immediate itself |
| ArmDisplay.ImmediateOffsetComment | src/arm7tdmi/arm/display.rs:187-197 | the comment is "\t; 0x" and hex digits that read back as imm + pc + 8 (Rn the PC) or imm, modulo 2^32 |
| ArmDisplay.PcRelativeExample | src/arm7tdmi/arm/display.rs:188-195 | a PC-relative offset of 4 at pc 0x1000 gets the comment "\t; 0x100c" |
| ArmDisplay.LdrStrMnemonic | src/arm7tdmi/arm/display.rs:226-239 | the LDR/STR mnemonic holds no tab or '!' |
| ArmDisplay.RenderLdrStr | src/arm7tdmi/arm/display.rs:226-242 | an LDR/STR line starts with a lower-case letter |
| ArmDisplay.LdrStrMnemonicUnambiguous | src/arm7tdmi/arm/display.rs:227-237 | the mnemonic determines load or store, "b" (size 1), "t" (post-indexed with write-back) and the condition |
| ArmDisplay.LdrStrTextDeterminesFields | src/arm7tdmi/arm/display.rs:226-242 | equal LDR/STR lines agree on load flag, condition, Rd, byte size, Rn, pre-indexing, write-back, and offset text with its comment |
| ArmDisplay.RenderLdrStrHs | src/arm7tdmi/arm/display.rs:377-391 | "<undefined>" exactly when the transfer type is not known; otherwise a line starting with a lower-case letter |
| ArmDisplay.HalfwordMnemonic | src/arm7tdmi/arm/display.rs:378-385 | the halfword mnemonic has no tab and starts with a lower-case letter |
| ArmDisplay.HalfwordMnemonicUnambiguous | src/arm7tdmi/arm/display.rs:378-385 | the halfword mnemonic determines load flag, transfer type and condition |
| ArmDisplay.HalfwordTextDeterminesFields | src/arm7tdmi/arm/display.rs:377-391 | equal halfword lines of a known type agree on load flag, type, condition, Rd, Rn, pre-indexing, offset text and comment, and on write-back when pre-indexed |
| ArmDisplay.HalfwordPostIndexedHidesWriteBack | src/arm7tdmi/arm/display.rs:377-391 | a post-indexed halfword line is the same for both values of the write-back flag |
| ArmDisplay.RegisterListText | src/arm7tdmi/arm/display.rs:256-262 | the list is the register names in list order joined by ", ", with no '!', '^' or braces |
| ArmDisplay.RegisterListAppend | src/arm7tdmi/arm/display.rs:256-262 | one more register adds ", " and its name at the end, as the loop does |
| ArmDisplay.JoinRegNamesInjective | src/arm7tdmi/arm/display.rs:256-262 | the list text determines the register list |
| ArmDisplay.LdmStmMnemonic | src/arm7tdmi/arm/display.rs:245-251 | the mnemonic is five letters plus the condition suffix, all plain |
| ArmDisplay.RenderLdmStm | src/arm7tdmi/arm/display.rs:244-272 | an LDM/STM line starts with a lower-case letter |
| ArmDisplay.LdmStmMarks | src/arm7tdmi/arm/display.rs:244-272 | character 3 is 'i'/'d' from add_offset, character 4 is 'b'/'a' from pre_index, '!' appears iff write-back, the last character is '^' iff the PSR flag, and an empty list prints "{}" |
| ArmDisplay.LdmStmMnemonicUnambiguous | src/arm7tdmi/arm/display.rs:245-252 | the LDM/STM mnemonic determines load flag, both addressing bits and condition |
| ArmDisplay.LdmStmTextDeterminesFields | src/arm7tdmi/arm/display.rs:244-272 | equal LDM/STM lines agree on load flag, addressing bits, condition, Rn, write-back, register list and the '^' bit |
| ArmDisplay.RenderMrs | src/arm7tdmi/arm/display.rs:275-283 | an MRS line starts with "mrs" |
| ArmDisplay.MrsTextDeterminesFields | src/arm7tdmi/arm/display.rs:275-283 | equal MRS lines agree on condition, Rd and which status register |
| ArmDisplay.RenderMsrReg | src/arm7tdmi/arm/display.rs:286-294 | an MSR line starts with "msr" |
| ArmDisplay.MsrRegTextDeterminesFields | src/arm7tdmi/arm/display.rs:286-294 | equal MSR lines agree on condition, status register and Rm |
| ArmDisplay.FlagBits | src/arm7tdmi/arm/display.rs:304 | `op & 0xf000_0000` keeps exactly the top four bits |
| ArmDisplay.FlagsText | src/arm7tdmi/arm/display.rs:305-312 | the flags comment starts with a tab, "; " and "N=" |
| ArmDisplay.PsrFlagsCommentBits | src/arm7tdmi/arm/display.rs:303-312 | the comment shows bits 31, 30, 29 and 28 of the operand as N, Z, C and V |
| ArmDisplay.FlagsTextInjective | src/arm7tdmi/arm/display.rs:305-312 | the "N= Z= C= V=" comment determines all four flags |
| ArmDisplay.PsrFlagsCommentTopBits | src/arm7tdmi/arm/display.rs:303-312 | two operands give the same flags comment exactly when their top four bits agree |
| ArmDisplay.RenderMsrFlags | src/arm7tdmi/arm/display.rs:296-315 | an MSR-flags line starts with "msr" |
| ArmDisplay.Operand2FlagsComment | src/arm7tdmi/arm/display.rs:303-313 | the N/Z/C/V comment is absent exactly when operand2 is a register |
| ArmDisplay.Operand2FlagsCommentOfImmediate | src/arm7tdmi/arm/display.rs:303-313 | for an immediate the comment shows the flags of the rotated 32-bit pattern |
| ArmDisplay.MsrFlagsTextDeterminesFields | src/arm7tdmi/arm/display.rs:296-315 | equal MSR-flags lines agree on condition, status register, and operand text with its comment |
| ArmDisplay.MulMlaMnemonic | src/arm7tdmi/arm/display.rs:317-339 | the MUL/MLA mnemonic holds no tab |
| ArmDisplay.RenderMulMla | src/arm7tdmi/arm/display.rs:317-340 | the line starts with its mnemonic and a tab |
| ArmDisplay.MulMlaLayout | src/arm7tdmi/arm/display.rs:317-340 | the operands are Rd, Rm, Rs (then Rn for MLA) joined by ", " |
| ArmDisplay.MulMlaTextDeterminesFields | src/arm7tdmi/arm/display.rs:317-340 | equal MUL/MLA lines agree on accumulate, S flag, condition and every operand register |
| ArmDisplay.SignMark | src/arm7tdmi/arm/display.rs:342-348 | "s" exactly when the U flag is set, "u" exactly when it is clear |
| ArmDisplay.MullMlalMnemonic | src/arm7tdmi/arm/display.rs:350-375 | the long multiply mnemonic holds no tab |
| ArmDisplay.RenderMullMlalAsWritten | src/arm7tdmi/arm/display.rs:350-375 | the source's long multiply line starts with its mnemonic and a tab |
| ArmDisplay.MullAsWrittenLosesRs | src/arm7tdmi/arm/display.rs:363-374 | the source's UMULL/SMULL text is the same for two different Rs, while the corrected text differs |
| ArmDisplay.MullMlalAsWrittenLayout | src/arm7tdmi/arm/display.rs:350-375 | the source's line is the mnemonic, a tab, then RdLo, RdHi, Rm joined by ", ", with Rs after them only for MLAL |
| ArmDisplay.MullMlalAsWrittenTextDeterminesFields | src/arm7tdmi/arm/display.rs:350-375 | equal source lines agree on sign, accumulate, S flag, condition, RdLo, RdHi and Rm, and on Rs for MLAL |
| ArmDisplay.MullMlalMnemonicUnambiguous | src/arm7tdmi/arm/display.rs:350-375 | the long-multiply mnemonic determines sign, accumulate, S flag and condition |
| ArmDisplay.MullAsWrittenExample | src/arm7tdmi/arm/display.rs:363-374 | the source prints UMULL r0, r1, r2, r3 as "umull\tr0, r1, r2" |
| ArmDisplay.RenderMullMlal | src/arm7tdmi/arm/display.rs:350-362 | the corrected long multiply line starts with its mnemonic and a tab |
| ArmDisplay.MullMlalLayout | src/arm7tdmi/arm/display.rs:350-362 | the corrected operands are RdLo, RdHi, Rm, Rs in both arms |
| ArmDisplay.MullMlalTextDeterminesFields | src/arm7tdmi/arm/display.rs:350-362 | equal corrected lines agree on sign, accumulate, S flag, condition and all four registers |
| ArmDisplay.MullCorrection | src/arm7tdmi/arm/display.rs:350-375 | the corrected and the source's long multiply lines are equal exactly for UMLAL/SMLAL |
| ArmDisplay.RenderSwi | src/arm7tdmi/arm/display.rs:393-400 | an SWI line starts with "swi" |
| ArmDisplay.SwiTextDeterminesFields | src/arm7tdmi/arm/display.rs:393-400 | equal SWI lines agree on condition and comment number |
| ArmDisplay.Render | src/arm7tdmi/arm/display.rs:403-422 | a line is never empty; it starts with '(' exactly for the other formats and with '<' exactly for a halfword transfer of unknown type |
| ArmDisplay.RenderOfLongMultiply | src/arm7tdmi/arm/display.rs:416 | a long multiply is printed as the source writes it, without Rs in UMULL/SMULL |
| ArmDisplay.RenderCorrected | src/arm7tdmi/arm/display.rs:403-422 | the corrected disassembly differs from the source's exactly for UMULL/SMULL |
| Text.Digits | src/arm7tdmi/arm/display.rs:105 | the digits are valid in the base and have no leading zero |
| Text.ValueOfDigits | src/arm7tdmi/arm/display.rs:105 | the digits read back as the number |
| Text.DigitsInjective | src/arm7tdmi/arm/display.rs:105 | different numbers have different digit strings |
| Text.Dec | src/arm7tdmi/arm/display.rs:93 | `{}` of an unsigned number is a non-empty string of decimal digits |
| Text.DecInt | src/arm7tdmi/arm/display.rs:125 | `{}` of a signed number carries '-' exactly when it is negative |
| Text.SignedValueOfDecInt | src/arm7tdmi/arm/display.rs:125 | `{}` of a signed number reads back as that number |
| Text.AltHex | src/arm7tdmi/arm/display.rs:396 | `{:#x}` starts with "0x" followed by at least one hex digit and nothing else |
| Text.AltHexValue | src/arm7tdmi/arm/display.rs:396 | the digits after "0x" read back as the number |
| Text.AltHexInjective | src/arm7tdmi/arm/display.rs:396 | different numbers have different hex texts |
| Text.AsU32 | src/arm7tdmi/arm/display.rs:126 | `as u32` of an i32 is its value modulo 2^32 |
| Text.AltHexI32 | src/arm7tdmi/arm/display.rs:125 | `{:#x}` of an i32 shows its two's-complement pattern |
| Text.BoolText | src/arm7tdmi/arm/display.rs:307-311 | a bool prints "true" exactly when it is true |
| LittleEndian.Encode | src/sysbus.rs:69-83 | encoding gives exactly n bytes |
| LittleEndian.Decode | src/sysbus.rs:53-67 | n bytes decode below 256^n |
| LittleEndian.DecodeEncode | src/sysbus.rs:53-83 | decoding the bytes written gives back the value |
| LittleEndian.EncodeDecode | src/sysbus.rs:53-83 | encoding the value read gives back the bytes |
| LittleEndian.Encode2 | src/sysbus.rs:75-79 | a 16-bit value is stored low byte first |
| LittleEndian.Encode4 | src/sysbus.rs:69-73 | byte k of a 32-bit value holds its bits 8k to 8k+7 |
| LittleEndian.Decode2 | src/sysbus.rs:59-63 | two bytes read as low + 256 * high |
| LittleEndian.Decode4 | src/sysbus.rs:53-57 | four bytes read as their weighted sum, least significant first |
| LittleEndian.Splice | src/sysbus.rs:69-83 | a write of w bytes at o changes only bytes o to o+w-1, which become the written bytes |
| LittleEndian.ReadBackSplice | src/sysbus.rs:69-83 | after a write, reading the same bytes gives back the value |
| Memory.BoxedMemory.constructor | src/sysbus.rs:20-22 | a new region holds the given bytes in a fresh buffer at the default wait state (1, 1, 1) |
| Memory.BoxedMemory.WithWaitState | src/sysbus.rs:24-26 | a new region holds the given bytes at the given wait state |
| Memory.BoxedMemory.Read8 | src/sysbus.rs:65-67 | the byte at the offset |
| Memory.BoxedMemory.Read16 | src/sysbus.rs:59-63 | the little-endian value of the two bytes at the offset |
| Memory.BoxedMemory.Read32 | src/sysbus.rs:53-57 | the little-endian value of the four bytes at the offset |
| Memory.BoxedMemory.Write8 | src/sysbus.rs:81-83 | the buffer is the old one with the byte spliced in, and reads back the value |
| Memory.BoxedMemory.Write16 | src/sysbus.rs:75-79 | the buffer is the old one with the two little-endian bytes spliced in, and reads back the value |
| Memory.BoxedMemory.Write32 | src/sysbus.rs:69-73 | the buffer is the old one with the four little-endian bytes spliced in, and reads back the value |
| Memory.BoxedMemory.GetBytes | src/sysbus.rs:85-87 | the buffer from the offset to its end |
| Memory.BoxedMemory.GetCycles | src/sysbus.rs:93-99 | the wait state's entry for the access width, whatever the address |
| Memory.DummyBus.constructor | src/sysbus.rs:171 | the open bus starts with four zero bytes |
| Memory.DummyBus.Read8 | src/sysbus.rs:114-116 | the open bus reads 0 |
| Memory.DummyBus.Read16 | src/sysbus.rs:110-112 | the open bus reads 0 |
| Memory.DummyBus.Read32 | src/sysbus.rs:106-108 | the open bus reads 0 |
| Memory.DummyBus.Write8 | src/sysbus.rs:122 | a write leaves the open bus's bytes unchanged |
| Memory.DummyBus.Write16 | src/sysbus.rs:120 | a write leaves the open bus's bytes unchanged |
| Memory.DummyBus.Write32 | src/sysbus.rs:118 | a write leaves the open bus's bytes unchanged |
| Memory.DummyBus.GetBytes | src/sysbus.rs:124-126 | the four scratch bytes, whatever the address |
| Memory.DummyBus.GetCycles | src/sysbus.rs:132-134 | every access costs one cycle |
| Memory.WaitStateOfCycles | src/sysbus.rs:29-44 | a wait state is its three per-width costs: the 8-, 16- and 32-bit entries |
| Memory.DefaultWaitStateCycles | src/sysbus.rs:46-50 | the default wait state costs one cycle at every width |
| SysBusModel.Route | src/sysbus.rs:178-188 | an address routed to a region lies in that region's inclusive window |
| SysBusModel.WindowsDisjoint | src/sysbus.rs:178-188 | no two region windows overlap |
| SysBusModel.RouteIsWindow | src/sysbus.rs:178-188 | an address goes to a region exactly when it lies in that region's inclusive window |
| SysBusModel.RouteDummy | src/sysbus.rs:187 | the open bus takes exactly the addresses outside every window |
| SysBusModel.Offset | src/sysbus.rs:194 | the offset is below 2^24 and differs from the address by a multiple of 2^24 |
| SysBusModel.Boundaries | src/sysbus.rs:179-187 | 0x3fff goes to the BIOS and 0x4000 to the open bus, 0x0400_03fe to the I/O registers and 0x0400_03ff to the open bus, 0x09ff_ffff to the cartridge and 0x0a00_0000 to the open bus |
| SysBusModel.UnmaskedRouting | src/sysbus.rs:178-194 | 0x0200_1000 and 0x0a00_1000 have the same offset, yet the first goes to work RAM and the second to the open bus |
| SysBusModel.GamepakMirror | src/sysbus.rs:186 | two cartridge addresses share an offset exactly when they are equal or 16 MiB apart |
| SysBusModel.RamOffsetsInBuffer | src/sysbus.rs:10-14 | every offset the table hands an internal RAM is below that RAM's size |
| SysBusModel.SysBus.constructor | src/sysbus.rs:152-173 | the bus holds the BIOS image, zeroed RAMs of the fixed sizes with their wait states, the given cartridge and I/O registers, and four zero bytes of open bus |
| SysBusModel.SysBus.Read8 | src/sysbus.rs:201-203 | the routed region's byte at the offset, or 0 on the open bus |
| SysBusModel.SysBus.Read16 | src/sysbus.rs:197-199 | the routed region's little-endian value at the offset, or 0 on the open bus |
| SysBusModel.SysBus.Read32 | src/sysbus.rs:193-195 | the routed region's little-endian value at the offset, or 0 on the open bus |
| SysBusModel.SysBus.Write8 | src/sysbus.rs:213-215 | only the routed region changes, by the byte spliced in at the offset; it is read back; the open bus and its scratch bytes are unchanged; the bus stays valid |
| SysBusModel.SysBus.Write16 | src/sysbus.rs:209-211 | only the routed region changes, by the little-endian bytes spliced in at the offset; the value is read back, or 0 on the open bus, whose scratch bytes are unchanged; the bus stays valid |
| SysBusModel.SysBus.Write32 | src/sysbus.rs:205-207 | only the routed region changes, by the little-endian bytes spliced in at the offset; the value is read back, or 0 on the open bus, whose scratch bytes are unchanged; the bus stays valid |
| SysBusModel.SysBus.GetBytes | src/sysbus.rs:217-219 | the routed region's bytes from the offset on, or the open bus's four bytes |
| SysBusModel.SysBus.GetCycles | src/sysbus.rs:225-227 | the routed region's wait state for the width, or 1 on the open bus |
| SysBusModel.SysBus.CycleTable | src/sysbus.rs:153-169 | BIOS, internal RAM and OAM cost 1/1/1, work RAM 3/3/6, palette RAM and VRAM 1/1/2 cycles at 8/16/32 bits |
| SysBusModel.SysBus.RamAccessFits | src/sysbus.rs:180-185 | an aligned access to an internal RAM never runs past its buffer |
| SysBusModel.SysBus.GamepakMirrorRead | src/sysbus.rs:186-194 | two cartridge addresses with equal low 24 bits read the same value |

## Left out

- `get_bytes_mut` (sysbus.rs:89-91, 128-130, 221-223): it hands out a live mutable slice, and the model does not capture that aliasing. Writes happen only through the write methods.
- The access kind in `MemoryAccess`: only its width is modelled. No region in the model looks at the kind.
- The cartridge and the I/O registers are defined outside this file. Each is a byte region passed to the bus constructor, with whatever contents and wait state the caller gives it. `IoRegs::default()` is not part of this model.
- Taking ownership of a `Box<[u8]>`: the region constructors copy the given bytes into a fresh array.
- The Debug fallback (display.rs:420) is `"(" + text + ")"`, where the text stands for derived `Debug` output.
- Definitions that live outside display.rs are assumptions of the model:
  - `reg_string`: r0-r10, fp, ip, sp, lr, pc;
  - `decode_rotated_immediate`: a 32-bit rotate right, read as an i32;
  - `RegPSR` N/Z/C/V: bits 31 to 28;
  - `register_list` and `halfword_data_transfer_type`: plain fields of the instruction record.
- The panic arms, a wrong operand2 variant (display.rs:136) and a register offset without a sign (display.rs:210), become the `ArmDisplay.WellFormed` precondition. They are not modelled as failures.
- Out-of-range accesses, which panic in the source, are preconditions (`Fits`, `addr + width <= data.Length`). Likewise `unwrap` on the `byteorder` results, the `fmt::Result` error path and the `std::io` plumbing are left out.
- ArmDisplay.BranchTarget: the outer `8 +` at display.rs:108 is plain `u32` addition, which panics on overflow in a debug build. The model wraps, as a release build does.
- ArmDisplay.ImmediateCommentValue: the `i32` sum at display.rs:189 likewise wraps in the model, where a debug build would panic on overflow.
- SysBusModel.Offset: it is written as the remainder modulo 2^24, which is what `& 0xff_ffff` computes on a `u32`. The bitwise form itself is not modelled.
- ArmDisplay.RenderBx, RenderBranch, RenderDataProcessing, RenderLdrStr, RenderLdrStrHs, RenderLdmStm, RenderMrs, RenderMsrReg, RenderMsrFlags, RenderSwi: their own ensures only fix the first letters. The fields each line determines are stated in the lemma beside each one: BxTextDeterminesRn, BranchTextDeterminesFields, DataProcessingTextDeterminesFields, LdrStrTextDeterminesFields, HalfwordTextDeterminesFields, LdmStmTextDeterminesFields, MrsTextDeterminesFields, MsrRegTextDeterminesFields, MsrFlagsTextDeterminesFields and SwiTextDeterminesFields. A full layout lemma exists only for data processing (DataProcessingLayout); LdmStmMarks gives the LDM/STM markers by position.
- ArmDisplay.RenderMullMlalAsWritten: its own ensures fix only the mnemonic and the tab. MullMlalAsWrittenLayout gives the whole line. MullMlalAsWrittenTextDeterminesFields gives the fields it determines: all but Rs of a UMULL/SMULL, which the line does not print.

## Findings

| source | as written | input that shows it | evidently intended | confidence | as-written member | corrected member |
|---|---|---|---|---|---|---|
| src/arm7tdmi/arm/display.rs:363-374 | the UMULL/SMULL arm prints RdLo, RdHi, Rm and leaves out Rs | UMULL with RdLo=r0, RdHi=r1, Rm=r2, Rs=r3 prints "umull\tr0, r1, r2"; Rs=r4 prints the same | "umull\tr0, r1, r2, r3": the accumulating arm and the ARM instruction set both have four operands | not executed | ArmDisplay.MullAsWrittenLosesRs | ArmDisplay.MullMlalTextDeterminesFields |
