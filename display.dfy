/**
 * The one-line disassembly text of a decoded ARM instruction: a mnemonic
 * (operation, flag markers, condition suffix), a tab, the operands separated
 * by ", ", and for some forms a comment introduced by "\t; ".
 *
 * Besides the layout of each form, the lemmas show which fields a line
 * determines: two instructions of one form that render to the same text
 * agree on every field the text shows.
 */
module ArmDisplay {
  import opened ArmTypes
  import opened Text

  // ---------------------------------------------------------------------
  // Fixed names
  // ---------------------------------------------------------------------

  /** The condition code as a mnemonic suffix; "always" is left out. */
  function CondSuffix(c: ArmCond): (s: string)
    ensures |s| == (if c == AL then 0 else 2)
    ensures Plain(s)
    ensures |s| > 0 ==> s[0] != 'b' && s[0] != 's' && s[0] != 't'
  {
    match c
    case EQ => "eq" case NE => "ne" case HS => "cs" case LO => "cc"
    case MI => "mi" case PL => "pl" case VS => "vs" case VC => "vc"
    case HI => "hi" case LS => "ls" case GE => "ge" case LT => "lt"
    case GT => "gt" case LE => "le" case AL => ""
  }

  /** Distinct condition codes have distinct suffixes; only AL has the empty one. */
  lemma CondSuffixInjective(a: ArmCond, b: ArmCond)
    ensures CondSuffix(a) == CondSuffix(b) <==> a == b
    ensures CondSuffix(a) == "" <==> a == AL
    ensures CondSuffix(HS) == "cs" && CondSuffix(LO) == "cc"
  {
  }

  function AluName(op: AluOpCode): (s: string)
    ensures |s| == 3 && 'a' <= s[0] <= 'z' && '\t' !in s
  {
    match op
    case AND => "and" case EOR => "eor" case SUB => "sub" case RSB => "rsb"
    case ADD => "add" case ADC => "adc" case SBC => "sbc" case RSC => "rsc"
    case TST => "tst" case TEQ => "teq" case CMP => "cmp" case CMN => "cmn"
    case ORR => "orr" case MOV => "mov" case BIC => "bic" case MVN => "mvn"
  }

  lemma AluNameInjective(a: AluOpCode, b: AluOpCode)
    ensures AluName(a) == AluName(b) <==> a == b
  {
  }

  function ShiftName(op: BarrelShiftOpCode): (s: string)
    ensures |s| == 3 && Plain(s)
  {
    match op
    case LSL => "lsl" case LSR => "lsr" case ASR => "asr" case ROR => "ror"
  }

  /** Distinct shift types have distinct names. */
  lemma ShiftNameInjective(a: BarrelShiftOpCode, b: BarrelShiftOpCode)
    ensures ShiftName(a) == ShiftName(b) <==> a == b
  {
  }

  function HalfwordSuffix(t: ArmHalfwordTransferType): (s: string)
    ensures 1 <= |s| <= 2 && Plain(s)
  {
    match t
    case UnsignedHalfwords => "h"
    case SignedHalfwords => "sh"
    case SignedByte => "sb"
  }

  /** Distinct halfword transfer types have distinct suffixes. */
  lemma HalfwordSuffixInjective(a: ArmHalfwordTransferType, b: ArmHalfwordTransferType)
    ensures HalfwordSuffix(a) == HalfwordSuffix(b) <==> a == b
  {
  }

  /** Every instruction line but the undefined halfword transfer begins with a lower-case letter. */
  predicate StartsLower(s: string) {
    |s| > 0 && 'a' <= s[0] <= 'z'
  }

  /** `if flag { text } else { "" }`, the shape of every optional marker. */
  function Mark(flag: bool, text: string): string {
    if flag then text else ""
  }

  // ---------------------------------------------------------------------
  // Splitting lines apart (used by the lemmas)
  // ---------------------------------------------------------------------

  /** A separator that occurs in neither head splits a line the same way. */
  lemma SplitAtChar(c: char, m1: string, r1: string, m2: string, r2: string)
    requires c !in m1 && c !in m2
    requires m1 + [c] + r1 == m2 + [c] + r2
    ensures m1 == m2 && r1 == r2
  {
    var s := m1 + [c] + r1;
    FirstOccurrence(c, m1, r1);
    FirstOccurrence(c, m2, r2);
    assert |m1| == |m2|;
    assert m1 == s[..|m1|] && m2 == s[..|m2|];
    assert r1 == s[|m1| + 1..] && r2 == s[|m2| + 1..];
  }

  lemma FirstOccurrence(c: char, m: string, r: string)
    requires c !in m
    ensures (m + [c] + r)[|m|] == c
    ensures forall i :: 0 <= i < |m| ==> (m + [c] + r)[i] != c
  {
    forall i | 0 <= i < |m| ensures (m + [c] + r)[i] != c {
      assert (m + [c] + r)[i] == m[i];
    }
  }

  /** Equal lines with heads of equal length have equal heads and equal tails. */
  lemma SplitAtLength(m1: string, r1: string, m2: string, r2: string)
    requires |m1| == |m2| && m1 + r1 == m2 + r2
    ensures m1 == m2 && r1 == r2
  {
    assert m1 == (m1 + r1)[..|m1|] && m2 == (m2 + r2)[..|m2|];
    assert r1 == (m1 + r1)[|m1|..] && r2 == (m2 + r2)[|m2|..];
  }

  /** A one-character marker can be told apart from what follows it. */
  lemma PeelMark(c: char, b1: bool, r1: string, b2: bool, r2: string)
    requires |r1| > 0 ==> r1[0] != c
    requires |r2| > 0 ==> r2[0] != c
    requires Mark(b1, [c]) + r1 == Mark(b2, [c]) + r2
    ensures b1 == b2 && r1 == r2
  {
    MarkHead(c, b1, r1);
    MarkHead(c, b2, r2);
    SplitAtLength(Mark(b1, [c]), r1, Mark(b2, [c]), r2);
  }

  lemma MarkHead(c: char, b: bool, r: string)
    requires |r| > 0 ==> r[0] != c
    ensures b <==> |Mark(b, [c]) + r| > 0 && (Mark(b, [c]) + r)[0] == c
  {
  }

  /** Operands joined by ", ", as the renderer writes a sequence of them. */
  function Join(parts: seq<string>): (s: string)
    ensures (forall i :: 0 <= i < |parts| ==> '!' !in parts[i]) ==> '!' !in s
    ensures (forall i :: 0 <= i < |parts| ==> '\t' !in parts[i]) ==> '\t' !in s
  {
    if parts == [] then ""
    else if |parts| == 1 then parts[0]
    else parts[0] + ", " + Join(parts[1..])
  }

  lemma Join2(a: string, b: string)
    ensures Join([a, b]) == a + ", " + b
  {
    assert [a, b][1..] == [b];
  }

  lemma FirstOperandSplit(m: string, r: string, o: string)
    ensures m + "\t" + r + ", " + o == m + ['\t'] + (r + [','] + (" " + o))
  {
  }

  lemma TabHash(m: string, h: string)
    ensures m + "\t#" + h == m + ['\t'] + ("#" + h)
  {
  }

  lemma NoBrace(m: string, r: string, w: string)
    requires Plain(m) && Plain(r) && (w == "" || w == "!")
    ensures '{' !in m + "\t" + r + w + ", "
  {
  }

  lemma BraceSplit(p: string, l: string, k: string)
    ensures p + ", {" + l + "}" + k == (p + ", ") + ['{'] + (l + ("}" + k))
  {
  }

  lemma ThreeOperandLine(m: string, a: string, b: string, c: string)
    ensures m + "\t" + a + ", " + b + ", " + c == m + "\t" + Join([a, b, c])
  {
    assert [a, b, c][1..] == [b, c];
    Join2(b, c);
  }

  lemma FourOperandLine(m: string, a: string, b: string, c: string, d: string)
    ensures m + "\t" + a + ", " + b + ", " + c + ", " + d == m + "\t" + Join([a, b, c, d])
  {
    assert [a, b, c, d][1..] == [b, c, d];
    assert [b, c, d][1..] == [c, d];
    Join2(c, d);
  }

  predicate CommaFree(parts: seq<string>) {
    forall i :: 0 <= i < |parts| ==> parts[i] != "" && ',' !in parts[i]
  }

  lemma {:induction false} JoinCommaCount(parts: seq<string>)
    requires CommaFree(parts)
    ensures (',' in Join(parts)) <==> |parts| > 1
    ensures Join(parts) == "" <==> parts == []
  {
    if |parts| > 1 {
      assert Join(parts)[|parts[0]|] == ',';
      JoinCommaCount(parts[1..]);
    }
  }

  /** A join of non-empty, comma-free operands determines the operands. */
  lemma {:induction false} JoinInjective(xs: seq<string>, ys: seq<string>)
    requires CommaFree(xs) && CommaFree(ys)
    requires Join(xs) == Join(ys)
    ensures xs == ys
    decreases |xs|
  {
    JoinCommaCount(xs);
    JoinCommaCount(ys);
    if |xs| > 1 {
      assert Join(xs) == xs[0] + [','] + (" " + Join(xs[1..]));
      assert Join(ys) == ys[0] + [','] + (" " + Join(ys[1..]));
      SplitAtChar(',', xs[0], " " + Join(xs[1..]), ys[0], " " + Join(ys[1..]));
      assert Join(xs[1..]) == (" " + Join(xs[1..]))[1..];
      assert Join(ys[1..]) == (" " + Join(ys[1..]))[1..];
      JoinInjective(xs[1..], ys[1..]);
      assert xs == [xs[0]] + xs[1..] && ys == [ys[0]] + ys[1..];
    }
  }

  function RegNames(regs: seq<Reg>): (names: seq<string>)
    ensures |names| == |regs| && CommaFree(names)
    ensures forall i :: 0 <= i < |regs| ==> names[i] == RegName(regs[i])
  {
    seq(|regs|, i requires 0 <= i < |regs| => RegName(regs[i]))
  }

  lemma RegNamesInjective(xs: seq<Reg>, ys: seq<Reg>)
    requires RegNames(xs) == RegNames(ys)
    ensures xs == ys
  {
    forall i | 0 <= i < |xs| ensures xs[i] == ys[i] {
      RegNameInjective(xs[i], ys[i]);
    }
  }

  lemma JoinRegNamesInjective(xs: seq<Reg>, ys: seq<Reg>)
    requires Join(RegNames(xs)) == Join(RegNames(ys))
    ensures xs == ys
  {
    JoinInjective(RegNames(xs), RegNames(ys));
    RegNamesInjective(xs, ys);
  }

  // ---------------------------------------------------------------------
  // Shifted registers
  // ---------------------------------------------------------------------

  /** Whether the shift is anything but the canonical "no shift", LSL by 0. */
  predicate IsShift(shift: ShiftedRegister)
    ensures IsShift(shift) <==> shift != ByAmount(0, LSL)
  {
    match shift
    case ByAmount(val, typ) => !(val == 0 && typ == LSL)
    case ByRegister(_, _) => true
  }

  function ShiftedRegString(reg: Reg, shift: ShiftedRegister): (s: string)
    ensures RegName(reg) <= s
    ensures '!' !in s && '-' !in s && '\t' !in s && ']' !in s
  {
    var r := RegName(reg);
    if !IsShift(shift) then r
    else match shift
      case ByAmount(imm, typ) => r + ", " + ShiftName(typ) + " #" + Dec(imm)
      case ByRegister(rs, typ) => r + ", " + ShiftName(typ) + " " + RegName(rs)
  }

  /**
   * The bare register name is printed exactly for LSL by 0; any other shift is
   * written out after ", ": "R, op #n" by an amount, "R, op Rs" by a register.
   */
  lemma ShiftedRegStringCases(reg: Reg, shift: ShiftedRegister)
    ensures ShiftedRegString(reg, shift) == RegName(reg) <==> shift == ByAmount(0, LSL)
    ensures shift.ByAmount? && shift != ByAmount(0, LSL) ==>
      ShiftedRegString(reg, shift) == RegName(reg) + ", " + ShiftName(shift.typ) + " #" + Dec(shift.amount)
    ensures shift.ByRegister? ==>
      ShiftedRegString(reg, shift) == RegName(reg) + ", " + ShiftName(shift.typ) + " " + RegName(shift.rs)
  {
    if shift != ByAmount(0, LSL) {
      assert IsShift(shift);
      assert |ShiftedRegString(reg, shift)| > |RegName(reg)|;
    }
  }

  // ---------------------------------------------------------------------
  // BX and B/BL
  // ---------------------------------------------------------------------

  function RenderBx(ins: ArmInstruction): (s: string)
    ensures StartsLower(s)
  {
    "bx\t" + RegName(ins.rn)
  }

  /** A BX line names its target register, and no other field. */
  lemma BxTextDeterminesRn(a: ArmInstruction, b: ArmInstruction)
    ensures RenderBx(a) == RenderBx(b) <==> a.rn == b.rn
  {
    assert RenderBx(a)[3..] == RegName(a.rn);
    assert RenderBx(b)[3..] == RegName(b.rn);
    RegNameInjective(a.rn, b.rn);
  }

  /**
   * The branch target shown: `8 + pc.wrapping_add(offset as u32)`. The outer
   * addition wraps as well, as it does in a release build.
   */
  function BranchTarget(pc: Word, offset: I32): (t: Word)
    ensures t == (pc + 8 + offset) % TWO_POW_32
    ensures 0 <= pc + offset && pc + 8 + offset < TWO_POW_32 ==> t == pc + 8 + offset
  {
    var sum := (pc + AsU32(offset)) % TWO_POW_32;
    (8 + sum) % TWO_POW_32
  }

  function RenderBranch(ins: ArmInstruction): (s: string)
    ensures |s| > 0 && s[0] == 'b'
    ensures StartsLower(s)
  {
    "b" + Mark(ins.linkFlag, "l") + CondSuffix(ins.cond) + "\t"
      + AltHex(BranchTarget(ins.pc, ins.branchOffset))
  }

  /** A branch line determines the link bit, the condition and the target. */
  lemma BranchTextDeterminesFields(a: ArmInstruction, b: ArmInstruction)
    requires RenderBranch(a) == RenderBranch(b)
    ensures a.linkFlag == b.linkFlag && a.cond == b.cond
    ensures BranchTarget(a.pc, a.branchOffset) == BranchTarget(b.pc, b.branchOffset)
  {
    var ma := "b" + Mark(a.linkFlag, "l") + CondSuffix(a.cond);
    var mb := "b" + Mark(b.linkFlag, "l") + CondSuffix(b.cond);
    var ta, tb := BranchTarget(a.pc, a.branchOffset), BranchTarget(b.pc, b.branchOffset);
    assert RenderBranch(a) == ma + ['\t'] + AltHex(ta);
    assert RenderBranch(b) == mb + ['\t'] + AltHex(tb);
    SplitAtChar('\t', ma, AltHex(ta), mb, AltHex(tb));
    // the condition suffix has even length, so the length tells the link bit
    assert a.linkFlag == b.linkFlag by {
      assert |ma| == 1 + |Mark(a.linkFlag, "l")| + |CondSuffix(a.cond)|;
      assert |mb| == 1 + |Mark(b.linkFlag, "l")| + |CondSuffix(b.cond)|;
    }
    SplitAtLength("b" + Mark(a.linkFlag, "l"), CondSuffix(a.cond), "b" + Mark(b.linkFlag, "l"), CondSuffix(b.cond));
    CondSuffixInjective(a.cond, b.cond);
    AltHexInjective(ta, tb);
  }

  /** Fetched at 0x2000 with a byte offset of -8, BL shows the target 0x2000. */
  lemma BranchExample(ins: ArmInstruction)
    requires ins.linkFlag && ins.cond == AL && ins.pc == 0x2000 && ins.branchOffset == -8
    ensures RenderBranch(ins) == "bl\t0x2000"
  {
    assert BranchTarget(ins.pc, ins.branchOffset) == 0x2000;
    assert Digits(0x2000, 16) == "2000" by {
      assert Digits(0x200, 16) == "200" by {
        assert Digits(0x20, 16) == "20";
      }
    }
  }

  // ---------------------------------------------------------------------
  // Data processing and operand2
  // ---------------------------------------------------------------------

  predicate IsCompare(op: AluOpCode) { op == CMP || op == CMN || op == TEQ || op == TST }

  predicate IsMove(op: AluOpCode) { op == MOV || op == MVN }

  function SetCondMark(ins: ArmInstruction): (s: string)
    ensures s == "s" <==> ins.setCondFlag
    ensures s == "" <==> !ins.setCondFlag
  {
    Mark(ins.setCondFlag, "s")
  }

  /** The operand2 forms the data-processing renderer accepts (any other aborts it). */
  predicate ValidOperand2(op: BarrelShifterValue) {
    op.RotatedImmediate? || op.ShiftedReg?
  }

  /** `immediate.rotate_right(rotate)` over 32 bits, read as an i32. */
  function DecodeRotatedImmediate(immediate: Word, rotate: nat): (v: I32)
    ensures AsU32(v) == ((immediate as bv32).RotateRight(rotate % 32)) as int
  {
    var u := ((immediate as bv32).RotateRight(rotate % 32)) as int;
    if u < 0x8000_0000 then u else u - TWO_POW_32
  }

  /** The text `fmt_operand2` writes. */
  function Operand2Text(op: BarrelShifterValue): (s: string)
    requires ValidOperand2(op)
    ensures '!' !in s && |s| > 0
  {
    if op.RotatedImmediate? then
      var value := DecodeRotatedImmediate(op.immediate, op.rotate);
      "#" + DecInt(value) + "\t; " + AltHexI32(value)
    else
      ShiftedRegString(op.reg, op.shift)
  }

  /** A register operand2 is printed as the shifted-register text, whatever its `added` field. */
  lemma ShiftedRegOperandText(reg: Reg, shift: ShiftedRegister, added: Option<bool>)
    ensures Operand2Text(ShiftedReg(reg, shift, added)) == ShiftedRegString(reg, shift)
  {
  }

  /** The value `fmt_operand2` hands back: the immediate as a u32, none for a register. */
  function Operand2Value(op: BarrelShifterValue): (v: Option<Word>)
    requires ValidOperand2(op)
    ensures v.Some? <==> op.RotatedImmediate?
    ensures op.RotatedImmediate? ==> v == Some(((op.immediate as bv32).RotateRight(op.rotate % 32)) as int)
  {
    if op.RotatedImmediate? then
      var value := DecodeRotatedImmediate(op.immediate, op.rotate);
      Some(AsU32(value))
    else None
  }

  /**
   * A rotated immediate is printed as "#", its decimal, "\t; " and its hex,
   * and shows one value twice: the decimal text reads back as the signed
   * value, the hex comment as the rotated 32-bit pattern.
   */
  lemma RotatedImmediateShowsOneValue(immediate: Word, rotate: nat)
    ensures var v := DecodeRotatedImmediate(immediate, rotate);
      && Operand2Text(RotatedImmediate(immediate, rotate)) == "#" + DecInt(v) + "\t; " + AltHexI32(v)
      && SignedValue(DecInt(v)) == v
      && Value(AltHexI32(v)[2..], 16) == AsU32(v)
      && AsU32(v) == ((immediate as bv32).RotateRight(rotate % 32)) as int
  {
    var v := DecodeRotatedImmediate(immediate, rotate);
    SignedValueOfDecInt(v);
  }

  function RenderDataProcessing(ins: ArmInstruction): (s: string)
    requires ValidOperand2(ins.operand2)
    ensures StartsLower(s)
  {
    var op := ins.opcode;
    var head :=
      if IsMove(op) then
        AluName(op) + SetCondMark(ins) + CondSuffix(ins.cond) + "\t" + RegName(ins.rd) + ", "
      else if IsCompare(op) then
        AluName(op) + CondSuffix(ins.cond) + "\t" + RegName(ins.rn) + ", "
      else
        AluName(op) + SetCondMark(ins) + CondSuffix(ins.cond) + "\t"
          + RegName(ins.rd) + ", " + RegName(ins.rn) + ", ";
    head + Operand2Text(ins.operand2)
  }

  /** Whether the "s" marker is printed: the flag is set and the operation is not a comparison. */
  predicate ShowsSetCond(ins: ArmInstruction) {
    ins.setCondFlag && !IsCompare(ins.opcode)
  }

  /** The registers printed before operand2: Rd unless a comparison, Rn unless a move. */
  function ShownRegisters(ins: ArmInstruction): (regs: seq<Reg>)
    ensures 1 <= |regs| <= 2
  {
    RegIf(!IsCompare(ins.opcode), ins.rd) + RegIf(!IsMove(ins.opcode), ins.rn)
  }

  /** `[r]` when the register is printed, nothing otherwise. */
  function RegIf(flag: bool, r: Reg): seq<Reg> {
    if flag then [r] else []
  }

  /**
   * CMP/CMN/TEQ/TST show neither "s" nor Rd; MOV/MVN show Rd but not Rn; the
   * rest show "s" exactly when the flag is set, then Rd and Rn.
   */
  lemma DataProcessingLayout(ins: ArmInstruction)
    requires ValidOperand2(ins.operand2)
    ensures RenderDataProcessing(ins) ==
      AluName(ins.opcode) + Mark(ShowsSetCond(ins), "s") + CondSuffix(ins.cond) + "\t"
        + Join(RegNames(ShownRegisters(ins))) + ", " + Operand2Text(ins.operand2)
  {
    if IsMove(ins.opcode) {
      MoveLayout(ins);
    } else if IsCompare(ins.opcode) {
      CompareLayout(ins);
    } else {
      assert RegNames(ShownRegisters(ins)) == [RegName(ins.rd), RegName(ins.rn)];
      TwoOperandLine(AluName(ins.opcode) + SetCondMark(ins) + CondSuffix(ins.cond),
        RegName(ins.rd), RegName(ins.rn), Operand2Text(ins.operand2));
    }
  }

  lemma MoveLayout(ins: ArmInstruction)
    requires ValidOperand2(ins.operand2) && IsMove(ins.opcode)
    ensures RenderDataProcessing(ins) ==
      AluName(ins.opcode) + Mark(ShowsSetCond(ins), "s") + CondSuffix(ins.cond) + "\t"
        + Join(RegNames(ShownRegisters(ins))) + ", " + Operand2Text(ins.operand2)
  {
    assert RegNames(ShownRegisters(ins)) == [RegName(ins.rd)];
    OneOperandLine(AluName(ins.opcode) + SetCondMark(ins) + CondSuffix(ins.cond),
      RegName(ins.rd), Operand2Text(ins.operand2));
  }

  lemma CompareLayout(ins: ArmInstruction)
    requires ValidOperand2(ins.operand2) && IsCompare(ins.opcode)
    ensures RenderDataProcessing(ins) ==
      AluName(ins.opcode) + Mark(ShowsSetCond(ins), "s") + CondSuffix(ins.cond) + "\t"
        + Join(RegNames(ShownRegisters(ins))) + ", " + Operand2Text(ins.operand2)
  {
    assert RegNames(ShownRegisters(ins)) == [RegName(ins.rn)];
    OneOperandLine(AluName(ins.opcode) + CondSuffix(ins.cond), RegName(ins.rn), Operand2Text(ins.operand2));
    NoMark(AluName(ins.opcode), CondSuffix(ins.cond), "s");
  }

  lemma OneOperandLine(m: string, r: string, o: string)
    ensures m + "\t" + r + ", " + o == m + "\t" + Join([r]) + ", " + o
  {
  }

  lemma TwoOperandLine(m: string, r1: string, r2: string, o: string)
    ensures m + "\t" + r1 + ", " + r2 + ", " + o == m + "\t" + Join([r1, r2]) + ", " + o
  {
    Join2(r1, r2);
  }

  lemma Assoc4(a: string, b: string, c: string, d: string)
    ensures a + b + c + d == a + (b + (c + d))
  {
  }

  lemma Assoc3(a: string, b: string, c: string)
    ensures a + b + c == a + (b + c)
  {
  }

  lemma NoMark(a: string, c: string, text: string)
    ensures a + c == a + Mark(false, text) + c
  {
  }

  /** A data-processing mnemonic determines the operation, whether "s" is shown, and the condition. */
  lemma DataProcessingMnemonicUnambiguous(a: ArmInstruction, b: ArmInstruction)
    requires AluName(a.opcode) + Mark(ShowsSetCond(a), "s") + CondSuffix(a.cond)
          == AluName(b.opcode) + Mark(ShowsSetCond(b), "s") + CondSuffix(b.cond)
    ensures a.opcode == b.opcode && ShowsSetCond(a) == ShowsSetCond(b) && a.cond == b.cond
  {
    var ra := Mark(ShowsSetCond(a), "s") + CondSuffix(a.cond);
    var rb := Mark(ShowsSetCond(b), "s") + CondSuffix(b.cond);
    Assoc3(AluName(a.opcode), Mark(ShowsSetCond(a), "s"), CondSuffix(a.cond));
    Assoc3(AluName(b.opcode), Mark(ShowsSetCond(b), "s"), CondSuffix(b.cond));
    SplitAtLength(AluName(a.opcode), ra, AluName(b.opcode), rb);
    AluNameInjective(a.opcode, b.opcode);
    PeelMark('s', ShowsSetCond(a), CondSuffix(a.cond), ShowsSetCond(b), CondSuffix(b.cond));
    CondSuffixInjective(a.cond, b.cond);
  }

  /**
   * A data-processing line determines the operation, the "s", the condition,
   * Rd when it is shown, Rn when it is shown, and the operand2 text.
   */
  lemma DataProcessingTextDeterminesFields(a: ArmInstruction, b: ArmInstruction)
    requires ValidOperand2(a.operand2) && ValidOperand2(b.operand2)
    requires RenderDataProcessing(a) == RenderDataProcessing(b)
    ensures a.opcode == b.opcode && ShowsSetCond(a) == ShowsSetCond(b) && a.cond == b.cond
    ensures !IsCompare(a.opcode) ==> a.rd == b.rd
    ensures !IsMove(a.opcode) ==> a.rn == b.rn
    ensures Operand2Text(a.operand2) == Operand2Text(b.operand2)
  {
    DataProcessingLayout(a);
    DataProcessingLayout(b);
    var ja, jb := Join(RegNames(ShownRegisters(a))), Join(RegNames(ShownRegisters(b)));
    var oa, ob := Operand2Text(a.operand2), Operand2Text(b.operand2);
    TabSplit(AluName(a.opcode) + Mark(ShowsSetCond(a), "s") + CondSuffix(a.cond), ja, oa,
             AluName(b.opcode) + Mark(ShowsSetCond(b), "s") + CondSuffix(b.cond), jb, ob);
    DataProcessingMnemonicUnambiguous(a, b);
    ShownRegistersSplit(a, oa, b, ob);
  }

  /** A mnemonic without a tab, then a tab, the registers, ", " and operand2. */
  lemma TabSplit(ma: string, ja: string, oa: string, mb: string, jb: string, ob: string)
    requires '\t' !in ma && '\t' !in mb
    requires ma + "\t" + ja + ", " + oa == mb + "\t" + jb + ", " + ob
    ensures ma == mb && ja + [','] + (" " + oa) == jb + [','] + (" " + ob)
  {
    FirstOperandSplit(ma, ja, oa);
    FirstOperandSplit(mb, jb, ob);
    SplitAtChar('\t', ma, ja + [','] + (" " + oa), mb, jb + [','] + (" " + ob));
  }

  /** With the operation known, the shown registers and the text after them are read back. */
  lemma ShownRegistersSplit(a: ArmInstruction, oa: string, b: ArmInstruction, ob: string)
    requires a.opcode == b.opcode
    requires Join(RegNames(ShownRegisters(a))) + [','] + (" " + oa) == Join(RegNames(ShownRegisters(b))) + [','] + (" " + ob)
    ensures !IsCompare(a.opcode) ==> a.rd == b.rd
    ensures !IsMove(a.opcode) ==> a.rn == b.rn
    ensures oa == ob
  {
    var ra, rb := RegNames(ShownRegisters(a)), RegNames(ShownRegisters(b));
    if IsMove(a.opcode) {
      assert ra == [RegName(a.rd)] && rb == [RegName(b.rd)];
      OneRegisterSplit(RegName(a.rd), oa, RegName(b.rd), ob);
      RegNameInjective(a.rd, b.rd);
    } else if IsCompare(a.opcode) {
      assert ra == [RegName(a.rn)] && rb == [RegName(b.rn)];
      OneRegisterSplit(RegName(a.rn), oa, RegName(b.rn), ob);
      RegNameInjective(a.rn, b.rn);
    } else {
      assert ra == [RegName(a.rd), RegName(a.rn)] && rb == [RegName(b.rd), RegName(b.rn)];
      Join2(RegName(a.rd), RegName(a.rn));
      Join2(RegName(b.rd), RegName(b.rn));
      TwoRegisterSplit(RegName(a.rd), RegName(a.rn), oa, RegName(b.rd), RegName(b.rn), ob);
      RegNameInjective(a.rd, b.rd);
      RegNameInjective(a.rn, b.rn);
    }
  }

  /** A plain name, then ", " and the rest. */
  lemma OneRegisterSplit(r1: string, o1: string, r2: string, o2: string)
    requires Plain(r1) && Plain(r2)
    requires r1 + [','] + (" " + o1) == r2 + [','] + (" " + o2)
    ensures r1 == r2 && o1 == o2
  {
    SplitAtChar(',', r1, " " + o1, r2, " " + o2);
    assert (" " + o1)[1..] == o1 && (" " + o2)[1..] == o2;
  }

  /** Two plain names, each followed by ", ", then the rest. */
  lemma TwoRegisterSplit(p1: string, q1: string, o1: string, p2: string, q2: string, o2: string)
    requires Plain(p1) && Plain(q1) && Plain(p2) && Plain(q2)
    requires (p1 + ", " + q1) + [','] + (" " + o1) == (p2 + ", " + q2) + [','] + (" " + o2)
    ensures p1 == p2 && q1 == q2 && o1 == o2
  {
    assert (p1 + ", " + q1) + [','] + (" " + o1) == p1 + [','] + (" " + (q1 + [','] + (" " + o1)));
    assert (p2 + ", " + q2) + [','] + (" " + o2) == p2 + [','] + (" " + (q2 + [','] + (" " + o2)));
    OneRegisterSplit(p1, q1 + [','] + (" " + o1), p2, q2 + [','] + (" " + o2));
    OneRegisterSplit(q1, o1, q2, o2);
  }

  // ---------------------------------------------------------------------
  // Addressing: [Rn, offset]
  // ---------------------------------------------------------------------

  /** The offset forms the addressing renderer accepts (any other aborts it). */
  predicate ValidOffset(offset: BarrelShifterValue) {
    offset.ImmediateValue? || (offset.ShiftedReg? && offset.added.Some?)
  }

  function AutoIncrementMark(ins: ArmInstruction): (s: string)
    ensures s == "!" <==> ins.writeBackFlag
    ensures s == "" <==> !ins.writeBackFlag
  {
    Mark(ins.writeBackFlag, "!")
  }

  function AsI32(w: Word): (i: I32)
    ensures AsU32(i) == w
  {
    if w < 0x8000_0000 then w else w - TWO_POW_32
  }

  /**
   * The value shown in the comment of an immediate offset: `value + pc + 8`
   * when the base is the PC (the fetch address plus the pipeline's 8 bytes),
   * the offset itself otherwise. The i32 sum wraps, as it does in a release
   * build; `pc as i32` has the bits of `pc`, so the sum is taken modulo 2^32.
   */
  function ImmediateCommentValue(ins: ArmInstruction, value: I32): (v: I32)
    ensures AsU32(v) == (value + (if ins.rn == REG_PC then ins.pc + 8 else 0)) % TWO_POW_32
  {
    if ins.rn == REG_PC then AsI32((value + ins.pc + 8) % TWO_POW_32) else value
  }

  function OffsetString(offset: BarrelShifterValue): (s: string)
    requires ValidOffset(offset)
    ensures '!' !in s && '\t' !in s && ']' !in s && |s| > 0
  {
    if offset.ImmediateValue? then "#" + DecInt(offset.value)
    else Mark(!offset.added.value, "-") + ShiftedRegString(offset.reg, offset.shift)
  }

  function OffsetComment(ins: ArmInstruction, offset: BarrelShifterValue): (s: string)
    requires ValidOffset(offset)
    ensures '!' !in s
    ensures s == "" <==> offset.ShiftedReg?
    ensures s != "" ==> s[0] == '\t'
  {
    if offset.ImmediateValue? then "\t; " + AltHexI32(ImmediateCommentValue(ins, offset.value))
    else ""
  }

  /**
   * `AddressText(r, p, s, w, c)`: "[" and the base register `r`, then
   * ", s]" with "!" if `w` when pre-indexed (`p`) or "], s" when not, then
   * the comment `c`.
   */
  function AddressText(r: string, pre: bool, ofs: string, wb: bool, c: string): string {
    "[" + r + (if pre then ", " + ofs + "]" + Mark(wb, "!") else "], " + ofs) + c
  }

  /** The text `fmt_rn_offset` writes. */
  function RnOffsetText(ins: ArmInstruction, offset: BarrelShifterValue): (s: string)
    requires ValidOffset(offset)
    ensures |s| > 0 && s[0] == '['
  {
    AddressText(RegName(ins.rn), ins.preIndexFlag, OffsetString(offset), ins.writeBackFlag, OffsetComment(ins, offset))
  }

  /** The address shows "!" exactly for pre-indexed addressing with write-back. */
  lemma RnOffsetWriteBackMark(ins: ArmInstruction, offset: BarrelShifterValue)
    requires ValidOffset(offset)
    ensures ('!' in RnOffsetText(ins, offset)) <==> ins.preIndexFlag && ins.writeBackFlag
  {
    if ins.preIndexFlag && ins.writeBackFlag {
      assert RnOffsetText(ins, offset)[|"[" + RegName(ins.rn) + ", " + OffsetString(offset) + "]"|] == '!';
    }
  }

  /**
   * The addressing text determines Rn, whether it is pre-indexed, the offset
   * text, the comment, and for pre-indexed addressing the write-back flag:
   * "[Rn, ofs]" with an optional "!", or "[Rn], ofs".
   */
  lemma RnOffsetTextDeterminesFields(a: ArmInstruction, oa: BarrelShifterValue, b: ArmInstruction, ob: BarrelShifterValue)
    requires ValidOffset(oa) && ValidOffset(ob)
    requires RnOffsetText(a, oa) == RnOffsetText(b, ob)
    ensures a.rn == b.rn && a.preIndexFlag == b.preIndexFlag
    ensures OffsetString(oa) == OffsetString(ob) && OffsetComment(a, oa) == OffsetComment(b, ob)
    ensures a.preIndexFlag ==> a.writeBackFlag == b.writeBackFlag
  {
    AddressSplit(RegName(a.rn), a.preIndexFlag, OffsetString(oa), a.writeBackFlag, OffsetComment(a, oa),
                 RegName(b.rn), b.preIndexFlag, OffsetString(ob), b.writeBackFlag, OffsetComment(b, ob));
    RegNameInjective(a.rn, b.rn);
  }

  lemma AddressSplit(ra: string, pa: bool, sa: string, wa: bool, ca: string,
                     rb: string, pb: bool, sb: string, wb: bool, cb: string)
    requires Plain(ra) && Plain(rb)
    requires ']' !in sa && ']' !in sb && '\t' !in sa && '\t' !in sb
    requires ca == "" || ca[0] == '\t'
    requires cb == "" || cb[0] == '\t'
    requires AddressText(ra, pa, sa, wa, ca) == AddressText(rb, pb, sb, wb, cb)
    ensures ra == rb && pa == pb && sa == sb && ca == cb && (pa ==> wa == wb)
  {
    var xa := if pa then ", " + sa + "]" + Mark(wa, "!") else "], " + sa;
    var xb := if pb then ", " + sb + "]" + Mark(wb, "!") else "], " + sb;
    Assoc3("[" + ra, xa, ca);
    Assoc3("[" + rb, xb, cb);
    BracketSplit(ra, xa + ca, rb, xb + cb);
    assert (xa + ca)[0] == xa[0] && (xb + cb)[0] == xb[0];
    if pa {
      PreIndexedSplit(sa, wa, ca, sb, wb, cb);
    } else {
      PostIndexedSplit(sa, ca, sb, cb);
    }
  }

  lemma PreIndexedSplit(sa: string, wa: bool, ca: string, sb: string, wb: bool, cb: string)
    requires ']' !in sa && ']' !in sb
    requires ca == "" || ca[0] == '\t'
    requires cb == "" || cb[0] == '\t'
    requires ", " + sa + "]" + Mark(wa, "!") + ca == ", " + sb + "]" + Mark(wb, "!") + cb
    ensures sa == sb && wa == wb && ca == cb
  {
    PreIndexedTail(sa, Mark(wa, "!"), ca);
    PreIndexedTail(sb, Mark(wb, "!"), cb);
    SplitAtLength(", ", sa + [']'] + (Mark(wa, "!") + ca), ", ", sb + [']'] + (Mark(wb, "!") + cb));
    SplitAtChar(']', sa, Mark(wa, "!") + ca, sb, Mark(wb, "!") + cb);
    PeelMark('!', wa, ca, wb, cb);
  }

  lemma PostIndexedSplit(sa: string, ca: string, sb: string, cb: string)
    requires '\t' !in sa && '\t' !in sb
    requires ca == "" || ca[0] == '\t'
    requires cb == "" || cb[0] == '\t'
    requires "], " + sa + ca == "], " + sb + cb
    ensures sa == sb && ca == cb
  {
    Assoc3("], ", sa, ca);
    Assoc3("], ", sb, cb);
    SplitAtLength("], ", sa + ca, "], ", sb + cb);
    CommentSplit(sa, ca, sb, cb);
  }

  /** A plain register name after "[" ends where "," or "]" follows it. */
  lemma BracketSplit(r1: string, t1: string, r2: string, t2: string)
    requires Plain(r1) && Plain(r2)
    requires |t1| > 0 && (t1[0] == ',' || t1[0] == ']')
    requires |t2| > 0 && (t2[0] == ',' || t2[0] == ']')
    requires "[" + r1 + t1 == "[" + r2 + t2
    ensures r1 == r2 && t1 == t2
  {
    Assoc3("[", r1, t1);
    Assoc3("[", r2, t2);
    SplitAtLength("[", r1 + t1, "[", r2 + t2);
    NameEnd(r1, t1);
    NameEnd(r2, t2);
    assert |r1| == |r2|;
    SplitAtLength(r1, t1, r2, t2);
  }

  lemma NameEnd(r: string, t: string)
    requires Plain(r) && |t| > 0 && (t[0] == ',' || t[0] == ']')
    ensures (r + t)[|r|] == ',' || (r + t)[|r|] == ']'
    ensures forall i :: 0 <= i < |r| ==> (r + t)[i] != ',' && (r + t)[i] != ']'
  {
    forall i | 0 <= i < |r| ensures (r + t)[i] != ',' && (r + t)[i] != ']' {
      assert (r + t)[i] == r[i];
    }
  }

  lemma PreIndexedTail(s: string, m: string, c: string)
    ensures ", " + s + "]" + m + c == ", " + (s + [']'] + (m + c))
  {
  }

  /** A text without a tab can be told apart from a comment that opens with one. */
  lemma CommentSplit(x1: string, c1: string, x2: string, c2: string)
    requires '\t' !in x1 && '\t' !in x2
    requires c1 == "" || c1[0] == '\t'
    requires c2 == "" || c2[0] == '\t'
    requires x1 + c1 == x2 + c2
    ensures x1 == x2 && c1 == c2
  {
    if c1 != "" && c2 != "" {
      assert x1 + c1 == x1 + ['\t'] + c1[1..];
      assert x2 + c2 == x2 + ['\t'] + c2[1..];
      SplitAtChar('\t', x1, c1[1..], x2, c2[1..]);
    } else if c1 != "" {
      TabInside(x2, x1, c1, c2);
    } else if c2 != "" {
      TabInside(x1, x2, c2, c1);
    } else {
      assert x1 + c1 == x1 && x2 + c2 == x2;
    }
  }

  lemma TabInside(x: string, y: string, c: string, e: string)
    requires c != "" && c[0] == '\t' && e == ""
    requires y + c == x + e
    ensures '\t' in x
  {
    assert x == y + c;
    assert x[|y|] == '\t';
  }

  /** A register offset is printed with "-" exactly when it is subtracted. */
  lemma RegisterOffsetSign(offset: BarrelShifterValue)
    requires offset.ShiftedReg? && offset.added.Some?
    ensures ('-' in OffsetString(offset)) <==> !offset.added.value
  {
    if !offset.added.value {
      assert OffsetString(offset)[0] == '-';
    }
  }

  /** An immediate offset shows "#" and the offset in decimal, which reads back as the offset. */
  lemma ImmediateOffsetText(offset: BarrelShifterValue)
    requires offset.ImmediateValue?
    ensures OffsetString(offset)[0] == '#'
    ensures SignedValue(OffsetString(offset)[1..]) == offset.value
  {
    Tail("#", DecInt(offset.value));
    SignedValueOfDecInt(offset.value);
  }

  /**
   * The comment of an immediate offset denotes `offset + pc + 8` modulo 2^32
   * when the base is the PC, the offset itself otherwise.
   */
  lemma ImmediateOffsetComment(ins: ArmInstruction, offset: BarrelShifterValue)
    requires offset.ImmediateValue?
    ensures var c := OffsetComment(ins, offset);
      && c[..5] == "\t; 0x"
      && Value(c[5..], 16) == (offset.value + (if ins.rn == REG_PC then ins.pc + 8 else 0)) % TWO_POW_32
  {
    var v := ImmediateCommentValue(ins, offset.value);
    var h := AltHexI32(v);
    CommentDigits(h);
    assert OffsetComment(ins, offset) == "\t; " + h;
    assert Value(h[2..], 16) == AsU32(v);
  }

  lemma Tail(p: string, t: string)
    ensures (p + t)[|p|..] == t
  {
  }

  lemma CommentDigits(h: string)
    requires |h| >= 2
    requires h[..2] == "0x"
    ensures ("\t; " + h)[..5] == "\t; 0x" && ("\t; " + h)[5..] == h[2..]
  {
  }

  /** Fetched at 0x1000, `ldr Rd, [pc, #4]` comments the address 0x100c. */
  lemma PcRelativeExample(ins: ArmInstruction)
    requires ins.rn == REG_PC && ins.pc == 0x1000
    ensures OffsetComment(ins, ImmediateValue(4)) == "\t; 0x100c"
  {
    assert Digits(0x100c, 16) == "100c" by {
      assert Digits(0x100, 16) == "100" by {
        assert Digits(0x10, 16) == "10";
      }
    }
  }

  // ---------------------------------------------------------------------
  // LDR/STR, halfword transfers
  // ---------------------------------------------------------------------

  /** ldr/str, then "b" for a byte, "t" for post-indexed with write-back, then the condition. */
  function LdrStrMnemonic(ins: ArmInstruction): (s: string)
    ensures '\t' !in s && '!' !in s
  {
    (if ins.loadFlag then "ldr" else "str")
      + Mark(ins.transferSize == 1, "b")
      + Mark(!ins.preIndexFlag && ins.writeBackFlag, "t")
      + CondSuffix(ins.cond)
  }

  function RenderLdrStr(ins: ArmInstruction): (s: string)
    requires ValidOffset(ins.ldrStrOffset)
    ensures StartsLower(s)
  {
    LdrStrMnemonic(ins) + "\t" + RegName(ins.rd) + ", " + RnOffsetText(ins, ins.ldrStrOffset)
  }

  /** The LDR/STR mnemonic determines the direction, both markers and the condition. */
  lemma LdrStrMnemonicUnambiguous(a: ArmInstruction, b: ArmInstruction)
    requires LdrStrMnemonic(a) == LdrStrMnemonic(b)
    ensures a.loadFlag == b.loadFlag && a.cond == b.cond
    ensures (a.transferSize == 1) == (b.transferSize == 1)
    ensures (!a.preIndexFlag && a.writeBackFlag) == (!b.preIndexFlag && b.writeBackFlag)
  {
    var xa, xb := if a.loadFlag then "ldr" else "str", if b.loadFlag then "ldr" else "str";
    var ba, bb := a.transferSize == 1, b.transferSize == 1;
    var wa, wb := !a.preIndexFlag && a.writeBackFlag, !b.preIndexFlag && b.writeBackFlag;
    var ta, tb := Mark(wa, "t") + CondSuffix(a.cond), Mark(wb, "t") + CondSuffix(b.cond);
    Assoc4(xa, Mark(ba, "b"), Mark(wa, "t"), CondSuffix(a.cond));
    Assoc4(xb, Mark(bb, "b"), Mark(wb, "t"), CondSuffix(b.cond));
    SplitAtLength(xa, Mark(ba, "b") + ta, xb, Mark(bb, "b") + tb);
    assert xa[0] == xb[0];
    PeelMark('b', ba, ta, bb, tb);
    PeelMark('t', wa, CondSuffix(a.cond), wb, CondSuffix(b.cond));
    CondSuffixInjective(a.cond, b.cond);
  }

  /**
   * A LDR/STR line determines its mnemonic's fields, Rd, Rn, the indexing,
   * the write-back flag, and the offset text with its comment.
   */
  lemma LdrStrTextDeterminesFields(a: ArmInstruction, b: ArmInstruction)
    requires ValidOffset(a.ldrStrOffset) && ValidOffset(b.ldrStrOffset)
    requires RenderLdrStr(a) == RenderLdrStr(b)
    ensures a.loadFlag == b.loadFlag && a.cond == b.cond && a.rd == b.rd
    ensures (a.transferSize == 1) == (b.transferSize == 1)
    ensures a.rn == b.rn && a.preIndexFlag == b.preIndexFlag && a.writeBackFlag == b.writeBackFlag
    ensures OffsetString(a.ldrStrOffset) == OffsetString(b.ldrStrOffset)
    ensures OffsetComment(a, a.ldrStrOffset) == OffsetComment(b, b.ldrStrOffset)
  {
    var oa, ob := " " + RnOffsetText(a, a.ldrStrOffset), " " + RnOffsetText(b, b.ldrStrOffset);
    var ra, rb := RegName(a.rd) + [','] + oa, RegName(b.rd) + [','] + ob;
    FirstOperandSplit(LdrStrMnemonic(a), RegName(a.rd), RnOffsetText(a, a.ldrStrOffset));
    FirstOperandSplit(LdrStrMnemonic(b), RegName(b.rd), RnOffsetText(b, b.ldrStrOffset));
    SplitAtChar('\t', LdrStrMnemonic(a), ra, LdrStrMnemonic(b), rb);
    SplitAtChar(',', RegName(a.rd), oa, RegName(b.rd), ob);
    RegNameInjective(a.rd, b.rd);
    LdrStrMnemonicUnambiguous(a, b);
    assert oa[1..] == RnOffsetText(a, a.ldrStrOffset) && ob[1..] == RnOffsetText(b, b.ldrStrOffset);
    RnOffsetTextDeterminesFields(a, a.ldrStrOffset, b, b.ldrStrOffset);
  }

  function RenderLdrStrHs(ins: ArmInstruction): (s: string)
    requires ins.halfwordTransferType.Some? ==> ValidOffset(ins.ldrStrHsOffset)
    ensures ins.halfwordTransferType.None? <==> s == "<undefined>"
    ensures ins.halfwordTransferType.Some? ==> StartsLower(s)
  {
    if ins.halfwordTransferType.Some? then
      HalfwordMnemonic(ins, ins.halfwordTransferType.value) + "\t" + RegName(ins.rd) + ", "
        + RnOffsetText(ins, ins.ldrStrHsOffset)
    else
      "<undefined>"
  }

  /** ldr/str, then the transfer type's suffix, then the condition. */
  function HalfwordMnemonic(ins: ArmInstruction, t: ArmHalfwordTransferType): (s: string)
    ensures '\t' !in s && StartsLower(s)
  {
    (if ins.loadFlag then "ldr" else "str") + HalfwordSuffix(t) + CondSuffix(ins.cond)
  }

  /** A post-indexed halfword line is the same whatever the write-back flag. */
  lemma HalfwordPostIndexedHidesWriteBack(ins: ArmInstruction)
    requires ins.halfwordTransferType.Some? && ValidOffset(ins.ldrStrHsOffset) && !ins.preIndexFlag
    ensures RenderLdrStrHs(ins) == RenderLdrStrHs(ins.(writeBackFlag := !ins.writeBackFlag))
  {
    var other := ins.(writeBackFlag := !ins.writeBackFlag);
    assert OffsetComment(ins, ins.ldrStrHsOffset) == OffsetComment(other, other.ldrStrHsOffset);
    assert RnOffsetText(ins, ins.ldrStrHsOffset) == RnOffsetText(other, other.ldrStrHsOffset);
    assert HalfwordMnemonic(ins, ins.halfwordTransferType.value) == HalfwordMnemonic(other, other.halfwordTransferType.value);
  }

  /** The halfword mnemonic determines the direction, the transfer type and the condition. */
  lemma HalfwordMnemonicUnambiguous(a: ArmInstruction, ta: ArmHalfwordTransferType, b: ArmInstruction, tb: ArmHalfwordTransferType)
    requires HalfwordMnemonic(a, ta) == HalfwordMnemonic(b, tb)
    ensures a.loadFlag == b.loadFlag && ta == tb && a.cond == b.cond
  {
    var xa, xb := if a.loadFlag then "ldr" else "str", if b.loadFlag then "ldr" else "str";
    var ha, hb := HalfwordSuffix(ta), HalfwordSuffix(tb);
    var ca, cb := CondSuffix(a.cond), CondSuffix(b.cond);
    Assoc3(xa, ha, ca);
    Assoc3(xb, hb, cb);
    SplitAtLength(xa, ha + ca, xb, hb + cb);
    assert xa[0] == xb[0];
    assert (ha + ca)[0] == ha[0] && (hb + cb)[0] == hb[0];
    SplitAtLength(ha, ca, hb, cb);
    HalfwordSuffixInjective(ta, tb);
    CondSuffixInjective(a.cond, b.cond);
  }

  /**
   * A halfword transfer line of a known type determines the direction, the
   * type, the condition, Rd, Rn, the indexing, the offset text with its
   * comment, and, when pre-indexed, the write-back flag. A post-indexed line
   * has no "t" marker, so it does not show that flag.
   */
  lemma HalfwordTextDeterminesFields(a: ArmInstruction, b: ArmInstruction)
    requires a.halfwordTransferType.Some? && ValidOffset(a.ldrStrHsOffset)
    requires b.halfwordTransferType.Some? && ValidOffset(b.ldrStrHsOffset)
    requires RenderLdrStrHs(a) == RenderLdrStrHs(b)
    ensures a.loadFlag == b.loadFlag && a.halfwordTransferType == b.halfwordTransferType && a.cond == b.cond
    ensures a.rd == b.rd && a.rn == b.rn && a.preIndexFlag == b.preIndexFlag
    ensures a.preIndexFlag ==> a.writeBackFlag == b.writeBackFlag
    ensures OffsetString(a.ldrStrHsOffset) == OffsetString(b.ldrStrHsOffset)
    ensures OffsetComment(a, a.ldrStrHsOffset) == OffsetComment(b, b.ldrStrHsOffset)
  {
    var ta, tb := a.halfwordTransferType.value, b.halfwordTransferType.value;
    var ma, mb := HalfwordMnemonic(a, ta), HalfwordMnemonic(b, tb);
    var ra, rb := RnOffsetText(a, a.ldrStrHsOffset), RnOffsetText(b, b.ldrStrHsOffset);
    FirstOperandSplit(ma, RegName(a.rd), ra);
    FirstOperandSplit(mb, RegName(b.rd), rb);
    SplitAtChar('\t', ma, RegName(a.rd) + [','] + (" " + ra), mb, RegName(b.rd) + [','] + (" " + rb));
    SplitAtChar(',', RegName(a.rd), " " + ra, RegName(b.rd), " " + rb);
    RegNameInjective(a.rd, b.rd);
    HalfwordMnemonicUnambiguous(a, ta, b, tb);
    assert (" " + ra)[1..] == ra && (" " + rb)[1..] == rb;
    RnOffsetTextDeterminesFields(a, a.ldrStrHsOffset, b, b.ldrStrHsOffset);
  }

  // ---------------------------------------------------------------------
  // LDM/STM
  // ---------------------------------------------------------------------

  function RegisterListText(regs: seq<Reg>): (s: string)
    ensures s == Join(RegNames(regs))
    ensures '!' !in s && '^' !in s && '{' !in s && '}' !in s
  {
    var names := RegNames(regs);
    JoinNoChar(names, '!');
    JoinNoChar(names, '^');
    JoinNoChar(names, '{');
    JoinNoChar(names, '}');
    Join(names)
  }

  lemma {:induction false} JoinNoChar(parts: seq<string>, c: char)
    requires c != ',' && c != ' '
    requires forall i :: 0 <= i < |parts| ==> c !in parts[i]
    ensures c !in Join(parts)
  {
    if |parts| > 1 {
      JoinNoChar(parts[1..], c);
    }
  }

  /**
   * The register list is written first element, then ", " and each further
   * element in order: appending a register to a non-empty list appends ", R".
   */
  lemma {:induction false} RegisterListAppend(regs: seq<Reg>, r: Reg)
    requires regs != []
    ensures RegisterListText(regs + [r]) == RegisterListText(regs) + ", " + RegName(r)
  {
    JoinAppend(RegNames(regs), RegName(r));
    assert RegNames(regs + [r]) == RegNames(regs) + [RegName(r)];
  }

  lemma {:induction false} JoinAppend(parts: seq<string>, last: string)
    requires parts != []
    ensures Join(parts + [last]) == Join(parts) + ", " + last
    decreases |parts|
  {
    var longer := parts + [last];
    assert longer[0] == parts[0];
    if |parts| > 1 {
      var rest := parts[1..];
      assert longer[1..] == rest + [last];
      assert Join(longer) == parts[0] + ", " + Join(rest + [last]);
      JoinAppend(rest, last);
      CommaAssoc(parts[0], Join(rest), last);
    } else {
      assert longer[1..] == [last];
    }
  }

  lemma CommaAssoc(a: string, b: string, c: string)
    ensures a + ", " + (b + ", " + c) == a + ", " + b + ", " + c
  {
  }

  function LdmStmMnemonic(ins: ArmInstruction): (s: string)
    ensures |s| == 5 + |CondSuffix(ins.cond)| && Plain(s)
  {
    (if ins.loadFlag then "ldm" else "stm")
      + [if ins.addOffsetFlag then 'i' else 'd']
      + [if ins.preIndexFlag then 'b' else 'a']
      + CondSuffix(ins.cond)
  }

  function RenderLdmStm(ins: ArmInstruction): (s: string)
    ensures StartsLower(s)
  {
    LdmStmMnemonic(ins) + "\t" + RegName(ins.rn) + AutoIncrementMark(ins)
      + ", {" + RegisterListText(ins.registerList) + "}" + Mark(ins.psrAndForceUserFlag, "^")
  }

  /**
   * LDM/STM: 'i'/'d' from the add-offset bit, 'b'/'a' from the pre-index bit,
   * "!" exactly with write-back, the list inside braces and a final "^"
   * exactly with the PSR/force-user bit.
   */
  lemma LdmStmMarks(ins: ArmInstruction)
    ensures var s := RenderLdmStm(ins);
      && s[3] == (if ins.addOffsetFlag then 'i' else 'd')
      && s[4] == (if ins.preIndexFlag then 'b' else 'a')
      && (('!' in s) <==> ins.writeBackFlag)
      && ((s[|s| - 1] == '^') <==> ins.psrAndForceUserFlag)
      && (ins.registerList == [] ==> s[|s| - (if ins.psrAndForceUserFlag then 3 else 2)..] == "{}" + Mark(ins.psrAndForceUserFlag, "^"))
  {
    var s := RenderLdmStm(ins);
    var k := |LdmStmMnemonic(ins)| + 1 + |RegName(ins.rn)|;
    if ins.writeBackFlag {
      assert s[k] == '!';
    }
    if !ins.psrAndForceUserFlag {
      assert s[|s| - 1] == '}';
    }
  }

  /**
   * An LDM/STM line determines every field it shows: the direction, both
   * addressing bits, the condition, Rn, write-back, the register list and
   * the PSR/force-user bit.
   */
  lemma LdmStmTextDeterminesFields(a: ArmInstruction, b: ArmInstruction)
    requires RenderLdmStm(a) == RenderLdmStm(b)
    ensures a.registerList == b.registerList
    ensures a.loadFlag == b.loadFlag && a.addOffsetFlag == b.addOffsetFlag && a.preIndexFlag == b.preIndexFlag
    ensures a.cond == b.cond && a.rn == b.rn && a.writeBackFlag == b.writeBackFlag
    ensures a.psrAndForceUserFlag == b.psrAndForceUserFlag
  {
    LdmStmMarks(a);
    LdmStmMarks(b);
    var tail := "}" + Mark(a.psrAndForceUserFlag, "^");
    var pa := LdmStmMnemonic(a) + "\t" + RegName(a.rn) + AutoIncrementMark(a) + ", ";
    var pb := LdmStmMnemonic(b) + "\t" + RegName(b.rn) + AutoIncrementMark(b) + ", ";
    var la, lb := RegisterListText(a.registerList), RegisterListText(b.registerList);
    NoBrace(LdmStmMnemonic(a), RegName(a.rn), AutoIncrementMark(a));
    NoBrace(LdmStmMnemonic(b), RegName(b.rn), AutoIncrementMark(b));
    BraceSplit(LdmStmMnemonic(a) + "\t" + RegName(a.rn) + AutoIncrementMark(a), la, Mark(a.psrAndForceUserFlag, "^"));
    BraceSplit(LdmStmMnemonic(b) + "\t" + RegName(b.rn) + AutoIncrementMark(b), lb, Mark(b.psrAndForceUserFlag, "^"));
    SplitAtChar('{', pa, la + tail, pb, lb + tail);
    SplitAtLength(la, tail, lb, tail);
    JoinRegNamesInjective(a.registerList, b.registerList);
    LdmStmHeadSplit(LdmStmMnemonic(a), RegName(a.rn), a.writeBackFlag, LdmStmMnemonic(b), RegName(b.rn), b.writeBackFlag);
    RegNameInjective(a.rn, b.rn);
    LdmStmMnemonicUnambiguous(a, b);
  }

  /** The part before the list: mnemonic, tab, Rn, an optional "!" and ", ". */
  lemma LdmStmHeadSplit(ma: string, ra: string, wa: bool, mb: string, rb: string, wb: bool)
    requires Plain(ma) && Plain(mb) && Plain(ra) && Plain(rb)
    requires ma + "\t" + ra + Mark(wa, "!") + ", " == mb + "\t" + rb + Mark(wb, "!") + ", "
    ensures ma == mb && ra == rb && wa == wb
  {
    var ta, tb := ra + Mark(wa, "!") + ", ", rb + Mark(wb, "!") + ", ";
    HeadTail(ma, ra, Mark(wa, "!"));
    HeadTail(mb, rb, Mark(wb, "!"));
    SplitAtChar('\t', ma, ta, mb, tb);
    SplitAtLength(ra + Mark(wa, "!"), ", ", rb + Mark(wb, "!"), ", ");
    assert wa <==> '!' in ra + Mark(wa, "!");
    assert wb <==> '!' in rb + Mark(wb, "!");
    SplitAtLength(ra, Mark(wa, "!"), rb, Mark(wb, "!"));
  }

  lemma HeadTail(m: string, r: string, w: string)
    ensures m + "\t" + r + w + ", " == m + ['\t'] + (r + w + ", ")
  {
  }

  /** The LDM/STM mnemonic determines the direction, both addressing bits and the condition. */
  lemma LdmStmMnemonicUnambiguous(a: ArmInstruction, b: ArmInstruction)
    requires LdmStmMnemonic(a) == LdmStmMnemonic(b)
    ensures a.loadFlag == b.loadFlag && a.addOffsetFlag == b.addOffsetFlag && a.preIndexFlag == b.preIndexFlag
    ensures a.cond == b.cond
  {
    var ma, mb := LdmStmMnemonic(a), LdmStmMnemonic(b);
    assert ma[0] == mb[0] && ma[3] == mb[3] && ma[4] == mb[4];
    assert ma[5..] == CondSuffix(a.cond) && mb[5..] == CondSuffix(b.cond);
    CondSuffixInjective(a.cond, b.cond);
  }

  // ---------------------------------------------------------------------
  // MRS, MSR
  // ---------------------------------------------------------------------

  function PsrName(spsr: bool): string {
    if spsr then "SPSR" else "CPSR"
  }

  function RenderMrs(ins: ArmInstruction): (s: string)
    ensures |s| >= 3 && s[..3] == "mrs"
    ensures StartsLower(s)
  {
    "mrs" + CondSuffix(ins.cond) + "\t" + RegName(ins.rd) + ", " + PsrName(ins.spsrFlag)
  }

  function RenderMsrReg(ins: ArmInstruction): (s: string)
    ensures |s| >= 3 && s[..3] == "msr"
    ensures StartsLower(s)
  {
    "msr" + CondSuffix(ins.cond) + "\t" + PsrName(ins.spsrFlag) + ", " + RegName(ins.rm)
  }

  /** An MRS line determines the condition, Rd and which status register is read. */
  lemma MrsTextDeterminesFields(a: ArmInstruction, b: ArmInstruction)
    requires RenderMrs(a) == RenderMrs(b)
    ensures a.cond == b.cond && a.rd == b.rd && a.spsrFlag == b.spsrFlag
  {
    var ma, mb := "mrs" + CondSuffix(a.cond), "mrs" + CondSuffix(b.cond);
    var pa, pb := " " + PsrName(a.spsrFlag), " " + PsrName(b.spsrFlag);
    FirstOperandSplit(ma, RegName(a.rd), PsrName(a.spsrFlag));
    FirstOperandSplit(mb, RegName(b.rd), PsrName(b.spsrFlag));
    SplitAtChar('\t', ma, RegName(a.rd) + [','] + pa, mb, RegName(b.rd) + [','] + pb);
    SplitAtLength("mrs", CondSuffix(a.cond), "mrs", CondSuffix(b.cond));
    CondSuffixInjective(a.cond, b.cond);
    SplitAtChar(',', RegName(a.rd), pa, RegName(b.rd), pb);
    RegNameInjective(a.rd, b.rd);
    assert pa[1] == pb[1];
  }

  /** An MSR line with a register source determines the condition, the status register and Rm. */
  lemma MsrRegTextDeterminesFields(a: ArmInstruction, b: ArmInstruction)
    requires RenderMsrReg(a) == RenderMsrReg(b)
    ensures a.cond == b.cond && a.spsrFlag == b.spsrFlag && a.rm == b.rm
  {
    var ma, mb := "msr" + CondSuffix(a.cond), "msr" + CondSuffix(b.cond);
    var pa, pb := " " + RegName(a.rm), " " + RegName(b.rm);
    FirstOperandSplit(ma, PsrName(a.spsrFlag), RegName(a.rm));
    FirstOperandSplit(mb, PsrName(b.spsrFlag), RegName(b.rm));
    SplitAtChar('\t', ma, PsrName(a.spsrFlag) + [','] + pa, mb, PsrName(b.spsrFlag) + [','] + pb);
    SplitAtLength("msr", CondSuffix(a.cond), "msr", CondSuffix(b.cond));
    CondSuffixInjective(a.cond, b.cond);
    SplitAtChar(',', PsrName(a.spsrFlag), pa, PsrName(b.spsrFlag), pb);
    assert PsrName(a.spsrFlag)[0] == PsrName(b.spsrFlag)[0];
    assert pa[1..] == RegName(a.rm) && pb[1..] == RegName(b.rm);
    RegNameInjective(a.rm, b.rm);
  }

  /** The bits 0xf000_0000 of the operand: `op & 0xf000_0000`. */
  function FlagBits(op: Word): (psr: Word)
    ensures psr % 0x1000_0000 == 0 && psr / 0x1000_0000 == op / 0x1000_0000
  {
    op / 0x1000_0000 * 0x1000_0000
  }

  /** The text "N=.. Z=.. C=.. V=.." of four flags. */
  function FlagsText(n: bool, z: bool, c: bool, v: bool): (s: string)
    ensures |s| > 5 && s[..5] == "\t; N="
  {
    "\t; N=" + (BoolText(n) + (" Z=" + (BoolText(z) + (" C=" + (BoolText(c) + (" V=" + BoolText(v)))))))
  }

  /**
   * The flags comment of MSR with an immediate: N, Z, C and V are bits 31,
   * 30, 29 and 28 of `op & 0xf000_0000`, each printed as true or false.
   */
  function PsrFlagsComment(op: Word): string {
    var top := FlagBits(op) / 0x1000_0000;
    FlagsText(top / 8 == 1, top / 4 % 2 == 1, top / 2 % 2 == 1, top % 2 == 1)
  }

  lemma FlagsTextInjective(n1: bool, z1: bool, c1: bool, v1: bool, n2: bool, z2: bool, c2: bool, v2: bool)
    requires FlagsText(n1, z1, c1, v1) == FlagsText(n2, z2, c2, v2)
    ensures n1 == n2 && z1 == z2 && c1 == c2 && v1 == v2
  {
    var rv1, rv2 := " V=" + BoolText(v1), " V=" + BoolText(v2);
    var rc1, rc2 := " C=" + (BoolText(c1) + rv1), " C=" + (BoolText(c2) + rv2);
    var rz1, rz2 := " Z=" + (BoolText(z1) + rc1), " Z=" + (BoolText(z2) + rc2);
    BoolFieldSplit("\t; N=", BoolText(n1), rz1, BoolText(n2), rz2);
    BoolFieldSplit(" Z=", BoolText(z1), rc1, BoolText(z2), rc2);
    BoolFieldSplit(" C=", BoolText(c1), rv1, BoolText(c2), rv2);
    BoolFieldSplit(" V=", BoolText(v1), "", BoolText(v2), "");
  }

  /** The flags comment depends on the top four bits of the operand and on nothing else. */
  lemma PsrFlagsCommentTopBits(a: Word, b: Word)
    ensures PsrFlagsComment(a) == PsrFlagsComment(b) <==> a / 0x1000_0000 == b / 0x1000_0000
  {
    var ta, tb := a / 0x1000_0000, b / 0x1000_0000;
    if PsrFlagsComment(a) == PsrFlagsComment(b) {
      var fa, fb := FlagBits(a) / 0x1000_0000, FlagBits(b) / 0x1000_0000;
      FlagsTextInjective(fa / 8 == 1, fa / 4 % 2 == 1, fa / 2 % 2 == 1, fa % 2 == 1,
                         fb / 8 == 1, fb / 4 % 2 == 1, fb / 2 % 2 == 1, fb % 2 == 1);
      NibbleBits(fa, fb);
    }
  }

  lemma NibbleBits(x: nat, y: nat)
    requires x < 16 && y < 16
    requires x / 8 == y / 8 && x / 4 % 2 == y / 4 % 2 && x / 2 % 2 == y / 2 % 2 && x % 2 == y % 2
    ensures x == y
  {
    NibbleOf(x);
    NibbleOf(y);
  }

  /**
   * The flags comment shows bit 31 of the operand as N, bit 30 as Z, bit 29
   * as C and bit 28 as V.
   */
  lemma PsrFlagsCommentBits(op: Word)
    ensures PsrFlagsComment(op) ==
      FlagsText(op / 0x8000_0000 % 2 == 1, op / 0x4000_0000 % 2 == 1, op / 0x2000_0000 % 2 == 1, op / 0x1000_0000 % 2 == 1)
  {
    var top := op / 0x1000_0000;
    assert FlagBits(op) / 0x1000_0000 == top;
    TopNibble(op);
  }

  /** The bits of the top nibble of a word are its bits 31 to 28. */
  lemma TopNibble(op: Word)
    ensures op / 0x1000_0000 / 8 == op / 0x8000_0000 % 2
    ensures op / 0x1000_0000 / 4 == op / 0x4000_0000
    ensures op / 0x1000_0000 / 2 == op / 0x2000_0000
  {
  }

  /** A number below 16 is the sum of its four weighted bits. */
  lemma NibbleOf(x: nat)
    requires x < 16
    ensures x == 8 * (x / 8) + 4 * (x / 4 % 2) + 2 * (x / 2 % 2) + x % 2
  {
  }

  /** A printed bool is read back from a field, whatever follows it after a space. */
  lemma BoolFieldSplit(p: string, x: string, r1: string, y: string, r2: string)
    requires x == "true" || x == "false"
    requires y == "true" || y == "false"
    requires |r1| > 0 ==> r1[0] == ' '
    requires |r2| > 0 ==> r2[0] == ' '
    requires p + (x + r1) == p + (y + r2)
    ensures x == y && r1 == r2
  {
    SplitAtLength(p, x + r1, p, y + r2);
    assert (x + r1)[1] == x[1] && (y + r2)[1] == y[1];
    SplitAtLength(x, r1, y, r2);
  }

  function RenderMsrFlags(ins: ArmInstruction): (s: string)
    requires ValidOperand2(ins.operand2)
    ensures |s| >= 3 && s[..3] == "msr"
    ensures StartsLower(s)
  {
    var cond, psr := CondSuffix(ins.cond), PsrName(ins.spsrFlag) + "_f";
    var operand := Operand2Text(ins.operand2) + Operand2FlagsComment(ins.operand2);
    MsrHead(cond, psr, operand);
    "msr" + cond + "\t" + psr + ", " + operand
  }

  lemma MsrHead(c: string, p: string, o: string)
    ensures var s := "msr" + c + "\t" + p + ", " + o; |s| >= 3 && s[..3] == "msr" && StartsLower(s)
  {
  }

  /** The flags comment follows operand2 only when it is an immediate, and is taken from its value. */
  function Operand2FlagsComment(op2: BarrelShifterValue): (s: string)
    requires ValidOperand2(op2)
    ensures s == "" <==> op2.ShiftedReg?
  {
    match Operand2Value(op2)
    case Some(op) => PsrFlagsComment(op)
    case None => ""
  }

  /** For an immediate, the comment shows the flags of the rotated 32-bit pattern. */
  lemma Operand2FlagsCommentOfImmediate(op2: BarrelShifterValue)
    requires op2.RotatedImmediate?
    ensures Operand2FlagsComment(op2) == PsrFlagsComment(AsU32(DecodeRotatedImmediate(op2.immediate, op2.rotate)))
  {
  }

  /**
   * An MSR-flags line determines the condition, the status register, and the
   * operand text with its comment after it.
   */
  lemma MsrFlagsTextDeterminesFields(a: ArmInstruction, b: ArmInstruction)
    requires ValidOperand2(a.operand2) && ValidOperand2(b.operand2)
    requires RenderMsrFlags(a) == RenderMsrFlags(b)
    ensures a.cond == b.cond && a.spsrFlag == b.spsrFlag
    ensures Operand2Text(a.operand2) + Operand2FlagsComment(a.operand2)
         == Operand2Text(b.operand2) + Operand2FlagsComment(b.operand2)
  {
    MsrFlagsSplit(CondSuffix(a.cond), a.spsrFlag, Operand2Text(a.operand2) + Operand2FlagsComment(a.operand2),
                  CondSuffix(b.cond), b.spsrFlag, Operand2Text(b.operand2) + Operand2FlagsComment(b.operand2));
    CondSuffixInjective(a.cond, b.cond);
  }

  lemma MsrFlagsSplit(ca: string, sa: bool, oa: string, cb: string, sb: bool, ob: string)
    requires Plain(ca) && Plain(cb)
    requires "msr" + ca + "\t" + (PsrName(sa) + "_f") + ", " + oa == "msr" + cb + "\t" + (PsrName(sb) + "_f") + ", " + ob
    ensures ca == cb && sa == sb && oa == ob
  {
    var ma, mb := "msr" + ca, "msr" + cb;
    var na, nb := PsrName(sa) + "_f", PsrName(sb) + "_f";
    FirstOperandSplit(ma, na, oa);
    FirstOperandSplit(mb, nb, ob);
    SplitAtChar('\t', ma, na + [','] + (" " + oa), mb, nb + [','] + (" " + ob));
    SplitAtLength("msr", ca, "msr", cb);
    SplitAtChar(',', na, " " + oa, nb, " " + ob);
    assert na[0] == nb[0];
    assert (" " + oa)[1..] == oa && (" " + ob)[1..] == ob;
  }

  // ---------------------------------------------------------------------
  // Multiplies
  // ---------------------------------------------------------------------

  function MulMlaMnemonic(ins: ArmInstruction): (s: string)
    ensures '\t' !in s
  {
    (if ins.accumulateFlag then "mla" else "mul") + SetCondMark(ins) + CondSuffix(ins.cond)
  }

  /** The operands of MUL (Rd, Rm, Rs) and MLA (… and Rn). */
  function MulMlaOperands(ins: ArmInstruction): seq<Reg> {
    if ins.accumulateFlag then [ins.rd, ins.rm, ins.rs, ins.rn] else [ins.rd, ins.rm, ins.rs]
  }

  function RenderMulMla(ins: ArmInstruction): (s: string)
    ensures MulMlaMnemonic(ins) + "\t" <= s
    ensures StartsLower(s)
  {
    if ins.accumulateFlag then
      MulMlaMnemonic(ins) + "\t"
        + RegName(ins.rd) + ", " + RegName(ins.rm) + ", " + RegName(ins.rs) + ", " + RegName(ins.rn)
    else
      MulMlaMnemonic(ins) + "\t" + RegName(ins.rd) + ", " + RegName(ins.rm) + ", " + RegName(ins.rs)
  }

  /** MUL/MLA print their operands Rd, Rm, Rs (and Rn for MLA) in that order, separated by ", ". */
  lemma MulMlaLayout(ins: ArmInstruction)
    ensures RenderMulMla(ins) == MulMlaMnemonic(ins) + "\t" + Join(RegNames(MulMlaOperands(ins)))
  {
    if ins.accumulateFlag {
      assert RegNames(MulMlaOperands(ins)) == [RegName(ins.rd), RegName(ins.rm), RegName(ins.rs), RegName(ins.rn)];
      FourOperandLine(MulMlaMnemonic(ins), RegName(ins.rd), RegName(ins.rm), RegName(ins.rs), RegName(ins.rn));
    } else {
      assert RegNames(MulMlaOperands(ins)) == [RegName(ins.rd), RegName(ins.rm), RegName(ins.rs)];
      ThreeOperandLine(MulMlaMnemonic(ins), RegName(ins.rd), RegName(ins.rm), RegName(ins.rs));
    }
  }

  /** Rendering a multiply operand list and reading it back gives the registers in order. */
  lemma OperandsDetermineRegisters(m1: string, xs: seq<Reg>, m2: string, ys: seq<Reg>)
    requires '\t' !in m1 && '\t' !in m2
    requires m1 + "\t" + Join(RegNames(xs)) == m2 + "\t" + Join(RegNames(ys))
    ensures m1 == m2 && xs == ys
  {
    SplitAtChar('\t', m1, Join(RegNames(xs)), m2, Join(RegNames(ys)));
    JoinRegNamesInjective(xs, ys);
  }

  /** A MUL/MLA line determines the accumulate bit, "s", the condition and every register. */
  lemma MulMlaTextDeterminesFields(a: ArmInstruction, b: ArmInstruction)
    requires RenderMulMla(a) == RenderMulMla(b)
    ensures a.accumulateFlag == b.accumulateFlag && a.setCondFlag == b.setCondFlag && a.cond == b.cond
    ensures MulMlaOperands(a) == MulMlaOperands(b)
  {
    MulMlaLayout(a);
    MulMlaLayout(b);
    OperandsDetermineRegisters(MulMlaMnemonic(a), MulMlaOperands(a), MulMlaMnemonic(b), MulMlaOperands(b));
    var xa, xb := if a.accumulateFlag then "mla" else "mul", if b.accumulateFlag then "mla" else "mul";
    Assoc3(xa, SetCondMark(a), CondSuffix(a.cond));
    Assoc3(xb, SetCondMark(b), CondSuffix(b.cond));
    SplitAtLength(xa, SetCondMark(a) + CondSuffix(a.cond), xb, SetCondMark(b) + CondSuffix(b.cond));
    assert xa[1] == xb[1];
    PeelMark('s', a.setCondFlag, CondSuffix(a.cond), b.setCondFlag, CondSuffix(b.cond));
    CondSuffixInjective(a.cond, b.cond);
  }

  /** "s" for a signed long multiply (the U bit set), "u" for an unsigned one. */
  function SignMark(ins: ArmInstruction): (s: string)
    ensures s == "s" <==> ins.uFlag
    ensures s == "u" <==> !ins.uFlag
  {
    if ins.uFlag then "s" else "u"
  }

  function MullMlalMnemonic(ins: ArmInstruction): (s: string)
    ensures '\t' !in s
  {
    SignMark(ins) + (if ins.accumulateFlag then "mlal" else "mull") + SetCondMark(ins) + CondSuffix(ins.cond)
  }

  /**
   * `fmt_mull_mlal` as written: the MLAL arm prints RdLo, RdHi, Rm, Rs but
   * the MULL arm stops after Rm.
   */
  function RenderMullMlalAsWritten(ins: ArmInstruction): (s: string)
    ensures MullMlalMnemonic(ins) + "\t" <= s
    ensures StartsLower(s)
  {
    var operands := if ins.accumulateFlag then
      RegName(ins.rdLo) + ", " + RegName(ins.rdHi) + ", " + RegName(ins.rm) + ", " + RegName(ins.rs)
    else
      RegName(ins.rdLo) + ", " + RegName(ins.rdHi) + ", " + RegName(ins.rm);
    MullMlalMnemonic(ins) + "\t" + operands
  }

  /** The operands of the long multiplies: RdLo, RdHi, Rm, Rs, for MULL as for MLAL. */
  function MullMlalOperands(ins: ArmInstruction): seq<Reg> {
    [ins.rdLo, ins.rdHi, ins.rm, ins.rs]
  }

  /** `fmt_mull_mlal` with the multiplier register printed in both arms. */
  function RenderMullMlal(ins: ArmInstruction): (s: string)
    ensures MullMlalMnemonic(ins) + "\t" <= s
    ensures StartsLower(s)
  {
    MullMlalMnemonic(ins) + "\t"
      + RegName(ins.rdLo) + ", " + RegName(ins.rdHi) + ", " + RegName(ins.rm) + ", " + RegName(ins.rs)
  }

  /** The correction changes the text of a long multiply exactly when it does not accumulate. */
  lemma MullCorrection(ins: ArmInstruction)
    ensures RenderMullMlal(ins) == RenderMullMlalAsWritten(ins) <==> ins.accumulateFlag
  {
    FourOperandTail(MullMlalMnemonic(ins) + "\t", RegName(ins.rdLo), RegName(ins.rdHi), RegName(ins.rm), RegName(ins.rs));
  }

  lemma FourOperandTail(m: string, a: string, b: string, c: string, d: string)
    ensures m + a + ", " + b + ", " + c + ", " + d == m + (a + ", " + b + ", " + c + ", " + d)
    ensures |m + a + ", " + b + ", " + c + ", " + d| == |m + (a + ", " + b + ", " + c)| + 2 + |d|
  {
  }

  /** The long multiplies print RdLo, RdHi, Rm, Rs in that order, separated by ", ". */
  lemma MullMlalLayout(ins: ArmInstruction)
    ensures RenderMullMlal(ins) == MullMlalMnemonic(ins) + "\t" + Join(RegNames(MullMlalOperands(ins)))
  {
    assert RegNames(MullMlalOperands(ins)) == [RegName(ins.rdLo), RegName(ins.rdHi), RegName(ins.rm), RegName(ins.rs)];
    FourOperandLine(MullMlalMnemonic(ins), RegName(ins.rdLo), RegName(ins.rdHi), RegName(ins.rm), RegName(ins.rs));
  }

  /** The long-multiply mnemonic determines the sign, the accumulate bit, "s" and the condition. */
  lemma MullMlalMnemonicUnambiguous(a: ArmInstruction, b: ArmInstruction)
    requires MullMlalMnemonic(a) == MullMlalMnemonic(b)
    ensures a.uFlag == b.uFlag && a.accumulateFlag == b.accumulateFlag
    ensures a.setCondFlag == b.setCondFlag && a.cond == b.cond
  {
    var xa := SignMark(a) + (if a.accumulateFlag then "mlal" else "mull");
    var xb := SignMark(b) + (if b.accumulateFlag then "mlal" else "mull");
    Assoc3(xa, SetCondMark(a), CondSuffix(a.cond));
    Assoc3(xb, SetCondMark(b), CondSuffix(b.cond));
    SplitAtLength(xa, SetCondMark(a) + CondSuffix(a.cond), xb, SetCondMark(b) + CondSuffix(b.cond));
    assert xa[0] == xb[0] && xa[2] == xb[2];
    PeelMark('s', a.setCondFlag, CondSuffix(a.cond), b.setCondFlag, CondSuffix(b.cond));
    CondSuffixInjective(a.cond, b.cond);
  }

  /** A corrected long-multiply line determines the sign, accumulate bit, "s", condition and all four registers. */
  lemma MullMlalTextDeterminesFields(a: ArmInstruction, b: ArmInstruction)
    requires RenderMullMlal(a) == RenderMullMlal(b)
    ensures a.uFlag == b.uFlag && a.accumulateFlag == b.accumulateFlag
    ensures a.setCondFlag == b.setCondFlag && a.cond == b.cond
    ensures a.rdLo == b.rdLo && a.rdHi == b.rdHi && a.rm == b.rm && a.rs == b.rs
  {
    MullMlalLayout(a);
    MullMlalLayout(b);
    OperandsDetermineRegisters(MullMlalMnemonic(a), MullMlalOperands(a), MullMlalMnemonic(b), MullMlalOperands(b));
    MullMlalMnemonicUnambiguous(a, b);
  }

  /** The registers the as-written long multiply prints: Rs only when it accumulates. */
  function MullMlalAsWrittenOperands(ins: ArmInstruction): seq<Reg> {
    if ins.accumulateFlag then MullMlalOperands(ins) else [ins.rdLo, ins.rdHi, ins.rm]
  }

  /**
   * As written, the long multiplies print RdLo, RdHi, Rm separated by ", ",
   * and Rs after them only for MLAL.
   */
  lemma MullMlalAsWrittenLayout(ins: ArmInstruction)
    ensures RenderMullMlalAsWritten(ins) == MullMlalMnemonic(ins) + "\t" + Join(RegNames(MullMlalAsWrittenOperands(ins)))
    ensures !ins.accumulateFlag ==>
      RenderMullMlalAsWritten(ins) == MullMlalMnemonic(ins) + "\t" + Join(RegNames([ins.rdLo, ins.rdHi, ins.rm]))
  {
    if ins.accumulateFlag {
      MullCorrection(ins);
      MullMlalLayout(ins);
    } else {
      var m, lo, hi, rm := MullMlalMnemonic(ins), RegName(ins.rdLo), RegName(ins.rdHi), RegName(ins.rm);
      assert RenderMullMlalAsWritten(ins) == m + "\t" + (lo + ", " + hi + ", " + rm);
      assert RegNames([ins.rdLo, ins.rdHi, ins.rm]) == [lo, hi, rm];
      ThreeOperandTail(m + "\t", lo, hi, rm);
      ThreeOperandLine(m, lo, hi, rm);
    }
  }

  lemma ThreeOperandTail(m: string, a: string, b: string, c: string)
    ensures m + (a + ", " + b + ", " + c) == m + a + ", " + b + ", " + c
  {
  }

  /**
   * An as-written long-multiply line still determines the sign, accumulate
   * bit, "s", condition, RdLo, RdHi and Rm; it determines Rs only for MLAL.
   */
  lemma MullMlalAsWrittenTextDeterminesFields(a: ArmInstruction, b: ArmInstruction)
    requires RenderMullMlalAsWritten(a) == RenderMullMlalAsWritten(b)
    ensures a.uFlag == b.uFlag && a.accumulateFlag == b.accumulateFlag
    ensures a.setCondFlag == b.setCondFlag && a.cond == b.cond
    ensures a.rdLo == b.rdLo && a.rdHi == b.rdHi && a.rm == b.rm
    ensures a.accumulateFlag ==> a.rs == b.rs
  {
    MullMlalAsWrittenLayout(a);
    MullMlalAsWrittenLayout(b);
    var xs, ys := MullMlalAsWrittenOperands(a), MullMlalAsWrittenOperands(b);
    OperandsDetermineRegisters(MullMlalMnemonic(a), xs, MullMlalMnemonic(b), ys);
    MullMlalMnemonicUnambiguous(a, b);
    assert xs[0] == ys[0] && xs[1] == ys[1] && xs[2] == ys[2];
    if a.accumulateFlag {
      assert xs[3] == ys[3];
    }
  }

  /**
   * As written, two UMULL/SMULL instructions that differ only in Rs render
   * alike; with Rs printed they do not.
   */
  lemma MullAsWrittenLosesRs(ins: ArmInstruction, rs: Reg)
    requires !ins.accumulateFlag && rs != ins.rs
    ensures RenderMullMlalAsWritten(ins) == RenderMullMlalAsWritten(ins.(rs := rs))
    ensures RenderMullMlal(ins) != RenderMullMlal(ins.(rs := rs))
  {
    var other := ins.(rs := rs);
    assert MullMlalMnemonic(other) == MullMlalMnemonic(ins);
    if RenderMullMlal(ins) == RenderMullMlal(other) {
      MullMlalTextDeterminesFields(ins, other);
    }
  }

  /** `umull r0, r1, r2, r3` is shown, as written, with three operands. */
  lemma MullAsWrittenExample(ins: ArmInstruction)
    requires !ins.accumulateFlag && !ins.uFlag && !ins.setCondFlag && ins.cond == AL
    requires ins.rdLo == 0 && ins.rdHi == 1 && ins.rm == 2 && ins.rs == 3
    ensures RenderMullMlalAsWritten(ins) == "umull\tr0, r1, r2"
  {
    assert MullMlalMnemonic(ins) == "umull";
  }

  // ---------------------------------------------------------------------
  // SWI and the format dispatch
  // ---------------------------------------------------------------------

  function RenderSwi(ins: ArmInstruction): (s: string)
    ensures |s| >= 3 && s[..3] == "swi"
    ensures StartsLower(s)
  {
    "swi" + CondSuffix(ins.cond) + "\t#" + AltHex(ins.swiComment)
  }

  /** A SWI line determines the condition and the comment field. */
  lemma SwiTextDeterminesFields(a: ArmInstruction, b: ArmInstruction)
    requires RenderSwi(a) == RenderSwi(b)
    ensures a.cond == b.cond && a.swiComment == b.swiComment
  {
    var ma, mb := "swi" + CondSuffix(a.cond), "swi" + CondSuffix(b.cond);
    TabHash(ma, AltHex(a.swiComment));
    TabHash(mb, AltHex(b.swiComment));
    SplitAtChar('\t', ma, "#" + AltHex(a.swiComment), mb, "#" + AltHex(b.swiComment));
    SplitAtLength("swi", CondSuffix(a.cond), "swi", CondSuffix(b.cond));
    CondSuffixInjective(a.cond, b.cond);
    SplitAtLength("#", AltHex(a.swiComment), "#", AltHex(b.swiComment));
    AltHexInjective(a.swiComment, b.swiComment);
  }

  /** What the renderer needs of an instruction beyond its format tag. */
  predicate WellFormed(ins: ArmInstruction) {
    && ((ins.fmt == DP || ins.fmt == MSR_FLAGS) ==> ValidOperand2(ins.operand2))
    && (ins.fmt == LDR_STR ==> ValidOffset(ins.ldrStrOffset))
    && (((ins.fmt == LDR_STR_HS_IMM || ins.fmt == LDR_STR_HS_REG) && ins.halfwordTransferType.Some?)
          ==> ValidOffset(ins.ldrStrHsOffset))
  }

  /** The text of `Display for ArmInstruction`. */
  function Render(ins: ArmInstruction): (s: string)
    requires WellFormed(ins)
    ensures |s| > 0
    ensures s[0] == '(' <==> ins.fmt.Unlisted?
    ensures s[0] == '<' <==>
      (ins.fmt == LDR_STR_HS_IMM || ins.fmt == LDR_STR_HS_REG) && ins.halfwordTransferType.None?
  {
    match ins.fmt
    case BX => RenderBx(ins)
    case B_BL => RenderBranch(ins)
    case DP => RenderDataProcessing(ins)
    case LDR_STR => RenderLdrStr(ins)
    case LDM_STM => RenderLdmStm(ins)
    case MRS => RenderMrs(ins)
    case MSR_REG => RenderMsrReg(ins)
    case MSR_FLAGS => RenderMsrFlags(ins)
    case MUL_MLA => RenderMulMla(ins)
    case MULL_MLAL => RenderMullMlalAsWritten(ins)
    case LDR_STR_HS_IMM => RenderLdrStrHs(ins)
    case LDR_STR_HS_REG => RenderLdrStrHs(ins)
    case SWI => RenderSwi(ins)
    case Unlisted(debug) => "(" + debug + ")"
  }

  /** The instruction text with the long multiply corrected to print Rs in both arms. */
  function RenderCorrected(ins: ArmInstruction): (s: string)
    requires WellFormed(ins)
    ensures s == Render(ins) <==> !(ins.fmt == MULL_MLAL && !ins.accumulateFlag)
  {
    if ins.fmt == MULL_MLAL then
      RenderOfLongMultiply(ins);
      MullCorrection(ins);
      RenderMullMlal(ins)
    else Render(ins)
  }

  lemma RenderOfLongMultiply(ins: ArmInstruction)
    requires WellFormed(ins) && ins.fmt == MULL_MLAL
    ensures Render(ins) == RenderMullMlalAsWritten(ins)
  {
  }
}
