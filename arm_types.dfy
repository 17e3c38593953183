/**
 * The decoded ARM instruction as the disassembly renderer sees it. The
 * decoder that fills these fields from the 32-bit word is upstream. The
 * condition, the format and the fetch address are fields of the source's
 * instruction record; every other field is what one of its accessors
 * returns (`rn()`, `set_cond_flag()`, `operand2()`, `register_list()`, ...).
 */
module ArmTypes {

  /** A register index: the decoder only ever produces 4-bit register fields. */
  type Reg = r: nat | r < 16

  /** A 32-bit unsigned value (`u32`, `Addr`). */
  type Word = n: nat | n < 0x1_0000_0000

  /** A 32-bit signed value (`i32`). */
  type I32 = i: int | -0x8000_0000 <= i < 0x8000_0000

  const REG_PC: Reg := 15

  datatype Option<T> = None | Some(value: T)

  datatype ArmCond = EQ | NE | HS | LO | MI | PL | VS | VC | HI | LS | GE | LT | GT | LE | AL

  datatype AluOpCode =
    AND | EOR | SUB | RSB | ADD | ADC | SBC | RSC | TST | TEQ | CMP | CMN | ORR | MOV | BIC | MVN

  datatype BarrelShiftOpCode = LSL | LSR | ASR | ROR

  datatype ArmHalfwordTransferType = UnsignedHalfwords | SignedHalfwords | SignedByte

  /** The shift applied to a register operand: by a literal amount or by a register. */
  datatype ShiftedRegister =
    | ByAmount(amount: nat, typ: BarrelShiftOpCode)
    | ByRegister(rs: Reg, typ: BarrelShiftOpCode)

  /** The barrel-shifter operand. `ShiftedReg` is the source's `ShiftedRegister { reg, shift, added }`. */
  datatype BarrelShifterValue =
    | ImmediateValue(value: I32)
    | RotatedImmediate(immediate: Word, rotate: nat)
    | ShiftedReg(reg: Reg, shift: ShiftedRegister, added: Option<bool>)

  datatype ArmFormat =
    | BX | B_BL | DP | LDR_STR | LDM_STM | MRS | MSR_REG | MSR_FLAGS
    | MUL_MLA | MULL_MLAL | LDR_STR_HS_IMM | LDR_STR_HS_REG | SWI
      /** Any other format; the renderer prints its debug text, which is opaque here. */
    | Unlisted(debug: string)

  datatype ArmInstruction = ArmInstruction(
    cond: ArmCond,
    fmt: ArmFormat,
    pc: Word,
    rn: Reg, rd: Reg, rm: Reg, rs: Reg, rdLo: Reg, rdHi: Reg,
    linkFlag: bool,
    branchOffset: I32,
    setCondFlag: bool,
    opcode: AluOpCode,
    operand2: BarrelShifterValue,
    loadFlag: bool,
    writeBackFlag: bool,
    preIndexFlag: bool,
    addOffsetFlag: bool,
    transferSize: nat,
    ldrStrOffset: BarrelShifterValue,
    registerList: seq<Reg>,
    psrAndForceUserFlag: bool,
    spsrFlag: bool,
    accumulateFlag: bool,
    uFlag: bool,
    halfwordTransferType: Option<ArmHalfwordTransferType>,
    ldrStrHsOffset: BarrelShifterValue,
    swiComment: Word
  )

  /** A name holds none of the characters the renderer uses to separate or mark operands. */
  predicate Plain(s: string) {
    && '\t' !in s && ',' !in s && ' ' !in s && '!' !in s && '^' !in s && '{' !in s && '}' !in s
    && '-' !in s && ']' !in s
  }

  /**
   * The register naming scheme (`reg_string`): general registers by number,
   * r11 and r12 by their procedure-call names, and the three aliases.
   */
  function RegName(r: Reg): (s: string)
    ensures 2 <= |s| <= 3
    ensures Plain(s)
  {
    match r
    case 0 => "r0" case 1 => "r1" case 2 => "r2" case 3 => "r3"
    case 4 => "r4" case 5 => "r5" case 6 => "r6" case 7 => "r7"
    case 8 => "r8" case 9 => "r9" case 10 => "r10" case 11 => "fp"
    case 12 => "ip" case 13 => "sp" case 14 => "lr" case _ => "pc"
  }

  lemma RegNameInjective(a: Reg, b: Reg)
    ensures RegName(a) == RegName(b) <==> a == b
  {
  }
}
