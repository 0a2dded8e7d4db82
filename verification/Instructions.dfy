/** Decoded instructions: the rows of the instruction table whose lifting is modelled.

    A row that names a register in its mnemonic or in an `ax`/`arn` field carries it as a
    parameter of its identifier; the other operands are the decoded list. */
module Instructions {
  import opened Wrappers
  import opened Registers
  import opened Operands

  datatype ArithId =
    | SUBCU_ACC_LOC16 | SUBCUL_ACC_LOC32
    | INC_LOC16 | DEC_LOC16
    | ADD_ACC_LOC16 | SUB_ACC_LOC16
    | ADDB_ACC_CONST8 | SUBB_ACC_CONST8
    | ADDL_ACC_LOC32 | SUBL_ACC_LOC32
    | ADDL_LOC32_ACC | SUBL_LOC32_ACC
    | ADDUL_P_LOC32 | SUBUL_P_LOC32
    | ADDB_SP_CONST7 | SUBB_SP_CONST7
    | ADDB_XARN_CONST7(xar: Index) | SUBB_XARN_CONST7(xar: Index)
    | ADDU_ACC_LOC16 | SUBU_ACC_LOC16
    | SBBU_ACC_LOC16 | SUBBL_ACC_LOC32
    | ADDCU_ACC_LOC16 | ADDCL_ACC_LOC32
    | SUBRL_LOC32_ACC

  datatype MiscId = CMPL_ACC_LOC32 | TEST_ACC | NEG_ACC | ABS_ACC | ABSTC_ACC | NEGTC_ACC

  datatype MovId =
    | MOVL_ACC_LOC32
    | MOVL_P_ACC
    | MOVB_ACC_CONST8
    | MOV_ACC_LOC16
    | MOV_REG_LOC(reg: Register)
    | MOV_LOC_REG(reg: Register)
    | MOV_LOC16_AX_COND(reg: Register)
    | MOVB_LOC16_CONST8_COND
    | MOVL_LOC32_ACC_COND

  /** What a PUSH or POP without an operand moves. */
  datatype StackArm =
    | ArmST0 | ArmST1 | ArmDP | ArmRPC | ArmIFR | ArmDBGIER | ArmP | ArmXT | ArmRB
    | AR1_AR0 | AR3_AR2 | AR5_AR4 | DP_ST1 | T_ST0
    | AR1H_AR0H

  datatype StackId = PUSH(arm: StackArm) | POP(arm: StackArm) | PUSH_LOC16 | POP_LOC16

  datatype MultiplyId =
    | MAC_P_LOC16_XAR7 | MAC_P_LOC16_XAR7_POSTINC
    | MPYA_P_LOC16_CONST16

  datatype SystemId =
    | SETC_MODE | CLRC_MODE
    | MAXL_ACC_LOC32 | MINL_ACC_LOC32 | MAXCUL_P_LOC32 | MINCUL_P_LOC32
    | LSL64_ACC_P_SHIFT

  datatype BranchId = LB | BCOND

  /** Identifiers, grouped as the lifter's dispatch groups their semantic types. */
  datatype InsnId =
    | Arith(arith: ArithId)
    | Misc(misc: MiscId)
    | Mov(mov: MovId)
    | Stack(stack: StackId)
    | Multiply(multiply: MultiplyId)
    | System(system: SystemId)
    | Branch(branch: BranchId)

  datatype Operand =
    | Immediate(value: int)
    | Loc16(loc: ResolvedOperand)
    | Loc32(loc: ResolvedOperand)
    | Condition(code: nat)

  /** `target` is the resolved branch target and `size` the length, both in bytes. */
  datatype DecodedInstruction = Decoded(id: InsnId, operands: seq<Operand>, target: Option<nat>, size: nat)

  // ---- Operand lists the decoder produces for these rows ----

  predicate OneLoc(ops: seq<Operand>, size: nat) {
    |ops| == 1 && IsLoc(ops[0], size)
  }

  predicate IsLoc(op: Operand, size: nat) {
    match op
    case Loc16(loc) => size == 2 && Plain(loc, 2)
    case Loc32(loc) => size == 4 && Plain(loc, 4)
    case _ => false
  }

  predicate OneImmediate(ops: seq<Operand>, low: int, high: int) {
    |ops| == 1 && IsImmediate(ops[0], low, high)
  }

  predicate IsImmediate(op: Operand, low: int, high: int) {
    op.Immediate? && low <= op.value <= high
  }

  predicate IsCondition(op: Operand) {
    op.Condition? && op.code < 16
  }

  function ArithWidth(id: ArithId): nat {
    match id
    case SUBCU_ACC_LOC16 => 2
    case INC_LOC16 => 2
    case DEC_LOC16 => 2
    case ADD_ACC_LOC16 => 2
    case SUB_ACC_LOC16 => 2
    case ADDU_ACC_LOC16 => 2
    case SUBU_ACC_LOC16 => 2
    case SBBU_ACC_LOC16 => 2
    case ADDCU_ACC_LOC16 => 2
    case ADDB_ACC_CONST8 => 0
    case SUBB_ACC_CONST8 => 0
    case ADDB_SP_CONST7 => 0
    case SUBB_SP_CONST7 => 0
    case ADDB_XARN_CONST7(_) => 0
    case SUBB_XARN_CONST7(_) => 0
    case _ => 4
  }

  predicate ArithShape(id: ArithId, ops: seq<Operand>) {
    if ArithWidth(id) == 0 then OneImmediate(ops, 0, if id.ADDB_ACC_CONST8? || id.SUBB_ACC_CONST8? then 0xFF else 0x7F)
    else OneLoc(ops, ArithWidth(id))
  }

  /** Which arithmetic rows take a 16-bit location, a 32-bit one, or a constant of 7 or 8 bits. */
  lemma ArithOperands(id: ArithId, loc: ResolvedOperand, n: int)
    ensures ArithShape(id, [Loc16(loc)]) <==>
            Plain(loc, 2) && id in {INC_LOC16, DEC_LOC16, ADD_ACC_LOC16, SUB_ACC_LOC16, ADDU_ACC_LOC16, SUBU_ACC_LOC16,
                                    SBBU_ACC_LOC16, ADDCU_ACC_LOC16, SUBCU_ACC_LOC16}
    ensures ArithShape(id, [Loc32(loc)]) <==>
            Plain(loc, 4) && id in {ADDL_ACC_LOC32, SUBL_ACC_LOC32, ADDL_LOC32_ACC, SUBL_LOC32_ACC, SUBRL_LOC32_ACC,
                                    ADDUL_P_LOC32, SUBUL_P_LOC32, ADDCL_ACC_LOC32, SUBBL_ACC_LOC32, SUBCUL_ACC_LOC32}
    ensures ArithShape(id, [Immediate(n)]) <==>
            || (0 <= n <= 0xFF && id in {ADDB_ACC_CONST8, SUBB_ACC_CONST8})
            || (0 <= n <= 0x7F && id in {ADDB_SP_CONST7, SUBB_SP_CONST7})
            || (0 <= n <= 0x7F && (id.ADDB_XARN_CONST7? || id.SUBB_XARN_CONST7?))
  {
    hide Plain;
  }

  predicate MiscShape(id: MiscId, ops: seq<Operand>) {
    if id.CMPL_ACC_LOC32? then OneLoc(ops, 4) else ops == []
  }

  /** Registers with a flagless load of their own: MOVL XARn/P/XT, MOV T/PH/PL/IER/AR6/AR7. */
  predicate Loadable(reg: Register) {
    reg.XAR? || reg == P || reg == XT || reg == T || reg == PH || reg == PL || reg == IER || reg == AR(6)
      || reg == AR(7)
  }

  /** Registers with a store of their own: MOVL ACC/XARn/P/XT, MOV AH/AL/T/IER. */
  predicate Storable(reg: Register) {
    reg == ACC || reg.XAR? || reg == P || reg == XT || reg == AH || reg == AL || reg == T || reg == IER
  }

  predicate MovShape(id: MovId, ops: seq<Operand>) {
    match id
    case MOVL_ACC_LOC32 => OneLoc(ops, 4)
    case MOVL_P_ACC => ops == []
    case MOVB_ACC_CONST8 => OneImmediate(ops, 0, 0xFF)
    case MOV_ACC_LOC16 => OneLoc(ops, 2)
    case MOV_REG_LOC(reg) => Loadable(reg) && OneLoc(ops, reg.Size())
    case MOV_LOC_REG(reg) => Storable(reg) && OneLoc(ops, reg.Size())
    case MOV_LOC16_AX_COND(reg) =>
      (reg == AL || reg == AH) && |ops| == 2 && IsLoc(ops[0], 2) && IsCondition(ops[1])
    case MOVB_LOC16_CONST8_COND =>
      |ops| == 3 && IsLoc(ops[0], 2) && IsImmediate(ops[1], 0, 0xFF) && IsCondition(ops[2])
    case MOVL_LOC32_ACC_COND => |ops| == 2 && IsLoc(ops[0], 4) && IsCondition(ops[1])
  }

  predicate StackShape(id: StackId, ops: seq<Operand>) {
    match id
    case PUSH(_) => ops == []
    case POP(_) => ops == []
    case PUSH_LOC16 => OneLoc(ops, 2)
    case POP_LOC16 => OneLoc(ops, 2)
  }

  predicate MultiplyShape(id: MultiplyId, ops: seq<Operand>) {
    match id
    case MPYA_P_LOC16_CONST16 => |ops| == 2 && IsLoc(ops[0], 2) && IsImmediate(ops[1], -0x8000, 0xFFFF)
    case _ => OneLoc(ops, 2)
  }

  predicate SystemShape(id: SystemId, ops: seq<Operand>) {
    match id
    case SETC_MODE => OneImmediate(ops, 0, 0xFF)
    case CLRC_MODE => OneImmediate(ops, 0, 0xFF)
    case LSL64_ACC_P_SHIFT => OneImmediate(ops, 1, 16)
    case _ => OneLoc(ops, 4)
  }

  /** LB carries its word address, B, SB and BF an offset and a condition. */
  predicate BranchShape(id: BranchId, ops: seq<Operand>, target: Option<nat>) {
    && target.Some? && target.value < 0x1_0000_0000
    && (if id.LB? then OneImmediate(ops, 0, 0x3F_FFFF)
        else |ops| == 2 && ops[0].Immediate? && IsCondition(ops[1]))
  }

  predicate WellFormed(insn: DecodedInstruction) {
    match insn.id
    case Arith(id) => ArithShape(id, insn.operands)
    case Misc(id) => MiscShape(id, insn.operands)
    case Mov(id) => MovShape(id, insn.operands)
    case Stack(id) => StackShape(id, insn.operands)
    case Multiply(id) => MultiplyShape(id, insn.operands)
    case System(id) => SystemShape(id, insn.operands)
    case Branch(id) => BranchShape(id, insn.operands, insn.target)
  }
}
