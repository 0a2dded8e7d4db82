/** Moves, including those the table declares in `lift:` blocks and the generic fallback.

    A declared move names its register side; the fallback takes its first two operands for
    destination and source, whatever they are. */
module LiftMov {
  import opened Registers
  import opened Instructions
  import opened Il
  import opened IlCode
  import opened IlBuilder
  import opened LiftOperands

  /** Read the operand, then `insn`. */
  function AfterRead(op: Operand, insn: Insn): Block { Append(OpBlock(op), Do(insn, End)) }

  /** The generic two-operand fallback with a loc destination: `[dst] = src`. */
  function CopyBlock(dst: Operand, src: Operand, size: nat): Block {
    Append(OpBlock(src), WriteOpBlock(dst, size, OpExpr(src, size)))
  }

  function MovBlock(id: MovId, ops: seq<Operand>): Block {
    match id
    case MOVL_ACC_LOC32 =>
      if ops == [] then End else AfterRead(ops[0], SetRegFlags(4, ACC, OpExpr(ops[0], 4), NZ))
    case MOVL_P_ACC => Do(SetReg(4, P, Reg(4, ACC)), End)
    case MOVB_ACC_CONST8 =>
      if ops == [] then End else Do(SetRegFlags(4, ACC, Zx(4, Const(1, OpValue(ops[0]))), NZ), End)
    case MOV_ACC_LOC16 =>
      if ops == [] then End else AfterRead(ops[0], SetReg(4, ACC, Sx(4, OpExpr(ops[0], 2))))
    case MOV_REG_LOC(reg) =>
      if ops == [] then Refuse(End) else AfterRead(ops[0], SetReg(reg.Size(), reg, OpExpr(ops[0], reg.Size())))
    case MOV_LOC_REG(reg) =>
      if ops == [] then Refuse(End) else WriteOpBlock(ops[0], reg.Size(), Reg(reg.Size(), reg))
    case MOV_LOC16_AX_COND(reg) => if |ops| < 2 then Refuse(End) else WriteOpBlock(ops[0], 2, Reg(2, reg))
    case MOVB_LOC16_CONST8_COND => if |ops| < 2 then Refuse(End) else CopyBlock(ops[0], ops[1], 2)
    case MOVL_LOC32_ACC_COND => if |ops| < 2 then Refuse(End) else CopyBlock(ops[0], ops[1], 4)
  }

  method LiftCopy(il: ILFunction, dst: Operand, src: Operand, size: nat)
    modifies il
    ensures Emits(old(il.code), il.code, CopyBlock(dst, src, size))
  {
    hide Emits, OpBlock, OpExpr, WriteOpBlock, Append;
    ghost var c0 := il.code;
    var value := ReadOp(il, src, size);
    ghost var c1 := il.code;
    WriteOp(il, dst, size, value);
    EmitsAppend(c0, c1, il.code, OpBlock(src), WriteOpBlock(dst, size, value));
  }

  /** Moves with a register destination. */
  method LiftLoad(il: ILFunction, id: MovId, op: Operand)
    requires id.MOVL_ACC_LOC32? || id.MOV_ACC_LOC16? || id.MOV_REG_LOC?
    modifies il
    ensures Emits(old(il.code), il.code, MovBlock(id, [op]))
  {
    hide Emits, OpBlock, OpExpr, WriteOpBlock, Append, CopyBlock;
    ghost var c0 := il.code;
    if id.MOVL_ACC_LOC32? {
      var e := ReadOp(il, op, 4);
      ghost var c1 := il.code;
      il.Append(SetRegFlags(4, ACC, e, NZ));
      EmitsAppend(c0, c1, il.code, OpBlock(op), Do(SetRegFlags(4, ACC, e, NZ), End));
    } else if id.MOV_ACC_LOC16? {
      var e := ReadOp(il, op, 2);
      ghost var c1 := il.code;
      il.Append(SetReg(4, ACC, Sx(4, e)));
      EmitsAppend(c0, c1, il.code, OpBlock(op), Do(SetReg(4, ACC, Sx(4, e)), End));
    } else {
      var size := id.reg.Size();
      var e := ReadOp(il, op, size);
      ghost var c1 := il.code;
      il.Append(SetReg(size, id.reg, e));
      EmitsAppend(c0, c1, il.code, OpBlock(op), Do(SetReg(size, id.reg, e), End));
    }
  }

  method Lift(il: ILFunction, id: MovId, ops: seq<Operand>)
    modifies il
    ensures Emits(old(il.code), il.code, MovBlock(id, ops))
  {
    hide Emits, OpBlock, OpExpr, WriteOpBlock, Append, CopyBlock, AfterRead;
    EmitsNothing(il.code);
    match id {
      case MOVL_ACC_LOC32 => if |ops| > 0 { LiftLoad(il, id, ops[0]); }
      case MOVL_P_ACC => il.Append(SetReg(4, P, Reg(4, ACC)));
      case MOVB_ACC_CONST8 =>
        if |ops| > 0 { il.Append(SetRegFlags(4, ACC, Zx(4, Const(1, OpValue(ops[0]))), NZ)); }
      case MOV_ACC_LOC16 => if |ops| > 0 { LiftLoad(il, id, ops[0]); }
      case MOV_REG_LOC(reg) =>
        if |ops| > 0 { LiftLoad(il, id, ops[0]); } else { il.Append(Unimplemented); }
      case MOV_LOC_REG(reg) =>
        if |ops| > 0 { WriteOp(il, ops[0], reg.Size(), Reg(reg.Size(), reg)); } else { il.Append(Unimplemented); }
      case MOV_LOC16_AX_COND(reg) =>
        if |ops| >= 2 { WriteOp(il, ops[0], 2, Reg(2, reg)); } else { il.Append(Unimplemented); }
      case MOVB_LOC16_CONST8_COND =>
        if |ops| >= 2 { LiftCopy(il, ops[0], ops[1], 2); } else { il.Append(Unimplemented); }
      case MOVL_LOC32_ACC_COND =>
        if |ops| >= 2 { LiftCopy(il, ops[0], ops[1], 4); } else { il.Append(Unimplemented); }
    }
  }
}
