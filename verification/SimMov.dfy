/** Lifted moves do what the machine does, except the conditional MOVL, which is refused.

    Loads to ACC set N and Z on both sides; loads to other registers set none. A store to a
    register may set N and Z on the machine, which the lifter does not model, so they are
    forgotten. No move touches the carry. */
module SimMov {
  import opened Registers
  import opened Operands
  import opened Instructions
  import opened Il
  import opened IlCode
  import opened LiftOperands
  import opened LiftMov
  import opened Relation
  import opened SimArith
  import opened SimMisc
  import M = Machine

  /** A store to a register may set N and Z on the machine, which the lifter does not model. */
  function AfterStore(op: Operand, k: Known): Known {
    if (op.Loc16? || op.Loc32?) && !op.loc.mode.RegisterDirect? then k else k.(n := false, z := false)
  }

  function AfterMov(id: MovId, ops: seq<Operand>, k: Known): Known {
    match id
    case MOVL_ACC_LOC32 => k.(n := true, z := true)
    case MOVB_ACC_CONST8 => k.(n := true, z := true)
    case MOV_ACC_LOC16 => k.(n := false, z := false)
    case MOVL_P_ACC => k
    case MOV_REG_LOC(_) => k
    case _ => AfterStore(M.First(ops), k)
  }

  /** ACC = value with N and Z. */
  lemma LoadAccOk(value: Expr, v: nat, k: Known, st: State, ms: M.Machine, o: Oracle)
    requires Rel(k, st, ms) && SizeOf(value) == 4 && Eval(value, st) == v
    ensures Rel(k.(n := true, z := true), Exec(SetRegFlags(4, ACC, value, NZ), st, o), M.LoadAcc(ms, v))
  {
    hide Eval, SizeOf, Modulus, Wrap, WriteReg, SameRegs, SameMem, WriteFlags;
    LoadFlags(value, st, o);
    WriteSame(st.regs, ms, ACC, v);
    RegsOnly(WriteReg(st.regs, ACC, v), M.PutReg(ms, ACC, v), M.Judge(ms.status, v, 4));
  }

  lemma LoadFlags(value: Expr, st: State, o: Oracle)
    ensures var f := WriteFlags(NZ, value, st, o);
      && f.n == (2 * Eval(value, st) >= Modulus(SizeOf(value))) && f.z == (Eval(value, st) == 0)
      && f.c == st.flags.c && f.tc == st.flags.tc
  {
    hide Eval, CarryOf, Modulus, SizeOf;
  }

  /** r = value, no flags. */
  lemma LoadRegOk(r: Register, value: Expr, v: nat, k: Known, st: State, ms: M.Machine, o: Oracle)
    requires Rel(k, st, ms) && r != SP && SizeOf(value) == r.Size() && Eval(value, st) == v
    requires FlagsAfter(value, st, o) == st.flags
    ensures Rel(k, Exec(SetReg(r.Size(), r, value), st, o), M.PutReg(ms, r, v))
  {
    hide Eval, SizeOf, Modulus, Wrap, WriteReg, SameRegs, SameMem, SameFlags, FlagsAfter;
    WriteSame(st.regs, ms, r, v);
  }

  /** [loc] = value, no flags. */
  lemma StoreOk(r: ResolvedOperand, size: nat, value: Expr, v: nat, k: Known, st: State, ms: M.Machine, o: Oracle)
    requires Rel(k, st, ms) && Plain(r, size) && Reaches(r, ms) && (size == 2 || size == 4)
    requires Eval(value, st) == v < Modulus(size) && FlagsAfter(value, st, o) == st.flags
    ensures Rel(k, Exec(WriteInsn(r, size, value), st, o), M.WriteLoc(r, size, v, ms))
  {
    hide Eval, Modulus, SameRegs, SameMem, SameFlags, FlagsAfter, Exec, WriteInsn, M.WriteLoc, Plain, Reaches;
    WriteLocSame(r, size, value, st, ms, o);
  }

  /** Register, constant and operand expressions write no flags. */
  lemma NoFlags(op: Operand, size: nat, r: Register, st: State, o: Oracle)
    ensures FlagsAfter(OpExpr(op, size), st, o) == st.flags
    ensures FlagsAfter(Reg(size, r), st, o) == st.flags
    ensures FlagsAfter(Sx(4, OpExpr(op, size)), st, o) == st.flags
  {
    hide LocAddress, WriteFlags;
  }

  lemma LoadsOk(id: MovId, op: Operand, k: Known, st: State, ms: M.Machine, o: Oracle)
    requires id.MOVL_ACC_LOC32? || id.MOV_REG_LOC?
    requires MovShape(id, [op]) && OpReaches(op, ms) && Rel(k, st, ms)
    ensures var out := ExecBlock(MovBlock(id, [op]), st, o);
      out.Falls? && Rel(AfterMov(id, [op], k), out.st, M.MovEffect(id, [op], ms))
  {
    hide Eval, SizeOf, Modulus, Wrap, Rel, OpBlock, OpExpr, WriteOpBlock, WriteInsn, ExecBlock, Exec, Plain, Reaches,
      OpReaches, M.Value, M.LoadAcc, M.PutReg, M.StoreOperand, Loadable, Append, CopyBlock, FlagsAfter;
    var size := if id.MOVL_ACC_LOC32? then 4 else id.reg.Size();
    var e := OpExpr(op, size);
    var v := M.Value(op, size, ms);
    PlainOp(op, size, Const(4, 0));
    OperandSame(op, size, k, st, ms);
    var insn := if id.MOVL_ACC_LOC32? then SetRegFlags(4, ACC, e, NZ) else SetReg(size, id.reg, e);
    AppendToEnd(Do(insn, End));
    ExecOne(insn, st, o);
    if id.MOVL_ACC_LOC32? {
      LoadAccOk(e, v, k, st, ms, o);
    } else {
      LoadableIsNotSP(id.reg);
      NoFlags(op, size, ACC, st, o);
      LoadRegOk(id.reg, e, v, k, st, ms, o);
    }
  }

  lemma LoadableIsNotSP(reg: Register)
    ensures Loadable(reg) || Storable(reg) ==> reg != SP
  {}

  lemma SignedLoadOk(op: Operand, k: Known, st: State, ms: M.Machine, o: Oracle)
    requires IsLoc(op, 2) && OpReaches(op, ms) && Rel(k, st, ms)
    ensures var out := ExecBlock(MovBlock(MOV_ACC_LOC16, [op]), st, o);
      out.Falls? && Rel(k, out.st, M.MovEffect(MOV_ACC_LOC16, [op], ms))
  {
    hide Eval, SizeOf, Modulus, Wrap, Rel, OpBlock, OpExpr, WriteOpBlock, WriteInsn, ExecBlock, Exec, Plain, Reaches,
      OpReaches, M.Value, M.LoadAcc, M.PutReg, M.StoreOperand, Append, CopyBlock, FlagsAfter, Sx, Signed;
    var e := OpExpr(op, 2);
    PlainOp(op, 2, Const(4, 0));
    OperandSame(op, 2, k, st, ms);
    AppendToEnd(Do(SetReg(4, ACC, Sx(4, e)), End));
    ExecOne(SetReg(4, ACC, Sx(4, e)), st, o);
    NoFlags(op, 2, ACC, st, o);
    LoadRegOk(ACC, Sx(4, e), Wrap(Signed(M.Value(op, 2, ms), 2), 4), k, st, ms, o);
  }

  lemma RegValue(r: Register, st: State)
    ensures Eval(Reg(r.Size(), r), st) == ReadReg(st.regs, r) && SizeOf(Reg(r.Size(), r)) == r.Size()
  {
    hide Eval, SizeOf, Wrap, ReadReg, Reg, Modulus;
  }

  lemma StoreRegOk(id: MovId, r: Register, ops: seq<Operand>, k: Known, st: State, ms: M.Machine, o: Oracle)
    requires id == MOV_LOC_REG(r) || id == MOV_LOC16_AX_COND(r)
    requires MovShape(id, ops) && OpReaches(ops[0], ms) && Rel(k, st, ms)
    ensures var out := ExecBlock(MovBlock(id, ops), st, o);
      out.Falls? && Rel(k, out.st, M.MovEffect(id, ops, ms))
  {
    hide Eval, SizeOf, Modulus, Wrap, Rel, OpBlock, OpExpr, WriteOpBlock, WriteInsn, ExecBlock, Exec, Plain, Reaches,
      M.Value, M.LoadAcc, M.PutReg, M.WriteLoc, Append, CopyBlock, FlagsAfter, ReadReg, Storable, Reg;
    var size := r.Size();
    var op := ops[0];
    LoadableIsNotSP(r);
    RelRead(k, st, ms, r);
    RegValue(r, st);
    NoFlags(op, size, r, st, o);
    PlainOp(op, size, Reg(size, r));
    ExecOne(WriteInsn(op.loc, size, Reg(size, r)), st, o);
    StoreOk(op.loc, size, Reg(size, r), ReadReg(ms.regs, r), k, st, ms, o);
  }

  lemma RelRead(k: Known, st: State, ms: M.Machine, r: Register)
    requires Rel(k, st, ms) && r != SP
    ensures ReadReg(st.regs, r) == ReadReg(ms.regs, r)
  {
    hide SameRegs, ReadReg, SameMem;
    ReadSame(st.regs, ms, r);
  }

  lemma ConstStoreOk(ops: seq<Operand>, k: Known, st: State, ms: M.Machine, o: Oracle)
    requires MovShape(MOVB_LOC16_CONST8_COND, ops) && OpReaches(ops[0], ms) && Rel(k, st, ms)
    ensures var out := ExecBlock(MovBlock(MOVB_LOC16_CONST8_COND, ops), st, o);
      out.Falls? && Rel(k, out.st, M.MovEffect(MOVB_LOC16_CONST8_COND, ops, ms))
  {
    hide Eval, SizeOf, Modulus, Wrap, Rel, WriteOpBlock, WriteInsn, ExecBlock, Exec, Plain, Reaches, M.LoadAcc,
      M.PutReg, M.WriteLoc, FlagsAfter, ReadReg, Const;
    var op, value := ops[0], Const(2, ops[1].value);
    NoFlags(ops[1], 2, ACC, st, o);
    PlainOp(op, 2, value);
    AppendToEnd(Do(WriteInsn(op.loc, 2, value), End));
    ExecOne(WriteInsn(op.loc, 2, value), st, o);
    StoreOk(op.loc, 2, value, ops[1].value, k, st, ms, o);
  }

  /** The block lifted for MOVL loc32,ACC,COND reaches `unimplemented`: the generic fallback
      takes the condition operand for the value to store. */
  lemma ConditionalMovlIsRefused(ops: seq<Operand>, st: State, o: Oracle)
    requires MovShape(MOVL_LOC32_ACC_COND, ops)
    ensures ExecBlock(MovBlock(MOVL_LOC32_ACC_COND, ops), st, o) == Stuck
  {
    hide WriteOpBlock, Exec, Plain;
  }

  lemma MovOk(id: MovId, ops: seq<Operand>, k: Known, st: State, ms: M.Machine, o: Oracle)
    requires MovShape(id, ops) && !id.MOVL_LOC32_ACC_COND? && (ops != [] ==> OpReaches(ops[0], ms)) && Rel(k, st, ms)
    ensures var out := ExecBlock(MovBlock(id, ops), st, o);
      out.Falls? && Rel(AfterMov(id, ops, k), out.st, M.MovEffect(id, ops, ms))
  {
    hide Eval, SizeOf, Modulus, Wrap, Rel, ExecBlock, Plain, Reaches, OpReaches, MovBlock, M.MovEffect, Loadable,
      Storable, Reg, Const, Zx;
    if id.MOVL_ACC_LOC32? || id.MOV_REG_LOC? {
      assert ops == [ops[0]];
      LoadsOk(id, ops[0], k, st, ms, o);
    } else if id.MOV_ACC_LOC16? {
      assert ops == [ops[0]];
      SignedLoadOk(ops[0], k, st, ms, o);
      var out := ExecBlock(MovBlock(id, ops), st, o);
      Weaken(AfterMov(id, ops, k), k, out.st, M.MovEffect(id, ops, ms));
    } else if id.MOVL_P_ACC? || id.MOVB_ACC_CONST8? {
      SimpleOk(id, ops, k, st, ms, o);
    } else {
      if id.MOVB_LOC16_CONST8_COND? {
        ConstStoreOk(ops, k, st, ms, o);
      } else {
        StoreRegOk(id, id.reg, ops, k, st, ms, o);
      }
      var out := ExecBlock(MovBlock(id, ops), st, o);
      Weaken(AfterMov(id, ops, k), k, out.st, M.MovEffect(id, ops, ms));
    }
  }

  lemma SimpleOk(id: MovId, ops: seq<Operand>, k: Known, st: State, ms: M.Machine, o: Oracle)
    requires id.MOVL_P_ACC? || id.MOVB_ACC_CONST8?
    requires MovShape(id, ops) && Rel(k, st, ms)
    ensures var out := ExecBlock(MovBlock(id, ops), st, o);
      out.Falls? && Rel(AfterMov(id, ops, k), out.st, M.MovEffect(id, ops, ms))
  {
    hide Eval, SizeOf, Modulus, Wrap, Rel, ExecBlock, Exec, M.PutReg, M.LoadAcc, FlagsAfter, ReadReg, Reg, Const, Zx;
    if id.MOVL_P_ACC? {
      RelRead(k, st, ms, ACC);
      RegValue(ACC, st);
      NoFlags(Immediate(0), 4, ACC, st, o);
      LoadRegOk(P, Reg(4, ACC), ReadReg(ms.regs, ACC), k, st, ms, o);
      ExecOne(SetReg(4, P, Reg(4, ACC)), st, o);
    } else {
      var value := Zx(4, Const(1, ops[0].value));
      ImmediateSource(ops[0].value, st);
      LoadAccOk(value, ops[0].value, k, st, ms, o);
      ExecOne(SetRegFlags(4, ACC, value, NZ), st, o);
    }
  }
}
