/** Lifted arithmetic does what the machine does.

    For each arm the value and carry of the emitted expression are computed first, then the
    flags that follow from them, then the register or memory write; `ArithOk` joins the arms.
    SUBCU and SUBCUL go through the temporary that holds the exact difference: the branch on it
    is the machine's branch, and the two writes of either side are the machine's pair. */
module SimArith {
  import opened Registers
  import opened Operands
  import opened Instructions
  import opened Il
  import opened IlCode
  import opened LiftOperands
  import opened LiftArith
  import opened Relation
  import M = Machine
  import Bits

  // ---- Flags ----

  lemma FlaggedAll(op: Expr, st: State, o: Oracle)
    ensures var f := FlagsAfter(WithFlags(op, All), st, o);
      && f.n == (2 * Eval(op, st) >= Modulus(SizeOf(op))) && f.z == (Eval(op, st) == 0)
      && f.c == CarryOf(op, st, o) && f.tc == st.flags.tc
  {
    hide Eval, CarryOf, Modulus, SizeOf;
  }

  lemma FlaggedNZC(op: Expr, st: State, o: Oracle)
    ensures var f := FlagsAfter(WithFlags(op, NZC), st, o);
      && f.n == (2 * Eval(op, st) >= Modulus(SizeOf(op))) && f.z == (Eval(op, st) == 0)
      && f.c == CarryOf(op, st, o) && f.tc == st.flags.tc
  {
    hide Eval, CarryOf, Modulus, SizeOf;
  }

  lemma FlaggedNZ(op: Expr, st: State, o: Oracle)
    ensures var f := FlagsAfter(WithFlags(op, NZ), st, o);
      && f.n == (2 * Eval(op, st) >= Modulus(SizeOf(op))) && f.z == (Eval(op, st) == 0)
      && f.c == st.flags.c && f.tc == st.flags.tc
  {
    hide Eval, CarryOf, Modulus, SizeOf;
  }

  /** An ALU expression with all its flags: the carry agrees as carry-out, or inverted as borrow. */
  lemma AluFlags(k: Known, op: Expr, total: int, size: nat, subtract: bool, st: State, ms: M.Machine, o: Oracle)
    requires SameFlags(k, st.flags, ms.status) && SizeOf(op) == size
    requires Eval(op, st) == Wrap(total, size)
    requires CarryOf(op, st, o) == if subtract then total < 0 else total >= Modulus(size)
    ensures SameFlags(Known(if subtract then Inverted else Direct, true, true),
                      FlagsAfter(WithFlags(op, All), st, o), M.AluStatus(ms.status, total, size, subtract))
  {
    hide Eval, CarryOf, Modulus, SizeOf, FlagsAfter, WithFlags, Wrap;
    FlaggedAll(op, st, o);
  }

  lemma RelParts(k: Known, st: State, ms: M.Machine)
    ensures Rel(k, st, ms) <==> SameRegs(st.regs, ms) && SameMem(st.mem, ms.mem) && SameFlags(k, st.flags, ms.status)
  {
    hide SameRegs, SameMem, SameFlags;
  }

  lemma ExecSetReg(reg: Register, value: Expr, v: nat, st: State, o: Oracle)
    requires Eval(value, st) == v < Modulus(reg.Size())
    ensures Exec(SetReg(reg.Size(), reg, value), st, o) ==
            st.(regs := WriteReg(st.regs, reg, v), flags := FlagsAfter(value, st, o))
  {
    hide Eval, Wrap, WriteReg, FlagsAfter, Modulus;
  }

  /** Setting a register to a flagged ALU expression. */
  lemma AluIntoRegister(k: Known, reg: Register, op: Expr, total: int, subtract: bool, st: State, ms: M.Machine,
                        o: Oracle)
    requires Rel(k, st, ms) && reg != SP && reg.Size() == 4 && SizeOf(op) == 4
    requires Eval(op, st) == Wrap(total, 4)
    requires CarryOf(op, st, o) == if subtract then total < 0 else total >= Modulus(4)
    ensures Rel(Known(if subtract then Inverted else Direct, true, true),
                Exec(SetReg(4, reg, WithFlags(op, All)), st, o), M.AluInto(ms, reg, total, subtract))
  {
    hide Eval, CarryOf, Modulus, SizeOf, SameRegs, SameMem, SameFlags, FlagsAfter, WithFlags, Wrap, WriteReg,
      M.AluStatus, M.AluInto, M.PutReg, Exec, Rel;
    var v := Wrap(total, 4);
    RelParts(k, st, ms);
    AluFlags(k, op, total, 4, subtract, st, ms, o);
    WriteSame(st.regs, ms, reg, v);
    AluIntoParts(ms, reg, total, subtract);
    RegsOnly(WriteReg(st.regs, reg, v), M.PutReg(ms, reg, v), M.AluStatus(ms.status, total, 4, subtract));
    ExecSetReg(reg, WithFlags(op, All), v, st, o);
    RelParts(Known(if subtract then Inverted else Direct, true, true),
             Exec(SetReg(4, reg, WithFlags(op, All)), st, o), M.AluInto(ms, reg, total, subtract));
  }

  lemma AluIntoParts(ms: M.Machine, reg: Register, total: int, subtract: bool)
    ensures var s := M.AluStatus(ms.status, total, 4, subtract);
      && M.AluInto(ms, reg, total, subtract) == M.PutReg(ms, reg, Wrap(total, 4)).(status := s)
      && M.AluInto(ms, reg, total, subtract).mem == ms.mem && M.AluInto(ms, reg, total, subtract).status == s
  {
    hide Wrap, WriteReg, M.AluStatus;
  }

  /** The status bits are not part of the register relation. */
  lemma RegsOnly(regs: RegFile, ms: M.Machine, s: M.Status)
    requires SameRegs(regs, ms)
    ensures SameRegs(regs, ms.(status := s))
  {}

  lemma FullWidth(regs: RegFile)
    ensures ReadReg(regs, ACC) < Modulus(4) && ReadReg(regs, P) < Modulus(4)
    ensures forall n: Index :: ReadReg(regs, XAR(n)) < Modulus(4)
  {
    hide Modulus, ReadReg;
  }

  lemma PlainRegister(reg: Register, regs: RegFile)
    requires reg.Size() == 4
    ensures ReadReg(regs, reg) < Modulus(4)
  {
    hide Modulus, ReadReg;
  }

  // ---- reg = reg op src ----

  /** The value and carry of `reg op src`. */
  lemma AccumulateValue(isAdd: bool, reg: Register, src: Expr, v: nat, s: nat, st: State, o: Oracle)
    requires SizeOf(src) == 4 && Eval(src, st) == s
    requires ReadReg(st.regs, reg) == v < Modulus(4)
    ensures var op, total := AddOrSub(isAdd, 4, Reg(4, reg), src), if isAdd then v + s else v - s;
      && SizeOf(op) == 4
      && Eval(op, st) == Wrap(total, 4)
      && CarryOf(op, st, o) == if isAdd then total >= Modulus(4) else total < 0
  {
    hide Eval, CarryOf, Modulus, SizeOf, Wrap, Reg, Add, Sub, ReadReg;
  }

  lemma AccumulateOk(k: Known, isAdd: bool, reg: Register, src: Expr, s: nat, st: State, ms: M.Machine, o: Oracle)
    requires Rel(k, st, ms) && (reg == ACC || reg == P)
    requires SizeOf(src) == 4 && Eval(src, st) == s
    ensures var v := ReadReg(ms.regs, reg);
      Rel(Known(if isAdd then Direct else Inverted, true, true), Exec(Accumulate(isAdd, reg, src), st, o),
          M.AluInto(ms, reg, if isAdd then v + s else v - s, !isAdd))
  {
    hide Eval, CarryOf, Modulus, SizeOf, SameRegs, SameMem, SameFlags, FlagsAfter, WithFlags, Wrap, WriteReg, Exec, Reg,
      AddOrSub, ReadReg, M.AluInto;
    var v := ReadReg(ms.regs, reg);
    ReadSame(st.regs, ms, reg);
    PlainRegister(reg, ms.regs);
    AccumulateValue(isAdd, reg, src, v, s, st, o);
    AluIntoRegister(k, reg, AddOrSub(isAdd, 4, Reg(4, reg), src), if isAdd then v + s else v - s, !isAdd, st, ms, o);
  }

  /** The carry an arm consumes, in the IL's convention and in the machine's. */
  predicate CarryAgrees(id: ArithId, k: Known) {
    if id.ADDCU_ACC_LOC16? || id.ADDCL_ACC_LOC32? then k.c.Direct?
    else if id.SBBU_ACC_LOC16? || id.SUBBL_ACC_LOC32? then k.c.Inverted?
    else true
  }

  lemma CarryOk(k: Known, src: Expr, s: nat, c: bool, st: State, ms: M.Machine, o: Oracle)
    requires Rel(k, st, ms) && SizeOf(src) == 4 && Eval(src, st) == s
    requires st.flags.c == c
    ensures Rel(Known(Direct, true, true), Exec(LiftArith.Carry(src), st, o),
                M.AluInto(ms, ACC, ReadReg(ms.regs, ACC) + s + M.Bool(c), false))
  {
    hide Eval, CarryOf, Modulus, SizeOf, SameRegs, SameMem, SameFlags, FlagsAfter, WithFlags, Wrap, WriteReg, Exec, Reg,
      Adc, FlagOf, ReadReg, M.AluInto;
    ReadSame(st.regs, ms, ACC);
    FullWidth(ms.regs);
    AluIntoRegister(k, ACC, Adc(4, Reg(4, ACC), src, FlagOf(C)), ReadReg(ms.regs, ACC) + s + M.Bool(c), false, st, ms,
      o);
  }

  lemma BorrowOk(k: Known, src: Expr, s: nat, c: bool, st: State, ms: M.Machine, o: Oracle)
    requires Rel(k, st, ms) && SizeOf(src) == 4 && Eval(src, st) == s
    requires st.flags.c == !c
    ensures Rel(Known(Inverted, true, true), Exec(Borrow(src), st, o),
                M.AluInto(ms, ACC, ReadReg(ms.regs, ACC) - s - M.Bool(!c), true))
  {
    hide Eval, CarryOf, Modulus, SizeOf, SameRegs, SameMem, SameFlags, FlagsAfter, WithFlags, Wrap, WriteReg, Exec, Reg,
      Sbb, FlagOf, ReadReg, M.AluInto;
    ReadSame(st.regs, ms, ACC);
    FullWidth(ms.regs);
    AluIntoRegister(k, ACC, Sbb(4, Reg(4, ACC), src, FlagOf(C)), ReadReg(ms.regs, ACC) - s - M.Bool(!c), true, st, ms,
      o);
  }

  lemma IntoRegisterOk(id: ArithId, k: Known, src: Expr, s: nat, st: State, ms: M.Machine, o: Oracle)
    requires Rel(k, st, ms) && SizeOf(src) == 4 && Eval(src, st) == s
    requires CarryAgrees(id, k) && M.IsSum(id) == (IsAdd(id) || id.ADDCU_ACC_LOC16? || id.ADDCL_ACC_LOC32?)
    ensures Rel(Known(if M.IsSum(id) then Direct else Inverted, true, true),
                Exec(IntoRegister(id, src), st, o), M.ArithRegister(id, s, ms))
  {
    hide Eval, SizeOf, SameRegs, SameMem, Exec, M.AluInto, Accumulate, Borrow, LiftArith.Carry, M.IsSum, IsAdd;
    if id.SBBU_ACC_LOC16? || id.SUBBL_ACC_LOC32? {
      IsSumIsAdd(id);
      BorrowOk(k, src, s, ms.status.c, st, ms, o);
    } else if id.ADDCU_ACC_LOC16? || id.ADDCL_ACC_LOC32? {
      CarryOk(k, src, s, ms.status.c, st, ms, o);
    } else {
      AccumulateOk(k, IsAdd(id), Destination(id), src, s, st, ms, o);
    }
  }

  lemma IsSumIsAdd(id: ArithId)
    ensures M.IsSum(id) == (IsAdd(id) || id.ADDCU_ACC_LOC16? || id.ADDCL_ACC_LOC32?)
    ensures id.SBBU_ACC_LOC16? || id.SUBBL_ACC_LOC32? ==> !M.IsSum(id)
  {}

  // ---- Operands and one-instruction blocks ----

  predicate OpReaches(op: Operand, ms: M.Machine) {
    match op
    case Loc16(loc) => Reaches(loc, ms)
    case Loc32(loc) => Reaches(loc, ms)
    case _ => true
  }

  /** A plain operand reads without side effects, as one expression of its width. */
  lemma PlainOp(op: Operand, size: nat, value: Expr)
    requires IsLoc(op, size) && (size == 2 || size == 4)
    ensures OpBlock(op) == End
    ensures OpExpr(op, size) == ReadExpr(op.loc, size)
    ensures WriteOpBlock(op, size, value) == Do(WriteInsn(op.loc, size, value), End)
  {
    hide ReadExpr, WriteInsn, ReadBlock, WriteBlock;
    PlainBlocks(op.loc, size, value);
  }

  lemma OperandSame(op: Operand, size: nat, k: Known, st: State, ms: M.Machine)
    requires IsLoc(op, size) && (size == 2 || size == 4) && OpReaches(op, ms) && Rel(k, st, ms)
    ensures Eval(OpExpr(op, size), st) == M.Value(op, size, ms) < Modulus(size)
    ensures SizeOf(OpExpr(op, size)) == size
  {
    hide Eval, SizeOf, SameRegs, SameMem, SameFlags, ReadExpr, M.ReadLoc, Modulus, Plain, Reaches;
    ReadLocSame(op.loc, size, st, ms);
  }

  lemma ExecOne(insn: Insn, st: State, o: Oracle)
    requires insn.IsPlain()
    ensures ExecBlock(Do(insn, End), st, o) == Falls(Exec(insn, st, o))
  {
    hide Exec;
  }

  lemma ExecTwo(a: Insn, b: Insn, st: State, o: Oracle)
    requires a.IsPlain() && b.IsPlain()
    ensures ExecBlock(Two(a, b), st, o) == Falls(Exec(b, Exec(a, st, o), o))
  {
    hide Exec;
    ExecOne(b, Exec(a, st, o), o);
  }

  lemma AppendToEnd(b: Block)
    ensures Append(End, b) == b
  {}

  // ---- Results stored to the operand ----

  /** Storing a flagged ALU expression to an operand. */
  lemma AluIntoLoc(k: Known, r: ResolvedOperand, size: nat, op: Expr, total: int, subtract: bool, st: State,
                   ms: M.Machine, o: Oracle)
    requires Rel(k, st, ms) && Plain(r, size) && Reaches(r, ms) && (size == 2 || size == 4) && SizeOf(op) == size
    requires Eval(op, st) == Wrap(total, size)
    requires CarryOf(op, st, o) == if subtract then total < 0 else total >= Modulus(size)
    ensures Rel(Known(if subtract then Inverted else Direct, true, true),
                Exec(WriteInsn(r, size, WithFlags(op, All)), st, o),
                M.WriteLoc(r, size, Wrap(total, size), ms).(status := M.AluStatus(ms.status, total, size, subtract)))
  {
    hide Eval, CarryOf, Modulus, SizeOf, SameRegs, SameMem, SameFlags, FlagsAfter, WithFlags, Wrap, M.AluStatus, Exec,
      WriteInsn, M.WriteLoc, Plain, Reaches;
    AluFlags(k, op, total, size, subtract, st, ms, o);
    WriteLocSame(r, size, WithFlags(op, All), st, ms, o);
    RegsOnly(Exec(WriteInsn(r, size, WithFlags(op, All)), st, o).regs, M.WriteLoc(r, size, Wrap(total, size), ms),
             M.AluStatus(ms.status, total, size, subtract));
  }

  /** The expression under the flag write in `Stored`. */
  function StoredExpr(id: ArithId, e: Expr): Expr {
    match id
    case INC_LOC16 => Add(2, e, Const(2, 1))
    case DEC_LOC16 => Sub(2, e, Const(2, 1))
    case ADDL_LOC32_ACC => Add(4, e, Reg(4, ACC))
    case SUBL_LOC32_ACC => Sub(4, e, Reg(4, ACC))
    case _ => Sub(4, Reg(4, ACC), e)
  }

  lemma StoredIsFlagged(id: ArithId, e: Expr)
    ensures Stored(id, e) == WithFlags(StoredExpr(id, e), All)
  {
    hide Add, Sub, Reg, Const, WithFlags;
  }

  lemma StoredValue(id: ArithId, e: Expr, v: nat, acc: nat, st: State, o: Oracle)
    requires StoresResult(id) && SizeOf(e) == ArithWidth(id) && Eval(e, st) == v
    requires ReadReg(st.regs, ACC) == acc < Modulus(4)
    ensures var op, total := StoredExpr(id, e), M.StoredTotal(id, v, acc);
      && SizeOf(op) == ArithWidth(id)
      && Eval(op, st) == Wrap(total, ArithWidth(id))
      && CarryOf(op, st, o) == if M.IsSum(id) then total >= Modulus(ArithWidth(id)) else total < 0
  {
    hide Eval, CarryOf, Modulus, SizeOf, Wrap, Reg, Add, Sub, ReadReg, Const;
    StepValue(e, v, st, o);
    WithAccValue(e, v, acc, st, o);
  }

  /** INC and DEC. */
  lemma StepValue(e: Expr, v: nat, st: State, o: Oracle)
    ensures SizeOf(e) == 2 && Eval(e, st) == v ==>
              && Eval(Add(2, e, Const(2, 1)), st) == Wrap(v + 1, 2)
              && Eval(Sub(2, e, Const(2, 1)), st) == Wrap((v as int) - 1, 2)
              && CarryOf(Add(2, e, Const(2, 1)), st, o) == (v + 1 >= Modulus(2))
              && CarryOf(Sub(2, e, Const(2, 1)), st, o) == (v < 1)
  {
    hide *;
  }

  lemma WithAccValue(e: Expr, v: nat, acc: nat, st: State, o: Oracle)
    requires ReadReg(st.regs, ACC) == acc < Modulus(4)
    ensures SizeOf(e) == 4 && Eval(e, st) == v ==>
              && Eval(Add(4, e, Reg(4, ACC)), st) == Wrap(v + acc, 4)
              && Eval(Sub(4, e, Reg(4, ACC)), st) == Wrap((v as int) - acc, 4)
              && Eval(Sub(4, Reg(4, ACC), e), st) == Wrap((acc as int) - v, 4)
              && CarryOf(Add(4, e, Reg(4, ACC)), st, o) == (v + acc >= Modulus(4))
              && CarryOf(Sub(4, e, Reg(4, ACC)), st, o) == (v < acc)
              && CarryOf(Sub(4, Reg(4, ACC), e), st, o) == (acc < v)
  {
    hide *;
  }

  lemma StoredOk(id: ArithId, op: Operand, k: Known, st: State, ms: M.Machine, o: Oracle)
    requires StoresResult(id) && IsLoc(op, ArithWidth(id)) && OpReaches(op, ms) && Rel(k, st, ms)
    ensures var out := ExecBlock(StoredBlock(id, op), st, o);
      out.Falls? && Rel(Known(if M.IsSum(id) then Direct else Inverted, true, true), out.st, M.ArithStored(id, op, ms))
  {
    hide Eval, CarryOf, SizeOf, SameRegs, SameMem, SameFlags, Exec, WriteInsn, M.WriteLoc, M.AluStatus, Stored,
      StoredExpr, ExecBlock, WriteOpBlock, OpBlock, OpExpr, M.StoredTotal, ReadReg, WithFlags, M.Value, Rel, Wrap,
      Plain, M.IsSum;
    var size := ArithWidth(id);
    var e := OpExpr(op, size);
    var v, acc := M.Value(op, size, ms), ReadReg(ms.regs, ACC);
    StoredWidth(id);
    PlainOp(op, size, Stored(id, e));
    OperandSame(op, size, k, st, ms);
    AccSame(k, st, ms);
    StoredIsFlagged(id, e);
    StoredValue(id, e, v, acc, st, o);
    var insn := WriteInsn(op.loc, size, Stored(id, e));
    AppendToEnd(Do(insn, End));
    ExecOne(insn, st, o);
    AluIntoLoc(k, op.loc, size, StoredExpr(id, e), M.StoredTotal(id, v, acc), !M.IsSum(id), st, ms, o);
  }

  lemma StoredWidth(id: ArithId)
    requires StoresResult(id)
    ensures ArithWidth(id) == 2 || ArithWidth(id) == 4
  {}

  lemma AccSame(k: Known, st: State, ms: M.Machine)
    requires Rel(k, st, ms)
    ensures ReadReg(st.regs, ACC) == ReadReg(ms.regs, ACC) < Modulus(4)
    ensures ReadReg(st.regs, P) == ReadReg(ms.regs, P) < Modulus(4)
  {
    hide ReadReg, SameRegs, SameMem, Modulus;
    ReadSame(st.regs, ms, ACC);
    ReadSame(st.regs, ms, P);
    FullWidth(ms.regs);
  }

  // ---- Pointer adjustments ----

  lemma PointerValue(isAdd: bool, reg: Register, amount: nat, v: nat, st: State, o: Oracle)
    requires ReadReg(st.regs, reg) == v < Modulus(4) && amount < 0x1000
    ensures var e := AddOrSub(isAdd, 4, Reg(4, reg), Const(4, amount));
      && Eval(e, st) == Wrap(if isAdd then v + amount else v - amount, 4)
      && FlagsAfter(e, st, o) == st.flags
  {
    hide Eval, CarryOf, Modulus, SizeOf, Wrap, ReadReg;
  }

  lemma XarPointerOk(isAdd: bool, n: Index, amount: nat, k: Known, st: State, ms: M.Machine, o: Oracle)
    requires Rel(k, st, ms) && amount < 0x1000
    ensures var v := ReadReg(ms.regs, XAR(n));
      Rel(k, Exec(MovePointer(isAdd, XAR(n), amount), st, o),
          M.PutReg(ms, XAR(n), Wrap(if isAdd then v + amount else v - amount, 4)))
  {
    hide Eval, Modulus, SizeOf, Wrap, ReadReg, WriteReg, SameRegs, SameMem, SameFlags, FlagsAfter, AddOrSub, Reg, Const;
    var v := ReadReg(ms.regs, XAR(n));
    ReadSame(st.regs, ms, XAR(n));
    FullWidth(ms.regs);
    PointerValue(isAdd, XAR(n), amount, v, st, o);
    WriteSame(st.regs, ms, XAR(n), Wrap(if isAdd then v + amount else v - amount, 4));
  }

  /** SP moves by words in the machine and by bytes in the IL. */
  lemma SpPointerOk(isAdd: bool, words: nat, k: Known, st: State, ms: M.Machine, o: Oracle)
    requires Rel(k, st, ms) && words < 0x800
    requires if isAdd then ms.sp + words < 0x1_0000 else words <= ms.sp
    ensures Rel(k, Exec(MovePointer(isAdd, SP, words * 2), st, o),
                ms.(sp := if isAdd then ms.sp + words else ms.sp - words))
  {
    hide Eval, Modulus, SizeOf, Wrap, SameMem, SameFlags, FlagsAfter, AddOrSub, Reg, Const, SameRegs, ReadReg, WriteReg;
    SpValue(st.regs, ms);
    PointerValue(isAdd, SP, words * 2, 2 * ms.sp, st, o);
    SpWrite(st.regs, ms, if isAdd then ms.sp + words else ms.sp - words);
  }

  lemma SpValue(regs: RegFile, ms: M.Machine)
    requires SameRegs(regs, ms)
    ensures ReadReg(regs, SP) == 2 * ms.sp < Modulus(4) && ms.sp < 0x1_0000
  {
    hide Full;
  }

  lemma SpWrite(regs: RegFile, ms: M.Machine, sp: nat)
    requires SameRegs(regs, ms) && sp < 0x1_0000
    ensures SameRegs(WriteReg(regs, SP, 2 * sp), ms.(sp := sp))
  {
    hide Wrap;
  }

  // ---- SUBCUL ----

  lemma SubculTempValue(src: Expr, d: nat, acc: nat, p: nat, st: State, o: Oracle)
    requires SizeOf(src) == 4 && Eval(src, st) == d < Modulus(4)
    requires ReadReg(st.regs, ACC) == acc < Modulus(4) && ReadReg(st.regs, P) == p < Modulus(4)
    ensures Eval(SubculTemp(src), st) == Wrap(2 * acc + p / 0x8000_0000 - d, 8)
  {
    hide Eval, Modulus, SizeOf, Wrap, ReadReg, Bits.Shl, Bits.Shr, Reg, Zx, Lsl, Lsr, Sub, Add, Const;
    Bits.Shl1(acc);
    Bits.Shr31(p);
  }

  lemma SubculTempFlags(src: Expr, st: State, o: Oracle)
    ensures FlagsAfter(SubculTemp(src), st, o) == st.flags
  {}

  /** The state once the difference is in the temporary. */
  function WithTemp(st: State, v: nat): State { st.(temps := st.temps[0 := v]) }

  lemma SubculTestValue(total: int, st: State)
    requires -0x1_0000_0000 < total < 0x2_0000_0000
    requires 0 in st.temps && st.temps[0] == Wrap(total, 8)
    ensures (Eval(SubculTest(), st) != 0) == (total >= 0)
  {
    hide Eval, SizeOf, Temp, Const, Cmp;
  }

  lemma SubculYesValue(total: nat, p: nat, st: State)
    requires 0 in st.temps && st.temps[0] == total < 0x2_0000_0000
    ensures Eval(SubculTaken(), st) == Wrap(total, 4)
    ensures ReadReg(st.regs, P) == p < Modulus(4) ==> Eval(SubculQuotient(), st) == Wrap(2 * p + 1, 4)
  {
    hide Eval, SizeOf, Modulus, Wrap, ReadReg, Bits.Shl, Temp, Low, WithFlags, Reg, Const, Lsl, Add;
    Bits.Shl1(p);
    WrapSum(2 * p, 1);
  }

  lemma WrapSum(a: nat, b: nat)
    ensures Wrap(Wrap(a, 4) + b, 4) == Wrap(a + b, 4)
  {}

  lemma SubculNoValue(acc: nat, p: nat, st: State)
    requires ReadReg(st.regs, ACC) == acc < Modulus(4) && ReadReg(st.regs, P) == p < Modulus(4)
    ensures Eval(SubculShift(), st) == Wrap(2 * acc + p / 0x8000_0000, 4)
    ensures Eval(SubculShiftP(), st) == Wrap(2 * p, 4)
  {
    hide Eval, SizeOf, Modulus, Wrap, ReadReg, Bits.Shl, Bits.Shr, Bits.Or, WithFlags, Reg, Const, Lsl, Lsr, Or;
    Bits.Shl1(acc);
    Bits.Shl1(p);
    Bits.Shr31(p);
    OrLowBit(acc, p / 0x8000_0000);
  }

  /** Shifting left makes room for the bit that is or-ed in. */
  lemma OrLowBit(acc: nat, b: nat)
    requires b < 2
    ensures Bits.Or(Wrap(2 * acc, 4), b) == Wrap(2 * acc + b, 4)
  {
    var half := acc % 0x8000_0000;
    assert Wrap(2 * acc, 4) == 2 * half && Wrap(2 * acc + b, 4) == 2 * half + b;
    hide Wrap, Bits.Or;
    Bits.OrIsSum(1, half, b);
    Bits.Shl1(half);
  }

  /** Two register writes whose first carries the flags, against the machine's pair of writes. */
  lemma PairOk(k: Known, first: Expr, second: Expr, a: nat, p: nat, st: State, ms: M.Machine, o: Oracle)
    requires Rel(k, st, ms)
    requires SizeOf(first) == 4 && SizeOf(second) == 4 && Eval(first, st) == a
    requires var st1 := Exec(SetReg(4, ACC, WithFlags(first, NZC)), st, o); Eval(second, st1) == p
    requires forall s: State :: FlagsAfter(second, s, o) == s.flags
    ensures var out := Exec(SetReg(4, P, second), Exec(SetReg(4, ACC, WithFlags(first, NZC)), st, o), o);
      Rel(Known(Unknown, true, true), out,
          M.PutReg(M.PutReg(ms, ACC, a), P, p).(status := M.Judge(ms.status, a, 4)))
  {
    hide Eval, Modulus, SizeOf, Wrap, WriteReg, SameRegs, SameMem, FlagsAfter, WithFlags, CarryOf;
    FlaggedNZC(first, st, o);
    WriteSame(st.regs, ms, ACC, a);
    WriteSame(WriteReg(st.regs, ACC, a), M.PutReg(ms, ACC, a), P, p);
    RegsOnly(WriteReg(WriteReg(st.regs, ACC, a), P, p), M.PutReg(M.PutReg(ms, ACC, a), P, p), M.Judge(ms.status, a, 4));
  }

  /** Once the difference is in the temporary, the branch taken is the machine's. */
  lemma SubculBranch(k: Known, d: nat, st: State, ms: M.Machine, o: Oracle)
    requires Rel(k, st, ms) && d < Modulus(4)
    requires var total := 2 * ReadReg(ms.regs, ACC) + ReadReg(ms.regs, P) / 0x8000_0000 - d;
      0 in st.temps && st.temps[0] == Wrap(total, 8)
    ensures var out := ExecBlock(Choose(SubculTest(), SubculYes(), SubculNo(), End), st, o);
      out.Falls? && Rel(Known(Unknown, true, true), out.st, M.Subcul(ms, d))
  {
    hide Eval, Modulus, SizeOf, Wrap, ReadReg, WriteReg, SameRegs, SameMem, SameFlags, Rel, FlagsAfter, Exec, Two,
      SubculTest, SubculQuotient, SubculShiftP, Low, Temp, Or, WithFlags, M.Judge, Lsl, Lsr, Reg, Const;
    AccSame(k, st, ms);
    var acc, p := ReadReg(ms.regs, ACC), ReadReg(ms.regs, P);
    var total := 2 * acc + p / 0x8000_0000 - d;
    SubculTestValue(total, st);
    if total >= 0 {
      SubculYesPair(k, total, p, st, ms, o);
      ExecTwo(SetReg(4, ACC, SubculTaken()), SetReg(4, P, SubculQuotient()), st, o);
    } else {
      SubculNoPair(k, acc, p, st, ms, o);
      ExecTwo(SetReg(4, ACC, SubculShift()), SetReg(4, P, SubculShiftP()), st, o);
    }
  }

  lemma SubculYesPair(k: Known, total: nat, p: nat, st: State, ms: M.Machine, o: Oracle)
    requires Rel(k, st, ms) && 0 in st.temps && st.temps[0] == Wrap(total, 8) && total < 0x2_0000_0000
    requires p == ReadReg(ms.regs, P)
    ensures var out := Exec(SetReg(4, P, SubculQuotient()), Exec(SetReg(4, ACC, SubculTaken()), st, o), o);
      var a := Wrap(total, 4);
      Rel(Known(Unknown, true, true), out,
          M.PutReg(M.PutReg(ms, ACC, a), P, Wrap(2 * p + 1, 4)).(status := M.Judge(ms.status, a, 4)))
  {
    hide Eval, Modulus, SizeOf, Wrap, ReadReg, WriteReg, SameRegs, SameMem, SameFlags, Rel, FlagsAfter, SubculQuotient,
      Low, Temp, WithFlags, M.Judge;
    AccSame(k, st, ms);
    SubculYesValue(total, p, st);
    var first := Low(4, Temp(8, 0));
    var st1 := Exec(SetReg(4, ACC, WithFlags(first, NZC)), st, o);
    WriteOther(st.regs, ACC, P, Wrap(Eval(WithFlags(first, NZC), st), 4));
    SubculYesValue(total, p, st1);
    QuotientFlags(o);
    PairOk(k, first, SubculQuotient(), Wrap(total, 4), Wrap(2 * p + 1, 4), st, ms, o);
  }

  lemma QuotientFlags(o: Oracle)
    ensures forall s: State :: FlagsAfter(SubculQuotient(), s, o) == s.flags
    ensures forall s: State :: FlagsAfter(SubculShiftP(), s, o) == s.flags
    ensures SizeOf(SubculQuotient()) == 4 && SizeOf(SubculShiftP()) == 4
  {
    hide Eval, WriteFlags;
  }

  lemma SubculNoPair(k: Known, acc: nat, p: nat, st: State, ms: M.Machine, o: Oracle)
    requires Rel(k, st, ms) && acc == ReadReg(ms.regs, ACC) && p == ReadReg(ms.regs, P)
    ensures var out := Exec(SetReg(4, P, SubculShiftP()), Exec(SetReg(4, ACC, SubculShift()), st, o), o);
      var a := Wrap(2 * acc + p / 0x8000_0000, 4);
      Rel(Known(Unknown, true, true), out,
          M.PutReg(M.PutReg(ms, ACC, a), P, Wrap(2 * p, 4)).(status := M.Judge(ms.status, a, 4)))
  {
    hide Eval, Modulus, SizeOf, Wrap, ReadReg, WriteReg, SameRegs, SameMem, SameFlags, Rel, FlagsAfter, SubculShiftP,
      Or, WithFlags, M.Judge, Lsl, Lsr, Reg, Const;
    AccSame(k, st, ms);
    SubculNoValue(acc, p, st);
    var first := Or(4, Lsl(4, Reg(4, ACC), Const(4, 1)), Lsr(4, Reg(4, P), Const(4, 31)));
    var st1 := Exec(SetReg(4, ACC, WithFlags(first, NZC)), st, o);
    WriteOther(st.regs, ACC, P, Wrap(Eval(WithFlags(first, NZC), st), 4));
    ShiftPValue(p, st1);
    QuotientFlags(o);
    PairOk(k, first, SubculShiftP(), Wrap(2 * acc + p / 0x8000_0000, 4), Wrap(2 * p, 4), st, ms, o);
  }

  lemma ShiftPValue(p: nat, st: State)
    requires ReadReg(st.regs, P) == p < Modulus(4)
    ensures Eval(SubculShiftP(), st) == Wrap(2 * p, 4)
  {
    hide Eval, SizeOf, Modulus, Wrap, ReadReg, Bits.Shl, Reg, Const, Lsl;
    Bits.Shl1(p);
  }

  lemma SubculOk(k: Known, src: Expr, d: nat, st: State, ms: M.Machine, o: Oracle)
    requires Rel(k, st, ms) && SizeOf(src) == 4 && Eval(src, st) == d
    ensures var out := ExecBlock(SubculBlock(src), st, o);
      out.Falls? && Rel(Known(Unknown, true, true), out.st, M.Subcul(ms, d))
  {
    hide Eval, Modulus, SizeOf, Wrap, ReadReg, SameRegs, SameMem, SameFlags, FlagsAfter, SubculTemp, SubculTest,
      SubculYes, SubculNo, M.Subcul;
    AccSame(k, st, ms);
    var acc, p := ReadReg(ms.regs, ACC), ReadReg(ms.regs, P);
    SubculTempValue(src, d, acc, p, st, o);
    SubculTempFlags(src, st, o);
    SubculBranch(k, d, WithTemp(st, Wrap(2 * acc + p / 0x8000_0000 - d, 8)), ms, o);
  }

  // ---- SUBCU ----

  lemma SubcuTempValue(src: Expr, d: nat, acc: nat, st: State)
    requires SizeOf(src) == 2 && Eval(src, st) == d < Modulus(2)
    requires ReadReg(st.regs, ACC) == acc < Modulus(4)
    ensures Eval(SubcuTemp(src), st) == Wrap(2 * acc - 0x1_0000 * d, 8)
  {
    hide Eval, Modulus, SizeOf, Wrap, ReadReg, Bits.Shl, Reg, Zx, Lsl, Sub, Const;
    Bits.Shl1(acc);
    Bits.Shl16(d);
  }

  lemma SubcuTempFlags(src: Expr, st: State, o: Oracle)
    ensures FlagsAfter(SubcuTemp(src), st, o) == st.flags
  {}

  lemma SubcuTestValue(total: int, st: State)
    requires -0x1_0000_0000 < total < 0x2_0000_0000
    requires 0 in st.temps && st.temps[0] == Wrap(total, 8)
    ensures (Eval(SubcuTest(), st) != 0) == (total > 0)
  {
    hide Eval, SizeOf, Temp, Const, Cmp;
  }

  lemma SubcuTakenValue(total: nat, st: State)
    requires 0 in st.temps && st.temps[0] == total < 0x2_0000_0000
    ensures Eval(Add(4, Low(4, Temp(8, 0)), Const(4, 1)), st) == Wrap(total + 1, 4)
  {
    hide Eval, SizeOf, Modulus, Wrap, Temp, Low, Const, Add;
    WrapSum(total, 1);
  }

  lemma SubcuShiftValue(acc: nat, st: State)
    requires ReadReg(st.regs, ACC) == acc < Modulus(4)
    ensures Eval(Lsl(4, Reg(4, ACC), Const(4, 1)), st) == Wrap(2 * acc, 4)
  {
    hide Eval, SizeOf, Modulus, Wrap, ReadReg, Bits.Shl, Reg, Const, Lsl;
    Bits.Shl1(acc);
  }

  /** One flagged write of ACC, against the machine's. */
  lemma AccOk(k: Known, value: Expr, a: nat, st: State, ms: M.Machine, o: Oracle)
    requires Rel(k, st, ms) && SizeOf(value) == 4 && Eval(value, st) == a
    ensures Rel(Known(Unknown, true, true), Exec(SetReg(4, ACC, WithFlags(value, NZC)), st, o),
                M.PutReg(ms, ACC, a).(status := M.Judge(ms.status, a, 4)))
  {
    hide Eval, Modulus, SizeOf, Wrap, WriteReg, SameRegs, SameMem, FlagsAfter, WithFlags, CarryOf;
    FlaggedNZC(value, st, o);
    WriteSame(st.regs, ms, ACC, a);
    RegsOnly(WriteReg(st.regs, ACC, a), M.PutReg(ms, ACC, a), M.Judge(ms.status, a, 4));
  }

  lemma SubcuBranch(k: Known, d: nat, st: State, ms: M.Machine, o: Oracle)
    requires Rel(k, st, ms) && d < Modulus(2)
    requires var total := 2 * ReadReg(ms.regs, ACC) - 0x1_0000 * d;
      0 in st.temps && st.temps[0] == Wrap(total, 8)
    ensures var out := ExecBlock(Choose(SubcuTest(), SubcuYes(), SubcuNo(), End), st, o);
      out.Falls? && Rel(Known(Unknown, true, true), out.st, M.Subcu(ms, d))
  {
    hide Eval, Modulus, SizeOf, Wrap, ReadReg, WriteReg, SameRegs, SameMem, SameFlags, Rel, FlagsAfter, Exec, SubcuTest,
      Low, Temp, WithFlags, M.Judge, Lsl, Reg, Const, Add;
    AccSame(k, st, ms);
    var acc := ReadReg(ms.regs, ACC);
    var total := 2 * acc - 0x1_0000 * d;
    SubcuTestValue(total, st);
    if total > 0 {
      var value := Add(4, Low(4, Temp(8, 0)), Const(4, 1));
      SubcuTakenValue(total, st);
      AccOk(k, value, Wrap(total + 1, 4), st, ms, o);
      ExecOne(SetReg(4, ACC, SubcuTaken()), st, o);
    } else {
      SubcuShiftValue(acc, st);
      AccOk(k, Lsl(4, Reg(4, ACC), Const(4, 1)), Wrap(2 * acc, 4), st, ms, o);
      ExecOne(SetReg(4, ACC, SubcuShift()), st, o);
    }
  }

  lemma SubcuOk(k: Known, src: Expr, d: nat, st: State, ms: M.Machine, o: Oracle)
    requires Rel(k, st, ms) && SizeOf(src) == 2 && Eval(src, st) == d
    ensures var out := ExecBlock(SubcuBlock(src), st, o);
      out.Falls? && Rel(Known(Unknown, true, true), out.st, M.Subcu(ms, d))
  {
    hide Eval, Modulus, SizeOf, Wrap, ReadReg, SameRegs, SameMem, SameFlags, FlagsAfter, SubcuTemp, SubcuTest,
      SubcuTaken, SubcuShift, M.Subcu;
    AccSame(k, st, ms);
    var acc := ReadReg(ms.regs, ACC);
    SubcuTempValue(src, d, acc, st);
    SubcuTempFlags(src, st, o);
    SubcuBranch(k, d, WithTemp(st, Wrap(2 * acc - 0x1_0000 * d, 8)), ms, o);
  }

  // ---- Every arithmetic row ----

  /** Operands in reach, SP inside its 16 bits, and a carry in the convention the row reads. */
  predicate ArithSafe(id: ArithId, op: Operand, k: Known, ms: M.Machine) {
    && OpReaches(op, ms)
    && CarryAgrees(id, k)
    && (id.ADDB_SP_CONST7? ==> op.Immediate? && ms.sp + op.value < 0x1_0000)
    && (id.SUBB_SP_CONST7? ==> op.Immediate? && op.value <= ms.sp)
  }

  function AfterArith(id: ArithId, k: Known): Known {
    if id.SUBCU_ACC_LOC16? || id.SUBCUL_ACC_LOC32? then Known(Unknown, true, true)
    else if id.ADDB_SP_CONST7? || id.SUBB_SP_CONST7? || id.ADDB_XARN_CONST7? || id.SUBB_XARN_CONST7? then k
    else Known(if M.IsSum(id) then Direct else Inverted, true, true)
  }

  lemma SourceSame(id: ArithId, op: Operand, k: Known, st: State, ms: M.Machine)
    requires IsLoc(op, ArithWidth(id)) && ArithWidth(id) != 0 && OpReaches(op, ms) && Rel(k, st, ms)
    ensures SizeOf(Source(id, op)) == 4 && Eval(Source(id, op), st) == M.SourceValue(id, op, ms)
  {
    hide Eval, SizeOf, Modulus, Wrap, SameRegs, SameMem, Rel, OpExpr, M.Value, Signed, Sx, Zx, Plain, Reaches;
    OperandSame(op, ArithWidth(id), k, st, ms);
    WidthOfLoc(op, ArithWidth(id), 4, ms);
  }

  lemma WidthOfLoc(op: Operand, a: nat, b: nat, ms: M.Machine)
    requires op.Loc16? || op.Loc32?
    ensures M.Value(op, a, ms) == M.Value(op, b, ms)
  {
    hide M.ReadLoc;
  }

  lemma ImmediateSource(value: nat, st: State)
    requires value < 0x100
    ensures var e := Zx(4, Const(1, value)); SizeOf(e) == 4 && Eval(e, st) == value
  {
    hide Eval, SizeOf, Zx, Const;
  }

  lemma IntoRegisterBlockOk(id: ArithId, op: Operand, k: Known, st: State, ms: M.Machine, o: Oracle)
    requires IsLoc(op, ArithWidth(id)) && ArithWidth(id) != 0 && ArithSafe(id, op, k, ms) && Rel(k, st, ms)
    ensures var out := ExecBlock(IntoRegisterBlock(id, op), st, o);
      out.Falls? && Rel(Known(if M.IsSum(id) then Direct else Inverted, true, true), out.st,
                        M.ArithRegister(id, M.SourceValue(id, op, ms), ms))
  {
    hide Eval, SizeOf, Modulus, Rel, OpExpr, OpBlock, WriteOpBlock, WriteInsn, M.Value, M.SourceValue, M.ArithRegister,
      IntoRegister, Source, Exec, ExecBlock, M.IsSum, IsAdd, Plain, Reaches;
    PlainOp(op, ArithWidth(id), Const(4, 0));
    SourceSame(id, op, k, st, ms);
    IsSumIsAdd(id);
    IntoRegisterOk(id, k, Source(id, op), M.SourceValue(id, op, ms), st, ms, o);
    var insn := IntoRegister(id, Source(id, op));
    AppendToEnd(Do(insn, End));
    ExecOne(insn, st, o);
  }

  lemma ImmediateAccOk(id: ArithId, op: Operand, k: Known, st: State, ms: M.Machine, o: Oracle)
    requires id.ADDB_ACC_CONST8? || id.SUBB_ACC_CONST8?
    requires IsImmediate(op, 0, 0xFF) && Rel(k, st, ms)
    ensures var out := ExecBlock(ArithBlock(id, [op]), st, o);
      out.Falls? && Rel(AfterArith(id, k), out.st, M.ArithEffect(id, op, ms))
  {
    hide Eval, SizeOf, Wrap, ReadReg, Rel, Accumulate, Exec, M.AluInto, Zx, Const, ExecBlock;
    var v := op.value;
    ImmediateSource(v, st);
    AccumulateOk(k, id.ADDB_ACC_CONST8?, ACC, Zx(4, Const(1, v)), v, st, ms, o);
    ExecOne(Accumulate(id.ADDB_ACC_CONST8?, ACC, Zx(4, Const(1, v))), st, o);
  }

  lemma ImmediateSpOk(id: ArithId, op: Operand, k: Known, st: State, ms: M.Machine, o: Oracle)
    requires id.ADDB_SP_CONST7? || id.SUBB_SP_CONST7?
    requires IsImmediate(op, 0, 0x7F) && ArithSafe(id, op, k, ms) && Rel(k, st, ms)
    ensures var out := ExecBlock(ArithBlock(id, [op]), st, o);
      out.Falls? && Rel(k, out.st, M.ArithEffect(id, op, ms))
  {
    hide Eval, SizeOf, Wrap, Rel, MovePointer, Exec, ExecBlock;
    RelSp(k, st, ms);
    SpPointerOk(id.ADDB_SP_CONST7?, op.value, k, st, ms, o);
    ExecOne(MovePointer(id.ADDB_SP_CONST7?, SP, op.value * 2), st, o);
  }

  lemma RelSp(k: Known, st: State, ms: M.Machine)
    requires Rel(k, st, ms)
    ensures ms.sp < 0x1_0000
  {}

  lemma ImmediateXarOk(id: ArithId, op: Operand, k: Known, st: State, ms: M.Machine, o: Oracle)
    requires id.ADDB_XARN_CONST7? || id.SUBB_XARN_CONST7?
    requires IsImmediate(op, 0, 0x7F) && Rel(k, st, ms)
    ensures var out := ExecBlock(ArithBlock(id, [op]), st, o);
      out.Falls? && Rel(k, out.st, M.ArithEffect(id, op, ms))
  {
    hide Eval, SizeOf, Wrap, ReadReg, Rel, MovePointer, Exec, ExecBlock, M.PutReg;
    XarPointerOk(id.ADDB_XARN_CONST7?, id.xar, op.value, k, st, ms, o);
    ExecOne(MovePointer(id.ADDB_XARN_CONST7?, XAR(id.xar), op.value), st, o);
  }

  lemma ImmediateOk(id: ArithId, op: Operand, k: Known, st: State, ms: M.Machine, o: Oracle)
    requires ArithWidth(id) == 0 && ArithShape(id, [op]) && ArithSafe(id, op, k, ms) && Rel(k, st, ms)
    ensures var out := ExecBlock(ArithBlock(id, [op]), st, o);
      out.Falls? && Rel(AfterArith(id, k), out.st, M.ArithEffect(id, op, ms))
  {
    hide Rel, ArithBlock, M.ArithEffect, ExecBlock;
    if id.ADDB_ACC_CONST8? || id.SUBB_ACC_CONST8? {
      ImmediateAccOk(id, op, k, st, ms, o);
    } else if id.ADDB_SP_CONST7? || id.SUBB_SP_CONST7? {
      ImmediateSpOk(id, op, k, st, ms, o);
    } else {
      ImmediateXarOk(id, op, k, st, ms, o);
    }
  }

  lemma ArithOk(id: ArithId, ops: seq<Operand>, k: Known, st: State, ms: M.Machine, o: Oracle)
    requires ArithShape(id, ops) && ArithSafe(id, ops[0], k, ms) && Rel(k, st, ms)
    ensures var out := ExecBlock(ArithBlock(id, ops), st, o);
      out.Falls? && Rel(AfterArith(id, k), out.st, M.ArithEffect(id, ops[0], ms))
  {
    hide Eval, SizeOf, Rel, Accumulate, MovePointer, M.AluInto, Zx, Const, OpBlock, OpExpr, Append, StoredBlock,
      IntoRegisterBlock, ExecBlock, M.ArithStored, M.Subcu, M.Subcul, SubcuBlock, SubculBlock, M.Value, M.SourceValue,
      M.ArithRegister, Plain, Reaches, OpReaches, CarryAgrees, M.IsSum;
    var op := ops[0];
    assert ops == [op];
    if ArithWidth(id) == 0 {
      ImmediateOk(id, op, k, st, ms, o);
    } else if id.SUBCU_ACC_LOC16? || id.SUBCUL_ACC_LOC32? {
      SubcOk(id, op, k, st, ms, o);
    } else if StoresResult(id) {
      StoredOk(id, op, k, st, ms, o);
    } else {
      IntoRegisterBlockOk(id, op, k, st, ms, o);
    }
  }

  lemma SubcOk(id: ArithId, op: Operand, k: Known, st: State, ms: M.Machine, o: Oracle)
    requires id.SUBCU_ACC_LOC16? || id.SUBCUL_ACC_LOC32?
    requires IsLoc(op, ArithWidth(id)) && OpReaches(op, ms) && Rel(k, st, ms)
    ensures var out := ExecBlock(ArithBlock(id, [op]), st, o);
      out.Falls? && Rel(Known(Unknown, true, true), out.st, M.ArithEffect(id, op, ms))
  {
    hide Eval, SizeOf, Modulus, Rel, OpBlock, OpExpr, WriteOpBlock, WriteInsn, ExecBlock, M.Subcu, M.Subcul, SubcuBlock,
      SubculBlock, M.Value, StoredBlock, IntoRegisterBlock, Plain, Reaches;
    PlainOp(op, ArithWidth(id), Const(4, 0));
    OperandSame(op, ArithWidth(id), k, st, ms);
    if id.SUBCU_ACC_LOC16? {
      AppendToEnd(SubcuBlock(OpExpr(op, 2)));
      SubcuOk(k, OpExpr(op, 2), M.Value(op, 2, ms), st, ms, o);
    } else {
      AppendToEnd(SubculBlock(OpExpr(op, 4)));
      SubculOk(k, OpExpr(op, 4), M.Value(op, 4, ms), st, ms, o);
    }
  }
}
