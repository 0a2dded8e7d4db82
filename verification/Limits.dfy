/** Where the lifted code and the machine part ways, and exactly when they do not. */
module Limits {
  import opened Wrappers
  import opened Registers
  import opened Operands
  import opened Instructions
  import opened Il
  import opened IlCode
  import opened LiftOperands
  import opened LiftArith
  import opened LiftMov
  import opened Lifter
  import opened Relation
  import opened SimArith
  import opened SimMisc
  import opened SimMov
  import opened Simulation
  import opened StraightLine
  import opened Scratch
  import M = Machine
  import Bits

  // ---- The carry chain ----

  /** The carry an instruction that consumes it needs in `flag:C`: the hardware bit for an
      addition, its complement, the borrow, for a subtraction. */
  predicate CarryServes(id: ArithId, f: Flags, s: M.Status) {
    f.c == if M.IsSum(id) then s.c else !s.c
  }

  /** The convention of `flag:C` that the operation reads. */
  predicate OwnConvention(id: ArithId, k: Known) {
    if M.IsSum(id) then k.c.Direct? else k.c.Inverted?
  }

  /** One more or one less is seen even modulo 2^32. */
  lemma WrapTells(a: int, x: nat, y: nat)
    requires x < 2 && y < 2
    ensures Wrap(a + x, 4) == Wrap(a + y, 4) <==> x == y
    ensures Wrap(a - x, 4) == Wrap(a - y, 4) <==> x == y
  {}

  lemma AccAfter(e: Expr, st: State, o: Oracle)
    requires SizeOf(e) == 4
    ensures ReadReg(Exec(SetReg(4, ACC, WithFlags(e, All)), st, o).regs, ACC) == Eval(e, st)
  {
    hide Eval, SizeOf, Wrap, WithFlags, FlagsAfter;
    assert Eval(WithFlags(e, All), st) == Eval(e, st);
    FullWrite(st.regs, ACC, Eval(e, st), ACC);
  }

  lemma HardwareAcc(ms: M.Machine, total: int, subtract: bool)
    ensures ReadReg(M.AluInto(ms, ACC, total, subtract).regs, ACC) == Wrap(total, 4)
  {
    hide M.AluStatus, Wrap;
    FullWrite(ms.regs, ACC, Wrap(total, 4), ACC);
  }

  lemma SumAfter(src: Expr, s: nat, acc: nat, st: State, o: Oracle)
    requires SizeOf(src) == 4 && Eval(src, st) == s && ReadReg(st.regs, ACC) == acc < Modulus(4)
    ensures ReadReg(Exec(LiftArith.Carry(src), st, o).regs, ACC) == Wrap(acc + s + Il.Bool(st.flags.c), 4)
  {
    hide Eval, SizeOf, Modulus, Wrap, ReadReg, Exec, WithFlags, Reg, Adc, FlagOf;
    AccAfter(Adc(4, Reg(4, ACC), src, FlagOf(C)), st, o);
  }

  lemma DifferenceAfter(src: Expr, s: nat, acc: nat, st: State, o: Oracle)
    requires SizeOf(src) == 4 && Eval(src, st) == s && ReadReg(st.regs, ACC) == acc < Modulus(4)
    ensures ReadReg(Exec(Borrow(src), st, o).regs, ACC) == Wrap((acc as int) - s - Il.Bool(st.flags.c), 4)
  {
    hide Eval, SizeOf, Modulus, Wrap, ReadReg, Exec, WithFlags, Reg, Sbb, FlagOf;
    AccAfter(Sbb(4, Reg(4, ACC), src, FlagOf(C)), st, o);
  }

  lemma CarryArm(id: ArithId, src: Expr, s: nat, ms: M.Machine)
    requires M.UsesCarry(id)
    ensures IntoRegister(id, src) == if M.IsSum(id) then LiftArith.Carry(src) else Borrow(src)
    ensures var acc, c := ReadReg(ms.regs, ACC), ms.status.c;
      && M.ArithRegister(id, s, ms) == M.AluInto(ms, ACC, M.CarryTotal(id, acc, s, c), !M.IsSum(id))
      && M.CarryTotal(id, acc, s, c) == if M.IsSum(id) then acc + s + M.Bool(c) else acc - s - M.Bool(!c)
  {
    hide ReadReg, LiftArith.Carry, Borrow, Accumulate, M.AluInto, M.Bool;
  }

  /** With one more or one less carried in, the accumulators differ. */
  lemma CarryDecides(id: ArithId, src: Expr, s: nat, st: State, ms: M.Machine, o: Oracle)
    requires M.UsesCarry(id) && Rel(NOTHING, st, ms) && SizeOf(src) == 4 && Eval(src, st) == s
    ensures ReadReg(Exec(IntoRegister(id, src), st, o).regs, ACC) == ReadReg(M.ArithRegister(id, s, ms).regs, ACC)
            <==> CarryServes(id, st.flags, ms.status)
  {
    hide Eval, SizeOf, Modulus, Wrap, ReadReg, Rel, Exec, LiftArith.Carry, Borrow, M.AluInto, M.ArithRegister,
      IntoRegister, M.CarryTotal, M.IsSum, M.UsesCarry;
    CarryArm(id, src, s, ms);
    AccSame(NOTHING, st, ms);
    var acc: int := ReadReg(ms.regs, ACC);
    HardwareAcc(ms, M.CarryTotal(id, acc, s, ms.status.c), !M.IsSum(id));
    if M.IsSum(id) {
      SumAfter(src, s, acc, st, o);
      WrapTells(acc + s, Il.Bool(st.flags.c), M.Bool(ms.status.c));
    } else {
      DifferenceAfter(src, s, acc, st, o);
      WrapTells(acc - s, Il.Bool(st.flags.c), M.Bool(!ms.status.c));
    }
  }

  lemma CarryWidth(id: ArithId, op: Operand)
    requires M.UsesCarry(id) && ArithShape(id, [op])
    ensures ArithWidth(id) != 0 && IsLoc(op, ArithWidth(id)) && (ArithWidth(id) == 2 || ArithWidth(id) == 4)
  {
    hide Plain;
  }

  lemma CarryArmBlock(id: ArithId, op: Operand)
    requires M.UsesCarry(id)
    ensures ArithBlock(id, [op]) == IntoRegisterBlock(id, op)
  {
    hide OpBlock, OpExpr, IntoRegisterBlock, SubcuBlock, SubculBlock, StoredBlock, Accumulate, MovePointer, Append;
  }

  lemma CarryGate(id: ArithId, op: Operand)
    requires ArithShape(id, [op])
    ensures var row := Row(Arith(id), [op]);
      WellFormed(row) && Plainly(row) && EffectBlock(row) == ArithBlock(id, [op])
  {
    hide ArithBlock, ArithShape;
  }

  lemma CarryEffect(id: ArithId, op: Operand, ms: M.Machine)
    requires M.UsesCarry(id)
    ensures M.Effect(Row(Arith(id), [op]), ms) == M.ArithRegister(id, M.SourceValue(id, op, ms), ms)
  {
    hide M.SourceValue, M.ArithRegister;
  }

  /** The machine's step is the ungated effect. */
  lemma CarryStepped(id: ArithId, op: Operand, ms: M.Machine)
    requires M.UsesCarry(id) && ArithShape(id, [op])
    ensures Stepped(Row(Arith(id), [op]), ms) == M.ArithRegister(id, M.SourceValue(id, op, ms), ms)
  {
    hide M.SourceValue, M.ArithRegister, M.Effect, M.Holds, M.ConditionOf, FindCondition, WellFormed, ArithShape,
      ArithBlock, EffectBlock;
    CarryGate(id, op);
    Unconditional(Row(Arith(id), [op]));
    Unc(ms.status);
    CarryEffect(id, op, ms);
  }

  /** The lifted row is one register write. */
  lemma CarryBlock(id: ArithId, op: Operand)
    requires M.UsesCarry(id) && ArithShape(id, [op])
    ensures Lifted(Row(Arith(id), [op])) == Do(IntoRegister(id, Source(id, op)), End)
  {
    hide OpBlock, OpExpr, WriteOpBlock, Source, IntoRegister, Plain, WellFormed, ArithShape, ArithBlock, EffectBlock,
      FindCondition, M.ConditionOf;
    var row := Row(Arith(id), [op]);
    CarryWidth(id, op);
    CarryArmBlock(id, op);
    CarryGate(id, op);
    PlainOp(op, ArithWidth(id), Const(4, 0));
    AppendToEnd(Do(IntoRegister(id, Source(id, op)), End));
    Unconditional(row);
  }

  lemma CarryRow(id: ArithId, op: Operand, k: Known, st: State, ms: M.Machine, o: Oracle)
    requires M.UsesCarry(id) && ArithShape(id, [op]) && OpReaches(op, ms) && Rel(k, st, ms)
    ensures ExecBlock(Lifted(Row(Arith(id), [op])), st, o) == Falls(Exec(IntoRegister(id, Source(id, op)), st, o))
    ensures SizeOf(Source(id, op)) == 4 && Eval(Source(id, op), st) == M.SourceValue(id, op, ms)
    ensures Stepped(Row(Arith(id), [op]), ms) == M.ArithRegister(id, M.SourceValue(id, op, ms), ms)
  {
    hide Eval, SizeOf, Rel, Exec, ExecBlock, Source, IntoRegister, M.SourceValue, M.ArithRegister, Plain, OpReaches,
      ArithShape, Lifted, Stepped;
    CarryWidth(id, op);
    SourceSame(id, op, k, st, ms);
    CarryBlock(id, op);
    ExecOne(IntoRegister(id, Source(id, op)), st, o);
    CarryStepped(id, op, ms);
  }

  lemma ConventionDecides(id: ArithId, k: Known, f: Flags, s: M.Status)
    requires SameFlags(k, f, s) && !k.c.Unknown?
    ensures CarryServes(id, f, s) <==> OwnConvention(id, k)
  {
    hide M.IsSum;
  }

  /** A carry-consuming instruction after any safe line. Whether the line leaves `flag:C` in the
      hardware's sense or inverted is read off the line alone; when that is the sense the
      instruction consumes, the emitted code leaves the machine's ACC from every state, and when
      it is the opposite one, from no state at all. */
  lemma {:induction false} CarryExact(line: seq<DecodedInstruction>, id: ArithId, op: Operand, codes: seq<Code>,
                                      k: Known, st: State, ms: M.Machine, o: Oracle)
    requires M.UsesCarry(id) && ArithShape(id, [op])
    requires SafeLine(line, k, ms) && Rel(k, st, ms) && OpReaches(op, Steps(line, ms))
    requires !AfterLine(line, k).c.Unknown? && ModesServe(Row(Arith(id), [op]), Steps(line, ms).status.modes)
    requires LiftedInto(line + [Row(Arith(id), [op])], codes)
    ensures codes != [] && RunAll(codes, st, o).Falls?
    ensures ReadReg(RunAll(codes, st, o).st.regs, ACC) == ReadReg(Steps(line + [Row(Arith(id), [op])], ms).regs, ACC)
            <==> OwnConvention(id, AfterLine(line, k))
  {
    hide *;
    var row := Row(Arith(id), [op]);
    var k1 := AfterLine(line, k);
    LineSimulates(line, k, st, ms, o);
    var st1, ms1 := IlLine(line, st, o).st, Steps(line, ms);
    RunIsLine(line + [row], codes, 0, st, o);
    IlLineAppend(line, [row], st, o);
    StepsAppend(line, [row], ms);
    OneStep(row, st1, ms1, o);
    CarryRow(id, op, k1, st1, ms1, o);
    Forget(k1, st1, ms1);
    CarryDecides(id, Source(id, op), M.SourceValue(id, op, ms1), st1, ms1, o);
    RelFlags(k1, st1, ms1);
    ConventionDecides(id, k1, st1.flags, ms1.status);
    WholeLine(line + [row], codes, st, o);
  }

  lemma WholeLine(prog: seq<DecodedInstruction>, codes: seq<Code>, st: State, o: Oracle)
    requires LiftedInto(prog, codes)
    ensures codes != [] && RunAll(codes, st, o) == IlLine(prog, st, o)
  {
    hide LiftedInto, IlLine, Run;
    Started(prog, codes);
    RunIsLine(prog, codes, 0, st, o);
    assert prog[0..] == prog;
  }

  lemma OneStep(row: DecodedInstruction, st: State, ms: M.Machine, o: Oracle)
    ensures IlLine([row], st, o) == ExecBlock(Lifted(row), st, o)
    ensures Steps([row], ms) == Stepped(row, ms)
  {
    hide Lifted, ExecBlock, Stepped;
    assert [row][1..] == [];
  }

  lemma Forget(k: Known, st: State, ms: M.Machine)
    requires Rel(k, st, ms)
    ensures Rel(NOTHING, st, ms)
  {
    hide Rel;
    Weaken(NOTHING, k, st, ms);
  }

  // ---- At one state ----

  /** ACC is 1 and every other register and every byte of memory is 0. */
  function OneInAcc(): State {
    State(map[ACC := 1], map[], map[], Flags(false, false, false, false, false, false))
  }

  const XAR0: Operand := Loc32(RegDirect(XAR(0)))

  lemma OneInAccIs()
    ensures var st, ms := OneInAcc(), Abstract(OneInAcc());
      && ValidSp(st) && Rel(Known(Direct, true, true), st, ms)
      && M.Assumed(ms.status.modes) && ReadReg(ms.regs, ACC) == 1 && M.Value(XAR0, 4, ms) == 0
    ensures IsLoc(XAR0, 4) && forall ms :: OpReaches(XAR0, ms)
  {
    hide Rel, SameMem;
    AbstractRel(OneInAcc());
  }

  lemma SubtractFirst(k: Known, ms: M.Machine)
    requires M.Assumed(ms.status.modes)
    ensures var row := Row(Arith(SUBL_ACC_LOC32), [XAR0]);
      SafeLine([row], k, ms) && AfterLine([row], k) == Known(Inverted, true, true)
        && M.Assumed(Steps([row], ms).status.modes)
  {
    hide M.Effect, Safe, Stepped;
    var row := Row(Arith(SUBL_ACC_LOC32), [XAR0]);
    assert [row][1..] == [];
    UngatedStep(row, k, ms);
    ModesKept(row, ms);
  }

  /** ADDCL after SUBL, with ACC = 1 and XAR0 = 0: the emitted code adds no carry where the
      machine, having borrowed nothing, adds one. */
  lemma {:induction false} AddAfterSubtractFails(codes: seq<Code>, o: Oracle)
    requires LiftedInto([Row(Arith(SUBL_ACC_LOC32), [XAR0])] + [Row(Arith(ADDCL_ACC_LOC32), [XAR0])], codes)
    ensures codes != [] && RunAll(codes, OneInAcc(), o).Falls?
    ensures var line := [Row(Arith(SUBL_ACC_LOC32), [XAR0])] + [Row(Arith(ADDCL_ACC_LOC32), [XAR0])];
      ReadReg(RunAll(codes, OneInAcc(), o).st.regs, ACC) != ReadReg(Steps(line, Abstract(OneInAcc())).regs, ACC)
  {
    hide Rel, RunAll, LiftedInto, Steps, SafeLine, AfterLine, Abstract, OneInAcc, ReadReg, M.Value, ValidSp, OpReaches,
      IsLoc;
    var line := [Row(Arith(SUBL_ACC_LOC32), [XAR0])];
    OneInAccIs();
    SubtractFirst(Known(Direct, true, true), Abstract(OneInAcc()));
    assert ModesServe(Row(Arith(ADDCL_ACC_LOC32), [XAR0]), Steps(line, Abstract(OneInAcc())).status.modes);
    CarryExact(line, ADDCL_ACC_LOC32, XAR0, codes, Known(Direct, true, true), OneInAcc(), Abstract(OneInAcc()), o);
  }

  // ---- MOVL loc32,ACC,COND ----

  /** The conditional MOVL has no lifting of its own and falls to the generic one, which takes
      the condition operand for the value: it is right exactly when it does nothing. */
  lemma ConditionalMovlExact(insn: DecodedInstruction, k: Known, st: State, ms: M.Machine, o: Oracle)
    requires WellFormed(insn) && insn.id == Mov(MOVL_LOC32_ACC_COND)
    requires CondKnown(M.ConditionOf(insn.operands), k) && Rel(k, st, ms)
    ensures Matches(ExecBlock(Lifted(insn), st, o), M.Step(insn, ms), k) <==>
            !M.Holds(M.ConditionOf(insn.operands), ms.status)
  {
    hide Rel, ExecBlock, FindCondition, M.ConditionOf, M.Holds, CondKnown, Gated, Plain, MovBlock, M.Effect;
    var code := M.ConditionOf(insn.operands);
    ConditionalCode(insn);
    GatedOk(insn, code, k, st, ms, o);
    ConditionalMovlIsRefused(insn.operands, st, o);
  }

  /** MOVL @XAR0,ACC,EQ with Z set, from related states. */
  lemma ConditionalMovlFails(o: Oracle)
    ensures var insn := Row(Mov(MOVL_LOC32_ACC_COND), [XAR0, Condition(0x1)]);
      var st := OneInAcc().(flags := OneInAcc().flags.(z := true));
      && WellFormed(insn) && Rel(Known(Direct, true, true), st, Abstract(st))
      && !Matches(ExecBlock(Lifted(insn), st, o), M.Step(insn, Abstract(st)), Known(Direct, true, true))
  {
    hide Rel, SameMem, Matches, Lifted, ExecBlock, M.Step;
    var insn := Row(Mov(MOVL_LOC32_ACC_COND), [XAR0, Condition(0x1)]);
    var st := OneInAcc().(flags := OneInAcc().flags.(z := true));
    AbstractRel(st);
    assert insn.operands[1..][0] == Condition(0x1);
    ConditionalMovlExact(insn, Known(Direct, true, true), st, Abstract(st), o);
  }

  // ---- *XARn++ ----

  /** Where a post-increment operand's value is loaded from once its block has run. */
  function PostIncAddress(n: Index, size: nat, st: State): nat {
    2 * ((ReadReg(st.regs, XAR(n)) + size / 2) % M.WORD_SPACE)
  }

  /** Reading `*XARn++` steps the pointer before the instruction that holds the load runs, so
      the load sees the cell after the one the operand names. */
  lemma PostIncReadsNextCell(n: Index, size: nat, st: State, o: Oracle)
    requires size == 2 || size == 4
    ensures var r := Resolved(IndirectPostInc, None, Some(n), 0);
      var out := ExecBlock(ReadBlock(r, size), st, o);
      && out.Falls?
      && Eval(ReadExpr(r, size), out.st) == LoadBytes(st.mem, PostIncAddress(n, size, st), size)
      && Eval(ReadExpr(r, size), st) == LoadBytes(st.mem, 2 * (ReadReg(st.regs, XAR(n)) % M.WORD_SPACE), size)
  {
    hide Eval, SizeOf, Modulus, Wrap, ReadReg, WriteReg, LoadBytes, Reg, Add, Const, Lsl, Load, Bits.Shl, FlagsAfter;
    var xar := XAR(n);
    var v := ReadReg(st.regs, xar);
    var insn := SetReg(4, xar, Add(4, Reg(4, xar), Const(4, size / 2)));
    ExecOne(insn, st, o);
    FullWidth(st.regs);
    var stepped := Wrap(v + size / 2, 4);
    assert Eval(Add(4, Reg(4, xar), Const(4, size / 2)), st) == stepped;
    XarWritten(st.regs, n, stepped);
    Bits.Shl1(v);
    Bits.Shl1(stepped);
    DoubleWord(v + size / 2);
    DoubleWord(v);
  }

  lemma PostIncBlock(r: ResolvedOperand)
    ensures var row := Row(Mov(MOVL_ACC_LOC32), [Loc32(r)]);
      Lifted(row) == Append(ReadBlock(r, 4), Do(SetRegFlags(4, ACC, ReadExpr(r, 4), NZ), End))
  {
    hide ReadBlock, ReadExpr, Append;
    var ops := [Loc32(r)];
    assert ops[1..] == [] && FindCondition(ops) == None;
  }

  /** So MOVL ACC,*XARn++ loads the long word after the one addressed, and the addressed one only
      when the two are the same. */
  lemma PostIncLoad(n: Index, st: State, o: Oracle)
    ensures var row := Row(Mov(MOVL_ACC_LOC32), [Loc32(Resolved(IndirectPostInc, None, Some(n), 0))]);
      var out := ExecBlock(Lifted(row), st, o);
      var addressed := LoadBytes(st.mem, 2 * (ReadReg(st.regs, XAR(n)) % M.WORD_SPACE), 4);
      && out.Falls?
      && ReadReg(out.st.regs, ACC) == LoadBytes(st.mem, PostIncAddress(n, 4, st), 4)
      && (ReadReg(out.st.regs, ACC) == addressed <==> LoadBytes(st.mem, PostIncAddress(n, 4, st), 4) == addressed)
  {
    hide Eval, ReadReg, LoadBytes, ReadExpr, ReadBlock, PostIncAddress, ExecBlock, WriteReg, WriteFlags, Lifted, Append;
    var r := Resolved(IndirectPostInc, None, Some(n), 0);
    var value := ReadExpr(r, 4);
    var load := SetRegFlags(4, ACC, value, NZ);
    PostIncBlock(r);
    PostIncReadsNextCell(n, 4, st, o);
    var mid := ExecBlock(ReadBlock(r, 4), st, o).st;
    ExecAppend(ReadBlock(r, 4), Do(load, End), st, o);
    ExecOne(load, mid, o);
    AccWritten(mid.regs, Eval(value, mid));
  }

  lemma AccWritten(regs: RegFile, v: nat)
    requires v < Modulus(4)
    ensures ReadReg(WriteReg(regs, ACC, Wrap(v, 4)), ACC) == v
  {
    hide Wrap;
    FullWrite(regs, ACC, v, ACC);
  }

  /** With XAR0 = 0 and a 1 at word address 2, ACC ends as 1 and not as the 0 at address 0. */
  lemma PostIncFails(o: Oracle)
    ensures var st := OneInAcc().(regs := map[], mem := map[4 := 1]);
      var row := Row(Mov(MOVL_ACC_LOC32), [Loc32(Resolved(IndirectPostInc, None, Some(0), 0))]);
      var out := ExecBlock(Lifted(row), st, o);
      && ReadReg(st.regs, XAR(0)) == 0 && LoadBytes(st.mem, 0, 4) == 0
      && out.Falls? && ReadReg(out.st.regs, ACC) == 1
  {
    hide ExecBlock, Lifted;
    var st := OneInAcc().(regs := map[], mem := map[4 := 1]);
    PostIncLoad(0, st, o);
    assert Byte(st.mem, 4) == 1 && Byte(st.mem, 5) == 0 && Half(st.mem, 6) == 0;
  }

  lemma XarWritten(regs: RegFile, n: Index, v: nat)
    requires v < Modulus(4)
    ensures ReadReg(WriteReg(regs, XAR(n), v), XAR(n)) == v
  {
    hide Wrap;
    FullWrite(regs, XAR(n), v, XAR(n));
  }
}
