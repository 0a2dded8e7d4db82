/** HI, HIS, LO and LOS after a compare and after an addition, for either reading of flag:C. */
module UnsignedBranch {
  import opened Wrappers
  import opened Registers
  import opened Operands
  import opened Instructions
  import opened Il
  import opened IlCode
  import opened Lifter
  import opened Relation
  import opened SimArith
  import opened SimMisc
  import opened Simulation
  import opened StraightLine
  import opened Scratch
  import opened WholeRun
  import opened Limits
  import M = Machine

  predicate IsUnsigned(code: nat) { 0x6 <= code <= 0x9 }

  /** HI and LOS, which the equality of the operands can settle. */
  predicate ReadsZ(code: nat) { code == 0x6 || code == 0x9 }

  lemma UnsignedIl(code: nat, st: State)
    requires IsUnsigned(code)
    ensures FlagConditionIl(code).Some? && FlagConditionIl(code).value.ECond?
    ensures (Eval(FlagConditionIl(code).value, st) != 0) == st.flags.Holds(FlagConditionIl(code).value.cond)
    ensures FlagConditionIl(code).value.cond ==
            if code == 0x6 then UGT else if code == 0x7 then UGE else if code == 0x8 then ULT else ULE
  {
    hide Wrap, Flags.Holds;
    var e := FlagConditionIl(code).value;
    assert Eval(e, st) == Wrap(Il.Bool(st.flags.Holds(e.cond)), 0);
    BoolWrap(st.flags.Holds(e.cond));
  }

  /** The IL decides as the machine exactly when the sense of the carry fits, or Z decides. */
  lemma UnsignedDecides(code: nat, k: Known, st: State, s: M.Status)
    requires IsUnsigned(code) && k.z && !k.c.Unknown? && SameFlags(k, st.flags, s)
    ensures FlagConditionIl(code).Some?
    ensures (Eval(FlagConditionIl(code).value, st) != 0) == M.Holds(code, s)
            <==> CarryFits(k) || (ReadsZ(code) && s.z)
  {
    hide Eval, FlagConditionIl;
    UnsignedIl(code, st);
  }

  /** B target,cond; the offset operand is not used once the target is resolved. */
  function BranchRow(code: nat, target: nat): DecodedInstruction {
    Decoded(Branch(BCOND), [Immediate(0), Condition(code)], Some(target), 4)
  }

  /** An instruction and a conditional branch behind it. */
  function WithBranch(first: DecodedInstruction, addr: nat, code: nat, target: nat): seq<Placed> {
    [Placed(addr, first), Placed(addr + first.size, BranchRow(code, target))]
  }

  lemma BranchCode(code: nat, target: nat)
    requires IsUnsigned(code)
    ensures FindCondition(BranchRow(code, target).operands) == Some(code)
            && M.ConditionOf(BranchRow(code, target).operands) == code
  {
    var ops := BranchRow(code, target).operands;
    assert ops[1..][0] == ops[1];
  }

  /** Where the branch goes, in the IL and on the machine. */
  lemma BranchGoes(code: nat, target: nat, addr: nat, st: State, ms: M.Machine, o: Oracle)
    requires IsUnsigned(code) && target < 0x1_0000_0000 && FlagConditionIl(code).Some?
    ensures ExecBlock(Lifted(BranchRow(code, target)), st, o) ==
            if Eval(FlagConditionIl(code).value, st) != 0 then Jumps(target, st) else Falls(st)
    ensures MachineStep(Placed(addr, BranchRow(code, target)), ms) ==
            if M.Holds(code, ms.status) then At(target, ms) else At(addr + 4, ms)
  {
    hide Eval, FlagConditionIl, FindCondition, M.Holds, M.ConditionOf, Const, SizeOf, Wrap;
    BranchCode(code, target);
    assert Eval(Const(4, target), st) == target;
    assert ExecBlock(Leave(Const(4, target)), st, o) == Jumps(target, st);
  }

  lemma BranchStep(first: DecodedInstruction, addr: nat, code: nat, target: nat, codes: seq<Code>, k: Known, st: State,
                   ms: M.Machine, o: Oracle)
    requires LiftedInto(InsnsOf(WithBranch(first, addr, code, target)), codes)
    requires IsUnsigned(code) && target < 0x1_0000_0000 && target != addr + first.size + 4
    requires Rel(k, st, ms) && k.z && !k.c.Unknown?
    ensures var prog := WithBranch(first, addr, code, target);
      var il, hw := IlStep(prog, codes, 1, st, o), MachineStep(prog[1], ms);
      il.At? && (il.pc == hw.pc <==> CarryFits(k) || (ReadsZ(code) && ms.status.z))
  {
    hide Rel, Eval, FlagConditionIl, M.Holds, Emitted, Len, Lifted, Run, ExecBlock, M.Step, ReadsZ, IsUnsigned,
      CarryFits, BranchRow, MachineStep, Emits;
    var prog := WithBranch(first, addr, code, target);
    StaysEmitted(InsnsOf(prog), codes, 1);
    RelFlags(k, st, ms);
    UnsignedDecides(code, k, st, ms.status);
    BranchGoes(code, target, addr + first.size, st, ms, o);
    RunEmitted(Last(codes), |codes[1].insns|, |codes[2].insns|, Lifted(prog[1].insn), st, o);
    RunToEnd(Last(codes), |codes[2].insns|, st, o);
    BranchSize(code, target);
  }

  lemma BranchSize(code: nat, target: nat)
    ensures BranchRow(code, target).size == 4
  {}

  lemma Indices(first: DecodedInstruction, addr: nat, code: nat, target: nat)
    requires first.size > 0
    ensures var prog := WithBranch(first, addr, code, target);
      IndexAt(prog, addr) == Some(0) && IndexAt(prog, addr + first.size) == Some(1)
  {
    var prog := WithBranch(first, addr, code, target);
    assert prog[1..][0] == prog[1];
  }

  /** The machine after both instructions, and the IL, from their single steps. */
  lemma TwoSteps(prog: seq<Placed>, codes: seq<Code>, pc: nat, next: nat, mid: State, st: State, ms: M.Machine,
                 o: Oracle)
    requires |prog| == 2 && |codes| == 3
    requires IndexAt(prog, pc) == Some(0) && IndexAt(prog, next) == Some(1)
    requires IlStep(prog, codes, 0, st, o) == At(next, mid) && MachineStep(prog[0], ms).pc == next
    ensures IlStep(prog, codes, 1, mid, o).At? ==> IlRun(prog, codes, pc, st, 2, o) == IlStep(prog, codes, 1, mid, o)
    ensures MachineRun(prog, pc, ms, 2).pc == MachineStep(prog[1], MachineStep(prog[0], ms).state).pc
  {
    hide IlStep, MachineStep, IndexAt;
    RunOver(prog, codes, IlStep(prog, codes, 1, mid, o), o);
    var m := MachineStep(prog[0], ms);
    var hw := MachineStep(prog[1], m.state);
    assert MachineRun(prog, hw.pc, hw.state, 0) == hw;
    assert MachineRun(prog, next, m.state, 1) == MachineRun(prog, hw.pc, hw.state, 0);
  }

  lemma RunOver(prog: seq<Placed>, codes: seq<Code>, c: Config<State>, o: Oracle)
    requires |codes| == |prog| + 1
    ensures c.At? ==> IlRun(prog, codes, c.pc, c.state, 0, o) == c
  {
    hide IndexAt;
  }

  /** Two instructions run, the second a branch on an unsigned condition: the emitted code
      reaches the machine's program counter exactly when the carry the first one leaves has
      the sense the condition reads, or Z decides. */
  lemma {:induction false} BranchExactly(first: DecodedInstruction, addr: nat, code: nat, target: nat, codes: seq<Code>,
                                         k: Known, st: State, ms: M.Machine, o: Oracle)
    requires LiftedInto(InsnsOf(WithBranch(first, addr, code, target)), codes)
    requires first.size > 0 && !first.id.Branch? && WellFormed(first) && Safe(first, k, ms) && Rel(k, st, ms)
    requires IsUnsigned(code) && target < 0x1_0000_0000 && target != addr + first.size + 4
    requires After(first, k).z && !After(first, k).c.Unknown?
    ensures var prog := WithBranch(first, addr, code, target);
      var il, hw := IlRun(prog, codes, addr, st, 2, o), MachineRun(prog, addr, ms, 2);
      il.At? && (il.pc == hw.pc <==> CarryFits(After(first, k)) || (ReadsZ(code) && Stepped(first, ms).status.z))
  {
    hide *;
    var prog := WithBranch(first, addr, code, target);
    Placing(first, addr, code, target);
    Lengths(prog, codes);
    IlStepOk(prog, codes, 0, k, st, ms, o);
    NoBranchNext(first, ms);
    FirstStep(prog[0], ms);
    Indices(first, addr, code, target);
    var mid := IlStep(prog, codes, 0, st, o).state;
    BranchStep(first, addr, code, target, codes, After(first, k), mid, Stepped(first, ms), o);
    TwoSteps(prog, codes, addr, addr + first.size, mid, st, ms, o);
  }

  lemma Placing(first: DecodedInstruction, addr: nat, code: nat, target: nat)
    ensures var prog := WithBranch(first, addr, code, target); |prog| == 2 && prog[0] == Placed(addr, first)
  {}

  lemma FirstStep(p: Placed, ms: M.Machine)
    requires M.Step(p.insn, ms) == M.Next(Stepped(p.insn, ms))
    ensures MachineStep(p, ms) == At(p.addr + p.insn.size, Stepped(p.insn, ms))
  {
    hide M.Step, Stepped;
  }

  // ---- After a compare and after an addition ----

  /** What an unsigned condition decides on after CMPL ACC,loc32. */
  lemma AfterCompare(op: Operand, k: Known, ms: M.Machine)
    requires IsLoc(op, 4) && OpReaches(op, ms) && ModesServe(Row(Misc(CMPL_ACC_LOC32), [op]), ms.status.modes)
    ensures var row := Row(Misc(CMPL_ACC_LOC32), [op]);
      && WellFormed(row) && Plainly(row) && EffectSafe(row, k, ms)
      && After(row, k) == Known(Inverted, false, true)
      && M.Effect(row, ms).status.z == (ReadReg(ms.regs, ACC) == M.Value(op, 4, ms))
  {
    hide ReadReg, M.Value, Plain, Modulus, Wrap, OpReaches, ModesServe;
    ValueBound(op, ms);
    ZeroDifference(ReadReg(ms.regs, ACC), M.Value(op, 4, ms));
  }

  lemma ValueBound(op: Operand, ms: M.Machine)
    requires IsLoc(op, 4)
    ensures M.Value(op, 4, ms) < Modulus(4)
  {
    hide ReadReg, M.WordAddress, M.ReadWords, Modulus;
  }

  lemma ZeroDifference(a: nat, b: nat)
    requires a < Modulus(4) && b < Modulus(4)
    ensures Wrap((a as int) - b, 4) == 0 <==> a == b
  {}

  /** And after ADDL ACC,loc32. */
  lemma AfterAdd(op: Operand, k: Known, ms: M.Machine)
    requires IsLoc(op, 4) && OpReaches(op, ms) && ModesServe(Row(Arith(ADDL_ACC_LOC32), [op]), ms.status.modes)
    ensures var row := Row(Arith(ADDL_ACC_LOC32), [op]);
      && WellFormed(row) && Plainly(row) && EffectSafe(row, k, ms)
      && After(row, k) == Known(Direct, true, true)
      && M.Effect(row, ms).status.z == (Wrap(ReadReg(ms.regs, ACC) + M.Value(op, 4, ms), 4) == 0)
  {
    hide ReadReg, WriteReg, M.Value, Plain, Modulus, Wrap, OpReaches, ModesServe;
  }

  /** A compare and a branch on HI, HIS, LO or LOS reach the machine's program counter, from
      every state, if the conditions read a set flag as a borrow. If they read it as no borrow,
      HIS and LO never reach it, and HI and LOS do exactly when the operands are equal. */
  lemma {:induction false} CompareAndBranch(op: Operand, addr: nat, code: nat, target: nat, codes: seq<Code>, k: Known,
                                            st: State, ms: M.Machine, o: Oracle)
    requires IsLoc(op, 4) && OpReaches(op, ms) && Rel(k, st, ms)
    requires IsUnsigned(code) && target < 0x1_0000_0000 && target != addr + 6
    requires ModesServe(Row(Misc(CMPL_ACC_LOC32), [op]), ms.status.modes)
    requires LiftedInto(InsnsOf(WithBranch(Row(Misc(CMPL_ACC_LOC32), [op]), addr, code, target)), codes)
    ensures var prog := WithBranch(Row(Misc(CMPL_ACC_LOC32), [op]), addr, code, target);
      var il, hw := IlRun(prog, codes, addr, st, 2, o), MachineRun(prog, addr, ms, 2);
      && il.At?
      && (il.pc == hw.pc <==>
            CARRY_SENSE.SetMeansBorrow? || (ReadsZ(code) && ReadReg(ms.regs, ACC) == M.Value(op, 4, ms)))
  {
    hide Rel, M.Effect, ReadReg, M.Value, IlRun, MachineRun, LiftedInto, InsnsOf, WithBranch, IsUnsigned, ReadsZ,
      WellFormed, Plainly, EffectSafe, OpReaches, IsLoc, ModesServe, After, Safe, Stepped;
    var row := Row(Misc(CMPL_ACC_LOC32), [op]);
    AfterCompare(op, k, ms);
    UngatedStep(row, k, ms);
    BranchExactly(row, addr, code, target, codes, k, st, ms, o);
  }

  /** An addition and the same branch: the other way round. */
  lemma {:induction false} AddAndBranch(op: Operand, addr: nat, code: nat, target: nat, codes: seq<Code>, k: Known,
                                        st: State, ms: M.Machine, o: Oracle)
    requires IsLoc(op, 4) && OpReaches(op, ms) && Rel(k, st, ms)
    requires IsUnsigned(code) && target < 0x1_0000_0000 && target != addr + 6
    requires ModesServe(Row(Arith(ADDL_ACC_LOC32), [op]), ms.status.modes)
    requires LiftedInto(InsnsOf(WithBranch(Row(Arith(ADDL_ACC_LOC32), [op]), addr, code, target)), codes)
    ensures var prog := WithBranch(Row(Arith(ADDL_ACC_LOC32), [op]), addr, code, target);
      var il, hw := IlRun(prog, codes, addr, st, 2, o), MachineRun(prog, addr, ms, 2);
      il.At? && (il.pc == hw.pc <==> CARRY_SENSE.SetMeansNoBorrow? ||
                                     (ReadsZ(code) && Wrap(ReadReg(ms.regs, ACC) + M.Value(op, 4, ms), 4) == 0))
  {
    hide Rel, M.Effect, ReadReg, M.Value, IlRun, MachineRun, LiftedInto, InsnsOf, WithBranch, IsUnsigned, ReadsZ,
      WellFormed, Plainly, EffectSafe, OpReaches, IsLoc, ModesServe, After, Safe, Stepped, Wrap;
    var row := Row(Arith(ADDL_ACC_LOC32), [op]);
    AfterAdd(op, k, ms);
    UngatedStep(row, k, ms);
    BranchExactly(row, addr, code, target, codes, k, st, ms, o);
  }

  // ---- At one state ----

  /** The emitted code ends at an address the machine is not at. */
  predicate Strays(prog: seq<Placed>, codes: seq<Code>, addr: nat, st: State, ms: M.Machine, o: Oracle) {
    |codes| == |prog| + 1 &&
    (var il := IlRun(prog, codes, addr, st, 2, o); il.At? && il.pc != MachineRun(prog, addr, ms, 2).pc)
  }

  /** Whichever way the conditions read the flag, one of the two branches on HIS (unsigned not
      below) goes wrong, here with ACC = 1 and XAR0 = 0. */
  lemma {:induction false} NeitherSenseServes(addr: nat, target: nat, compare: seq<Code>, add: seq<Code>, o: Oracle)
    requires target < 0x1_0000_0000 && target != addr + 6
    requires LiftedInto(InsnsOf(WithBranch(Row(Misc(CMPL_ACC_LOC32), [XAR0]), addr, 0x7, target)), compare)
    requires LiftedInto(InsnsOf(WithBranch(Row(Arith(ADDL_ACC_LOC32), [XAR0]), addr, 0x7, target)), add)
    ensures var st, ms := OneInAcc(), Abstract(OneInAcc());
      && Strays(WithBranch(Row(Misc(CMPL_ACC_LOC32), [XAR0]), addr, 0x7, target), compare, addr, st, ms,
        o) == CARRY_SENSE.SetMeansNoBorrow?
      && Strays(WithBranch(Row(Arith(ADDL_ACC_LOC32), [XAR0]), addr, 0x7, target), add, addr, st, ms,
        o) == CARRY_SENSE.SetMeansBorrow?
  {
    hide Rel, M.Effect, ReadReg, M.Value, IlRun, MachineRun, LiftedInto, InsnsOf, WithBranch, IsLoc, OpReaches,
      OneInAcc, ValidSp, Abstract;
    var st, ms := OneInAcc(), Abstract(OneInAcc());
    OneInAccIs();
    assert ModesServe(Row(Misc(CMPL_ACC_LOC32), [XAR0]), ms.status.modes)
      && ModesServe(Row(Arith(ADDL_ACC_LOC32), [XAR0]), ms.status.modes);
    Lengths(WithBranch(Row(Misc(CMPL_ACC_LOC32), [XAR0]), addr, 0x7, target), compare);
    Lengths(WithBranch(Row(Arith(ADDL_ACC_LOC32), [XAR0]), addr, 0x7, target), add);
    CompareAndBranch(XAR0, addr, 0x7, target, compare, Known(Direct, true, true), st, ms, o);
    AddAndBranch(XAR0, addr, 0x7, target, add, Known(Direct, true, true), st, ms, o);
  }
}
