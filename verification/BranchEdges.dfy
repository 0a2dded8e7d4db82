/** Branches and gated rows where the machine is no guide: no target, no condition, the overflow
    codes, and codes that are no condition. */
module BranchEdges {
  import opened Wrappers
  import opened Registers
  import opened Instructions
  import opened Il
  import opened IlCode
  import opened Lifter
  import opened Simulation

  /** Operand `c` is the first condition among the operands. */
  predicate FirstCondition(ops: seq<Operand>, c: nat) {
    c < |ops| && ops[c].Condition? && forall j :: 0 <= j < c ==> !ops[j].Condition?
  }

  lemma {:induction false} FirstConditionIs(ops: seq<Operand>, c: nat)
    requires FirstCondition(ops, c)
    ensures FindCondition(ops) == Some(ops[c].code)
    decreases c
  {
    if c > 0 {
      assert !ops[0].Condition?;
      FirstConditionIs(ops[1..], c - 1);
    }
  }

  /** A branch whose target was not resolved, or B, SB or BF without a condition, falls through and
      changes nothing. */
  lemma UnresolvedFallsThrough(insn: DecodedInstruction, st: State, o: Oracle)
    requires insn.id.Branch?
    requires insn.target.None? || (insn.id.branch.BCOND? && forall op :: op in insn.operands ==> !op.Condition?)
    ensures ExecBlock(Lifted(insn), st, o) == Falls(st)
  {
    hide FlagConditionIl, Eval, FindCondition;
    if insn.target.Some? { NoCondition(insn.operands); }
  }

  lemma Target(t: nat, st: State)
    requires t < 0x1_0000_0000
    ensures Eval(Const(4, t), st) == t
  {}

  lemma CondValue(cond: FlagCondition, st: State)
    ensures Eval(ECond(cond), st) != 0 <==> st.flags.Holds(cond)
  {
    hide Wrap, Flags.Holds;
    BoolWrap(st.flags.Holds(cond));
    assert Eval(ECond(cond), st) == Wrap(Il.Bool(st.flags.Holds(cond)), 0);
  }

  lemma OverflowValue(st: State)
    ensures FlagConditionIl(0xA).Some? && FlagConditionIl(0xB).Some?
    ensures Eval(FlagConditionIl(0xA).value, st) != 0 <==> !st.flags.v
    ensures Eval(FlagConditionIl(0xB).value, st) != 0 <==> st.flags.v
  {
    hide Eval;
    CondValue(NO, st);
    CondValue(O, st);
  }

  /** LB jumps whatever its operands are. B, SB and BF jump under UNC, under NOV while V is clear,
      under OV while it is set, and under no code above UNC. */
  lemma {:induction false} BranchIsTaken(insn: DecodedInstruction, c: nat, t: nat, st: State, o: Oracle)
    requires insn.id.Branch? && insn.target == Some(t) && t < 0x1_0000_0000
    requires insn.id.branch.BCOND? ==> FirstCondition(insn.operands, c) && insn.operands[c].code >= 0xA
                                       && !(0xC <= insn.operands[c].code <= 0xE)
    ensures ExecBlock(Lifted(insn), st, o) ==
            if insn.id.branch.LB? || insn.operands[c].code == 0xF
               || insn.operands[c].code == (if st.flags.v then 0xB else 0xA)
            then Jumps(t, st) else Falls(st)
  {
    hide FlagConditionIl, Eval, Const, FindCondition, FirstCondition;
    Target(t, st);
    if insn.id.branch.BCOND? {
      FirstConditionIs(insn.operands, c);
      Code(insn.operands, c);
      OverflowValue(st);
      NoSuchCode(insn.operands[c].code);
      assert ExecBlock(Leave(Const(4, t)), st, o) == Jumps(t, st);
    }
  }

  lemma Code(ops: seq<Operand>, c: nat)
    requires FirstCondition(ops, c)
    ensures c < |ops| && ops[c].Condition?
  {}

  lemma NoSuchCode(code: nat)
    ensures code > 0xE ==> FlagConditionIl(code) == None
  {}

  /** A row that is no branch runs its effect under UNC and, by V, under the overflow codes; under
      a code above UNC the lifter refuses it. */
  lemma {:induction false} GateIsOpen(insn: DecodedInstruction, c: nat, st: State, o: Oracle)
    requires !insn.id.Branch? && FirstCondition(insn.operands, c)
    requires insn.operands[c].code >= 0xA && !(0xC <= insn.operands[c].code <= 0xE)
    ensures var code := insn.operands[c].code;
      ExecBlock(Lifted(insn), st, o) ==
      if code > 0xF then Stuck
      else if code == 0xF || code == (if st.flags.v then 0xB else 0xA) then ExecBlock(EffectBlock(insn), st, o)
      else Falls(st)
  {
    hide FlagConditionIl, Eval, FindCondition, FirstCondition, EffectBlock;
    FirstConditionIs(insn.operands, c);
    Code(insn.operands, c);
    OverflowValue(st);
    NoSuchCode(insn.operands[c].code);
  }
}
