/** One lifted instruction, gated by its condition or branching on it, does what the machine does. */
module Simulation {
  import opened Wrappers
  import opened Registers
  import opened Operands
  import opened Instructions
  import opened Il
  import opened IlCode
  import opened Lifter
  import opened Relation
  import opened SimArith
  import opened SimMisc
  import opened SimMov
  import opened SimStack
  import opened SimMultiply
  import opened SimSystem
  import LiftArith
  import LiftMisc
  import LiftMov
  import LiftMultiply
  import LiftStack
  import LiftSystem
  import M = Machine

  // ---- Conditions ----

  /** `flag:C` stands to the hardware bit as the unsigned conditions read it. */
  predicate CarryFits(k: Known) {
    if CARRY_SENSE.SetMeansNoBorrow? then k.c.Direct? else k.c.Inverted?
  }

  /** What a condition code needs to know of the flags. Overflow is sticky on the machine and
      not in the IL, so no state of knowledge makes the overflow codes safe. */
  predicate CondKnown(code: nat, k: Known) {
    match code
    case 0x0 => k.z
    case 0x1 => k.z
    case 0x2 => k.z && k.n
    case 0x3 => k.n
    case 0x4 => k.n
    case 0x5 => k.z && k.n
    case 0x6 => CarryFits(k) && k.z
    case 0x7 => CarryFits(k)
    case 0x8 => CarryFits(k)
    case 0x9 => CarryFits(k) && k.z
    case 0xA => false
    case 0xB => false
    case _ => true
  }

  lemma FlagCondValue(code: nat, k: Known, st: State, ms: M.Machine)
    requires code < 0xF && CondKnown(code, k) && SameFlags(k, st.flags, ms.status)
    ensures FlagConditionIl(code).Some?
    ensures (Eval(FlagConditionIl(code).value, st) != 0) == M.Holds(code, ms.status)
  {
    hide Wrap;
    var e := FlagConditionIl(code).value;
    if code < 0xC {
      assert Eval(e, st) == Wrap(Il.Bool(st.flags.Holds(e.cond)), 0);
      BoolWrap(st.flags.Holds(e.cond));
    } else if code == 0xC {
      assert Eval(FlagOf(TC), st) == Il.Bool(st.flags.tc);
    } else if code == 0xD {
      assert Eval(FlagOf(TC), st) == Il.Bool(st.flags.tc);
    }
  }

  lemma BoolWrap(b: bool)
    ensures Wrap(Il.Bool(b), 0) == Il.Bool(b)
  {}

  lemma {:induction false} FindConditionOf(ops: seq<Operand>)
    ensures FindCondition(ops) == None ==> M.ConditionOf(ops) == UNC
    ensures FindCondition(ops).Some? ==> M.ConditionOf(ops) == FindCondition(ops).value
  {
    if ops != [] && !ops[0].Condition? { FindConditionOf(ops[1..]); }
  }

  /** The rows gated by a condition are the conditional moves. */
  predicate IsConditional(id: InsnId) {
    id.Mov? && (id.mov.MOV_LOC16_AX_COND? || id.mov.MOVB_LOC16_CONST8_COND? || id.mov.MOVL_LOC32_ACC_COND?)
  }

  lemma {:induction false} NoCondition(ops: seq<Operand>)
    requires forall op :: op in ops ==> !op.Condition?
    ensures FindCondition(ops) == None
  {
    if ops != [] { NoCondition(ops[1..]); }
  }

  lemma Unconditional(insn: DecodedInstruction)
    requires WellFormed(insn) && !insn.id.Branch? && !IsConditional(insn.id)
    ensures FindCondition(insn.operands) == None && M.ConditionOf(insn.operands) == UNC
  {
    hide Plain, Loadable, Storable;
    NoCondition(insn.operands);
    FindConditionOf(insn.operands);
  }

  // ---- When an instruction is simulated ----

  /** Rows whose result saturation changes: all that add to or subtract from ACC or P. */
  predicate Saturates(id: ArithId) {
    !(id.INC_LOC16? || id.DEC_LOC16? || id.ADDB_SP_CONST7? || id.SUBB_SP_CONST7? || id.ADDB_XARN_CONST7?
      || id.SUBB_XARN_CONST7?)
  }

  predicate SpOperand(op: Operand) {
    match op
    case Loc16(loc) => loc.mode.SpRelative?
    case Loc32(loc) => loc.mode.SpRelative?
    case _ => false
  }

  /** The modes a row depends on are the assumed ones: sign extension, overflow, product shift,
      and the reading of fields 0x40-0x7F. */
  predicate ModesServe(insn: DecodedInstruction, m: M.Modes) {
    && (insn.operands != [] && SpOperand(insn.operands[0]) ==> !m.page0)
    && match insn.id
       case Arith(id) => (Saturates(id) ==> !m.ovm) && (id.ADD_ACC_LOC16? || id.SUB_ACC_LOC16? ==> m.sxm)
       case Misc(id) => id.CMPL_ACC_LOC32? || id.TEST_ACC? || !m.ovm
       case Mov(id) => id.MOV_ACC_LOC16? ==> m.sxm
       case Multiply(_) => !m.ovm && m.pm == M.UNSHIFTED
       case _ => true
  }

  /** Operands in reach, SP inside 16 bits, modes as the row needs them, and a carry in the
      convention it reads. */
  predicate EffectSafe(insn: DecodedInstruction, k: Known, ms: M.Machine) {
    ModesServe(insn, ms.status.modes) && InReach(insn, k, ms)
  }

  predicate InReach(insn: DecodedInstruction, k: Known, ms: M.Machine) {
    var ops := insn.operands;
    match insn.id
    case Arith(id) => ops != [] && ArithSafe(id, ops[0], k, ms)
    case Misc(_) => ops != [] ==> OpReaches(ops[0], ms)
    case Mov(id) => !id.MOVL_LOC32_ACC_COND? && (ops != [] ==> OpReaches(ops[0], ms))
    case Stack(id) => StackSafe(id, ops, ms)
    case Multiply(_) => ops != [] && OpReaches(ops[0], ms)
    case System(_) => ops != [] && OpReaches(ops[0], ms)
    case Branch(_) => true
  }

  /** The condition can be decided, and the effect is safe if it is reached. */
  predicate Safe(insn: DecodedInstruction, k: Known, ms: M.Machine) {
    var code := M.ConditionOf(insn.operands);
    CondKnown(code, k) && (M.Holds(code, ms.status) ==> EffectSafe(insn, k, ms))
  }

  function After(insn: DecodedInstruction, k: Known): Known {
    var ops := insn.operands;
    match insn.id
    case Arith(id) => AfterArith(id, k)
    case Misc(id) => AfterMisc(id, k)
    case Mov(id) => AfterMov(id, ops, k)
    case Stack(id) => AfterStack(id, ops, k)
    case Multiply(_) => Known(Direct, true, true)
    case System(id) => AfterSystem(id, ops, k)
    case Branch(_) => k
  }

  /** The IL ends the way the machine does, in a related state. */
  ghost predicate Matches(out: Outcome, step: M.StepResult, k: Known) {
    match step
    case Next(ms) => out.Falls? && Rel(k, out.st, ms)
    case Taken(target, ms) => out.Jumps? && out.target == target && Rel(k, out.st, ms)
  }

  lemma {:induction false} EffectOk(insn: DecodedInstruction, k: Known, st: State, ms: M.Machine, o: Oracle)
    requires WellFormed(insn) && !insn.id.Branch? && EffectSafe(insn, k, ms) && Rel(k, st, ms)
    ensures var out := ExecBlock(EffectBlock(insn), st, o);
      out.Falls? && Rel(After(insn, k), out.st, M.Effect(insn, ms))
  {
    hide Rel, ExecBlock, ArithShape, MiscShape, MovShape, StackShape, MultiplyShape, SystemShape, ArithSafe, OpReaches,
      StackSafe, ModesServe, AfterArith, AfterMisc, AfterMov, AfterStack, AfterSystem, LiftArith.ArithBlock,
      LiftMisc.MiscBlock, LiftMov.MovBlock, LiftStack.StackBlock, LiftMultiply.MultiplyBlock, LiftSystem.SystemBlock,
      M.ArithEffect, M.MiscEffect, M.MovEffect, M.StackEffect, M.MultiplyEffect, M.SystemEffect;
    match insn.id
    case Arith(id) => ArithOk(id, insn.operands, k, st, ms, o);
    case Misc(id) => MiscOk(id, insn.operands, k, st, ms, o);
    case Mov(id) => MovOk(id, insn.operands, k, st, ms, o);
    case Stack(id) => StackOk(id, insn.operands, k, st, ms, o);
    case Multiply(id) => MultiplyOk(id, insn.operands, k, st, ms, o);
    case System(id) => SystemOk(id, insn.operands, k, st, ms, o);
  }

  lemma BranchCondition(insn: DecodedInstruction)
    requires WellFormed(insn) && insn.id.Branch?
    ensures insn.id.branch.LB? ==> M.ConditionOf(insn.operands) == UNC
    ensures insn.id.branch.BCOND? ==>
              M.ConditionOf(insn.operands) < 16 && FindCondition(insn.operands) == Some(M.ConditionOf(insn.operands))
  {
    FindConditionOf(insn.operands);
    if insn.id.branch.LB? {
      NoCondition(insn.operands);
    } else {
      assert insn.operands[1..][0] == insn.operands[1];
    }
  }

  lemma Unc(s: M.Status)
    ensures M.Holds(UNC, s)
  {}

  lemma {:induction false} BranchOk(insn: DecodedInstruction, k: Known, st: State, ms: M.Machine, o: Oracle)
    requires WellFormed(insn) && insn.id.Branch? && Safe(insn, k, ms) && Rel(k, st, ms)
    ensures Matches(ExecBlock(Lifted(insn), st, o), M.Step(insn, ms), k)
  {
    hide Rel, Eval, Const, FlagConditionIl, FindCondition, M.Holds, CondKnown, M.ConditionOf, SizeOf, Wrap;
    var t := insn.target.value;
    assert Eval(Const(4, t), st) == t;
    BranchCondition(insn);
    RelFlags(k, st, ms);
    Unc(ms.status);
    var code := M.ConditionOf(insn.operands);
    if insn.id.branch.BCOND? && code != UNC {
      FlagCondValue(code, k, st, ms);
      assert ExecBlock(Leave(Const(4, t)), st, o) == Jumps(t, st);
    }
  }

  /** A false condition leaves the state unchanged; a true one runs the effect. */
  lemma {:induction false} GatedOk(insn: DecodedInstruction, code: nat, k: Known, st: State, ms: M.Machine, o: Oracle)
    requires code < 16 && CondKnown(code, k) && Rel(k, st, ms)
    ensures ExecBlock(Gated(Some(code), EffectBlock(insn)), st, o) ==
            if M.Holds(code, ms.status) then ExecBlock(EffectBlock(insn), st, o) else Falls(st)
  {
    hide Rel, Eval, FlagConditionIl, M.Holds, CondKnown, EffectBlock;
    RelFlags(k, st, ms);
    Unc(ms.status);
    if code != UNC { FlagCondValue(code, k, st, ms); }
  }

  lemma ConditionLast(ops: seq<Operand>)
    requires 2 <= |ops| <= 3 && ops[|ops| - 1].Condition? && !ops[0].Condition? && !ops[1].Condition? == (|ops| == 3)
    ensures FindCondition(ops) == Some(ops[|ops| - 1].code)
  {
    var rest := ops[1..];
    assert rest[0] == ops[1] && FindCondition(ops) == FindCondition(rest);
    if |ops| == 3 {
      assert rest[1..][0] == ops[2] && FindCondition(rest) == FindCondition(rest[1..]);
    }
  }

  lemma ConditionalCode(insn: DecodedInstruction)
    requires WellFormed(insn) && IsConditional(insn.id)
    ensures var code := M.ConditionOf(insn.operands); code < 16 && FindCondition(insn.operands) == Some(code)
  {
    hide Plain, Loadable, Storable, FindCondition, M.ConditionOf;
    ConditionLast(insn.operands);
    FindConditionOf(insn.operands);
  }

  /** A conditional move leaves no more known than before. */
  lemma ConditionalAfter(insn: DecodedInstruction, k: Known)
    requires IsConditional(insn.id)
    ensures Weaker(After(insn, k), k)
  {}

  /** One instruction: lifting preserves its meaning. */
  lemma {:induction false} InsnOk(insn: DecodedInstruction, k: Known, st: State, ms: M.Machine, o: Oracle)
    requires WellFormed(insn) && Safe(insn, k, ms) && Rel(k, st, ms)
    ensures Matches(ExecBlock(Lifted(insn), st, o), M.Step(insn, ms), After(insn, k))
  {
    hide Rel, WellFormed, EffectSafe, ExecBlock, EffectBlock, FindCondition, M.ConditionOf, M.Holds, M.Effect,
      CondKnown, After, Gated, IsConditional;
    Unc(ms.status);
    if insn.id.Branch? {
      BranchAfter(insn, k);
      BranchOk(insn, k, st, ms, o);
    } else if IsConditional(insn.id) {
      var code := M.ConditionOf(insn.operands);
      ConditionalCode(insn);
      GatedOk(insn, code, k, st, ms, o);
      if M.Holds(code, ms.status) {
        EffectOk(insn, k, st, ms, o);
      } else {
        ConditionalAfter(insn, k);
        Weaken(After(insn, k), k, st, ms);
      }
    } else {
      Unconditional(insn);
      UngatedIs(insn);
      EffectOk(insn, k, st, ms, o);
    }
  }

  lemma BranchAfter(insn: DecodedInstruction, k: Known)
    requires insn.id.Branch?
    ensures After(insn, k) == k
  {}

  lemma UngatedIs(insn: DecodedInstruction)
    ensures Gated(None, EffectBlock(insn)) == EffectBlock(insn)
  {}
}
