/** The lifter's entry point: condition gating, dispatch and branches. */
module Lifter {
  import opened Wrappers
  import opened Instructions
  import opened Il
  import opened IlCode
  import opened IlBuilder
  import opened LiftArith
  import opened LiftMisc
  import opened LiftMov
  import opened LiftStack
  import opened LiftMultiply
  import opened LiftSystem

  // ---- Conditions ----

  /** The IL of a 4-bit condition code; none for codes that are not a condition. */
  function FlagConditionIl(code: nat): Option<Expr> {
    match code
    case 0x0 => Some(ECond(NE))
    case 0x1 => Some(ECond(E))
    case 0x2 => Some(ECond(SGT))
    case 0x3 => Some(ECond(SGE))
    case 0x4 => Some(ECond(SLT))
    case 0x5 => Some(ECond(SLE))
    case 0x6 => Some(ECond(UGT))
    case 0x7 => Some(ECond(UGE))
    case 0x8 => Some(ECond(ULT))
    case 0x9 => Some(ECond(ULE))
    case 0xA => Some(ECond(NO))
    case 0xB => Some(ECond(O))
    case 0xC => Some(Not(0, FlagOf(TC)))
    case 0xD => Some(FlagOf(TC))
    case 0xE => Some(Const(0, 1))
    case _ => None
  }

  const UNC: nat := 0xF

  /** The first condition operand. */
  function FindCondition(ops: seq<Operand>): Option<nat> {
    if ops == [] then None
    else if ops[0].Condition? then Some(ops[0].code)
    else FindCondition(ops[1..])
  }

  /** `body` run only when the condition holds; a code that is no condition runs nothing. */
  function Gated(cond: Option<nat>, body: Block): Block {
    if cond.None? || cond.value == UNC then body
    else
      match FlagConditionIl(cond.value)
      case Some(expr) => Guard(expr, true, body, End)
      case None => Refuse(End)
  }

  // ---- Branches ----

  function BranchBlock(id: BranchId, ops: seq<Operand>, target: Option<nat>): Block {
    match target
    case None => Do(Nop, End)
    case Some(t) =>
      if id.LB? then Leave(Const(4, t))
      else
        match FindCondition(ops)
        case None => Do(Nop, End)
        case Some(code) =>
          if code == UNC then Leave(Const(4, t))
          else
            match FlagConditionIl(code)
            case None => Do(Nop, End)
            case Some(expr) => Guard(expr, true, Leave(Const(4, t)), End)
  }

  method EmitCondBranch(il: ILFunction, cond: Expr, target: nat)
    modifies il
    ensures Emits(old(il.code), il.code, Guard(cond, true, Leave(Const(4, target)), End))
  {
    hide Emits;
    ghost var c := il.code;
    var taken := il.NewLabel();
    var fallen := il.NewLabel();
    il.Append(If(cond, taken, fallen));
    il.MarkLabel(taken);
    ghost var c1 := il.code;
    EmitJump(il, target);
    GuardIntro(c, c1, il.code, cond, true, Leave(Const(4, target)));
    il.MarkLabel(fallen);
  }

  method EmitJump(il: ILFunction, target: nat)
    modifies il
    ensures Emits(old(il.code), il.code, Leave(Const(4, target)))
    ensures il.code.marks == old(il.code).marks
  {
    il.Append(Jump(Const(4, target)));
  }

  method LiftBranch(il: ILFunction, id: BranchId, ops: seq<Operand>, target: Option<nat>)
    modifies il
    ensures Emits(old(il.code), il.code, BranchBlock(id, ops, target))
  {
    hide Emits, FlagConditionIl, FindCondition;
    if target.None? {
      il.Append(Nop);
      return;
    }
    if id.LB? {
      EmitJump(il, target.value);
      return;
    }
    var cond := FindCondition(ops);
    if cond.None? {
      il.Append(Nop);
      return;
    }
    if cond.value == UNC {
      EmitJump(il, target.value);
      return;
    }
    var expr := FlagConditionIl(cond.value);
    if expr.Some? {
      EmitCondBranch(il, expr.value, target.value);
    } else {
      il.Append(Nop);
    }
  }

  // ---- Dispatch ----

  function EffectBlock(insn: DecodedInstruction): Block {
    match insn.id
    case Arith(id) => ArithBlock(id, insn.operands)
    case Misc(id) => MiscBlock(id, insn.operands)
    case Mov(id) => MovBlock(id, insn.operands)
    case Stack(id) => StackBlock(id, insn.operands)
    case Multiply(id) => MultiplyBlock(id, insn.operands)
    case System(id) => SystemBlock(id, insn.operands)
    case Branch(id) => BranchBlock(id, insn.operands, insn.target)
  }

  /** What an instruction lifts to: branches resolve their own condition, every other
      instruction with a condition operand has its whole effect gated by it. */
  function Lifted(insn: DecodedInstruction): Block {
    if insn.id.Branch? then EffectBlock(insn)
    else Gated(FindCondition(insn.operands), EffectBlock(insn))
  }

  method LiftEffect(il: ILFunction, insn: DecodedInstruction)
    modifies il
    ensures Emits(old(il.code), il.code, EffectBlock(insn))
  {
    hide Emits, ArithBlock, MiscBlock, MovBlock, StackBlock, MultiplyBlock, SystemBlock, BranchBlock;
    match insn.id {
      case Arith(id) => LiftArith.Lift(il, id, insn.operands);
      case Misc(id) => LiftMisc.Lift(il, id, insn.operands);
      case Mov(id) => LiftMov.Lift(il, id, insn.operands);
      case Stack(id) => LiftStack.Lift(il, id, insn.operands);
      case Multiply(id) => LiftMultiply.Lift(il, id, insn.operands);
      case System(id) => LiftSystem.Lift(il, id, insn.operands);
      case Branch(id) => LiftBranch(il, id, insn.operands, insn.target);
    }
  }

  method EmitConditional(il: ILFunction, insn: DecodedInstruction, code: nat)
    modifies il
    ensures Emits(old(il.code), il.code, Gated(Some(code), EffectBlock(insn)))
  {
    hide Emits, EffectBlock, FlagConditionIl;
    if code == UNC {
      LiftEffect(il, insn);
      return;
    }
    var expr := FlagConditionIl(code);
    if expr.None? {
      il.Append(Unimplemented);
      return;
    }
    ghost var c := il.code;
    var taken := il.NewLabel();
    var skip := il.NewLabel();
    il.Append(If(expr.value, taken, skip));
    il.MarkLabel(taken);
    ghost var c1 := il.code;
    LiftEffect(il, insn);
    GuardIntro(c, c1, il.code, expr.value, true, EffectBlock(insn));
    il.MarkLabel(skip);
  }

  method Lift(il: ILFunction, insn: DecodedInstruction)
    modifies il
    ensures Emits(old(il.code), il.code, Lifted(insn))
  {
    hide Emits, EffectBlock, FindCondition;
    var cond := FindCondition(insn.operands);
    if !insn.id.Branch? && cond.Some? {
      EmitConditional(il, insn, cond.value);
    } else {
      LiftEffect(il, insn);
    }
  }
}
