/** Compare, test, negate and absolute value: the lifter's `lift_cmp` and `lift_misc`.

    ABS and ABSTC branch on the sign of ACC and NEGTC on TC, around a negation that sets the
    flags; ABSTC toggles TC inside the branch. */
module LiftMisc {
  import opened Registers
  import opened Instructions
  import opened Il
  import opened IlCode
  import opened IlBuilder
  import opened LiftOperands

  function Compare32(rhs: Expr): Insn { Compute(WithFlags(Sub(4, Reg(4, ACC), rhs), NZC)) }

  function TestAcc(): Insn { Compute(WithFlags(Sub(4, Reg(4, ACC), Const(4, 0)), NZ)) }

  function Negate(): Insn { SetReg(4, ACC, WithFlags(Neg(4, Reg(4, ACC)), All)) }

  function ToggleTC(): Insn { SetFlag(TC, Xor(0, FlagOf(TC), Const(0, 1))) }

  function IsNegative(): Expr { Cmp(Slt, 4, Reg(4, ACC), Const(4, 0)) }

  function TCIsSet(): Expr { Cmp(Eq, 0, FlagOf(TC), Const(0, 1)) }

  function MiscBlock(id: MiscId, ops: seq<Operand>): Block {
    match id
    case CMPL_ACC_LOC32 => if ops == [] then End else Append(OpBlock(ops[0]), Do(Compare32(OpExpr(ops[0], 4)), End))
    case TEST_ACC => Do(TestAcc(), End)
    case NEG_ACC => Do(Negate(), End)
    case ABS_ACC => Guard(IsNegative(), true, Do(Negate(), End), End)
    case ABSTC_ACC => Guard(IsNegative(), true, Two(Negate(), ToggleTC()), End)
    case NEGTC_ACC => Guard(TCIsSet(), true, Do(Negate(), End), End)
  }

  method LiftCompare(il: ILFunction, op: Operand)
    modifies il
    ensures Emits(old(il.code), il.code, Append(OpBlock(op), Do(Compare32(OpExpr(op, 4)), End)))
  {
    hide Emits, OpBlock, OpExpr, Append;
    ghost var c0 := il.code;
    var rhs := ReadOp(il, op, 4);
    ghost var c1 := il.code;
    il.Append(Compute(WithFlags(Sub(4, Reg(4, ACC), rhs), NZC)));
    EmitsAppend(c0, c1, il.code, OpBlock(op), Do(Compare32(rhs), End));
  }

  /** ABS and ABSTC: negate only a negative accumulator. */
  method LiftAbs(il: ILFunction, toggle: bool)
    modifies il
    ensures Emits(old(il.code), il.code, MiscBlock(if toggle then ABSTC_ACC else ABS_ACC, []))
  {
    hide Emits, Negate, ToggleTC, IsNegative;
    ghost var c := il.code;
    var negate := il.NewLabel();
    var done := il.NewLabel();
    il.Append(If(IsNegative(), negate, done));
    il.MarkLabel(negate);
    ghost var c1 := il.code;
    NegateIsPlain();
    if toggle {
      EmitTwo(il, Negate(), ToggleTC());
      GuardIntro(c, c1, il.code, IsNegative(), true, Two(Negate(), ToggleTC()));
    } else {
      il.Append(Negate());
      GuardIntro(c, c1, il.code, IsNegative(), true, Do(Negate(), End));
    }
    il.MarkLabel(done);
  }

  lemma NegateIsPlain()
    ensures Negate().IsPlain() && ToggleTC().IsPlain()
  {}

  method LiftNegtc(il: ILFunction)
    modifies il
    ensures Emits(old(il.code), il.code, MiscBlock(NEGTC_ACC, []))
  {
    hide Emits, Negate, TCIsSet;
    ghost var c := il.code;
    var negate := il.NewLabel();
    var done := il.NewLabel();
    il.Append(If(TCIsSet(), negate, done));
    il.MarkLabel(negate);
    ghost var c1 := il.code;
    NegateIsPlain();
    il.Append(Negate());
    GuardIntro(c, c1, il.code, TCIsSet(), true, Do(Negate(), End));
    il.MarkLabel(done);
  }

  method Lift(il: ILFunction, id: MiscId, ops: seq<Operand>)
    modifies il
    ensures Emits(old(il.code), il.code, MiscBlock(id, ops))
  {
    hide Emits, OpBlock, OpExpr, Append;
    match id {
      case CMPL_ACC_LOC32 =>
        if |ops| > 0 {
          LiftCompare(il, ops[0]);
        } else {
          EmitsNothing(il.code);
        }
      case TEST_ACC => il.Append(TestAcc());
      case NEG_ACC => il.Append(Negate());
      case ABS_ACC => LiftAbs(il, false);
      case ABSTC_ACC => LiftAbs(il, true);
      case NEGTC_ACC => LiftNegtc(il);
    }
  }
}
