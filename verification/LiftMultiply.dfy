/** Multiply-accumulate arms with three ordered effects.

    The accumulate embeds the P of the moment it runs, the product the T loaded just before,
    and the program word is addressed by XAR7 before it steps. */
module LiftMultiply {
  import opened Registers
  import opened Instructions
  import opened Il
  import opened IlCode
  import opened IlBuilder
  import opened LiftOperands

  /** ACC = ACC + P, with the product as it was before this instruction. */
  function AddProduct(): (i: Insn)
    ensures i.IsPlain()
  {
    SetReg(4, ACC, WithFlags(Add(4, Reg(4, ACC), Reg(4, P)), All))
  }

  function LoadT(value: Expr): (i: Insn)
    ensures i.IsPlain()
  {
    SetReg(2, T, value)
  }

  /** P = signed T * signed factor, with T as just loaded. */
  function Product(factor: Expr): (i: Insn)
    ensures i.IsPlain()
  {
    SetReg(4, P, Mul(4, Sx(4, Reg(2, T)), Sx(4, factor)))
  }

  /** The word of program memory that XAR7 points to. */
  function ProgramWord(): Expr { Load(2, Lsl(4, Reg(4, XAR(7)), Const(4, 1))) }

  function StepXar7(): (i: Insn)
    ensures i.IsPlain()
  {
    SetReg(4, XAR(7), Add(4, Reg(4, XAR(7)), Const(4, 1)))
  }

  /** Accumulate, then read the operand into T, then multiply. */
  function MacBlock(op: Operand, factor: Expr): (b: Block)
    ensures Open(b)
  {
    OpenAppend(AccumulateFirst(op), Two(LoadT(OpExpr(op, 2)), Product(factor)))
  }

  function AccumulateFirst(op: Operand): (b: Block)
    ensures Open(b)
  {
    var first := Do(AddProduct(), End);
    assert Open(first);
    OpenAppend(first, OpBlock(op))
  }

  function MultiplyBlock(id: MultiplyId, ops: seq<Operand>): Block {
    match id
    case MAC_P_LOC16_XAR7 => if ops == [] then End else MacBlock(ops[0], ProgramWord())
    case MAC_P_LOC16_XAR7_POSTINC =>
      if ops == [] then End else Append(MacBlock(ops[0], ProgramWord()), Do(StepXar7(), End))
    case MPYA_P_LOC16_CONST16 =>
      if |ops| < 2 then End else MacBlock(ops[0], Const(2, OpValue(ops[1])))
  }

  method EmitMac(il: ILFunction, op: Operand, factor: Expr)
    modifies il
    ensures Emits(old(il.code), il.code, MacBlock(op, factor))
  {
    hide Emits, OpBlock, OpExpr, Append, AddProduct, LoadT, Product, Two;
    ghost var c0 := il.code;
    il.Append(AddProduct());
    ghost var c1 := il.code;
    var value := ReadOp(il, op, 2);
    ghost var c2 := il.code;
    EmitTwo(il, LoadT(value), Product(factor));
    EmitsAppend(c0, c1, c2, Do(AddProduct(), End), OpBlock(op));
    EmitsAppend(c0, c2, il.code, AccumulateFirst(op), Two(LoadT(value), Product(factor)));
  }

  method Lift(il: ILFunction, id: MultiplyId, ops: seq<Operand>)
    modifies il
    ensures Emits(old(il.code), il.code, MultiplyBlock(id, ops))
  {
    hide Emits, MacBlock, StepXar7, Append, ProgramWord;
    ghost var c0 := il.code;
    EmitsNothing(c0);
    match id {
      case MAC_P_LOC16_XAR7 => if |ops| > 0 { EmitMac(il, ops[0], ProgramWord()); }
      case MAC_P_LOC16_XAR7_POSTINC =>
        if |ops| > 0 {
          EmitMac(il, ops[0], ProgramWord());
          ghost var c1 := il.code;
          il.Append(StepXar7());
          EmitsAppend(c0, c1, il.code, MacBlock(ops[0], ProgramWord()), Do(StepXar7(), End));
        }
      case MPYA_P_LOC16_CONST16 => if |ops| >= 2 { EmitMac(il, ops[0], Const(2, OpValue(ops[1]))); }
    }
  }
}
