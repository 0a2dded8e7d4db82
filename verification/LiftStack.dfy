/** PUSH and POP. The stack grows upward and SP holds a byte address.

    A push stores at SP and raises it, a pop lowers it and loads. Pairs push the low register
    first; the high halves of XAR0 and XAR1 are shifted out and joined back by hand. */
module LiftStack {
  import opened Registers
  import opened Instructions
  import opened Il
  import opened IlCode
  import opened IlBuilder
  import opened LiftOperands

  function RaiseSP(size: nat): (i: Insn)
    ensures i.IsPlain()
  {
    SetReg(4, SP, Add(4, Reg(4, SP), Const(4, size)))
  }

  function LowerSP(size: nat): (i: Insn)
    ensures i.IsPlain()
  {
    SetReg(4, SP, Sub(4, Reg(4, SP), Const(4, size)))
  }

  function PushValue(size: nat, value: Expr): (i: Insn)
    ensures i.IsPlain()
  {
    Store(size, Reg(4, SP), value)
  }

  function PushBlock(size: nat, value: Expr): (b: Block)
    ensures Open(b)
  {
    Two(PushValue(size, value), RaiseSP(size))
  }

  function PopReg(reg: Register, size: nat): (i: Insn)
    ensures i.IsPlain()
  {
    SetReg(size, reg, Load(size, Reg(4, SP)))
  }

  function PopBlock(reg: Register, size: nat): (b: Block)
    ensures Open(b)
  {
    Two(LowerSP(size), PopReg(reg, size))
  }

  /** The high half of an auxiliary register, which has no name of its own. */
  function HighHalf(reg: Register): Expr { Lsr(4, Reg(4, reg), Const(4, 16)) }

  /** reg = low half of reg, high half from the stack. */
  function PopHigh(reg: Register): (i: Insn)
    ensures i.IsPlain()
  {
    var hi := Lsl(4, Zx(4, Load(2, Reg(4, SP))), Const(4, 16));
    var lo := And(4, Reg(4, reg), Const(4, 0xFFFF));
    SetReg(4, reg, Or(4, lo, hi))
  }

  function PopHighBlock(reg: Register): (b: Block)
    ensures Open(b)
  {
    Two(LowerSP(2), PopHigh(reg))
  }

  function PushArm(arm: StackArm): (b: Block)
    ensures Open(b)
  {
    match arm
    case ArmST0 => PushBlock(2, Reg(2, ST0))
    case ArmST1 => PushBlock(2, Reg(2, ST1))
    case ArmDP => PushBlock(2, Reg(2, DP))
    case ArmRPC => PushBlock(4, Reg(4, RPC))
    case ArmIFR => PushBlock(2, Reg(2, IFR))
    case ArmDBGIER => PushBlock(2, Reg(2, DBGIER))
    case ArmP => PushBlock(4, Reg(4, P))
    case ArmXT => PushBlock(4, Reg(4, XT))
    case ArmRB => PushBlock(2, Reg(2, RB))
    case AR1_AR0 => PushPair(AR(0), AR(1))
    case AR3_AR2 => PushPair(AR(2), AR(3))
    case AR5_AR4 => PushPair(AR(4), AR(5))
    case DP_ST1 => PushPair(ST1, DP)
    case T_ST0 => PushPair(ST0, T)
    case AR1H_AR0H => OpenAppend(PushBlock(2, HighHalf(XAR(0))), PushBlock(2, HighHalf(XAR(1))))
  }

  function PushPair(first: Register, second: Register): (b: Block)
    ensures Open(b)
  {
    OpenAppend(PushBlock(2, Reg(2, first)), PushBlock(2, Reg(2, second)))
  }

  function PopPair(first: Register, second: Register): (b: Block)
    ensures Open(b)
  {
    OpenAppend(PopBlock(first, 2), PopBlock(second, 2))
  }

  function PopArm(arm: StackArm): (b: Block)
    ensures Open(b)
  {
    match arm
    case ArmST0 => PopBlock(ST0, 2)
    case ArmST1 => PopBlock(ST1, 2)
    case ArmDP => PopBlock(DP, 2)
    case ArmRPC => PopBlock(RPC, 4)
    case ArmIFR => PopBlock(IFR, 2)
    case ArmDBGIER => PopBlock(DBGIER, 2)
    case ArmP => PopBlock(P, 4)
    case ArmXT => PopBlock(XT, 4)
    case ArmRB => PopBlock(RB, 2)
    case AR1_AR0 => PopPair(AR(1), AR(0))
    case AR3_AR2 => PopPair(AR(3), AR(2))
    case AR5_AR4 => PopPair(AR(5), AR(4))
    case DP_ST1 => PopPair(DP, ST1)
    case T_ST0 => PopPair(T, ST0)
    case AR1H_AR0H => OpenAppend(PopHighBlock(XAR(1)), PopHighBlock(XAR(0)))
  }

  function StackBlock(id: StackId, ops: seq<Operand>): Block {
    match id
    case PUSH(arm) => PushArm(arm)
    case POP(arm) => PopArm(arm)
    case PUSH_LOC16 => if ops == [] then End else Append(OpBlock(ops[0]), PushBlock(2, OpExpr(ops[0], 2)))
    case POP_LOC16 =>
      if ops == [] then End else Append(Do(LowerSP(2), End), WriteOpBlock(ops[0], 2, Load(2, Reg(4, SP))))
  }

  method EmitPush(il: ILFunction, size: nat, value: Expr)
    modifies il
    ensures Emits(old(il.code), il.code, PushBlock(size, value))
  {
    hide Emits, PushValue, RaiseSP;
    EmitTwo(il, PushValue(size, value), RaiseSP(size));
  }

  method EmitPop(il: ILFunction, reg: Register, size: nat)
    modifies il
    ensures Emits(old(il.code), il.code, PopBlock(reg, size))
  {
    hide Emits, LowerSP, PopReg;
    EmitTwo(il, LowerSP(size), PopReg(reg, size));
  }

  method EmitPushPair(il: ILFunction, first: Expr, second: Expr)
    modifies il
    ensures Emits(old(il.code), il.code, OpenAppend(PushBlock(2, first), PushBlock(2, second)))
  {
    hide Emits, PushBlock, Append;
    ghost var c0 := il.code;
    EmitPush(il, 2, first);
    ghost var c1 := il.code;
    EmitPush(il, 2, second);
    EmitsAppend(c0, c1, il.code, PushBlock(2, first), PushBlock(2, second));
  }

  method EmitPopPair(il: ILFunction, first: Register, second: Register)
    modifies il
    ensures Emits(old(il.code), il.code, PopPair(first, second))
  {
    hide Emits, PopBlock, Append;
    ghost var c0 := il.code;
    EmitPop(il, first, 2);
    ghost var c1 := il.code;
    EmitPop(il, second, 2);
    EmitsAppend(c0, c1, il.code, PopBlock(first, 2), PopBlock(second, 2));
  }

  method EmitPopHighs(il: ILFunction)
    modifies il
    ensures Emits(old(il.code), il.code, PopArm(AR1H_AR0H))
  {
    hide Emits, PopHigh, LowerSP, Append;
    ghost var c0 := il.code;
    EmitTwo(il, LowerSP(2), PopHigh(XAR(1)));
    ghost var c1 := il.code;
    EmitTwo(il, LowerSP(2), PopHigh(XAR(0)));
    EmitsAppend(c0, c1, il.code, PopHighBlock(XAR(1)), PopHighBlock(XAR(0)));
  }

  method LiftPush(il: ILFunction, arm: StackArm)
    modifies il
    ensures Emits(old(il.code), il.code, PushArm(arm))
  {
    hide Emits, PushBlock, OpenAppend, HighHalf, Reg;
    match arm {
      case ArmST0 => EmitPush(il, 2, Reg(2, ST0));
      case ArmST1 => EmitPush(il, 2, Reg(2, ST1));
      case ArmDP => EmitPush(il, 2, Reg(2, DP));
      case ArmRPC => EmitPush(il, 4, Reg(4, RPC));
      case ArmIFR => EmitPush(il, 2, Reg(2, IFR));
      case ArmDBGIER => EmitPush(il, 2, Reg(2, DBGIER));
      case ArmP => EmitPush(il, 4, Reg(4, P));
      case ArmXT => EmitPush(il, 4, Reg(4, XT));
      case ArmRB => EmitPush(il, 2, Reg(2, RB));
      case AR1_AR0 => EmitPushPair(il, Reg(2, AR(0)), Reg(2, AR(1)));
      case AR3_AR2 => EmitPushPair(il, Reg(2, AR(2)), Reg(2, AR(3)));
      case AR5_AR4 => EmitPushPair(il, Reg(2, AR(4)), Reg(2, AR(5)));
      case DP_ST1 => EmitPushPair(il, Reg(2, ST1), Reg(2, DP));
      case T_ST0 => EmitPushPair(il, Reg(2, ST0), Reg(2, T));
      case AR1H_AR0H => EmitPushPair(il, HighHalf(XAR(0)), HighHalf(XAR(1)));
    }
  }

  method LiftPop(il: ILFunction, arm: StackArm)
    modifies il
    ensures Emits(old(il.code), il.code, PopArm(arm))
  {
    hide Emits, PopBlock, PopPair, PopHighBlock;
    match arm {
      case ArmST0 => EmitPop(il, ST0, 2);
      case ArmST1 => EmitPop(il, ST1, 2);
      case ArmDP => EmitPop(il, DP, 2);
      case ArmRPC => EmitPop(il, RPC, 4);
      case ArmIFR => EmitPop(il, IFR, 2);
      case ArmDBGIER => EmitPop(il, DBGIER, 2);
      case ArmP => EmitPop(il, P, 4);
      case ArmXT => EmitPop(il, XT, 4);
      case ArmRB => EmitPop(il, RB, 2);
      case AR1_AR0 => EmitPopPair(il, AR(1), AR(0));
      case AR3_AR2 => EmitPopPair(il, AR(3), AR(2));
      case AR5_AR4 => EmitPopPair(il, AR(5), AR(4));
      case DP_ST1 => EmitPopPair(il, DP, ST1);
      case T_ST0 => EmitPopPair(il, T, ST0);
      case AR1H_AR0H => EmitPopHighs(il);
    }
  }

  method Lift(il: ILFunction, id: StackId, ops: seq<Operand>)
    modifies il
    ensures Emits(old(il.code), il.code, StackBlock(id, ops))
  {
    hide Emits, OpBlock, OpExpr, WriteOpBlock, Append, PushArm, PopArm, PushBlock, LowerSP;
    ghost var c0 := il.code;
    EmitsNothing(il.code);
    match id {
      case PUSH(arm) => LiftPush(il, arm);
      case POP(arm) => LiftPop(il, arm);
      case PUSH_LOC16 =>
        if |ops| > 0 {
          var value := ReadOp(il, ops[0], 2);
          ghost var c1 := il.code;
          EmitPush(il, 2, value);
          EmitsAppend(c0, c1, il.code, OpBlock(ops[0]), PushBlock(2, value));
        }
      case POP_LOC16 =>
        if |ops| > 0 {
          il.Append(LowerSP(2));
          ghost var c1 := il.code;
          WriteOp(il, ops[0], 2, Load(2, Reg(4, SP)));
          EmitsAppend(c0, c1, il.code, Do(LowerSP(2), End), WriteOpBlock(ops[0], 2, Load(2, Reg(4, SP))));
        }
    }
  }
}
