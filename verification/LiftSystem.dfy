/** Status bits, integer maximum and minimum, and the 64-bit left shift of ACC:P.

    The select reads its operand once, into a temporary; the shift builds one expression that
    both of its register writes embed. */
module LiftSystem {
  import opened Registers
  import opened Instructions
  import opened Il
  import opened IlCode
  import opened IlBuilder
  import opened LiftOperands
  import Bits

  // ---- MAX and MIN ----

  /** Read the operand once into a temporary, compare for the flags, replace unless kept. */
  function SelectBlock(reg: Register, op: Operand, keep: CmpOp, flags: FlagWrite): Block {
    Append(OpBlock(op), Append(SelectCompare(reg, OpExpr(op, 4), flags), SelectReplace(reg, keep)))
  }

  function SelectCompare(reg: Register, value: Expr, flags: FlagWrite): (b: Block)
    ensures Open(b)
  {
    Two(SetTemp(4, 0, value), Compute(WithFlags(Sub(4, Reg(4, reg), Temp(4, 0)), flags)))
  }

  function KeepTest(reg: Register, keep: CmpOp): Expr { Cmp(keep, 4, Reg(4, reg), Temp(4, 0)) }

  function Replace(reg: Register): (i: Insn)
    ensures i.IsPlain()
  {
    SetReg(4, reg, Temp(4, 0))
  }

  function SelectReplace(reg: Register, keep: CmpOp): Block {
    Guard(KeepTest(reg, keep), false, Do(Replace(reg), End), End)
  }

  method EmitReplace(il: ILFunction, reg: Register, keep: CmpOp)
    modifies il
    ensures Emits(old(il.code), il.code, SelectReplace(reg, keep))
  {
    hide Emits, KeepTest, Replace;
    ghost var c := il.code;
    var keepLabel := il.NewLabel();
    var replace := il.NewLabel();
    il.Append(If(KeepTest(reg, keep), keepLabel, replace));
    il.MarkLabel(replace);
    ghost var c1 := il.code;
    il.Append(Replace(reg));
    GuardIntro(c, c1, il.code, KeepTest(reg, keep), false, Do(Replace(reg), End));
    il.MarkLabel(keepLabel);
  }

  method EmitSelect(il: ILFunction, reg: Register, op: Operand, keep: CmpOp, flags: FlagWrite)
    modifies il
    ensures Emits(old(il.code), il.code, SelectBlock(reg, op, keep, flags))
  {
    hide Emits, OpBlock, OpExpr, Append, SelectReplace, Two;
    ghost var c0 := il.code;
    var value := ReadOp(il, op, 4);
    ghost var c1 := il.code;
    EmitTwo(il, SetTemp(4, 0, value), Compute(WithFlags(Sub(4, Reg(4, reg), Temp(4, 0)), flags)));
    ghost var c2 := il.code;
    EmitReplace(il, reg, keep);
    EmitsAppend(c1, c2, il.code, SelectCompare(reg, value, flags), SelectReplace(reg, keep));
    EmitsAppend(c0, c1, il.code, OpBlock(op), Append(SelectCompare(reg, value, flags), SelectReplace(reg, keep)));
  }

  // ---- SETC and CLRC ----

  function WriteBit(flag: Flag, on: bool): (i: Insn)
    ensures i.IsPlain()
  {
    SetFlag(flag, Const(0, if on then 1 else 0))
  }

  /** The mask bits that are modelled flags, in the order they are written. */
  const MODE_FLAGS: seq<(nat, Flag)> := [(1, OVM), (2, TC), (3, C)]

  function ModeBits(mask: nat, on: bool, bits: seq<(nat, Flag)>): (b: Block)
    ensures Open(b)
  {
    if bits == [] then End
    else
      var rest := ModeBits(mask, on, bits[1..]);
      if Bits.Bit(mask, bits[0].0) then Do(WriteBit(bits[0].1, on), rest) else rest
  }

  function ModeBlock(mask: nat, on: bool): Block {
    var bits := ModeBits(mask, on, MODE_FLAGS);
    if bits == End then Do(Nop, End) else bits
  }

  lemma {:induction false} ModeBitsSplit(mask: nat, on: bool, done: seq<(nat, Flag)>, bit: (nat, Flag))
    ensures ModeBits(mask, on, done + [bit]) ==
            Append(ModeBits(mask, on, done),
                   if Bits.Bit(mask, bit.0) then Do(WriteBit(bit.1, on), End) else End)
  {
    hide WriteBit, Bits.Bit;
    if done == [] {
      assert done + [bit] == [bit];
      assert [bit][1..] == [];
    } else {
      assert (done + [bit])[1..] == done[1..] + [bit];
      ModeBitsSplit(mask, on, done[1..], bit);
    }
  }

  lemma {:induction false} AppendEnd(b: Block)
    ensures Append(b, End) == b
  {
    match b
    case End =>
    case Do(_, next) => AppendEnd(next);
    case Guard(_, _, _, next) => AppendEnd(next);
    case Choose(_, _, _, next) => AppendEnd(next);
    case Leave(_) =>
    case Refuse(next) => AppendEnd(next);
  }

  method EmitMode(il: ILFunction, mask: nat, on: bool)
    modifies il
    ensures Emits(old(il.code), il.code, ModeBlock(mask, on))
  {
    hide Emits, Append, WriteBit, ModeBits, Bits.Bit;
    ghost var c0 := il.code;
    EmitsNothing(c0);
    ModeBitsNone(mask, on);
    var any := false;
    for i := 0 to |MODE_FLAGS|
      invariant Emits(c0, il.code, ModeBits(mask, on, MODE_FLAGS[..i]))
      invariant any == !ModeBits(mask, on, MODE_FLAGS[..i]).End?
      invariant !any ==> il.code == c0
    {
      var (bit, flag) := MODE_FLAGS[i];
      ghost var done := MODE_FLAGS[..i];
      ghost var c1 := il.code;
      assert MODE_FLAGS[..i + 1] == done + [MODE_FLAGS[i]];
      ModeBitsSplit(mask, on, done, MODE_FLAGS[i]);
      if Bits.Bit(mask, bit) {
        il.Append(WriteBit(flag, on));
        any := true;
        EmitsAppend(c0, c1, il.code, ModeBits(mask, on, done), Do(WriteBit(flag, on), End));
        AppendNonEmpty(ModeBits(mask, on, done), Do(WriteBit(flag, on), End));
      } else {
        AppendEnd(ModeBits(mask, on, done));
      }
    }
    assert MODE_FLAGS[..|MODE_FLAGS|] == MODE_FLAGS;
    if !any {
      il.Append(Nop);
    }
  }

  lemma ModeBitsNone(mask: nat, on: bool)
    ensures ModeBits(mask, on, MODE_FLAGS[..0]) == End
  {}

  lemma AppendNonEmpty(a: Block, b: Block)
    requires !b.End?
    ensures !Append(a, b).End?
  {}

  // ---- LSL64 ACC:P ----

  /** The pair as one 64-bit value, shifted; flagged on the shift itself. */
  function ShiftedPair(amount: Expr): Expr {
    var high := Lsl(8, Zx(8, Reg(4, ACC)), Const(8, 32));
    var pair := Or(8, high, Zx(8, Reg(4, P)));
    WithFlags(Lsl(8, pair, amount), NZC)
  }

  /** Both writes hold the same expression: the second is evaluated after ACC has changed. */
  function ShiftHigh(amount: Expr): (i: Insn)
    ensures i.IsPlain()
  {
    SetReg(4, ACC, Lsr(8, ShiftedPair(amount), Const(8, 32)))
  }

  function ShiftLow(amount: Expr): (i: Insn)
    ensures i.IsPlain()
  {
    SetReg(4, P, Low(4, ShiftedPair(amount)))
  }

  function Lsl64Block(ops: seq<Operand>): Block {
    if ops == [] then Two(ShiftHigh(Const(8, 1)), ShiftLow(Const(8, 1)))
    else
      var amount := OpExpr(ops[0], 8);
      Append(OpBlock(ops[0]), Two(ShiftHigh(amount), ShiftLow(amount)))
  }

  method LiftLsl64(il: ILFunction, ops: seq<Operand>)
    modifies il
    ensures Emits(old(il.code), il.code, Lsl64Block(ops))
  {
    hide Emits, OpBlock, OpExpr, Append, ShiftHigh, ShiftLow, Two;
    if |ops| == 0 {
      EmitTwo(il, ShiftHigh(Const(8, 1)), ShiftLow(Const(8, 1)));
      return;
    }
    ghost var c0 := il.code;
    var amount := ReadOp(il, ops[0], 8);
    ghost var c1 := il.code;
    EmitTwo(il, ShiftHigh(amount), ShiftLow(amount));
    EmitsAppend(c0, c1, il.code, OpBlock(ops[0]), Two(ShiftHigh(amount), ShiftLow(amount)));
  }

  // ---- Dispatch ----

  function Mask(ops: seq<Operand>): nat {
    if ops == [] || OpValue(ops[0]) < 0 then 0 else OpValue(ops[0])
  }

  function SystemBlock(id: SystemId, ops: seq<Operand>): Block {
    match id
    case SETC_MODE => ModeBlock(Mask(ops), true)
    case CLRC_MODE => ModeBlock(Mask(ops), false)
    case MAXL_ACC_LOC32 => if ops == [] then End else SelectBlock(ACC, ops[0], Sge, All)
    case MINL_ACC_LOC32 => if ops == [] then End else SelectBlock(ACC, ops[0], Sle, All)
    case MAXCUL_P_LOC32 => if ops == [] then End else SelectBlock(P, ops[0], Uge, NZV)
    case MINCUL_P_LOC32 => if ops == [] then End else SelectBlock(P, ops[0], Ule, NZV)
    case LSL64_ACC_P_SHIFT => Lsl64Block(ops)
  }

  method Lift(il: ILFunction, id: SystemId, ops: seq<Operand>)
    modifies il
    ensures Emits(old(il.code), il.code, SystemBlock(id, ops))
  {
    hide Emits, ModeBlock, SelectBlock, Lsl64Block, Mask;
    EmitsNothing(il.code);
    match id {
      case SETC_MODE => EmitMode(il, Mask(ops), true);
      case CLRC_MODE => EmitMode(il, Mask(ops), false);
      case MAXL_ACC_LOC32 => if |ops| > 0 { EmitSelect(il, ACC, ops[0], Sge, All); }
      case MINL_ACC_LOC32 => if |ops| > 0 { EmitSelect(il, ACC, ops[0], Sle, All); }
      case MAXCUL_P_LOC32 => if |ops| > 0 { EmitSelect(il, P, ops[0], Uge, NZV); }
      case MINCUL_P_LOC32 => if |ops| > 0 { EmitSelect(il, P, ops[0], Ule, NZV); }
      case LSL64_ACC_P_SHIFT => LiftLsl64(il, ops);
    }
  }
}
