/** Reading and writing operands: the lifter's `read_loc`, `write_loc` and `loc_address`.

    Reading returns an expression to embed and appends only pointer steps; writing appends a
    register write or a store with the steps around it. */
module LiftOperands {
  import opened Registers
  import opened Operands
  import opened Il
  import opened IlCode
  import opened IlBuilder
  import opened Instructions

  /** Byte address of a memory operand. XARn and DP hold word addresses and are doubled here;
      SP holds a byte address already. */
  function LocAddress(r: ResolvedOperand): Expr {
    match r.mode
    case DpDirect =>
      var base := Lsl(4, Zx(4, Reg(2, DP)), Const(4, 6));
      Lsl(4, Add(4, base, Const(4, r.offset)), Const(4, 1))
    case SpRelative => Sub(4, Reg(4, SP), Const(4, r.offset * 2))
    case IndirectAr0 =>
      if r.xarIndex.None? then Const(4, 0)
      else Lsl(4, Add(4, Reg(4, XAR(r.xarIndex.value)), Zx(4, Reg(2, AR(0)))), Const(4, 1))
    case IndirectAr1 =>
      if r.xarIndex.None? then Const(4, 0)
      else Lsl(4, Add(4, Reg(4, XAR(r.xarIndex.value)), Zx(4, Reg(2, AR(1)))), Const(4, 1))
    case RegisterDirect => Const(4, 0)
    case _ =>
      if r.xarIndex.None? then Const(4, 0)
      else if r.offset == 0 then Lsl(4, Reg(4, XAR(r.xarIndex.value)), Const(4, 1))
      else Lsl(4, Add(4, Reg(4, XAR(r.xarIndex.value)), Const(4, r.offset)), Const(4, 1))
  }

  predicate IsRegister(r: ResolvedOperand) {
    r.mode.RegisterDirect? && r.register.Some?
  }

  function ReadExpr(r: ResolvedOperand, size: nat): Expr {
    if IsRegister(r) then Reg(size, r.register.value) else Load(size, LocAddress(r))
  }

  function WriteInsn(r: ResolvedOperand, size: nat, value: Expr): (i: Insn)
    ensures i.IsPlain()
  {
    if IsRegister(r) then SetReg(size, r.register.value, value) else Store(size, LocAddress(r), value)
  }

  /** The pointer step before an access, and the one after it. */
  function StepBefore(r: ResolvedOperand, size: nat): (b: Block)
    ensures Open(b)
  {
    if r.mode.IndirectPreDec? && r.xarIndex.Some? then
      var xar := XAR(r.xarIndex.value);
      Do(SetReg(4, xar, Sub(4, Reg(4, xar), Const(4, size / 2))), End)
    else End
  }

  function StepAfter(r: ResolvedOperand, size: nat): (b: Block)
    ensures Open(b)
  {
    if r.mode.IndirectPostInc? && r.xarIndex.Some? then
      var xar := XAR(r.xarIndex.value);
      Do(SetReg(4, xar, Add(4, Reg(4, xar), Const(4, size / 2))), End)
    else End
  }

  /** What reading an operand appends ahead of the instruction that embeds the value. */
  function ReadBlock(r: ResolvedOperand, size: nat): (b: Block)
    ensures Open(b)
  {
    if r.mode.IndirectPreDec? then StepBefore(r, size) else StepAfter(r, size)
  }

  function WriteBlock(r: ResolvedOperand, size: nat, value: Expr): (b: Block)
    ensures Open(b)
  {
    var write := WriteInsn(r, size, value);
    if r.mode.IndirectPreDec? && r.xarIndex.Some? then
      Do(StepBefore(r, size).insn, Do(write, End))
    else Do(write, StepAfter(r, size))
  }

  method ReadLoc(il: ILFunction, r: ResolvedOperand, size: nat) returns (e: Expr)
    modifies il
    ensures e == ReadExpr(r, size)
    ensures Emits(old(il.code), il.code, ReadBlock(r, size))
  {
    hide LocAddress, Reg, Sub, Add, Const, Load, Emits;
    EmitsNothing(il.code);
    if r.mode.RegisterDirect? && r.register.Some? {
      e := Reg(size, r.register.value);
      return;
    }
    if r.mode.IndirectPreDec? {
      if r.xarIndex.Some? {
        var xar := XAR(r.xarIndex.value);
        il.Append(SetReg(4, xar, Sub(4, Reg(4, xar), Const(4, size / 2))));
      }
    }
    e := Load(size, LocAddress(r));
    if r.mode.IndirectPostInc? {
      if r.xarIndex.Some? {
        var xar := XAR(r.xarIndex.value);
        il.Append(SetReg(4, xar, Add(4, Reg(4, xar), Const(4, size / 2))));
      }
    }
  }

  method WriteLoc(il: ILFunction, r: ResolvedOperand, size: nat, value: Expr)
    modifies il
    ensures Emits(old(il.code), il.code, WriteBlock(r, size, value))
  {
    hide LocAddress, Reg, Sub, Add, Const, Load, Emits, Emitted, Len;
    ghost var c0 := il.code;
    if r.mode.RegisterDirect? && r.register.Some? {
      il.Append(SetReg(size, r.register.value, value));
      return;
    }
    var xar := if r.xarIndex.Some? then XAR(r.xarIndex.value) else XAR(0);
    EmitsNothing(c0);
    if r.mode.IndirectPreDec? && r.xarIndex.Some? {
      il.Append(SetReg(4, xar, Sub(4, Reg(4, xar), Const(4, size / 2))));
    }
    ghost var c1 := il.code;
    var store := Store(size, LocAddress(r), value);
    il.Append(store);
    ghost var c2 := il.code;
    EmitsNothing(c2);
    if r.mode.IndirectPostInc? && r.xarIndex.Some? {
      il.Append(SetReg(4, xar, Add(4, Reg(4, xar), Const(4, size / 2))));
    }
    ghost var before := if r.mode.IndirectPreDec? then StepBefore(r, size) else End;
    EmitsAppend(c0, c1, c2, before, Do(store, End));
    EmitsAppend(c0, c2, il.code, Append(before, Do(store, End)), StepAfter(r, size));
  }

  /** Plain operands append nothing when read and one instruction when written. */
  lemma PlainBlocks(r: ResolvedOperand, size: nat, value: Expr)
    requires Plain(r, size)
    ensures ReadBlock(r, size) == End
    ensures WriteBlock(r, size, value) == Do(WriteInsn(r, size, value), End)
  {
    hide WriteInsn;
  }

  // ---- Operands of any kind: `read_op`, and `write_loc` on an operand ----

  function OpExpr(op: Operand, size: nat): Expr {
    match op
    case Immediate(value) => Const(size, value)
    case Loc16(loc) => ReadExpr(loc, 2)
    case Loc32(loc) => ReadExpr(loc, 4)
    case Condition(_) => Const(size, 0)
  }

  function OpBlock(op: Operand): (b: Block)
    ensures Open(b)
  {
    match op
    case Immediate(_) => End
    case Loc16(loc) => ReadBlock(loc, 2)
    case Loc32(loc) => ReadBlock(loc, 4)
    case Condition(_) => Refuse(End)
  }

  function WriteOpBlock(op: Operand, size: nat, value: Expr): (b: Block)
    ensures Open(b)
  {
    match op
    case Loc16(loc) => WriteBlock(loc, size, value)
    case Loc32(loc) => WriteBlock(loc, size, value)
    case _ => Do(Nop, End)
  }

  /** The immediate of an operand; no modelled row takes the raw field of a loc operand. */
  function OpValue(op: Operand): int {
    match op
    case Immediate(value) => value
    case Condition(code) => code
    case _ => 0
  }

  method ReadOp(il: ILFunction, op: Operand, size: nat) returns (e: Expr)
    modifies il
    ensures e == OpExpr(op, size)
    ensures Emits(old(il.code), il.code, OpBlock(op))
  {
    hide ReadExpr, ReadBlock, Emits, Const;
    match op
    case Immediate(value) =>
      EmitsNothing(il.code);
      e := Const(size, value);
    case Loc16(loc) => e := ReadLoc(il, loc, 2);
    case Loc32(loc) => e := ReadLoc(il, loc, 4);
    case Condition(_) =>
      il.Append(Unimplemented);
      e := Const(size, 0);
  }

  method WriteOp(il: ILFunction, op: Operand, size: nat, value: Expr)
    modifies il
    ensures Emits(old(il.code), il.code, WriteOpBlock(op, size, value))
  {
    hide WriteBlock, Emits;
    match op
    case Loc16(loc) => WriteLoc(il, loc, size, value);
    case Loc32(loc) => WriteLoc(il, loc, size, value);
    case _ => il.Append(Nop);
  }
}
