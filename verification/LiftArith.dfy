/** Additions, subtractions and the conditional subtract steps: the lifter's `arith_common`.

    A function names the expression or block of each arm; the method that lifts the arm appends
    to the builder in the source's order and is proved to emit exactly that block. */
module LiftArith {
  import opened Registers
  import opened Instructions
  import opened Il
  import opened IlCode
  import opened IlBuilder
  import opened LiftOperands

  // ---- Conditional subtract ----

  /** temp(32:0) = ACC << 1 - [loc16] << 16, at 64 bits. */
  function SubcuTemp(src: Expr): Expr {
    Sub(8, Lsl(8, Zx(8, Reg(4, ACC)), Const(8, 1)), Lsl(8, Zx(8, src), Const(8, 16)))
  }

  function SubcuTest(): Expr { Cmp(Sgt, 8, Temp(8, 0), Const(8, 0)) }

  function SubcuTaken(): Expr { WithFlags(Add(4, Low(4, Temp(8, 0)), Const(4, 1)), NZC) }

  function SubcuShift(): Expr { WithFlags(Lsl(4, Reg(4, ACC), Const(4, 1)), NZC) }

  function SubcuBlock(src: Expr): Block {
    Do(SetTemp(8, 0, SubcuTemp(src)),
       Choose(SubcuTest(),
              Do(SetReg(4, ACC, SubcuTaken()), End),
              Do(SetReg(4, ACC, SubcuShift()), End),
              End))
  }

  /** temp(32:0) = ACC << 1 + P(31) - [loc32], at 64 bits. */
  function SubculTemp(src: Expr): Expr {
    var msb := Lsr(8, Zx(8, Reg(4, P)), Const(8, 31));
    var acc2 := Lsl(8, Zx(8, Reg(4, ACC)), Const(8, 1));
    Sub(8, Add(8, acc2, msb), Zx(8, src))
  }

  function SubculTest(): Expr { Cmp(Sge, 8, Temp(8, 0), Const(8, 0)) }

  function SubculTaken(): Expr { WithFlags(Low(4, Temp(8, 0)), NZC) }

  function SubculQuotient(): Expr { Add(4, Lsl(4, Reg(4, P), Const(4, 1)), Const(4, 1)) }

  function SubculShift(): Expr {
    WithFlags(Or(4, Lsl(4, Reg(4, ACC), Const(4, 1)), Lsr(4, Reg(4, P), Const(4, 31))), NZC)
  }

  function SubculShiftP(): Expr { Lsl(4, Reg(4, P), Const(4, 1)) }

  function SubculYes(): Block { Two(SetReg(4, ACC, SubculTaken()), SetReg(4, P, SubculQuotient())) }

  function SubculNo(): Block { Two(SetReg(4, ACC, SubculShift()), SetReg(4, P, SubculShiftP())) }

  function SubculBlock(src: Expr): Block {
    Do(SetTemp(8, 0, SubculTemp(src)), Choose(SubculTest(), SubculYes(), SubculNo(), End))
  }

  function SubcuYes(): Block { Do(SetReg(4, ACC, SubcuTaken()), End) }

  function SubcuNo(): Block { Do(SetReg(4, ACC, SubcuShift()), End) }

  method EmitSubcu(il: ILFunction, src: Expr)
    modifies il
    ensures Emits(old(il.code), il.code, SubcuBlock(src))
  {
    hide SubcuTemp, SubcuTest, SubcuTaken, SubcuShift, Emits;
    ghost var before := il.code;
    il.Append(SetTemp(8, 0, SubcuTemp(src)));
    ghost var c := il.code;
    var yes := il.NewLabel();
    var no := il.NewLabel();
    var done := il.NewLabel();
    il.Append(If(SubcuTest(), yes, no));
    il.MarkLabel(yes);
    ghost var c1 := il.code;
    il.Append(SetReg(4, ACC, SubcuTaken()));
    ghost var c2 := il.code;
    il.Append(Goto(done));
    il.MarkLabel(no);
    ghost var c3 := il.code;
    il.Append(SetReg(4, ACC, SubcuShift()));
    ChooseIntro(c, c1, c2, c3, il.code, SubcuTest(), SubcuYes(), SubcuNo());
    il.MarkLabel(done);
    EmitsAppend(before, c, il.code, Do(SetTemp(8, 0, SubcuTemp(src)), End),
      Choose(SubcuTest(), SubcuYes(), SubcuNo(), End));
  }

  method EmitSubcul(il: ILFunction, src: Expr)
    modifies il
    ensures Emits(old(il.code), il.code, SubculBlock(src))
  {
    hide SubculTemp, SubculTest, SubculTaken, SubculQuotient, SubculShift, SubculShiftP, Emits;
    ghost var before := il.code;
    il.Append(SetTemp(8, 0, SubculTemp(src)));
    ghost var c := il.code;
    var yes := il.NewLabel();
    var no := il.NewLabel();
    var done := il.NewLabel();
    il.Append(If(SubculTest(), yes, no));
    il.MarkLabel(yes);
    ghost var c1 := il.code;
    EmitTwo(il, SetReg(4, ACC, SubculTaken()), SetReg(4, P, SubculQuotient()));
    ghost var c2 := il.code;
    il.Append(Goto(done));
    il.MarkLabel(no);
    ghost var c3 := il.code;
    EmitTwo(il, SetReg(4, ACC, SubculShift()), SetReg(4, P, SubculShiftP()));
    ChooseIntro(c, c1, c2, c3, il.code, SubculTest(), SubculYes(), SubculNo());
    il.MarkLabel(done);
    EmitsAppend(before, c, il.code, Do(SetTemp(8, 0, SubculTemp(src)), End),
      Choose(SubculTest(), SubculYes(), SubculNo(), End));
  }

  // ---- Everything else in arith_common ----

  predicate IsAdd(id: ArithId) {
    match id
    case INC_LOC16 => true
    case ADD_ACC_LOC16 => true
    case ADDB_ACC_CONST8 => true
    case ADDL_ACC_LOC32 => true
    case ADDL_LOC32_ACC => true
    case ADDUL_P_LOC32 => true
    case ADDB_SP_CONST7 => true
    case ADDB_XARN_CONST7(_) => true
    case ADDU_ACC_LOC16 => true
    case _ => false
  }

  function AddOrSub(isAdd: bool, size: nat, a: Expr, b: Expr): Expr {
    if isAdd then Add(size, a, b) else Sub(size, a, b)
  }

  function Destination(id: ArithId): Register {
    if id.ADDUL_P_LOC32? || id.SUBUL_P_LOC32? then P else ACC
  }

  /** reg = reg op src, all arithmetic flags. */
  function Accumulate(isAdd: bool, reg: Register, src: Expr): (i: Insn)
    ensures i.IsPlain()
  {
    SetReg(4, reg, WithFlags(AddOrSub(isAdd, 4, Reg(4, reg), src), All))
  }

  /** reg = reg op #imm, no flags. */
  function MovePointer(isAdd: bool, reg: Register, amount: int): (i: Insn)
    ensures i.IsPlain()
  {
    SetReg(4, reg, AddOrSub(isAdd, 4, Reg(4, reg), Const(4, amount)))
  }

  function Borrow(src: Expr): (i: Insn)
    ensures i.IsPlain()
  {
    SetReg(4, ACC, WithFlags(Sbb(4, Reg(4, ACC), src, FlagOf(C)), All))
  }

  function Carry(src: Expr): (i: Insn)
    ensures i.IsPlain()
  {
    SetReg(4, ACC, WithFlags(Adc(4, Reg(4, ACC), src, FlagOf(C)), All))
  }

  /** The value stored by the rows whose destination is the operand. */
  function Stored(id: ArithId, e: Expr): Expr {
    match id
    case INC_LOC16 => WithFlags(Add(2, e, Const(2, 1)), All)
    case DEC_LOC16 => WithFlags(Sub(2, e, Const(2, 1)), All)
    case ADDL_LOC32_ACC => WithFlags(Add(4, e, Reg(4, ACC)), All)
    case SUBL_LOC32_ACC => WithFlags(Sub(4, e, Reg(4, ACC)), All)
    case _ => WithFlags(Sub(4, Reg(4, ACC), e), All)
  }

  predicate StoresResult(id: ArithId) {
    id.INC_LOC16? || id.DEC_LOC16? || id.ADDL_LOC32_ACC? || id.SUBL_LOC32_ACC? || id.SUBRL_LOC32_ACC?
  }

  function StoredBlock(id: ArithId, op: Operand): Block {
    var size := ArithWidth(id);
    Append(OpBlock(op), WriteOpBlock(op, size, Stored(id, OpExpr(op, size))))
  }

  /** The operand as the 32-bit right-hand side of an addition to ACC or P. */
  function Source(id: ArithId, op: Operand): Expr {
    var e := OpExpr(op, ArithWidth(id));
    if id.ADD_ACC_LOC16? || id.SUB_ACC_LOC16? then Sx(4, e)
    else if ArithWidth(id) == 2 then Zx(4, e)
    else e
  }

  function IntoRegister(id: ArithId, src: Expr): (i: Insn)
    ensures i.IsPlain()
  {
    if id.SBBU_ACC_LOC16? || id.SUBBL_ACC_LOC32? then Borrow(src)
    else if id.ADDCU_ACC_LOC16? || id.ADDCL_ACC_LOC32? then Carry(src)
    else Accumulate(IsAdd(id), Destination(id), src)
  }

  function IntoRegisterBlock(id: ArithId, op: Operand): Block {
    Append(OpBlock(op), Do(IntoRegister(id, Source(id, op)), End))
  }

  function ArithBlock(id: ArithId, ops: seq<Operand>): Block {
    if ops == [] then
      (if id.SUBCU_ACC_LOC16? || id.SUBCUL_ACC_LOC32? then Refuse(End) else End)
    else
      var op := ops[0];
      if id.SUBCU_ACC_LOC16? then Append(OpBlock(op), SubcuBlock(OpExpr(op, 2)))
      else if id.SUBCUL_ACC_LOC32? then Append(OpBlock(op), SubculBlock(OpExpr(op, 4)))
      else if StoresResult(id) then StoredBlock(id, op)
      else if id.ADDB_ACC_CONST8? || id.SUBB_ACC_CONST8? then
        Do(Accumulate(id.ADDB_ACC_CONST8?, ACC, Zx(4, Const(1, OpValue(op)))), End)
      else if id.ADDB_SP_CONST7? || id.SUBB_SP_CONST7? then
        Do(MovePointer(id.ADDB_SP_CONST7?, SP, OpValue(op) * 2), End)
      else if id.ADDB_XARN_CONST7? || id.SUBB_XARN_CONST7? then
        Do(MovePointer(id.ADDB_XARN_CONST7?, XAR(id.xar), OpValue(op)), End)
      else IntoRegisterBlock(id, op)
  }

  method LiftSubcu(il: ILFunction, op: Operand)
    modifies il
    ensures Emits(old(il.code), il.code, Append(OpBlock(op), SubcuBlock(OpExpr(op, 2))))
  {
    hide Emits, OpBlock, SubcuBlock, OpExpr, Append;
    ghost var c0 := il.code;
    var src := ReadOp(il, op, 2);
    ghost var c1 := il.code;
    EmitSubcu(il, src);
    EmitsAppend(c0, c1, il.code, OpBlock(op), SubcuBlock(src));
  }

  method LiftSubcul(il: ILFunction, op: Operand)
    modifies il
    ensures Emits(old(il.code), il.code, Append(OpBlock(op), SubculBlock(OpExpr(op, 4))))
  {
    hide Emits, OpBlock, SubculBlock, OpExpr, Append;
    ghost var c0 := il.code;
    var src := ReadOp(il, op, 4);
    ghost var c1 := il.code;
    EmitSubcul(il, src);
    EmitsAppend(c0, c1, il.code, OpBlock(op), SubculBlock(src));
  }

  method LiftStored(il: ILFunction, id: ArithId, op: Operand)
    modifies il
    ensures Emits(old(il.code), il.code, StoredBlock(id, op))
  {
    hide Emits, OpBlock, WriteOpBlock, OpExpr, Append, Stored;
    ghost var c0 := il.code;
    var size := ArithWidth(id);
    var e := ReadOp(il, op, size);
    ghost var c1 := il.code;
    var result := Stored(id, e);
    WriteOp(il, op, size, result);
    EmitsAppend(c0, c1, il.code, OpBlock(op), WriteOpBlock(op, size, result));
  }

  /** Rows that read their operand and then set one register. */
  method LiftIntoRegister(il: ILFunction, id: ArithId, op: Operand)
    modifies il
    ensures Emits(old(il.code), il.code, IntoRegisterBlock(id, op))
  {
    hide Emits, OpBlock, OpExpr, Append, Accumulate, Borrow, Carry, Destination, IsAdd;
    ghost var c0 := il.code;
    var size := ArithWidth(id);
    var e := ReadOp(il, op, size);
    ghost var c1 := il.code;
    var src := e;
    if id.ADD_ACC_LOC16? || id.SUB_ACC_LOC16? {
      src := Sx(4, e);
    } else if size == 2 {
      src := Zx(4, e);
    }
    var insn;
    if id.SBBU_ACC_LOC16? || id.SUBBL_ACC_LOC32? {
      insn := Borrow(src);
    } else if id.ADDCU_ACC_LOC16? || id.ADDCL_ACC_LOC32? {
      insn := Carry(src);
    } else {
      insn := Accumulate(IsAdd(id), Destination(id), src);
    }
    il.Append(insn);
    EmitsAppend(c0, c1, il.code, OpBlock(op), Do(insn, End));
  }

  method Lift(il: ILFunction, id: ArithId, ops: seq<Operand>)
    modifies il
    ensures Emits(old(il.code), il.code, ArithBlock(id, ops))
  {
    hide Emits, Append, SubcuBlock, SubculBlock, StoredBlock, IntoRegisterBlock, OpValue, Accumulate, MovePointer;
    if |ops| == 0 {
      if id.SUBCU_ACC_LOC16? || id.SUBCUL_ACC_LOC32? {
        il.Append(Unimplemented);
      } else {
        EmitsNothing(il.code);
      }
      return;
    }
    var op := ops[0];
    if id.SUBCU_ACC_LOC16? {
      LiftSubcu(il, op);
    } else if id.SUBCUL_ACC_LOC32? {
      LiftSubcul(il, op);
    } else if StoresResult(id) {
      LiftStored(il, id, op);
    } else if id.ADDB_ACC_CONST8? || id.SUBB_ACC_CONST8? {
      il.Append(Accumulate(id.ADDB_ACC_CONST8?, ACC, Zx(4, Const(1, OpValue(op)))));
    } else if id.ADDB_SP_CONST7? || id.SUBB_SP_CONST7? {
      il.Append(MovePointer(id.ADDB_SP_CONST7?, SP, OpValue(op) * 2));
    } else if id.ADDB_XARN_CONST7? || id.SUBB_XARN_CONST7? {
      il.Append(MovePointer(id.ADDB_XARN_CONST7?, XAR(id.xar), OpValue(op)));
    } else {
      LiftIntoRegister(il, id, op);
    }
  }
}
