/** The stepping operands *XARn++ and *--XARn: which cell they access and where they leave the pointer. */
module Stepping {
  import opened Wrappers
  import opened Registers
  import opened Operands
  import opened Instructions
  import opened Il
  import opened IlCode
  import opened LiftOperands
  import opened Lifter
  import opened Relation
  import opened SimArith
  import opened Storage
  import opened Scratch
  import M = Machine
  import Bits

  function PostInc(n: Index): ResolvedOperand { Resolved(IndirectPostInc, None, Some(n), 0) }

  function PreDec(n: Index): ResolvedOperand { Resolved(IndirectPreDec, None, Some(n), 0) }

  /** XARn has moved by so many words, modulo 2^32, and no other register but its low half. */
  ghost predicate PointerMoved(n: Index, move: int, a: RegFile, b: RegFile) {
    && ReadReg(b, XAR(n)) == (ReadReg(a, XAR(n)) + move) % 0x1_0000_0000
    && forall q: Register :: q != XAR(n) && q != AR(n) ==> ReadReg(b, q) == ReadReg(a, q)
  }

  /** Byte address of the word that XARn names, or of one so many words on. */
  function ByteAddress(n: Index, move: int, regs: RegFile): nat { 2 * ((ReadReg(regs, XAR(n)) + move) % M.WORD_SPACE) }

  function Step(n: Index, up: bool, size: nat): Insn {
    SetReg(4, XAR(n),
           if up then Add(4, Reg(4, XAR(n)), Const(4, size / 2)) else Sub(4, Reg(4, XAR(n)), Const(4, size / 2)))
  }

  function By(up: bool, size: nat): int { if up then size / 2 else -((size / 2) as int) }

  lemma XarMoved(n: Index, move: int, regs: RegFile)
    ensures PointerMoved(n, move, regs, WriteReg(regs, XAR(n), Wrap(ReadReg(regs, XAR(n)) + move, 4)))
  {
    hide ReadReg, WriteReg;
    var v := Wrap(ReadReg(regs, XAR(n)) + move, 4);
    ReadWritten(regs, XAR(n), v);
    forall q: Register | q != XAR(n) && q != AR(n) ensures ReadReg(WriteReg(regs, XAR(n), v), q) == ReadReg(regs, q) {
      WriteOther(regs, XAR(n), q, v);
    }
  }

  /** The step changes the pointer and nothing else. */
  lemma StepExec(n: Index, up: bool, size: nat, st: State, o: Oracle)
    requires size == 2 || size == 4
    ensures Step(n, up, size).IsPlain()
    ensures var out := Exec(Step(n, up, size), st, o);
      PointerMoved(n, By(up, size), st.regs, out.regs) && out == st.(regs := out.regs)
  {
    hide Eval, SizeOf, Modulus, Wrap, ReadReg, WriteReg, Reg, Add, Sub, Const, PointerMoved;
    var v := ReadReg(st.regs, XAR(n));
    FullWidth(st.regs);
    XarMoved(n, By(up, size), st.regs);
    StepFlags(n, up, size, st, o);
    assert Eval(Step(n, up, size).value, st) == Wrap(v + By(up, size), 4);
  }

  lemma StepFlags(n: Index, up: bool, size: nat, st: State, o: Oracle)
    ensures FlagsAfter(Step(n, up, size).value, st, o) == st.flags
  {
    hide Eval, WriteFlags;
  }

  /** Both operands name the word XARn points to when the address is evaluated. */
  lemma AddressAt(r: ResolvedOperand, n: Index, st: State)
    requires r == PostInc(n) || r == PreDec(n)
    ensures Eval(LocAddress(r), st) == ByteAddress(n, 0, st.regs)
  {
    hide Eval, SizeOf, Modulus, Wrap, ReadReg, Reg, Const, Lsl, Bits.Shl;
    FullWidth(st.regs);
    var v := ReadReg(st.regs, XAR(n));
    Bits.Shl1(v);
    DoubleWord(v);
  }

  /** The address after a step, from the pointer before it. */
  lemma AddressMoved(n: Index, move: int, a: RegFile, b: RegFile)
    requires PointerMoved(n, move, a, b)
    ensures ByteAddress(n, 0, b) == ByteAddress(n, move, a)
  {
    hide ReadReg;
    var x := ReadReg(a, XAR(n)) + move;
    Shrink(x);
  }

  lemma Shrink(x: int)
    ensures x % 0x1_0000_0000 % M.WORD_SPACE == x % M.WORD_SPACE
  {
    var low := x % 0x1_0000_0000;
    Bits.DivUnique(x, M.WORD_SPACE, 2 * (x / 0x1_0000_0000) + low / M.WORD_SPACE, low % M.WORD_SPACE);
  }

  lemma StoreExec(r: ResolvedOperand, n: Index, size: nat, value: Expr, st: State, o: Oracle)
    requires r == PostInc(n) || r == PreDec(n)
    ensures Exec(WriteInsn(r, size, value), st, o) ==
            st.(mem := StoreBytes(st.mem, ByteAddress(n, 0, st.regs), size, Eval(value, st)),
                flags := FlagsAfter(value, st, o))
  {
    hide Eval, LocAddress, StoreBytes, FlagsAfter, ByteAddress;
    AddressAt(r, n, st);
  }

  // ---- Writing ----

  /** Writing `*XARn++` stores to the cell XARn names and then moves it past the cell. */
  lemma {:induction false} PostIncWrite(n: Index, size: nat, value: Expr, st: State, o: Oracle)
    requires size == 2 || size == 4
    ensures var out := ExecBlock(WriteBlock(PostInc(n), size, value), st, o);
      && out.Falls?
      && out.st.mem == StoreBytes(st.mem, 2 * (ReadReg(st.regs, XAR(n)) % M.WORD_SPACE), size, Eval(value, st))
      && PointerMoved(n, size / 2, st.regs, out.st.regs)
      && out.st.temps == st.temps && out.st.flags == FlagsAfter(value, st, o)
  {
    hide Eval, StoreBytes, FlagsAfter, PointerMoved, Exec, WriteInsn, ReadReg, Add, Sub, Reg, Const, ExecBlock, Two;
    var write := WriteInsn(PostInc(n), size, value);
    var mid := Exec(write, st, o);
    StoreExec(PostInc(n), n, size, value, st, o);
    StepExec(n, true, size, mid, o);
    assert WriteBlock(PostInc(n), size, value) == Do(write, Do(Step(n, true, size), End));
    TwoSteps(write, Step(n, true, size), st, o);
  }

  lemma TwoSteps(a: Insn, b: Insn, st: State, o: Oracle)
    requires a.IsPlain() && b.IsPlain()
    ensures ExecBlock(Do(a, Do(b, End)), st, o) == Falls(Exec(b, Exec(a, st, o), o))
  {
    hide Exec;
    ExecOne(b, Exec(a, st, o), o);
  }

  /** Writing `*--XARn` moves the pointer first and stores to the cell it then names. The value
      is evaluated after the step, so it sees the moved pointer if it reads it. */
  lemma {:induction false} PreDecWrite(n: Index, size: nat, value: Expr, st: State, o: Oracle)
    requires size == 2 || size == 4
    ensures var out := ExecBlock(WriteBlock(PreDec(n), size, value), st, o);
      && out.Falls?
      && PointerMoved(n, -((size / 2) as int), st.regs, out.st.regs)
      && out.st.mem == StoreBytes(st.mem, 2 * ((ReadReg(st.regs, XAR(n)) - size / 2) % M.WORD_SPACE), size,
                                  Eval(value, st.(regs := out.st.regs)))
      && out.st.temps == st.temps && out.st.flags == FlagsAfter(value, st.(regs := out.st.regs), o)
  {
    hide Eval, StoreBytes, FlagsAfter, PointerMoved, Exec, WriteInsn, ReadReg, Add, Sub, Reg, Const, ExecBlock, Two;
    var write := WriteInsn(PreDec(n), size, value);
    var mid := Exec(Step(n, false, size), st, o);
    StepExec(n, false, size, st, o);
    AddressMoved(n, By(false, size), st.regs, mid.regs);
    StoreExec(PreDec(n), n, size, value, mid, o);
    assert WriteBlock(PreDec(n), size, value) == Do(Step(n, false, size), Do(write, End));
    TwoSteps(Step(n, false, size), write, st, o);
  }

  // ---- Reading ----

  /** Reading `*--XARn` moves the pointer first and loads from the cell it then names. */
  lemma {:induction false} PreDecRead(n: Index, size: nat, st: State, o: Oracle)
    requires size == 2 || size == 4
    ensures var out := ExecBlock(ReadBlock(PreDec(n), size), st, o);
      && out.Falls? && out.st == st.(regs := out.st.regs)
      && PointerMoved(n, -((size / 2) as int), st.regs, out.st.regs)
      && Eval(ReadExpr(PreDec(n), size), out.st) ==
         LoadBytes(st.mem, 2 * ((ReadReg(st.regs, XAR(n)) - size / 2) % M.WORD_SPACE), size)
  {
    hide Eval, LoadBytes, PointerMoved, Exec, ReadReg, Add, Sub, Reg, Const, ExecBlock, LocAddress, Load;
    var mid := Exec(Step(n, false, size), st, o);
    StepExec(n, false, size, st, o);
    AddressMoved(n, By(false, size), st.regs, mid.regs);
    AddressAt(PreDec(n), n, mid);
    ExecOne(Step(n, false, size), st, o);
    assert ReadBlock(PreDec(n), size) == Do(Step(n, false, size), End);
  }

  /** Reading `*XARn++` moves the pointer, and the load, which runs later, sees it moved. */
  lemma {:induction false} PostIncRead(n: Index, size: nat, st: State, o: Oracle)
    requires size == 2 || size == 4
    ensures var out := ExecBlock(ReadBlock(PostInc(n), size), st, o);
      && out.Falls? && out.st == st.(regs := out.st.regs)
      && PointerMoved(n, size / 2, st.regs, out.st.regs)
      && Eval(ReadExpr(PostInc(n), size), out.st) ==
         LoadBytes(st.mem, 2 * ((ReadReg(st.regs, XAR(n)) + size / 2) % M.WORD_SPACE), size)
  {
    hide Eval, LoadBytes, PointerMoved, Exec, ReadReg, Add, Sub, Reg, Const, ExecBlock, LocAddress, Load;
    var mid := Exec(Step(n, true, size), st, o);
    StepExec(n, true, size, st, o);
    AddressMoved(n, By(true, size), st.regs, mid.regs);
    AddressAt(PostInc(n), n, mid);
    ExecOne(Step(n, true, size), st, o);
    assert ReadBlock(PostInc(n), size) == Do(Step(n, true, size), End);
  }

  // ---- Whole instructions ----

  lemma StoreRow(r: ResolvedOperand)
    ensures Lifted(Row(Mov(MOV_LOC_REG(ACC)), [Loc32(r)])) == WriteBlock(r, 4, Reg(4, ACC))
  {
    hide WriteBlock, Reg;
    var ops := [Loc32(r)];
    assert ops[1..] == [] && FindCondition(ops) == None;
  }

  /** The lifted MOVL *XARn++,ACC stores ACC where XARn points and leaves it two words on. */
  lemma {:induction false} PostIncStore(n: Index, st: State, o: Oracle)
    ensures var out := ExecBlock(Lifted(Row(Mov(MOV_LOC_REG(ACC)), [Loc32(PostInc(n))])), st, o);
      && out.Falls?
      && out.st.mem == StoreBytes(st.mem, 2 * (ReadReg(st.regs, XAR(n)) % M.WORD_SPACE), 4, ReadReg(st.regs, ACC))
      && PointerMoved(n, 2, st.regs, out.st.regs)
      && out.st.flags == st.flags
  {
    hide Eval, StoreBytes, PointerMoved, ReadReg, Reg, ExecBlock, WriteBlock, Lifted, Modulus;
    StoreRow(PostInc(n));
    FullWidth(st.regs);
    AccFlags(st, o);
    PostIncWrite(n, 4, Reg(4, ACC), st, o);
  }

  /** And MOVL *--XARn,ACC to the two words before it, where it leaves XARn. */
  lemma {:induction false} PreDecStore(n: Index, st: State, o: Oracle)
    ensures var out := ExecBlock(Lifted(Row(Mov(MOV_LOC_REG(ACC)), [Loc32(PreDec(n))])), st, o);
      && out.Falls?
      && out.st.mem == StoreBytes(st.mem, 2 * ((ReadReg(st.regs, XAR(n)) - 2) % M.WORD_SPACE), 4, ReadReg(st.regs, ACC))
      && PointerMoved(n, -2, st.regs, out.st.regs)
      && out.st.flags == st.flags
  {
    hide Eval, StoreBytes, ReadReg, Reg, ExecBlock, WriteBlock, Lifted, Modulus;
    StoreRow(PreDec(n));
    PreDecWrite(n, 4, Reg(4, ACC), st, o);
    var out := ExecBlock(WriteBlock(PreDec(n), 4, Reg(4, ACC)), st, o).st;
    FullWidth(out.regs);
    AccFlags(st.(regs := out.regs), o);
  }

  lemma AccFlags(st: State, o: Oracle)
    ensures FlagsAfter(Reg(4, ACC), st, o) == st.flags
  {
    hide WriteFlags;
  }
}
