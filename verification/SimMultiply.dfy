/** Lifted multiply-accumulates do what the machine does.

    The three effects are followed in order: ACC takes in the old product, T is loaded, and P
    becomes the product of the new T and the second factor, all before XAR7 steps. */
module SimMultiply {
  import opened Registers
  import opened Operands
  import opened Instructions
  import opened Il
  import opened IlCode
  import opened LiftOperands
  import opened LiftMultiply
  import opened Relation
  import opened SimArith
  import opened SimMov
  import opened Storage
  import LiftArith
  import M = Machine
  import Bits

  // ---- Products modulo 2^32 ----

  /** A product modulo 2^32 only depends on its factors modulo 2^32. */
  lemma ProductWraps(a: int, b: int)
    ensures Wrap(Wrap(a, 4) * Wrap(b, 4), 4) == Wrap(a * b, 4)
  {
    var m := 0x1_0000_0000;
    var qa, qb := a / m, b / m;
    var ra, rb := a % m, b % m;
    assert Wrap(a, 4) == ra && Wrap(b, 4) == rb;
    var q := qa * b + ra * qb;
    assert a * b == q * m + ra * rb by {
      hide Wrap;
      assert a == qa * m + ra && b == qb * m + rb;
      Expand(qa, ra, b, qb, rb, m);
    }
    hide Wrap;
    WrapMultiple(q, ra * rb);
  }

  lemma Expand(qa: int, ra: int, b: int, qb: int, rb: int, m: int)
    requires b == qb * m + rb
    ensures (qa * m + ra) * b == (qa * b + ra * qb) * m + ra * rb
  {
    assert (qa * m + ra) * b == (qa * m) * b + ra * b;
    assert ra * b == ra * (qb * m) + ra * rb;
    assert (qa * b + ra * qb) * m == (qa * b) * m + (ra * qb) * m;
  }

  lemma WrapMultiple(q: int, r: int)
    ensures Wrap(q * 0x1_0000_0000 + r, 4) == Wrap(r, 4)
  {}

  // ---- The three effects ----

  lemma AddProductOk(k: Known, st: State, ms: M.Machine, o: Oracle)
    requires Rel(k, st, ms)
    ensures Rel(Known(Direct, true, true), Exec(AddProduct(), st, o),
                M.AluInto(ms, ACC, ReadReg(ms.regs, ACC) + ReadReg(ms.regs, P), false))
  {
    hide Eval, CarryOf, Modulus, SizeOf, Rel, FlagsAfter, WithFlags, Wrap, Exec, Reg, Add, ReadReg, M.AluInto;
    AccSame(k, st, ms);
    AluIntoRegister(k, ACC, Add(4, Reg(4, ACC), Reg(4, P)), ReadReg(ms.regs, ACC) + ReadReg(ms.regs, P), false, st, ms,
      o);
  }

  lemma ProductValue(factor: Expr, t: nat, f: nat, st: State, o: Oracle)
    requires SizeOf(factor) == 2 && Eval(factor, st) == f && ReadReg(st.regs, T) == t < Modulus(2)
    ensures var e := Mul(4, Sx(4, Reg(2, T)), Sx(4, factor));
      && Eval(e, st) == Wrap(Signed(t, 2) * Signed(f, 2), 4) && SizeOf(e) == 4
  {
    hide Eval, SizeOf, Modulus, Wrap, ReadReg, Signed, Mul, Sx, Reg;
    ProductWraps(Signed(t, 2), Signed(f, 2));
  }

  lemma ProductFlags(factor: Expr, st: State, o: Oracle)
    ensures FlagsAfter(Mul(4, Sx(4, Reg(2, T)), Sx(4, factor)), st, o) == st.flags
  {
    hide WriteFlags;
  }

  /** T = value, then P = T * factor, on a state where the accumulation is done. */
  lemma LoadAndMultiply(value: Expr, t: nat, factor: Expr, f: nat, k: Known, st: State, ms: M.Machine, o: Oracle)
    requires Rel(k, st, ms) && SizeOf(value) == 2 && Eval(value, st) == t && FlagsAfter(value, st, o) == st.flags
    requires SizeOf(factor) == 2 && Eval(factor, Exec(LoadT(value), st, o)) == f
    ensures var out := ExecBlock(Two(LoadT(value), Product(factor)), st, o);
      out.Falls? && Rel(k, out.st, M.PutReg(M.PutReg(ms, T, t), P, Wrap(Signed(t, 2) * Signed(f, 2), 4)))
  {
    hide Eval, SizeOf, Modulus, Wrap, Rel, FlagsAfter, WriteReg, ReadReg, Mul, Sx, Reg, Signed, Exec, ExecBlock, Two;
    var st1, ms1 := Exec(LoadT(value), st, o), M.PutReg(ms, T, t);
    LoadRegOk(T, value, t, k, st, ms, o);
    ReadWritten(ms.regs, T, t);
    RelRead(k, st1, ms1, T);
    ProductValue(factor, t, f, st1, o);
    ProductFlags(factor, st1, o);
    LoadRegOk(P, Mul(4, Sx(4, Reg(2, T)), Sx(4, factor)), Wrap(Signed(t, 2) * Signed(f, 2), 4), k, st1, ms1, o);
    ExecTwo(LoadT(value), Product(factor), st, o);
  }

  /** The factor evaluates to the same word before and after the first two effects. */
  lemma ProgramWordValue(k: Known, st: State, ms: M.Machine)
    requires Rel(k, st, ms)
    ensures Eval(ProgramWord(), st) == M.ProgramWord(ms) && SizeOf(ProgramWord()) == 2
  {
    hide Eval, SizeOf, Modulus, Wrap, SameRegs, SameMem, ReadReg, LoadBytes, M.ReadWords, Reg, Lsl, Const, Load,
      Bits.Shl;
    RelRead(k, st, ms, XAR(7));
    FullWidth(ms.regs);
    var xar := ReadReg(ms.regs, XAR(7));
    Bits.Shl1(xar);
    DoubleWord(xar);
    WordsWrap(ms.mem, xar);
    LoadSame(st.mem, ms.mem, xar % M.WORD_SPACE, 2);
  }

  lemma WordsWrap(words: M.Words, a: nat)
    ensures M.ReadWords(words, a, 2) == M.ReadWords(words, a % M.WORD_SPACE, 2)
  {}

  lemma ProgramWordStays(ms: M.Machine, t: nat, total: int)
    ensures M.ProgramWord(M.PutReg(M.AluInto(ms, ACC, total, false), T, t)) == M.ProgramWord(ms)
  {
    hide Wrap, ReadReg, WriteReg, M.AluStatus, M.ReadWords;
    WriteOther(ms.regs, ACC, XAR(7), Wrap(total, 4));
    WriteOther(WriteReg(ms.regs, ACC, Wrap(total, 4)), T, XAR(7), t);
  }

  predicate IsProgram(factor: Expr, f: nat, ms: M.Machine) {
    factor == ProgramWord() && f == M.ProgramWord(ms)
  }

  ghost predicate IsConstant(factor: Expr, f: nat) {
    exists v: int :: factor == Const(2, v) && f == Wrap(v, 2)
  }

  lemma MacOk(op: Operand, factor: Expr, f: nat, k: Known, st: State, ms: M.Machine, o: Oracle)
    requires Rel(k, st, ms) && IsLoc(op, 2)
    requires IsProgram(factor, f, ms) || IsConstant(factor, f)
    requires OpReaches(op, ms)
    ensures var out := ExecBlock(MacBlock(op, factor), st, o);
      var added := M.AluInto(ms, ACC, ReadReg(ms.regs, ACC) + ReadReg(ms.regs, P), false);
      out.Falls? && Rel(Known(Direct, true, true), out.st, M.Mac(ms, M.Value(op, 2, added), f))
  {
    hide Eval, SizeOf, Modulus, Wrap, Rel, FlagsAfter, ReadReg, Exec, ExecBlock, Two, AddProduct, OpBlock, OpExpr,
      WriteOpBlock, WriteInsn, M.Value, M.AluInto, M.PutReg, Product, Signed, Plain, Reaches, OpReaches, IsProgram,
      IsConstant, Append;
    var k1 := Known(Direct, true, true);
    var st1 := Exec(AddProduct(), st, o);
    var total := ReadReg(ms.regs, ACC) + ReadReg(ms.regs, P);
    var added := M.AluInto(ms, ACC, total, false);
    var t := M.Value(op, 2, added);
    MacLoads(op, k, st, ms, o);
    FactorValue(factor, f, t, total, k1, Exec(LoadT(OpExpr(op, 2)), st1, o), ms);
    LoadAndMultiply(OpExpr(op, 2), t, factor, f, k1, st1, added, o);
    MacSplit(op, factor, st, o);
  }

  /** The first two effects: the old product accumulated, and the operand loaded to T. */
  lemma MacLoads(op: Operand, k: Known, st: State, ms: M.Machine, o: Oracle)
    requires Rel(k, st, ms) && IsLoc(op, 2) && OpReaches(op, ms)
    ensures OpBlock(op) == End && SizeOf(OpExpr(op, 2)) == 2
    ensures var st1, k1 := Exec(AddProduct(), st, o), Known(Direct, true, true);
      var added := M.AluInto(ms, ACC, ReadReg(ms.regs, ACC) + ReadReg(ms.regs, P), false);
      && Rel(k1, st1, added) && FlagsAfter(OpExpr(op, 2), st1, o) == st1.flags
      && Eval(OpExpr(op, 2), st1) == M.Value(op, 2, added)
      && Rel(k1, Exec(LoadT(OpExpr(op, 2)), st1, o), M.PutReg(added, T, M.Value(op, 2, added)))
  {
    hide Eval, SizeOf, Modulus, Wrap, Rel, FlagsAfter, ReadReg, Exec, AddProduct, OpBlock, OpExpr, WriteOpBlock,
      WriteInsn, M.Value, M.AluInto, M.PutReg, Plain, Reaches, OpReaches;
    var st1, k1 := Exec(AddProduct(), st, o), Known(Direct, true, true);
    var total := ReadReg(ms.regs, ACC) + ReadReg(ms.regs, P);
    var added := M.AluInto(ms, ACC, total, false);
    AddProductOk(k, st, ms, o);
    PlainOp(op, 2, Const(4, 0));
    AddedReaches(op, ms, total);
    OperandSame(op, 2, k1, st1, added);
    NoFlags(op, 2, ACC, st1, o);
    LoadRegOk(T, OpExpr(op, 2), M.Value(op, 2, added), k1, st1, added, o);
  }

  lemma AddedReaches(op: Operand, ms: M.Machine, total: int)
    requires OpReaches(op, ms)
    ensures OpReaches(op, M.AluInto(ms, ACC, total, false))
  {
    hide WriteReg, Wrap, M.AluStatus;
  }

  lemma FactorValue(factor: Expr, f: nat, t: nat, total: int, k: Known, st: State, ms: M.Machine)
    requires Rel(k, st, M.PutReg(M.AluInto(ms, ACC, total, false), T, t))
    requires IsProgram(factor, f, ms) || IsConstant(factor, f)
    ensures SizeOf(factor) == 2 && Eval(factor, st) == f
  {
    hide Eval, SizeOf, Modulus, Wrap, Rel, M.AluInto, M.PutReg, ProgramWord, M.ProgramWord, Const;
    if IsProgram(factor, f, ms) {
      ProgramWordStays(ms, t, total);
      ProgramWordValue(k, st, M.PutReg(M.AluInto(ms, ACC, total, false), T, t));
    }
  }

  /** Executing the block is executing its three parts. */
  lemma MacSplit(op: Operand, factor: Expr, st: State, o: Oracle)
    requires OpBlock(op) == End
    ensures ExecBlock(MacBlock(op, factor), st, o) ==
            ExecBlock(Two(LoadT(OpExpr(op, 2)), Product(factor)), Exec(AddProduct(), st, o), o)
  {
    hide Exec, AddProduct, OpExpr, LoadT, Product, Two;
    assert AccumulateFirst(op) == Do(AddProduct(), End);
    var rest := Two(LoadT(OpExpr(op, 2)), Product(factor));
    AppendToEnd(rest);
    assert MacBlock(op, factor) == Do(AddProduct(), rest);
  }

  lemma StepXar7Ok(k: Known, st: State, ms: M.Machine, o: Oracle)
    requires Rel(k, st, ms)
    ensures Rel(k, Exec(StepXar7(), st, o), M.PutReg(ms, XAR(7), Wrap(ReadReg(ms.regs, XAR(7)) + 1, 4)))
  {
    hide Eval, Rel, Exec, Wrap, ReadReg, M.PutReg, Reg, Const, Add;
    assert StepXar7() == LiftArith.MovePointer(true, XAR(7), 1);
    XarPointerOk(true, 7, 1, k, st, ms, o);
  }

  lemma MultiplyOk(id: MultiplyId, ops: seq<Operand>, k: Known, st: State, ms: M.Machine, o: Oracle)
    requires MultiplyShape(id, ops) && OpReaches(ops[0], ms) && Rel(k, st, ms)
    ensures var out := ExecBlock(MultiplyBlock(id, ops), st, o);
      out.Falls? && Rel(Known(Direct, true, true), out.st, M.MultiplyEffect(id, ops, ms))
  {
    hide Rel, Exec, ExecBlock, MacBlock, ProgramWord, M.ProgramWord, M.Mac, M.AluInto, M.PutReg, StepXar7, Plain,
      OpReaches, M.Value, ReadReg, Append, Wrap, Const;
    if id.MPYA_P_LOC16_CONST16? {
      ConstantFactor(ops[1].value, ms);
      MacOk(ops[0], Const(2, ops[1].value), M.Value(ops[1], 2, ms), k, st, ms, o);
    } else {
      MacOk(ops[0], ProgramWord(), M.ProgramWord(ms), k, st, ms, o);
      if id.MAC_P_LOC16_XAR7_POSTINC? {
        var out := ExecBlock(MacBlock(ops[0], ProgramWord()), st, o);
        var added := M.AluInto(ms, ACC, ReadReg(ms.regs, ACC) + ReadReg(ms.regs, P), false);
        StepXar7Ok(Known(Direct, true, true), out.st, M.Mac(ms, M.Value(ops[0], 2, added), M.ProgramWord(ms)), o);
        ExecOne(StepXar7(), out.st, o);
        ExecAppend(MacBlock(ops[0], ProgramWord()), Do(StepXar7(), End), st, o);
      }
    }
  }

  lemma ConstantFactor(v: int, ms: M.Machine)
    ensures IsConstant(Const(2, v), M.Value(Immediate(v), 2, ms))
  {
    hide Const, Wrap;
  }
}
