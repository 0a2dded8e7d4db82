/** Dot products: each MAC accumulates the product before and forms the next; ADDL takes in the last. */
module DotProduct {
  import opened Wrappers
  import opened Registers
  import opened Operands
  import opened Instructions
  import opened Il
  import opened IlCode
  import opened Relation
  import opened SimArith
  import opened StraightLine
  import opened Storage
  import opened Scratch
  import M = Machine

  function Element(): Operand { Loc16(Resolved(Indirect, None, Some(4), 0)) }

  /** MAC P,*+XAR4[0],*XAR7++ and ADDB XAR4,#1. */
  function Pass(): seq<DecodedInstruction> {
    [Row(Multiply(MAC_P_LOC16_XAR7_POSTINC), [Element()]),
     Row(Arith(ADDB_XARN_CONST7(4)), [Immediate(1)])]
  }

  function DotProgram(n: nat): seq<DecodedInstruction> {
    Times(Pass(), n) + [Row(Arith(ADDL_ACC_LOC32), [Loc32(RegDirect(P))])]
  }

  /** Product of two signed 16-bit cells. */
  function Term(mem: M.Words, a: nat, b: nat): int {
    Signed(M.ReadWords(mem, a, 2), 2) * Signed(M.ReadWords(mem, b, 2), 2)
  }

  function Sum(mem: M.Words, a: nat, b: nat, n: nat): int {
    if n == 0 then 0 else Sum(mem, a, b, n - 1) + Term(mem, a + (n - 1), b + (n - 1))
  }

  /** ACC, P and the two pointers. */
  datatype Loop = Loop(acc: nat, p: nat, a: nat, b: nat)

  function LoopOf(ms: M.Machine): (l: Loop)
    ensures l.acc < 0x1_0000_0000 && l.p < 0x1_0000_0000 && l.a < 0x1_0000_0000 && l.b < 0x1_0000_0000
  {
    hide ReadReg, Modulus;
    Loop(ReadReg(ms.regs, ACC), ReadReg(ms.regs, P), ReadReg(ms.regs, XAR(4)), ReadReg(ms.regs, XAR(7)))
  }

  /** Writing one of the four, or a register apart from them. */
  lemma Put(ms: M.Machine, r: Register, v: nat)
    requires r == ACC || r == P || r == XAR(4) || r == XAR(7) || r == T
    requires v < Modulus(r.Size())
    ensures var l := LoopOf(ms);
      LoopOf(M.PutReg(ms, r, v)) == Loop(if r == ACC then v else l.acc, if r == P then v else l.p,
                                         if r == XAR(4) then v else l.a, if r == XAR(7) then v else l.b)
    ensures M.PutReg(ms, r, v).mem == ms.mem && M.PutReg(ms, r, v).sp == ms.sp
  {
    hide ReadReg, WriteReg, Wrap;
    ReadWritten(ms.regs, r, v);
    if r != ACC { WriteOther(ms.regs, r, ACC, v); }
    if r != P { WriteOther(ms.regs, r, P, v); }
    if r != XAR(4) { WriteOther(ms.regs, r, XAR(4), v); }
    if r != XAR(7) { WriteOther(ms.regs, r, XAR(7), v); }
  }

  lemma Alu(ms: M.Machine, total: int)
    ensures var ms' := M.AluInto(ms, ACC, total, false);
      LoopOf(ms') == LoopOf(ms).(acc := Wrap(total, 4)) && ms'.mem == ms.mem && ms'.sp == ms.sp
  {
    hide ReadReg, WriteReg, Wrap, M.AluStatus;
    Put(ms, ACC, Wrap(total, 4));
  }

  lemma ElementValue(ms: M.Machine)
    ensures M.Value(Element(), 2, ms) == M.ReadWords(ms.mem, LoopOf(ms).a, 2) < 0x1_0000
    ensures M.ProgramWord(ms) == M.ReadWords(ms.mem, LoopOf(ms).b, 2)
  {
    hide ReadReg, M.Word;
  }

  lemma MacView(ms: M.Machine, t: nat, f: nat)
    requires t < 0x1_0000
    ensures var l, ms' := LoopOf(ms), M.Mac(ms, t, f);
      && LoopOf(ms') == l.(acc := Wrap(l.acc + l.p, 4), p := Wrap(Signed(t, 2) * Signed(f, 2), 4))
      && ms'.mem == ms.mem && ms'.sp == ms.sp
  {
    hide ReadReg, M.AluInto, M.PutReg, Wrap, Signed;
    var added := M.AluInto(ms, ACC, LoopOf(ms).acc + LoopOf(ms).p, false);
    Alu(ms, LoopOf(ms).acc + LoopOf(ms).p);
    Put(added, T, t);
    Put(M.PutReg(added, T, t), P, Wrap(Signed(t, 2) * Signed(f, 2), 4));
  }

  lemma MacStep(ms: M.Machine)
    ensures var l, ms' := LoopOf(ms), M.Effect(Pass()[0], ms);
      && LoopOf(ms') == Loop(Wrap(l.acc + l.p, 4), Wrap(Term(ms.mem, l.a, l.b), 4), l.a, Wrap(l.b + 1, 4))
      && ms'.mem == ms.mem && ms'.sp == ms.sp
  {
    hide ReadReg, M.AluInto, M.PutReg, Wrap, M.Mac, M.ReadWords, M.Value, M.ProgramWord, Signed;
    var l := LoopOf(ms);
    var added := M.AluInto(ms, ACC, l.acc + l.p, false);
    Alu(ms, l.acc + l.p);
    ElementValue(ms);
    ElementValue(added);
    MacView(ms, M.ReadWords(ms.mem, l.a, 2), M.ReadWords(ms.mem, l.b, 2));
    var done := M.Mac(ms, M.ReadWords(ms.mem, l.a, 2), M.ReadWords(ms.mem, l.b, 2));
    Put(done, XAR(7), Wrap(l.b + 1, 4));
  }

  lemma AdvanceStep(ms: M.Machine)
    ensures var l, ms' := LoopOf(ms), M.Effect(Pass()[1], ms);
      LoopOf(ms') == l.(a := Wrap(l.a + 1, 4)) && ms'.mem == ms.mem && ms'.sp == ms.sp
  {
    hide ReadReg, M.PutReg;
    Put(ms, XAR(4), Wrap(LoopOf(ms).a + 1, 4));
  }

  /** One pass: the product before goes to the accumulator, the new one replaces it. */
  lemma PassView(ms: M.Machine)
    ensures var l, ms' := LoopOf(ms), Effects(Pass(), ms);
      && LoopOf(ms') == Loop(Wrap(l.acc + l.p, 4), Wrap(Term(ms.mem, l.a, l.b), 4), Wrap(l.a + 1, 4), Wrap(l.b + 1, 4))
      && ms'.mem == ms.mem && ms'.sp == ms.sp
  {
    hide M.Effect, Effects, LoopOf, Term, Wrap;
    MacStep(ms);
    AdvanceStep(M.Effect(Pass()[0], ms));
    Pairwise(Pass()[0], Pass()[1], ms);
  }

  lemma WrapAdd(x: int, y: int)
    ensures Wrap(Wrap(x, 4) + Wrap(y, 4), 4) == Wrap(x + y, 4)
    ensures Wrap(Wrap(x, 4) + y, 4) == Wrap(x + y, 4)
  {}

  /** A pointer that wrapped names the same cell. */
  lemma WrappedCell(mem: M.Words, x: nat)
    ensures M.ReadWords(mem, Wrap(x, 4), 2) == M.ReadWords(mem, x, 2)
  {
    hide M.Word;
  }

  /** Accumulator and pending product together are the sum so far. */
  lemma {:induction false} Passes(n: nat, ms: M.Machine)
    requires LoopOf(ms).acc == 0 && LoopOf(ms).p == 0
    ensures var l, ms' := LoopOf(ms), Effects(Times(Pass(), n), ms); var l' := LoopOf(ms');
      && Wrap(l'.acc + l'.p, 4) == Wrap(Sum(ms.mem, l.a, l.b, n), 4)
      && l'.a == Wrap(l.a + n, 4) && l'.b == Wrap(l.b + n, 4) && ms'.mem == ms.mem && ms'.sp == ms.sp
  {
    hide LoopOf, Effects, Pass, Term, Wrap;
    var l := LoopOf(ms);
    if n == 0 {
      Nothing(ms);
    } else {
      Passes(n - 1, ms);
      var before := Times(Pass(), n - 1);
      var m1 := Effects(before, ms);
      EffectsAppend(before, Pass(), ms);
      PassView(m1);
      var l1 := LoopOf(m1);
      TermWraps(ms.mem, l.a + (n - 1), l.b + (n - 1));
      WrapAdd(Sum(ms.mem, l.a, l.b, n - 1), Term(ms.mem, l.a + (n - 1), l.b + (n - 1)));
      WrapAdd(l.a + (n - 1), 1);
      WrapAdd(l.b + (n - 1), 1);
    }
  }

  lemma Nothing(ms: M.Machine)
    ensures Effects(Times(Pass(), 0), ms) == ms
    ensures Wrap(LoopOf(ms).a, 4) == LoopOf(ms).a && Wrap(LoopOf(ms).b, 4) == LoopOf(ms).b
  {
    hide ReadReg;
  }

  lemma TermWraps(mem: M.Words, a: nat, b: nat)
    ensures Term(mem, Wrap(a, 4), Wrap(b, 4)) == Term(mem, a, b)
  {
    hide M.ReadWords, Signed, Wrap;
    WrappedCell(mem, a);
    WrappedCell(mem, b);
  }

  lemma LastAdd(ms: M.Machine)
    ensures var l, ms' := LoopOf(ms), M.Effect(Row(Arith(ADDL_ACC_LOC32), [Loc32(RegDirect(P))]), ms);
      LoopOf(ms').acc == Wrap(l.acc + l.p, 4) && ms'.sp == ms.sp
  {
    hide ReadReg, WriteReg, Wrap, M.AluInto;
    var l := LoopOf(ms);
    assert M.Effect(Row(Arith(ADDL_ACC_LOC32), [Loc32(RegDirect(P))]), ms) == M.AluInto(ms, ACC, l.acc + l.p, false);
    Alu(ms, l.acc + l.p);
  }

  lemma DotOnMachine(n: nat, ms: M.Machine)
    requires LoopOf(ms).acc == 0 && LoopOf(ms).p == 0
    ensures LoopOf(Effects(DotProgram(n), ms)).acc == Wrap(Sum(ms.mem, LoopOf(ms).a, LoopOf(ms).b, n), 4)
  {
    hide LoopOf, Effects, Pass, Wrap, Sum, M.Effect;
    var last := Row(Arith(ADDL_ACC_LOC32), [Loc32(RegDirect(P))]);
    Passes(n, ms);
    EffectsAppend(Times(Pass(), n), [last], ms);
    One(last, Effects(Times(Pass(), n), ms));
    LastAdd(Effects(Times(Pass(), n), ms));
  }

  // ---- The lifted code ----

  lemma DotIsEasy(n: nat, sp: nat)
    ensures forall insn :: insn in DotProgram(n) ==> Easy(insn, sp)
  {
    hide Easy;
    InTimes(Pass(), n);
    RowsEasy(sp);
  }

  lemma RowsEasy(sp: nat)
    ensures Easy(Pass()[0], sp) && Easy(Pass()[1], sp)
    ensures Easy(Row(Arith(ADDL_ACC_LOC32), [Loc32(RegDirect(P))]), sp)
  {
    MacEasy(sp);
    AddEasy(sp);
  }

  lemma MacEasy(sp: nat)
    ensures Easy(Pass()[0], sp)
  {}

  lemma AddEasy(sp: nat)
    ensures Easy(Pass()[1], sp) && Easy(Row(Arith(ADDL_ACC_LOC32), [Loc32(RegDirect(P))]), sp)
  {}

  /** The dot product of two arrays of signed 16-bit cells in byte memory, at word addresses. */
  function Dot(mem: Memory, a: nat, b: nat, n: nat): int {
    if n == 0 then 0 else
      Dot(mem, a, b, n - 1) + Signed(Cell(mem, a + (n - 1)), 2) * Signed(Cell(mem, b + (n - 1)), 2)
  }

  function Cell(mem: Memory, w: nat): nat { LoadBytes(mem, 2 * (w % M.WORD_SPACE), 2) }

  lemma {:induction false} DotIs(bytes: Memory, words: M.Words, a: nat, b: nat, n: nat)
    requires SameMem(bytes, words)
    ensures Dot(bytes, a, b, n) == Sum(words, a, b, n)
  {
    hide SameMem, Signed, Cell, M.ReadWords;
    if n > 0 {
      DotIs(bytes, words, a, b, n - 1);
      CellIs(bytes, words, a + (n - 1));
      CellIs(bytes, words, b + (n - 1));
    }
  }

  lemma CellIs(bytes: Memory, words: M.Words, w: nat)
    requires SameMem(bytes, words)
    ensures Cell(bytes, w) == M.ReadWords(words, w, 2)
  {
    hide SameMem, LoadBytes, M.Word;
    LoadSame(bytes, words, w % M.WORD_SPACE, 2);
  }

  /** Running the IL emitted for the program, from ACC = P = 0, leaves in ACC the dot product
      modulo 2^32, for every length. */
  lemma {:induction false} DotProductIsSum(n: nat, codes: seq<Code>, st: State, o: Oracle)
    requires ValidSp(st) && LiftedInto(DotProgram(n), codes)
    requires ReadReg(st.regs, ACC) == 0 && ReadReg(st.regs, P) == 0
    ensures codes != [] && RunAll(codes, st, o).Falls?
    ensures ReadReg(RunAll(codes, st, o).st.regs, ACC) ==
            Wrap(Dot(st.mem, ReadReg(st.regs, XAR(4)), ReadReg(st.regs, XAR(7)), n), 4)
  {
    hide ValidSp, LiftedInto, DotProgram, RunAll, Rel, AfterLine, Effects, Easy, Abstract, Sum, Dot, Full, ReadReg,
      Wrap;
    var k, ms := Known(Direct, true, true), Abstract(st);
    DotIsEasy(n, Full(st.regs, SP) / 2);
    EasyRun(DotProgram(n), codes, st, o);
    AccSame(k, st, ms);
    Pointers(k, st, ms);
    DotOnMachine(n, ms);
    RelMem(k, st, ms);
    DotIs(st.mem, ms.mem, ReadReg(st.regs, XAR(4)), ReadReg(st.regs, XAR(7)), n);
    AccSame(AfterLine(DotProgram(n), k), RunAll(codes, st, o).st, Effects(DotProgram(n), ms));
  }

  lemma Pointers(k: Known, st: State, ms: M.Machine)
    requires Rel(k, st, ms)
    ensures ReadReg(st.regs, XAR(4)) == ReadReg(ms.regs, XAR(4)) && ReadReg(st.regs, XAR(7)) == ReadReg(ms.regs, XAR(7))
  {
    hide ReadReg, SameRegs, SameMem;
    ReadSame(st.regs, ms, XAR(4));
    ReadSame(st.regs, ms, XAR(7));
  }
}
