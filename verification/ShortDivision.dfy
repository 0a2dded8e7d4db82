/** 16 SUBCU steps divide a 16-bit number, up to the remainder their strict test can leave. */
module ShortDivision {
  import opened Registers
  import opened Operands
  import opened Instructions
  import opened Il
  import opened IlCode
  import opened LiftOperands
  import opened Relation
  import opened SimArith
  import opened StraightLine
  import opened Storage
  import opened Scratch
  import M = Machine
  import Bits

  // ---- The division the steps perform ----

  /** What is left of the numerator and the quotient bits found after `k` steps. */
  datatype Progress = Progress(rest: nat, bits: nat)

  /** The multiple of the divisor that step `k` tries to take away. */
  function Trial(d: nat, k: nat): nat
    requires k < 16
  {
    Bits.Pow2(15 - k) * d
  }

  /** A step takes the trial away when less than the rest, or equal once a bit was found. */
  predicate Takes(c: Progress, d: nat, k: nat)
    requires k < 16
  {
    c.rest > Trial(d, k) || (c.rest == Trial(d, k) && c.bits > 0)
  }

  function After(num: nat, d: nat, k: nat): Progress
    requires k <= 16
  {
    if k == 0 then Progress(num, 0)
    else
      Next(After(num, d, k - 1), d, k - 1)
  }

  function Next(c: Progress, d: nat, k: nat): Progress
    requires k < 16
  {
    if Takes(c, d, k) then Progress(c.rest - Trial(d, k), 2 * c.bits + 1) else Progress(c.rest, 2 * c.bits)
  }

  lemma Halves(d: nat, k: nat)
    requires k < 16
    ensures Bits.Pow2(16 - k) * d == 2 * Trial(d, k)
    ensures d > 0 ==> Trial(d, k) > 0
  {
    Bits.Pow2Succ(15 - k);
    Bits.MulAssoc(2, Bits.Pow2(15 - k), d);
    if d > 0 { Bits.MulMono(Bits.Pow2(15 - k), 1, d); }
  }

  lemma PowOf(k: nat, d: nat)
    requires k < 16
    ensures Bits.Pow2(16 - (k + 1)) * d == Trial(d, k)
  {
    hide Bits.Pow2;
    assert 16 - (k + 1) == 15 - k;
  }

  lemma AfterNext(num: nat, d: nat, k: nat)
    requires k < 16
    ensures After(num, d, k + 1) == Next(After(num, d, k), d, k)
  {
    hide Next;
  }

  /** Conservation: bits times the scaled divisor, plus the rest, is the numerator. */
  lemma {:induction false} Conserved(num: nat, d: nat, k: nat)
    requires k <= 16 && num < 0x1_0000 && 0 < d < 0x1_0000
    ensures var c, scaled := After(num, d, k), Bits.Pow2(16 - k) * d;
      num == scaled * c.bits + c.rest && c.rest <= scaled && c.bits < Bits.Pow2(k)
  {
    hide Trial, Bits.Pow2, Next, After;
    if k == 0 {
      Bits.Pow2At16();
      Zero();
      NoneYet(num, d);
    } else {
      AfterNext(num, d, k - 1);
      Conserved(num, d, k - 1);
      var c := After(num, d, k - 1);
      Halves(d, k - 1);
      Bits.Pow2Succ(k - 1);
      PowOf(k - 1, d);
      ConservesOnce(num, c, d, k - 1);
    }
  }

  lemma ConservesOnce(num: nat, c: Progress, d: nat, k: nat)
    requires k < 16
    requires var e := Trial(d, k); num == 2 * e * c.bits + c.rest && c.rest <= 2 * e
    ensures var e, next := Trial(d, k), Next(c, d, k);
      num == e * next.bits + next.rest && next.rest <= e && next.bits <= 2 * c.bits + 1
  {
    hide Trial;
    HalfScale(Trial(d, k), c.bits);
  }

  lemma NoneYet(num: nat, d: nat)
    ensures After(num, d, 0) == Progress(num, 0)
  {}

  lemma Zero()
    ensures Bits.Pow2(0) == 1
  {}

  lemma HalfScale(e: nat, q: nat)
    ensures 2 * e * q == e * (2 * q)
    ensures e * (2 * q + 1) == 2 * e * q + e
  {}

  /** The numerator is the divisor shifted left by at least `low` and fewer than 16 places. */
  predicate ShiftedFrom(num: nat, d: nat, low: nat) {
    exists j: nat :: low <= j < 16 && num == Bits.Pow2(j) * d
  }

  predicate IsShifted(num: nat, d: nat) { ShiftedFrom(num, d, 0) }

  lemma ShiftedFromNext(num: nat, d: nat, low: nat)
    requires low < 16
    ensures ShiftedFrom(num, d, low) <==> ShiftedFrom(num, d, low + 1) || num == Bits.Pow2(low) * d
  {}

  /** The rest reaches its upper bound exactly when some trial so far equalled the numerator. */
  lemma {:induction false} RestIsFull(num: nat, d: nat, k: nat)
    requires k <= 16 && num < 0x1_0000 && 0 < d < 0x1_0000
    ensures After(num, d, k).rest == Bits.Pow2(16 - k) * d <==> ShiftedFrom(num, d, 16 - k)
  {
    hide Bits.Pow2;
    if k == 0 {
      Bits.Pow2At16();
    } else {
      RestIsFull(num, d, k - 1);
      Conserved(num, d, k - 1);
      var c := After(num, d, k - 1);
      Halves(d, k - 1);
      FullStep(num, c, d, k - 1);
      ShiftedFromNext(num, d, 16 - k);
    }
  }

  lemma FullStep(num: nat, c: Progress, d: nat, k: nat)
    requires k < 16 && d > 0
    requires var e := Trial(d, k); num == 2 * e * c.bits + c.rest && c.rest <= 2 * e && e > 0
    ensures var e := Trial(d, k);
      (if Takes(c, d, k) then c.rest - e else c.rest) == e <==> c.rest == 2 * e || num == e
  {
    hide Trial;
    var e := Trial(d, k);
    Bits.MulMono(2 * e, if c.bits > 0 then 1 else 0, c.bits);
  }

  /** After 16 steps: quotient and remainder, except that the remainder equals the divisor
      exactly when the numerator is the divisor shifted left. */
  lemma SixteenSteps(num: nat, d: nat)
    requires num < 0x1_0000 && 0 < d < 0x1_0000
    ensures var c := After(num, d, 16);
      && num == d * c.bits + c.rest && c.rest <= d && c.bits < 0x1_0000
      && (c.rest == d <==> IsShifted(num, d))
      && (c.bits == num / d && c.rest == num % d <==> !IsShifted(num, d))
  {
    hide After, Bits.Pow2, ShiftedFrom;
    Zero();
    Bits.Pow2At16();
    Conserved(num, d, 16);
    RestIsFull(num, d, 16);
    var c := After(num, d, 16);
    assert Bits.Pow2(16 - 16) * d == d;
    if c.rest < d { Bits.DivUnique(num, d, c.bits, c.rest); }
  }

  // ---- The machine ----

  function AccValue(c: Progress, k: nat): nat { Bits.Pow2(k) * c.rest + c.bits }

  lemma Scaled(d: nat, k: nat)
    requires k < 16
    ensures Bits.Pow2(k + 1) * Trial(d, k) == 0x1_0000 * d
  {
    hide Bits.Pow2;
    Bits.Pow2Add(k + 1, 15 - k);
    Bits.Pow2At16();
    Bits.MulAssoc(Bits.Pow2(k + 1), Bits.Pow2(15 - k), d);
  }

  /** The test on the accumulator is the test on the rest. */
  lemma TestAgrees(a: nat, x: nat, e: nat, q: nat)
    requires 2 * q < a
    ensures a * x + 2 * q > a * e <==> x > e || (x == e && q > 0)
    ensures x > e ==> a * x >= a * e + a
    ensures x >= e ==> a * (x - e) == a * x - a * e
  {
    if x > e { Bits.MulMono(a, e + 1, x); }
    if x < e { Bits.MulMono(a, x + 1, e); }
  }

  lemma Bound(a: nat, x: nat, e: nat)
    requires x <= e
    ensures a * x <= a * e
  {}

  /** One SUBCU on an accumulator that holds the progress of `k` steps. */
  lemma Step(num: nat, d: nat, k: nat, acc: nat)
    requires k < 16 && num < 0x1_0000 && 0 < d < 0x1_0000
    requires acc == AccValue(After(num, d, k), k)
    ensures var temp := 2 * acc - 0x1_0000 * d; var next := After(num, d, k + 1);
      && (temp > 0 <==> Takes(After(num, d, k), d, k))
      && AccValue(next, k + 1) == (if temp > 0 then temp + 1 else 2 * acc) < 0x1_0000_0000
  {
    hide After, Bits.Pow2, Trial;
    Conserved(num, d, k);
    Conserved(num, d, k + 1);
    var c, next, e, a := After(num, d, k), After(num, d, k + 1), Trial(d, k), Bits.Pow2(k + 1);
    Bits.Pow2Succ(k);
    Bits.Pow2Monotonic(k + 1, 16);
    Bits.Pow2At16();
    Scaled(d, k);
    Halves(d, k);
    AfterNext(num, d, k);
    Bits.MulAssoc(2, Bits.Pow2(k), c.rest);
    TestAgrees(a, c.rest, e, c.bits);
    Bound(a, next.rest, e);
    PowOf(k, d);
  }

  function SubcuInsn(op: Operand): DecodedInstruction { Row(Arith(SUBCU_ACC_LOC16), [op]) }

  /** A 16-bit operand that is not a half of the accumulator. */
  predicate ShortDivisor(op: Operand) {
    IsLoc(op, 2) && (M.NamesRegister(op.loc) ==> op.loc.register.value.Parent() != ACC)
  }

  lemma DivisorKept(op: Operand, ms: M.Machine, v: nat, s: M.Status)
    requires ShortDivisor(op)
    ensures M.Value(op, 2, M.PutReg(ms, ACC, v).(status := s)) == M.Value(op, 2, ms)
  {
    hide ReadReg, WriteReg, M.ReadWords;
    var loc := op.loc;
    if M.NamesRegister(loc) {
      WriteOther(ms.regs, ACC, loc.register.value, v);
    } else {
      WriteOther(ms.regs, ACC, DP, v);
      WriteOther(ms.regs, ACC, AR(0), v);
      WriteOther(ms.regs, ACC, AR(1), v);
      if loc.xarIndex.Some? { WriteOther(ms.regs, ACC, XAR(loc.xarIndex.value), v); }
    }
  }

  lemma ShortBound(op: Operand, ms: M.Machine)
    requires ShortDivisor(op)
    ensures M.Value(op, 2, ms) < 0x1_0000
  {
    hide ReadReg, M.ReadWords, Modulus;
  }

  lemma StepIs(op: Operand, k: nat, ms: M.Machine)
    ensures var m1 := Effects(Repeat(SubcuInsn(op), k), ms);
      Effects(Repeat(SubcuInsn(op), k + 1), ms) == M.Subcu(m1, M.Value(op, 2, m1))
  {
    hide Effects, Repeat, M.Subcu, M.Value;
    EffectsRepeat(SubcuInsn(op), k, ms);
  }

  lemma SubcuAcc(ms: M.Machine, d: nat)
    ensures var acc: int := ReadReg(ms.regs, ACC); var temp := 2 * acc - 0x1_0000 * d; var m2 := M.Subcu(ms, d);
      && ReadReg(m2.regs, ACC) == (if temp > 0 then Wrap(temp + 1, 4) else Wrap(2 * acc, 4))
      && m2 == M.PutReg(ms, ACC, ReadReg(m2.regs, ACC)).(status := m2.status)
  {
    hide WriteReg, M.Judge, ReadReg;
    var acc: int := ReadReg(ms.regs, ACC);
    var temp := 2 * acc - 0x1_0000 * d;
    ReadWritten(ms.regs, ACC, if temp > 0 then Wrap(temp + 1, 4) else Wrap(2 * acc, 4));
  }

  /** From ACC = num, the accumulator holds the progress of the division after every step, and
      no step overflows 32 bits. */
  lemma {:induction false} SubcuRun(op: Operand, num: nat, k: nat, ms: M.Machine)
    requires ShortDivisor(op) && k <= 16 && num < 0x1_0000
    requires ReadReg(ms.regs, ACC) == num && M.Value(op, 2, ms) > 0
    ensures var d, ms' := M.Value(op, 2, ms), Effects(Repeat(SubcuInsn(op), k), ms);
      && d < 0x1_0000 && M.Value(op, 2, ms') == d
      && ReadReg(ms'.regs, ACC) == AccValue(After(num, d, k), k)
  {
    hide M.Value, Effects, Repeat, M.Subcu, ReadReg, ShortDivisor, After, Wrap, M.PutReg, Takes, Bits.Pow2;
    var d := M.Value(op, 2, ms);
    ShortBound(op, ms);
    if k == 0 {
      NoSteps(op, num, d, ms);
    } else {
      SubcuRun(op, num, k - 1, ms);
      var m1 := Effects(Repeat(SubcuInsn(op), k - 1), ms);
      var m2 := M.Subcu(m1, d);
      StepIs(op, k - 1, ms);
      SubcuAcc(m1, d);
      Step(num, d, k - 1, ReadReg(m1.regs, ACC));
      DivisorKept(op, m1, ReadReg(m2.regs, ACC), m2.status);
    }
  }

  lemma NoSteps(op: Operand, num: nat, d: nat, ms: M.Machine)
    ensures Effects(Repeat(SubcuInsn(op), 0), ms) == ms && AccValue(After(num, d, 0), 0) == num
  {}

  // ---- The lifted code ----

  predicate Reachable(op: Operand, st: State) {
    op.Loc16? && (op.loc.mode.SpRelative? ==> 2 * op.loc.offset <= Full(st.regs, SP))
  }

  lemma SubcuIsEasy(op: Operand, k: nat, st: State)
    requires ShortDivisor(op) && Reachable(op, st)
    ensures forall insn :: insn in Repeat(SubcuInsn(op), k) ==> Easy(insn, Full(st.regs, SP) / 2)
  {
    hide Repeat, Plain, Full;
    InRepeat(SubcuInsn(op), k);
  }

  lemma DivisorAt(op: Operand, k: Known, st: State, ms: M.Machine)
    requires ShortDivisor(op) && Reachable(op, st) && Rel(k, st, ms) && ms == Abstract(st)
    ensures Eval(OpExpr(op, 2), st) == M.Value(op, 2, ms)
  {
    hide Eval, Plain, Rel, Full, M.ReadLoc, ReadExpr;
    OperandSame(op, 2, k, st, ms);
  }

  /** What AL and AH hold at the end. */
  lemma Halved(num: nat, d: nat, acc: nat)
    requires num < 0x1_0000 && 0 < d < 0x1_0000 && acc == AccValue(After(num, d, 16), 16)
    ensures var al, ah := acc % 0x1_0000, acc / 0x1_0000;
      && num == d * al + ah && ah <= d
      && (ah == d <==> IsShifted(num, d))
      && (al == num / d && ah == num % d <==> !IsShifted(num, d))
  {
    hide After, IsShifted, Bits.Pow2;
    SixteenSteps(num, d);
    Bits.Pow2At16();
    HighLow(After(num, d, 16).rest, After(num, d, 16).bits);
  }

  lemma HighLow(rest: nat, bits: nat)
    requires bits < 0x1_0000
    ensures (0x1_0000 * rest + bits) / 0x1_0000 == rest && (0x1_0000 * rest + bits) % 0x1_0000 == bits
  {}

  /** Running the IL emitted for 16 SUBCU from ACC = num: AL and AH conserve the numerator with
      AH no larger than the divisor, and they are quotient and remainder if and only if the
      numerator is not the divisor shifted left. */
  lemma {:induction false} ShortDivision(op: Operand, num: nat, codes: seq<Code>, st: State, o: Oracle)
    requires ShortDivisor(op) && Reachable(op, st) && ValidSp(st) && LiftedInto(Repeat(SubcuInsn(op), 16), codes)
    requires ReadReg(st.regs, ACC) == num < 0x1_0000 && Eval(OpExpr(op, 2), st) > 0
    ensures codes != [] && RunAll(codes, st, o).Falls?
    ensures var out, d := RunAll(codes, st, o).st, Eval(OpExpr(op, 2), st);
      var al, ah := ReadReg(out.regs, AL), ReadReg(out.regs, AH);
      && num == d * al + ah && ah <= d
      && (ah == d <==> IsShifted(num, d))
      && (al == num / d && ah == num % d <==> !IsShifted(num, d))
  {
    hide RunAll, Eval, OpExpr, ShortDivisor, Reachable, ValidSp, LiftedInto, Repeat, ReadReg, Modulus, Bits.Pow2,
      Effects, Abstract, Rel, M.Value, Easy, AfterLine, After, AccValue, IsShifted, Full;
    var prog, k := Repeat(SubcuInsn(op), 16), Known(Direct, true, true);
    Started(prog, codes);
    SubcuIsEasy(op, 16, st);
    EasyRun(prog, codes, st, o);
    var ms := Abstract(st);
    DivisorAt(op, k, st, ms);
    AccSame(k, st, ms);
    SubcuRun(op, num, 16, ms);
    var d := M.Value(op, 2, ms);
    var out := RunAll(codes, st, o).st;
    AccSame(AfterLine(prog, k), out, Effects(prog, ms));
    Halved(num, d, ReadReg(out.regs, ACC));
    AccHalves(out.regs);
  }

  lemma AccHalves(regs: RegFile)
    ensures ReadReg(regs, AH) == ReadReg(regs, ACC) / 0x1_0000 && ReadReg(regs, AL) == ReadReg(regs, ACC) % 0x1_0000
  {
    hide Wrap;
  }

  const AR0: Operand := Loc16(RegDirect(AR(0)))

  /** ACC and XAR0 are 1, every other register and every byte of memory is 0. */
  function OneOverOne(): State {
    State(map[ACC := 1, XAR(0) := 1], map[], map[], Flags(false, false, false, false, false, false))
  }

  lemma OneOverOneIs()
    ensures var st := OneOverOne();
      && ValidSp(st) && ShortDivisor(AR0) && Reachable(AR0, st)
      && ReadReg(st.regs, ACC) == 1 && Eval(OpExpr(AR0, 2), st) == 1
  {
    hide Eval;
  }

  lemma OneIsShifted()
    ensures IsShifted(1, 1)
  {
    assert Bits.Pow2(0) == 1 && 1 == Bits.Pow2(0) * 1;
  }

  /** One divided by one: the emitted code of 16 SUBCU, started with ACC = 1 and AR0 = 1, ends
      with quotient 0 and remainder 1. */
  lemma {:induction false} OneByOne(codes: seq<Code>, o: Oracle)
    requires LiftedInto(Repeat(SubcuInsn(AR0), 16), codes)
    ensures codes != [] && RunAll(codes, OneOverOne(), o).Falls?
    ensures var out := RunAll(codes, OneOverOne(), o).st; ReadReg(out.regs, AL) == 0 && ReadReg(out.regs, AH) == 1
  {
    hide RunAll, Eval, OpExpr, ShortDivisor, Reachable, ValidSp, LiftedInto, Repeat, ReadReg, IsShifted, OneOverOne;
    OneOverOneIs();
    OneIsShifted();
    ShortDivision(AR0, 1, codes, OneOverOne(), o);
  }
}
