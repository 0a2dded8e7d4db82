/** 32 SUBCUL steps divide a 64-bit number; the idiom around them divides signed 32-bit numbers. */
module Division {
  import opened Wrappers
  import opened Registers
  import opened Operands
  import opened Instructions
  import opened Il
  import opened IlCode
  import opened LiftOperands
  import opened Relation
  import opened SimArith
  import opened SimMov
  import opened StraightLine
  import opened Storage
  import opened Scratch
  import M = Machine
  import Bits

  // ---- One step ----

  /** ACC and P read as one 64-bit number. */
  function Pair(v: View): nat { v.acc * 0x1_0000_0000 + v.p }

  predicate TakesBit(v: View, d: nat) { 2 * v.acc + v.p / 0x8000_0000 >= d }

  lemma SubculView(ms: M.Machine, d: nat)
    requires ViewOf(ms).acc < d < 0x1_0000_0000
    ensures var v, ms' := ViewOf(ms), M.Subcul(ms, d); var w := ViewOf(ms');
      && Steady(ms, ms') && w.xt == v.xt && w.tc == v.tc
      && w.acc < d
      && Pair(w) == 2 * Pair(v) - (if TakesBit(v, d) then d * 0x1_0000_0000 - 1 else 0)
  {
    hide ReadReg, WriteReg, Wrap, M.Judge, Steady, M.PutReg;
    var v := ViewOf(ms);
    var doubled := 2 * v.acc + v.p / 0x8000_0000;
    var acc' := if doubled >= d then Wrap(doubled - d, 4) else Wrap(doubled, 4);
    var p' := if doubled >= d then Wrap(2 * v.p + 1, 4) else Wrap(2 * v.p, 4);
    ShiftOut(v.p);
    var m1 := M.PutReg(ms, ACC, acc');
    var m2 := M.PutReg(m1, P, p');
    Put(ms, ACC, acc');
    Put(m1, P, p');
    PutStatus(m2, M.Judge(ms.status, acc', 4));
    PutKeepsStatus(ms, ACC, acc');
    PutKeepsStatus(m1, P, p');
    JudgeKeeps(ms.status, acc');
    SteadyTrans(ms, m1, m2);
    SteadyTrans(ms, m2, M.Subcul(ms, d));
  }

  lemma PutKeepsStatus(ms: M.Machine, r: Register, v: nat)
    ensures M.PutReg(ms, r, v).status == ms.status
  {}

  /** Doubling P loses its top bit and nothing else. */
  lemma ShiftOut(p: nat)
    requires p < 0x1_0000_0000
    ensures Wrap(2 * p, 4) == 2 * p - p / 0x8000_0000 * 0x1_0000_0000
    ensures Wrap(2 * p + 1, 4) == 2 * p + 1 - p / 0x8000_0000 * 0x1_0000_0000
  {}

  // ---- k steps ----

  function SubculInsn(op: Operand): DecodedInstruction { Row(Arith(SUBCUL_ACC_LOC32), [op]) }

  /** The divisor is neither ACC nor P, nor read through them. */
  predicate Divisor(op: Operand) {
    IsLoc(op, 4) && (Outside(op) || (op.loc.register == Some(XT)))
  }

  lemma DivisorKept(op: Operand, a: M.Machine, b: M.Machine)
    requires Divisor(op) && Steady(a, b) && ViewOf(a).xt == ViewOf(b).xt
    ensures M.Value(op, 4, a) == M.Value(op, 4, b)
  {
    hide Steady, ReadReg, IsScratch;
    if Outside(op) { SteadyValue(op, 4, a, b); }
  }

  lemma Doubling(m: nat, a: int, b: int, q: nat, c: int, bit: bool)
    requires m * a == q * c + b
    ensures 2 * m * a == (2 * q + (if bit then 1 else 0)) * c + (2 * b - (if bit then c else 0))
  {
    assert 2 * m * a == 2 * (m * a);
    assert (2 * q + 1) * c == 2 * (q * c) + c;
    assert (2 * q) * c == 2 * (q * c);
  }

  /** After any number of steps the pair is the first pair shifted left, less the quotient bits
      so far times the divisor. The remainder stays below the divisor throughout, so that no
      bit of a 33-bit intermediate is lost. */
  lemma {:induction false} SubculRun(op: Operand, k: nat, ms: M.Machine) returns (q: nat)
    requires Divisor(op) && ViewOf(ms).acc < M.Value(op, 4, ms)
    ensures var d, ms' := M.Value(op, 4, ms), Effects(Repeat(SubculInsn(op), k), ms);
      && q < Bits.Pow2(k)
      && Bits.Pow2(k) * Pair(ViewOf(ms)) == q * (d * 0x1_0000_0000 - 1) + Pair(ViewOf(ms'))
      && ViewOf(ms').acc < d && M.Value(op, 4, ms') == d
      && Steady(ms, ms') && ViewOf(ms').xt == ViewOf(ms).xt && ViewOf(ms').tc == ViewOf(ms).tc
  {
    hide Divisor, M.Value, Effects, Repeat, Pair, M.Subcul, Steady, TakesBit, ReadReg, ViewOf, Modulus;
    var d := M.Value(op, 4, ms);
    ValueBound(op, ms);
    if k == 0 {
      NoSteps(op, ms);
      q := 0;
    } else {
      var before := SubculRun(op, k - 1, ms);
      var m1 := Effects(Repeat(SubculInsn(op), k - 1), ms);
      var m2 := M.Subcul(m1, d);
      StepIs(op, k - 1, ms);
      SubculView(m1, d);
      DivisorKept(op, m1, m2);
      SteadyTrans(ms, m1, m2);
      var bit := TakesBit(ViewOf(m1), d);
      q := 2 * before + (if bit then 1 else 0);
      Bits.Pow2Succ(k - 1);
      Doubling(Bits.Pow2(k - 1), Pair(ViewOf(ms)), Pair(ViewOf(m1)), before, d * 0x1_0000_0000 - 1, bit);
    }
  }

  lemma ValueBound(op: Operand, ms: M.Machine)
    requires Divisor(op)
    ensures M.Value(op, 4, ms) < 0x1_0000_0000
  {
    hide ReadReg, M.ReadWords, Modulus;
  }

  lemma NoSteps(op: Operand, ms: M.Machine)
    ensures Effects(Repeat(SubculInsn(op), 0), ms) == ms && Bits.Pow2(0) == 1 && Steady(ms, ms)
  {}

  lemma StepIs(op: Operand, k: nat, ms: M.Machine)
    ensures var m1 := Effects(Repeat(SubculInsn(op), k), ms);
      Effects(Repeat(SubculInsn(op), k + 1), ms) == M.Subcul(m1, M.Value(op, 4, m1))
  {
    hide Effects, Repeat, M.Subcul, M.Value;
    EffectsRepeat(SubculInsn(op), k, ms);
  }

  /** 32 steps divide: ACC:P before is P * d + ACC after, with the remainder below the divisor. */
  lemma UnsignedDivision(op: Operand, ms: M.Machine)
    requires Divisor(op) && ViewOf(ms).acc < M.Value(op, 4, ms)
    ensures var d, ms' := M.Value(op, 4, ms), Effects(Repeat(SubculInsn(op), 32), ms);
      var v, w := ViewOf(ms), ViewOf(ms');
      && v.acc * 0x1_0000_0000 + v.p == w.p * d + w.acc && w.acc < d
      && Steady(ms, ms') && w.xt == v.xt && w.tc == v.tc
  {
    hide Divisor, M.Value, Effects, Repeat, Steady, ReadReg, Bits.Pow2, Modulus, ViewOf;
    var q := SubculRun(op, 32, ms);
    Bits.Pow2At32();
    var d, ms' := M.Value(op, 4, ms), Effects(Repeat(SubculInsn(op), 32), ms);
    HighAndLow(Pair(ViewOf(ms)), q, d, ViewOf(ms').acc, ViewOf(ms').p);
  }

  /** The low word of the shifted pair is the quotient. */
  lemma HighAndLow(n: nat, q: nat, d: nat, acc: nat, p: nat)
    requires q < 0x1_0000_0000 && p < 0x1_0000_0000
    requires 0x1_0000_0000 * n == q * (d * 0x1_0000_0000 - 1) + (acc * 0x1_0000_0000 + p)
    ensures q == p && n == p * d + acc
  {
    assert q * (d * 0x1_0000_0000 - 1) == 0x1_0000_0000 * (q * d) - q;
    assert 0x1_0000_0000 * (n - q * d - acc) == p - q;
  }

  // ---- The signed idiom ----

  const TC_MASK: int := 4

  function LoadDenominator(den: Operand): seq<DecodedInstruction> {
    [Row(System(CLRC_MODE), [Immediate(TC_MASK)]),
     Row(Mov(MOVL_ACC_LOC32), [den]),
     Row(Misc(ABSTC_ACC), []),
     Row(Mov(MOV_LOC_REG(ACC)), [Loc32(RegDirect(XT))])]
  }

  function LoadNumerator(num: Operand): seq<DecodedInstruction> {
    [Row(Mov(MOVL_ACC_LOC32), [num]),
     Row(Misc(ABSTC_ACC), []),
     Row(Mov(MOVL_P_ACC), []),
     Row(Mov(MOVB_ACC_CONST8), [Immediate(0)])]
  }

  function Epilogue(rem: Operand): seq<DecodedInstruction> {
    [Row(Mov(MOV_LOC_REG(ACC)), [rem]),
     Row(Mov(MOVL_ACC_LOC32), [Loc32(RegDirect(P))]),
     Row(Misc(NEGTC_ACC), [])]
  }

  function DividingSteps(): seq<DecodedInstruction> { Repeat(SubculInsn(Loc32(RegDirect(XT))), 32) }

  /** Quotient of `num` by `den` to ACC, remainder to `rem`. */
  function SignedDivisionProgram(num: Operand, den: Operand, rem: Operand): seq<DecodedInstruction> {
    LoadDenominator(den) + (LoadNumerator(num) + (DividingSteps() + Epilogue(rem)))
  }

  /** Division truncated toward zero. */
  function TruncatedQuotient(n: int, d: int): int
    requires d != 0
  {
    var q := AbsInt(n) / AbsInt(d);
    if (n < 0) != (d < 0) then -q else q
  }

  // ---- The idiom's parts ----

  lemma ClrcView(ms: M.Machine)
    ensures var ms' := M.Effect(Row(System(CLRC_MODE), [Immediate(TC_MASK)]), ms);
      Steady(ms, ms') && ViewOf(ms') == ViewOf(ms).(tc := false)
  {
    hide ReadReg, Steady;
    assert Bits.Bit(TC_MASK, 2) && !Bits.Bit(TC_MASK, 3) by { assert Bits.Bit(1, 0) && Bits.Bit(2, 1)
      && !Bits.Bit(0, 0); }
    PutStatus(ms, ms.status.(tc := false));
  }

  lemma MoveView(op: Operand, ms: M.Machine)
    requires IsLoc(op, 4)
    ensures var ms' := M.Effect(Row(Mov(MOVL_ACC_LOC32), [op]), ms);
      Steady(ms, ms') && ViewOf(ms') == ViewOf(ms).(acc := M.Value(op, 4, ms))
  {
    hide ReadReg, Steady, M.Value, M.LoadAcc;
    LocBound(op, ms);
    LoadAccView(ms, M.Value(op, 4, ms));
  }

  lemma LocBound(op: Operand, ms: M.Machine)
    requires IsLoc(op, 4)
    ensures M.Value(op, 4, ms) < 0x1_0000_0000
  {
    hide ReadReg, M.ReadWords, Modulus;
  }

  lemma XtView(ms: M.Machine)
    ensures var ms' := M.Effect(Row(Mov(MOV_LOC_REG(ACC)), [Loc32(RegDirect(XT))]), ms);
      Steady(ms, ms') && ViewOf(ms') == ViewOf(ms).(xt := ViewOf(ms).acc)
  {
    hide ReadReg, Steady, WriteReg;
    Put(ms, XT, ViewOf(ms).acc);
  }

  lemma PView(ms: M.Machine)
    ensures var ms' := M.Effect(Row(Mov(MOVL_P_ACC), []), ms);
      Steady(ms, ms') && ViewOf(ms') == ViewOf(ms).(p := ViewOf(ms).acc)
  {
    hide ReadReg, Steady, WriteReg;
    Put(ms, P, ViewOf(ms).acc);
  }

  lemma ZeroView(ms: M.Machine)
    ensures var ms' := M.Effect(Row(Mov(MOVB_ACC_CONST8), [Immediate(0)]), ms);
      Steady(ms, ms') && ViewOf(ms') == ViewOf(ms).(acc := 0)
  {
    hide ReadReg, Steady, M.LoadAcc;
    LoadAccView(ms, 0);
  }

  function AbsInt(n: int): (a: nat)
    ensures n != 0 ==> a > 0
  {
    if n < 0 then -n else n
  }

  /** The two operands are read, so they must not be scratch; the remainder is written. */
  predicate DivisionOperand(op: Operand) { IsLoc(op, 4) && Outside(op) }

  lemma DenominatorView(den: Operand, ms: M.Machine)
    requires DivisionOperand(den)
    ensures var d, ms' := M.Value(den, 4, ms), Effects(LoadDenominator(den), ms);
      d < 0x1_0000_0000 && Steady(ms, ms')
      && ViewOf(ms') == View(Magnitude(d), ViewOf(ms).p, Magnitude(d), Negative(d))
  {
    hide M.Effect, Effects, M.Value, ViewOf, Steady, Outside, IsLoc, Magnitude;
    var prog := LoadDenominator(den);
    DivisionLoc(den);
    LocBound(den, ms);
    var m1 := M.Effect(prog[0], ms);
    var m2 := M.Effect(prog[1], m1);
    var m3 := M.Effect(prog[2], m2);
    var m4 := M.Effect(prog[3], m3);
    Four(prog[0], prog[1], prog[2], prog[3], ms);
    ClrcView(ms);
    SteadyValue(den, 4, ms, m1);
    MoveView(den, m1);
    AbstcView(m2);
    XtView(m3);
    SteadyTrans(ms, m1, m2);
    SteadyTrans(ms, m2, m3);
    SteadyTrans(ms, m3, m4);
  }

  lemma DivisionLoc(op: Operand)
    requires DivisionOperand(op)
    ensures IsLoc(op, 4) && Outside(op)
  {}

  lemma NumeratorView(num: Operand, ms: M.Machine)
    requires DivisionOperand(num)
    ensures var n, ms' := M.Value(num, 4, ms), Effects(LoadNumerator(num), ms);
      n < 0x1_0000_0000 && Steady(ms, ms')
      && ViewOf(ms') == View(0, Magnitude(n), ViewOf(ms).xt, ViewOf(ms).tc != Negative(n))
  {
    hide M.Effect, Effects, M.Value, ViewOf, Steady, Outside, IsLoc, Magnitude;
    var prog := LoadNumerator(num);
    DivisionLoc(num);
    LocBound(num, ms);
    var m1 := M.Effect(prog[0], ms);
    var m2 := M.Effect(prog[1], m1);
    var m3 := M.Effect(prog[2], m2);
    var m4 := M.Effect(prog[3], m3);
    Four(prog[0], prog[1], prog[2], prog[3], ms);
    MoveView(num, ms);
    AbstcView(m1);
    PView(m2);
    ZeroView(m3);
    SteadyTrans(ms, m1, m2);
    SteadyTrans(ms, m2, m3);
    SteadyTrans(ms, m3, m4);
  }

  // ---- Storing the remainder ----

  lemma StoreView(op: Operand, ms: M.Machine)
    requires DivisionOperand(op)
    ensures var ms' := M.Effect(Row(Mov(MOV_LOC_REG(ACC)), [op]), ms);
      ViewOf(ms') == ViewOf(ms) && M.Value(op, 4, ms') == ViewOf(ms).acc
  {
    hide ReadReg, WriteReg, Wrap, M.WriteWords, M.ReadWords, M.WordAddress, Overlap;
    var v := ViewOf(ms).acc;
    var loc := op.loc;
    if M.NamesRegister(loc) {
      var r := loc.register.value;
      ReadWritten(ms.regs, r, v);
      ScratchApart(r);
      ReadUntouched(ms.regs, r, v, ACC);
      ReadUntouched(ms.regs, r, v, P);
      ReadUntouched(ms.regs, r, v, XT);
    } else {
      AddressKept(loc, ms, M.WriteWords(ms.mem, M.WordAddress(loc, ms), 4, v));
      ReadStored(ms.mem, M.WordAddress(loc, ms), 4, v);
    }
  }

  lemma ScratchApart(r: Register)
    requires !IsScratch(r)
    ensures !Overlap(ACC, r) && !Overlap(P, r) && !Overlap(XT, r)
  {}

  lemma AddressKept(loc: ResolvedOperand, ms: M.Machine, mem: M.Words)
    ensures M.WordAddress(loc, ms.(mem := mem)) == M.WordAddress(loc, ms)
  {
    hide ReadReg;
  }

  lemma EpilogueView(rem: Operand, ms: M.Machine)
    requires DivisionOperand(rem)
    ensures var v, ms' := ViewOf(ms), Effects(Epilogue(rem), ms);
      && ViewOf(ms').acc == (if v.tc then Wrap(0 - v.p, 4) else v.p)
      && M.Value(rem, 4, ms') == v.acc
  {
    hide M.Effect, Effects, M.Value, ViewOf, Steady, Outside, IsLoc, Wrap;
    var prog := Epilogue(rem);
    DivisionLoc(rem);
    var m1 := M.Effect(prog[0], ms);
    var m2 := M.Effect(prog[1], m1);
    var m3 := M.Effect(prog[2], m2);
    Three(prog[0], prog[1], prog[2], ms);
    StoreView(rem, ms);
    PIsLoc(m1);
    MoveView(Loc32(RegDirect(P)), m1);
    NegtcView(m2);
    SteadyTrans(m1, m2, m3);
    SteadyValue(rem, 4, m1, m3);
  }

  lemma PIsLoc(ms: M.Machine)
    ensures IsLoc(Loc32(RegDirect(P)), 4) && M.Value(Loc32(RegDirect(P)), 4, ms) == ViewOf(ms).p
  {
    hide ReadReg;
  }

  // ---- The whole idiom ----

  /** On the machine: ACC gets the quotient truncated toward zero and reduced to 32 bits, which
      is its exact value except for -2^31 / -1, and `rem` the remainder of the magnitudes. */
  lemma {:induction false} SignedDivisionOnMachine(num: Operand, den: Operand, rem: Operand, ms: M.Machine)
    requires DivisionOperand(num) && DivisionOperand(den) && DivisionOperand(rem)
    requires M.Value(den, 4, ms) != 0
    ensures var n, d := Signed(M.Value(num, 4, ms), 4), Signed(M.Value(den, 4, ms), 4);
      var ms' := Effects(SignedDivisionProgram(num, den, rem), ms);
      && d != 0
      && ViewOf(ms').acc == Wrap(TruncatedQuotient(n, d), 4)
      && M.Value(rem, 4, ms') == AbsInt(n) % AbsInt(d)
  {
    hide M.Effect, Effects, M.Value, ViewOf, Steady, DivisionOperand, Wrap, Repeat, LoadDenominator, LoadNumerator,
      Epilogue, Signed, Magnitude, AbsInt, Divisor, Bits.Pow2, Negative;
    var n, d := M.Value(num, 4, ms), M.Value(den, 4, ms);
    DenominatorView(den, ms);
    var m1 := Effects(LoadDenominator(den), ms);
    DivisionLoc(num);
    SteadyValue(num, 4, ms, m1);
    NumeratorView(num, m1);
    var m2 := Effects(LoadNumerator(num), m1);
    XtDivides(m2);
    MagnitudeIsAbs(n);
    MagnitudeIsAbs(d);
    UnsignedDivision(Loc32(RegDirect(XT)), m2);
    var m3 := Effects(DividingSteps(), m2);
    EpilogueView(rem, m3);
    EffectsAppend(LoadDenominator(den), LoadNumerator(num) + (DividingSteps() + Epilogue(rem)), ms);
    EffectsAppend(LoadNumerator(num), DividingSteps() + Epilogue(rem), m1);
    EffectsAppend(DividingSteps(), Epilogue(rem), m2);
    Quotient(n, d, ViewOf(m3).p, ViewOf(m3).acc);
  }

  lemma XtDivides(ms: M.Machine)
    ensures Divisor(Loc32(RegDirect(XT))) && M.Value(Loc32(RegDirect(XT)), 4, ms) == ViewOf(ms).xt
  {
    hide ReadReg;
  }

  lemma MagnitudeIsAbs(v: nat)
    requires v < 0x1_0000_0000
    ensures Magnitude(v) == AbsInt(Signed(v, 4)) && Negative(v) == (Signed(v, 4) < 0) && (v != 0 ==> Magnitude(v) > 0)
  {}

  lemma Quotient(n: nat, d: nat, q: nat, r: nat)
    requires n < 0x1_0000_0000 && d < 0x1_0000_0000 && d != 0
    requires Magnitude(n) == q * Magnitude(d) + r && r < Magnitude(d)
    ensures var sn, sd := Signed(n, 4), Signed(d, 4);
      sd != 0 && r == AbsInt(sn) % AbsInt(sd) && q <= Magnitude(n)
      && (if Negative(d) != Negative(n) then Wrap(0 - q, 4) else q) == Wrap(TruncatedQuotient(sn, sd), 4)
  {
    hide Wrap, Magnitude, AbsInt, Signed, Negative;
    MagnitudeIsAbs(n);
    MagnitudeIsAbs(d);
    Bits.DivUnique(Magnitude(n), Magnitude(d), q, r);
    QuotientBound(q, Magnitude(d));
    SignedNonZero(d);
  }

  lemma SignedNonZero(d: nat)
    requires 0 < d < 0x1_0000_0000
    ensures Signed(d, 4) != 0
  {}

  lemma QuotientBound(q: nat, d: nat)
    requires d > 0
    ensures q <= q * d
  {}

  // ---- The lifted code ----

  predicate Reachable(op: Operand, st: State) {
    op.Loc32? && (op.loc.mode.SpRelative? ==> 2 * op.loc.offset <= Full(st.regs, SP))
  }

  lemma DivisionIsEasy(num: Operand, den: Operand, rem: Operand, st: State)
    requires DivisionOperand(num) && DivisionOperand(den) && DivisionOperand(rem)
    requires Reachable(num, st) && Reachable(den, st) && Reachable(rem, st)
    ensures forall insn :: insn in SignedDivisionProgram(num, den, rem) ==> Easy(insn, Full(st.regs, SP) / 2)
  {
    hide Plain, Outside, Repeat, Full, Easy, IsLoc, DivisionOperand, Reachable;
    var sp := Full(st.regs, SP) / 2;
    OperandRows(num, st);
    OperandRows(den, st);
    OperandRows(rem, st);
    EasyFixed(sp);
    InRepeat(SubculInsn(Loc32(RegDirect(XT))), 32);
  }

  lemma OperandRows(op: Operand, st: State)
    requires DivisionOperand(op) && Reachable(op, st)
    ensures Easy(Row(Mov(MOVL_ACC_LOC32), [op]), Full(st.regs, SP) / 2)
    ensures Easy(Row(Mov(MOV_LOC_REG(ACC)), [op]), Full(st.regs, SP) / 2)
  {
    hide Plain, Outside, Full;
  }

  lemma EasyFixed(sp: nat)
    ensures Easy(Row(System(CLRC_MODE), [Immediate(TC_MASK)]), sp)
    ensures Easy(Row(Misc(ABSTC_ACC), []), sp) && Easy(Row(Misc(NEGTC_ACC), []), sp)
    ensures Easy(Row(Mov(MOVL_P_ACC), []), sp) && Easy(Row(Mov(MOVB_ACC_CONST8), [Immediate(0)]), sp)
    ensures Easy(Row(Mov(MOV_LOC_REG(ACC)), [Loc32(RegDirect(XT))]), sp)
    ensures Easy(Row(Mov(MOVL_ACC_LOC32), [Loc32(RegDirect(P))]), sp)
    ensures Easy(SubculInsn(Loc32(RegDirect(XT))), sp)
  {
    hide Plain, Easy, Storable;
    RegisterOperands();
    EasyNoOperand(sp);
    EasyRegister(XT, sp);
    EasyRegister(P, sp);
  }

  lemma RegisterOperands()
    ensures Plain(RegDirect(XT), 4) && Plain(RegDirect(P), 4)
  {}

  lemma EasyNoOperand(sp: nat)
    ensures Easy(Row(System(CLRC_MODE), [Immediate(TC_MASK)]), sp)
    ensures Easy(Row(Misc(ABSTC_ACC), []), sp) && Easy(Row(Misc(NEGTC_ACC), []), sp)
    ensures Easy(Row(Mov(MOVL_P_ACC), []), sp) && Easy(Row(Mov(MOVB_ACC_CONST8), [Immediate(0)]), sp)
  {}

  lemma EasyRegister(r: Register, sp: nat)
    requires Plain(RegDirect(r), 4)
    ensures Easy(Row(Mov(MOV_LOC_REG(ACC)), [Loc32(RegDirect(r))]), sp)
    ensures Easy(Row(Mov(MOVL_ACC_LOC32), [Loc32(RegDirect(r))]), sp)
    ensures Easy(SubculInsn(Loc32(RegDirect(r))), sp)
  {
    hide Plain;
  }

  /** Running the IL emitted for the idiom, from any state, divides: the quotient truncated
      toward zero to ACC and the remainder of the magnitudes to `rem`, for every signed
      numerator and every non-zero denominator. */
  lemma {:induction false} SignedDivision(num: Operand, den: Operand, rem: Operand, codes: seq<Code>, st: State,
                                          o: Oracle)
    requires DivisionOperand(num) && DivisionOperand(den) && DivisionOperand(rem)
    requires Reachable(num, st) && Reachable(den, st) && Reachable(rem, st) && ValidSp(st)
    requires LiftedInto(SignedDivisionProgram(num, den, rem), codes)
    requires Eval(OpExpr(den, 4), st) != 0
    ensures var out := RunAll(codes, st, o);
      var n, d := Signed(Eval(OpExpr(num, 4), st), 4), Signed(Eval(OpExpr(den, 4), st), 4);
      && out.Falls? && d != 0
      && ReadReg(out.st.regs, ACC) == Wrap(TruncatedQuotient(n, d), 4)
      && Eval(OpExpr(rem, 4), out.st) == AbsInt(n) % AbsInt(d)
  {
    hide *;
    var ms := Abstract(st);
    var prog := SignedDivisionProgram(num, den, rem);
    Started(prog, codes);
    DivisionIsEasy(num, den, rem, st);
    EasyRun(prog, codes, st, o);
    OperandAt(num, Known(Direct, true, true), st, ms);
    OperandAt(den, Known(Direct, true, true), st, ms);
    SignedDivisionOnMachine(num, den, rem, ms);
    var out := RunAll(codes, st, o);
    AccView(AfterLine(prog, Known(Direct, true, true)), out.st, Effects(prog, ms));
    OperandAfter(rem, AfterLine(prog, Known(Direct, true, true)), st, out.st, Effects(prog, ms));
  }

  lemma AccView(k: Known, st: State, ms: M.Machine)
    requires Rel(k, st, ms)
    ensures ReadReg(st.regs, ACC) == ViewOf(ms).acc && ReadReg(st.regs, P) == ViewOf(ms).p
  {
    hide ReadReg, Rel;
    AccSame(k, st, ms);
  }

  lemma OperandAt(op: Operand, k: Known, st: State, ms: M.Machine)
    requires DivisionOperand(op) && Reachable(op, st) && Rel(k, st, ms) && ms == Abstract(st)
    ensures Eval(OpExpr(op, 4), st) == M.Value(op, 4, ms)
  {
    hide Eval, Plain, Rel, Full, Outside, M.ReadLoc, ReadExpr;
    OperandSame(op, 4, k, st, ms);
  }

  lemma OperandAfter(op: Operand, k: Known, st: State, st': State, ms: M.Machine)
    requires DivisionOperand(op) && Reachable(op, st) && Rel(k, st', ms) && ms.sp == Full(st.regs, SP) / 2
    ensures Eval(OpExpr(op, 4), st') == M.Value(op, 4, ms)
  {
    hide Eval, Plain, Rel, Full, Outside, M.ReadLoc, ReadExpr;
    OperandSame(op, 4, k, st', ms);
  }

  /** ACC and P of an IL state as one 64-bit number. */
  function IlPair(st: State): nat { ReadReg(st.regs, ACC) * 0x1_0000_0000 + ReadReg(st.regs, P) }

  /** The emitted code of k SUBCUL steps, for any k: the conservation law and the bound that
      hold after each of them. */
  lemma {:induction false} LongDivisionSteps(op: Operand, k: nat, codes: seq<Code>, st: State,
                                             o: Oracle) returns (q: nat)
    requires Divisor(op) && Reachable(op, st) && ValidSp(st) && LiftedInto(Repeat(SubculInsn(op), k), codes)
    requires ReadReg(st.regs, ACC) < Eval(OpExpr(op, 4), st)
    ensures codes != [] && RunAll(codes, st, o).Falls? && q < Bits.Pow2(k)
    ensures var out, d := RunAll(codes, st, o).st, Eval(OpExpr(op, 4), st);
      && Bits.Pow2(k) * IlPair(st) == q * (d * 0x1_0000_0000 - 1) + IlPair(out)
      && ReadReg(out.regs, ACC) < d
  {
    hide *;
    var prog := Repeat(SubculInsn(op), k);
    Started(prog, codes);
    SubculIsEasy(op, k, st);
    EasyRun(prog, codes, st, o);
    DivisorAt(op, Known(Direct, true, true), st, Abstract(st));
    AccView(Known(Direct, true, true), st, Abstract(st));
    q := SubculRun(op, k, Abstract(st));
    AccView(AfterLine(prog, Known(Direct, true, true)), RunAll(codes, st, o).st, Effects(prog, Abstract(st)));
    PairIs(st, ViewOf(Abstract(st)));
    PairIs(RunAll(codes, st, o).st, ViewOf(Effects(prog, Abstract(st))));
  }

  lemma PairIs(st: State, v: View)
    requires ReadReg(st.regs, ACC) == v.acc && ReadReg(st.regs, P) == v.p
    ensures IlPair(st) == Pair(v)
  {}

  lemma SubculIsEasy(op: Operand, k: nat, st: State)
    requires Divisor(op) && Reachable(op, st)
    ensures forall insn :: insn in Repeat(SubculInsn(op), k) ==> Easy(insn, Full(st.regs, SP) / 2)
  {
    hide Repeat, Plain, Full;
    InRepeat(SubculInsn(op), k);
  }

  lemma DivisorAt(op: Operand, k: Known, st: State, ms: M.Machine)
    requires Divisor(op) && Reachable(op, st) && Rel(k, st, ms) && ms == Abstract(st)
    ensures Eval(OpExpr(op, 4), st) == M.Value(op, 4, ms)
  {
    hide Eval, Plain, Rel, Full, Outside, M.ReadLoc, ReadExpr;
    OperandSame(op, 4, k, st, ms);
  }

  /** 32 steps: ACC:P divided by the operand, quotient to P and remainder to ACC. */
  lemma {:induction false} LongDivision(op: Operand, codes: seq<Code>, st: State, o: Oracle)
    requires Divisor(op) && Reachable(op, st) && ValidSp(st) && LiftedInto(Repeat(SubculInsn(op), 32), codes)
    requires ReadReg(st.regs, ACC) < Eval(OpExpr(op, 4), st)
    ensures codes != [] && RunAll(codes, st, o).Falls?
    ensures var out, d := RunAll(codes, st, o).st, Eval(OpExpr(op, 4), st);
      IlPair(st) == ReadReg(out.regs, P) * d + ReadReg(out.regs, ACC) && ReadReg(out.regs, ACC) < d
  {
    hide RunAll, Eval, OpExpr, Divisor, Reachable, ValidSp, LiftedInto, Repeat, Bits.Pow2, ReadReg, Modulus;
    var q := LongDivisionSteps(op, 32, codes, st, o);
    Bits.Pow2At32();
    var out := RunAll(codes, st, o).st;
    HighAndLow(IlPair(st), q, Eval(OpExpr(op, 4), st), ReadReg(out.regs, ACC), ReadReg(out.regs, P));
  }

  /** A part of XT follows from the whole. */
  lemma SameXtParts(a: RegFile, b: RegFile, r: Register)
    requires r.Parent() == XT && ReadReg(a, XT) == ReadReg(b, XT)
    ensures ReadReg(a, r) == ReadReg(b, r)
  {
    hide Full, Register.Size;
  }

  lemma RegisterKept(k: Known, k': Known, st: State, st': State, ms: M.Machine, ms': M.Machine, r: Register)
    requires Rel(k, st, ms) && Rel(k', st', ms') && Steady(ms, ms') && ViewOf(ms).xt == ViewOf(ms').xt
    requires r.Parent() != ACC && r.Parent() != P
    ensures ReadReg(st'.regs, r) == ReadReg(st.regs, r)
  {
    hide ReadReg, SameMem, SameFlags, SameRegs;
    if r == SP {
      SpValue(st.regs, ms);
      SpValue(st'.regs, ms');
    } else {
      RelRead(k, st, ms, r);
      RelRead(k', st', ms', r);
      if IsScratch(r) { SameXtParts(ms.regs, ms'.regs, r); }
    }
  }

  lemma MemoryKept(k: Known, k': Known, st: State, st': State, ms: M.Machine, ms': M.Machine)
    requires Rel(k, st, ms) && Rel(k', st', ms') && Steady(ms, ms') && ViewOf(ms).tc == ViewOf(ms').tc
    ensures forall w: nat :: w < M.WORD_SPACE ==> Half(st'.mem, 2 * w) == Half(st.mem, 2 * w)
    ensures st'.flags.tc == st.flags.tc
  {
    hide ReadReg, SameRegs, Half, M.Word;
    forall w: nat | w < M.WORD_SPACE ensures Half(st'.mem, 2 * w) == Half(st.mem, 2 * w) {
      assert M.Word(ms.mem, w) == M.Word(ms'.mem, w);
    }
  }

  /** The emitted steps touch ACC, P and flags only: every other register, SP and the parts of XT
      included, all of memory and TC stay as they were. */
  lemma {:induction false} LongDivisionFrame(op: Operand, k: nat, codes: seq<Code>, st: State, o: Oracle)
    requires Divisor(op) && Reachable(op, st) && ValidSp(st) && LiftedInto(Repeat(SubculInsn(op), k), codes)
    requires ReadReg(st.regs, ACC) < Eval(OpExpr(op, 4), st)
    ensures codes != [] && RunAll(codes, st, o).Falls?
    ensures var out := RunAll(codes, st, o).st;
      && (forall r: Register :: r.Parent() != ACC && r.Parent() != P ==> ReadReg(out.regs, r) == ReadReg(st.regs, r))
      && (forall w: nat :: w < M.WORD_SPACE ==> Half(out.mem, 2 * w) == Half(st.mem, 2 * w))
      && out.flags.tc == st.flags.tc
  {
    hide *;
    var prog, known := Repeat(SubculInsn(op), k), Known(Direct, true, true);
    Started(prog, codes);
    SubculIsEasy(op, k, st);
    EasyRun(prog, codes, st, o);
    DivisorAt(op, known, st, Abstract(st));
    AccView(known, st, Abstract(st));
    var q := SubculRun(op, k, Abstract(st));
    var out, ms' := RunAll(codes, st, o).st, Effects(prog, Abstract(st));
    MemoryKept(known, AfterLine(prog, known), st, out, Abstract(st), ms');
    forall r: Register | r.Parent() != ACC && r.Parent() != P ensures ReadReg(out.regs, r) == ReadReg(st.regs, r) {
      RegisterKept(known, AfterLine(prog, known), st, out, Abstract(st), ms', r);
    }
  }
}
