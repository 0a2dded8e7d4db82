/** The working registers ACC, P and XT, as the arithmetic idioms use them. */
module Scratch {
  import opened Wrappers
  import opened Registers
  import opened Operands
  import opened Instructions
  import opened Storage
  import M = Machine

  predicate IsScratch(r: Register) {
    r.Parent() == ACC || r.Parent() == P || r.Parent() == XT
  }

  /** Everything but the working registers and the status bits is the same. */
  ghost predicate Steady(a: M.Machine, b: M.Machine) {
    && a.mem == b.mem
    && a.sp == b.sp
    && forall r: Register :: !IsScratch(r) ==> ReadReg(a.regs, r) == ReadReg(b.regs, r)
  }

  datatype View = View(acc: nat, p: nat, xt: nat, tc: bool)

  function ViewOf(ms: M.Machine): (v: View)
    ensures v.acc < 0x1_0000_0000 && v.p < 0x1_0000_0000 && v.xt < 0x1_0000_0000
  {
    hide Modulus, ReadReg;
    View(ReadReg(ms.regs, ACC), ReadReg(ms.regs, P), ReadReg(ms.regs, XT), ms.status.tc)
  }

  lemma SteadyTrans(a: M.Machine, b: M.Machine, c: M.Machine)
    requires Steady(a, b) && Steady(b, c)
    ensures Steady(a, c)
  {
    hide IsScratch, ReadReg;
  }

  lemma Put(ms: M.Machine, r: Register, v: nat)
    requires (r == ACC || r == P || r == XT) && v < 0x1_0000_0000
    ensures var w := ViewOf(ms);
      ViewOf(M.PutReg(ms, r, v)) ==
      View(if r == ACC then v else w.acc, if r == P then v else w.p, if r == XT then v else w.xt, w.tc)
    ensures Steady(ms, M.PutReg(ms, r, v))
  {
    hide ReadReg, WriteReg, Wrap;
    ReadWritten(ms.regs, r, v);
    forall q: Register | !Overlap(q, r) ensures ReadReg(WriteReg(ms.regs, r, v), q) == ReadReg(ms.regs, q) {
      ReadUntouched(ms.regs, r, v, q);
    }
  }

  lemma PutStatus(ms: M.Machine, s: M.Status)
    ensures ViewOf(ms.(status := s)) == ViewOf(ms).(tc := s.tc)
    ensures Steady(ms, ms.(status := s))
  {
    hide ReadReg;
  }

  // ---- Operands outside the working registers ----

  predicate Outside(op: Operand) {
    match op
    case Loc16(loc) => M.NamesRegister(loc) ==> !IsScratch(loc.register.value)
    case Loc32(loc) => M.NamesRegister(loc) ==> !IsScratch(loc.register.value)
    case _ => true
  }

  lemma SteadyLoc(loc: ResolvedOperand, size: nat, a: M.Machine, b: M.Machine)
    requires Steady(a, b) && (M.NamesRegister(loc) ==> !IsScratch(loc.register.value))
    ensures M.ReadLoc(loc, size, a) == M.ReadLoc(loc, size, b)
    ensures M.WordAddress(loc, a) == M.WordAddress(loc, b)
  {
    hide ReadReg, M.ReadWords;
    assert !IsScratch(DP) && !IsScratch(AR(0)) && !IsScratch(AR(1));
    assert forall n: Index :: !IsScratch(XAR(n));
  }

  lemma SteadyValue(op: Operand, size: nat, a: M.Machine, b: M.Machine)
    requires Steady(a, b) && Outside(op)
    ensures M.Value(op, size, a) == M.Value(op, size, b)
  {
    hide M.ReadLoc, IsScratch, Steady;
    match op
    case Loc16(loc) => SteadyLoc(loc, 2, a, b);
    case Loc32(loc) => SteadyLoc(loc, 4, a, b);
    case Immediate(_) =>
    case Condition(_) =>
  }

  // ---- What single instructions do to the working registers ----

  function Row(id: InsnId, ops: seq<Operand>): DecodedInstruction {
    Decoded(id, ops, None, 2)
  }

  /** Magnitude and sign of a 32-bit two's complement value; the magnitude of -2^31 is 2^31. */
  function Magnitude(v: nat): (m: nat)
    requires v < 0x1_0000_0000
    ensures m <= 0x8000_0000
  {
    if v >= 0x8000_0000 then 0x1_0000_0000 - v else v
  }

  predicate Negative(v: nat) { v >= 0x8000_0000 }

  lemma NegateView(ms: M.Machine)
    ensures ViewOf(M.NegateAcc(ms)) == ViewOf(ms).(acc := Wrap(0 - ViewOf(ms).acc, 4))
    ensures Steady(ms, M.NegateAcc(ms))
    ensures M.NegateAcc(ms).status.tc == ms.status.tc
  {
    hide ReadReg, WriteReg, Wrap, Modulus, Steady;
    var result := Wrap(0 - ReadReg(ms.regs, ACC), 4);
    Put(ms, ACC, result);
    PutStatus(M.PutReg(ms, ACC, result), M.NegateAcc(ms).status);
    SteadyTrans(ms, M.PutReg(ms, ACC, result), M.NegateAcc(ms));
  }

  lemma AbstcView(ms: M.Machine)
    ensures var w, ms' := ViewOf(ms), M.Effect(Row(Misc(ABSTC_ACC), []), ms);
      Steady(ms, ms') && ViewOf(ms') == w.(acc := Magnitude(w.acc), tc := w.tc != Negative(w.acc))
  {
    hide ReadReg, M.NegateAcc, M.Judge, Steady, M.Value, Wrap;
    NegateView(ms);
    var neg := M.NegateAcc(ms);
    if Negative(ViewOf(ms).acc) {
      WrapNegative(ViewOf(ms).acc);
      var s := neg.status.(tc := !ms.status.tc);
      PutStatus(neg, s);
      SteadyTrans(ms, neg, neg.(status := s));
    } else {
      PutStatus(ms, M.Judge(ms.status, ViewOf(ms).acc, 4).(c := false));
      JudgeKeeps(ms.status, ViewOf(ms).acc);
    }
  }

  lemma WrapNegative(v: nat)
    requires 0 < v < 0x1_0000_0000
    ensures Wrap(0 - v, 4) == 0x1_0000_0000 - v
  {}

  lemma JudgeKeeps(s: M.Status, v: nat)
    ensures M.Judge(s, v, 4).tc == s.tc
  {}

  lemma NegtcView(ms: M.Machine)
    ensures var w, ms' := ViewOf(ms), M.Effect(Row(Misc(NEGTC_ACC), []), ms);
      Steady(ms, ms') && ViewOf(ms') == w.(acc := if w.tc then Wrap(0 - w.acc, 4) else w.acc)
  {
    hide ReadReg, M.NegateAcc, M.Judge, Steady, M.Value, Wrap;
    NegateView(ms);
    PutStatus(ms, M.Judge(ms.status, ViewOf(ms).acc, 4).(c := false));
    JudgeKeeps(ms.status, ViewOf(ms).acc);
  }

  lemma LoadAccView(ms: M.Machine, v: nat)
    requires v < 0x1_0000_0000
    ensures Steady(ms, M.LoadAcc(ms, v)) && ViewOf(M.LoadAcc(ms, v)) == ViewOf(ms).(acc := v)
  {
    hide ReadReg, WriteReg, M.Judge, Steady;
    Put(ms, ACC, v);
    var s := M.Judge(ms.status, v, 4);
    PutStatus(M.PutReg(ms, ACC, v), s);
    JudgeKeeps(ms.status, v);
    SteadyTrans(ms, M.PutReg(ms, ACC, v), M.LoadAcc(ms, v));
  }
}
