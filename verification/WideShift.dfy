/** LSL64 ACC:P is a 64-bit left shift. */
module WideShift {
  import opened Registers
  import opened Instructions
  import opened Il
  import opened IlCode
  import opened Relation
  import opened StraightLine
  import opened Scratch
  import Division
  import M = Machine
  import Bits

  function ShiftRow(n: nat): DecodedInstruction { Row(System(LSL64_ACC_P_SHIFT), [Immediate(n)]) }

  lemma ShiftedPair(n: nat, ms: M.Machine)
    requires 1 <= n <= 16
    ensures Division.Pair(ViewOf(M.Effect(ShiftRow(n), ms))) == Wrap(Bits.Shl(Division.Pair(ViewOf(ms)), n), 8)
  {
    hide ReadReg, WriteReg, Wrap, Bits.Shl;
    var shifted := Wrap(Bits.Shl(Division.Pair(ViewOf(ms)), n), 8);
    var high, low := shifted / 0x1_0000_0000, shifted % 0x1_0000_0000;
    Put(ms, ACC, high);
    Put(M.PutReg(ms, ACC, high), P, low);
  }

  lemma ShiftIsEasy(n: nat, sp: nat)
    requires 1 <= n <= 16
    ensures Easy(ShiftRow(n), sp)
  {}

  /** Running the IL emitted for LSL64 ACC:P,#n, for n from 1 to 16, shifts the 64-bit pair left
      by n and drops what leaves it, for every value: the second of the two register writes
      evaluates the shared shift again after the first has changed ACC. */
  lemma {:induction false} Lsl64IsShift(n: nat, codes: seq<Code>, st: State, o: Oracle)
    requires 1 <= n <= 16 && ValidSp(st) && LiftedInto([ShiftRow(n)], codes)
    ensures codes != [] && RunAll(codes, st, o).Falls?
    ensures Division.IlPair(RunAll(codes, st, o).st) == Division.IlPair(st) * Bits.Pow2(n) % 0x1_0000_0000_0000_0000
  {
    hide *;
    var prog, k, ms := [ShiftRow(n)], Known(Direct, true, true), Abstract(st);
    ShiftIsEasy(n, Full(st.regs, SP) / 2);
    EasyRun(prog, codes, st, o);
    One(ShiftRow(n), ms);
    ShiftedPair(n, ms);
    var out := RunAll(codes, st, o).st;
    Division.AccView(k, st, ms);
    Division.AccView(AfterLine(prog, k), out, Effects(prog, ms));
    Division.PairIs(st, ViewOf(ms));
    Division.PairIs(out, ViewOf(Effects(prog, ms)));
    Bits.ShlIsMul(Division.IlPair(st), n);
    WrapIs(Division.IlPair(st) * Bits.Pow2(n));
  }

  lemma WrapIs(v: nat)
    ensures Wrap(v, 8) == v % 0x1_0000_0000_0000_0000
  {}
}
