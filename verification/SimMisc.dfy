/** Lifted compares, negations and absolute values do what the machine does.

    The negations behind a test are guarded blocks: when the test fails the IL state is
    untouched, while the machine still sets N, Z and C, so nothing is known of those flags
    afterwards. ABSTC toggles TC on the negating side only. */
module SimMisc {
  import opened Registers
  import opened Operands
  import opened Instructions
  import opened Il
  import opened IlCode
  import opened LiftOperands
  import opened LiftMisc
  import opened Relation
  import opened SimArith
  import M = Machine
  import Bits

  const NOTHING: Known := Known(Unknown, false, false)

  /** Knowing less still relates. */
  predicate Weaker(less: Known, more: Known) {
    && (less.n ==> more.n)
    && (less.z ==> more.z)
    && (less.c.Unknown? || less.c == more.c)
  }

  lemma Weaken(less: Known, more: Known, st: State, ms: M.Machine)
    requires Rel(more, st, ms) && Weaker(less, more)
    ensures Rel(less, st, ms)
  {
    hide SameRegs, SameMem;
  }

  lemma StatusOnly(k: Known, k': Known, st: State, f: Flags, ms: M.Machine, s: M.Status)
    requires Rel(k, st, ms) && SameFlags(k', f, s)
    ensures Rel(k', st.(flags := f), ms.(status := s))
  {
    hide SameMem;
  }

  function AfterMisc(id: MiscId, k: Known): Known {
    match id
    case CMPL_ACC_LOC32 => Known(Inverted, false, true)
    case TEST_ACC => k.(n := true, z := true)
    case NEG_ACC => Known(Unknown, true, true)
    case ABS_ACC => NOTHING
    case ABSTC_ACC => NOTHING
    case NEGTC_ACC => NOTHING
  }

  lemma CompareOk(op: Operand, k: Known, st: State, ms: M.Machine, o: Oracle)
    requires IsLoc(op, 4) && OpReaches(op, ms) && Rel(k, st, ms)
    ensures var out := ExecBlock(MiscBlock(CMPL_ACC_LOC32, [op]), st, o);
      out.Falls? && Rel(Known(Inverted, false, true), out.st, M.MiscEffect(CMPL_ACC_LOC32, [op], ms))
  {
    hide Eval, SizeOf, Modulus, Wrap, ReadReg, Rel, OpBlock, OpExpr, WriteOpBlock, WriteInsn, ExecBlock, M.Value,
      FlagsAfter, WithFlags, CarryOf, Plain, Reaches, OpReaches, Sub, Reg, M.NegateAcc;
    PlainOp(op, 4, Const(4, 0));
    OperandSame(op, 4, k, st, ms);
    AccSame(k, st, ms);
    var e := Sub(4, Reg(4, ACC), OpExpr(op, 4));
    var acc: int, d: int := ReadReg(ms.regs, ACC), M.Value(op, 4, ms);
    assert Eval(e, st) == Wrap(acc - d, 4) && SizeOf(e) == 4 && CarryOf(e, st, o) == (acc < d);
    FlaggedNZC(e, st, o);
    AppendToEnd(Do(Compare32(OpExpr(op, 4)), End));
    ExecOne(Compare32(OpExpr(op, 4)), st, o);
    RelFlags(k, st, ms);
    StatusOnly(k, Known(Inverted, false, true), st, FlagsAfter(WithFlags(e, NZC), st, o), ms,
      M.AluStatus(ms.status, acc - d, 4, true));
  }

  lemma RelFlags(k: Known, st: State, ms: M.Machine)
    requires Rel(k, st, ms)
    ensures SameFlags(k, st.flags, ms.status)
  {}

  lemma TestOk(k: Known, st: State, ms: M.Machine, o: Oracle)
    requires Rel(k, st, ms)
    ensures var out := ExecBlock(MiscBlock(TEST_ACC, []), st, o);
      out.Falls? && Rel(k.(n := true, z := true), out.st, M.MiscEffect(TEST_ACC, [], ms))
  {
    hide Eval, SizeOf, Modulus, Wrap, ReadReg, Rel, ExecBlock, FlagsAfter, WithFlags, Sub, Reg, Const, M.NegateAcc,
      M.Value;
    AccSame(k, st, ms);
    var acc := ReadReg(ms.regs, ACC);
    var e := Sub(4, Reg(4, ACC), Const(4, 0));
    assert Eval(e, st) == acc && SizeOf(e) == 4;
    FlaggedNZ(e, st, o);
    ExecOne(TestAcc(), st, o);
    RelFlags(k, st, ms);
    StatusOnly(k, k.(n := true, z := true), st, FlagsAfter(WithFlags(e, NZ), st, o), ms, M.Judge(ms.status, acc, 4));
  }

  lemma NegateOk(k: Known, st: State, ms: M.Machine, o: Oracle)
    requires Rel(k, st, ms)
    ensures Rel(Known(Unknown, true, true), Exec(Negate(), st, o), M.NegateAcc(ms))
  {
    hide Eval, SizeOf, Modulus, Wrap, ReadReg, WriteReg, SameRegs, SameMem, FlagsAfter, WithFlags, CarryOf, Reg, Neg;
    AccSame(k, st, ms);
    var result := Wrap(0 - ReadReg(ms.regs, ACC), 4);
    var e := Neg(4, Reg(4, ACC));
    assert Eval(e, st) == result && SizeOf(e) == 4;
    FlaggedAll(e, st, o);
    WriteSame(st.regs, ms, ACC, result);
    RegsOnly(WriteReg(st.regs, ACC, result), M.PutReg(ms, ACC, result), M.NegateAcc(ms).status);
  }

  lemma IsNegativeValue(k: Known, st: State, ms: M.Machine)
    requires Rel(k, st, ms)
    ensures (Eval(IsNegative(), st) != 0) == (ReadReg(ms.regs, ACC) >= 0x8000_0000)
  {
    hide Eval, SizeOf, Wrap, ReadReg, Rel, Reg, Const, Cmp;
    AccSame(k, st, ms);
  }

  lemma TCValue(k: Known, st: State, ms: M.Machine)
    requires Rel(k, st, ms)
    ensures (Eval(TCIsSet(), st) != 0) == ms.status.tc
  {
    hide Eval, SizeOf, Wrap, SameRegs, SameMem, FlagOf, Const, Cmp;
  }

  lemma ToggleValue(st: State, o: Oracle)
    ensures Exec(ToggleTC(), st, o) == st.(flags := st.flags.(tc := !st.flags.tc))
  {
    hide Eval, SizeOf, Wrap, FlagOf, Const, Xor, Bits.Xor;
    var b := if st.flags.tc then 1 else 0;
    XorOne(b);
    assert Eval(Xor(0, FlagOf(TC), Const(0, 1)), st) == 1 - b;
  }

  lemma XorOne(b: nat)
    requires b < 2
    ensures Bits.Xor(b, 1) == 1 - b
  {
    assert Bits.Xor(0, 1) == 1 && Bits.Xor(1, 1) == 2 * Bits.Xor(0, 0);
  }

  /** A guarded negation, with or without the toggle that follows it. */
  lemma GuardedOk(cond: Expr, holds: bool, toggle: bool, k: Known, st: State, ms: M.Machine, s: M.Status, o: Oracle)
    requires Rel(k, st, ms) && (Eval(cond, st) != 0) == holds && s.tc == ms.status.tc
    ensures var body := if toggle then Two(Negate(), ToggleTC()) else Do(Negate(), End);
      var out := ExecBlock(Guard(cond, true, body, End), st, o);
      var neg := M.NegateAcc(ms);
      var expected := if !holds then ms.(status := s)
                      else if toggle then neg.(status := neg.status.(tc := !ms.status.tc)) else neg;
      out.Falls? && Rel(NOTHING, out.st, expected)
  {
    hide Eval, Rel, Negate, ToggleTC, Exec, M.NegateAcc, Two;
    RelFlags(k, st, ms);
    NegateIsPlain();
    if holds {
      var st1 := Exec(Negate(), st, o);
      NegateOk(k, st, ms, o);
      RelFlags(Known(Unknown, true, true), st1, M.NegateAcc(ms));
      if toggle {
        ToggleValue(st1, o);
        NegateKeepsTC(ms);
        ExecTwo(Negate(), ToggleTC(), st, o);
        var neg := M.NegateAcc(ms);
        StatusOnly(Known(Unknown, true, true), NOTHING, st1, st1.flags.(tc := !st1.flags.tc), neg,
          neg.status.(tc := !ms.status.tc));
      } else {
        ExecOne(Negate(), st, o);
        Weaken(NOTHING, Known(Unknown, true, true), st1, M.NegateAcc(ms));
      }
    } else {
      StatusOnly(k, NOTHING, st, st.flags, ms, s);
      SameState(st);
    }
  }

  lemma SameState(st: State)
    ensures st.(flags := st.flags) == st
  {}

  lemma NegateKeepsTC(ms: M.Machine)
    ensures M.NegateAcc(ms).status.tc == ms.status.tc
  {}

  lemma MiscOk(id: MiscId, ops: seq<Operand>, k: Known, st: State, ms: M.Machine, o: Oracle)
    requires MiscShape(id, ops) && (ops != [] ==> OpReaches(ops[0], ms)) && Rel(k, st, ms)
    ensures var out := ExecBlock(MiscBlock(id, ops), st, o);
      out.Falls? && Rel(AfterMisc(id, k), out.st, M.MiscEffect(id, ops, ms))
  {
    hide Eval, Rel, Negate, ToggleTC, Two, M.NegateAcc, ExecBlock, OpReaches, Plain, IsNegative, TCIsSet, M.Value,
      TestAcc, Compare32, Append, OpBlock, OpExpr, ReadReg, Wrap;
    var acc := ReadReg(ms.regs, ACC);
    var kept := M.Judge(ms.status, acc, 4).(c := false);
    if id.CMPL_ACC_LOC32? {
      assert ops == [ops[0]];
      CompareOk(ops[0], k, st, ms, o);
    } else if id.TEST_ACC? {
      TestOk(k, st, ms, o);
    } else if id.NEG_ACC? {
      NegateIsPlain();
      NegateOk(k, st, ms, o);
      ExecOne(Negate(), st, o);
    } else if id.NEGTC_ACC? {
      TCValue(k, st, ms);
      GuardedOk(TCIsSet(), ms.status.tc, false, k, st, ms, kept, o);
    } else {
      IsNegativeValue(k, st, ms);
      GuardedOk(IsNegative(), acc >= 0x8000_0000, id.ABSTC_ACC?, k, st, ms, kept, o);
    }
  }
}
