/** SETC and CLRC, MAX and MIN, and the 64-bit shift do what the machine does.

    The flag loop of SETC and CLRC is followed bit by bit. MAX and MIN read their operand once,
    into a temporary, set the flags of the difference and replace the register on one side of a
    branch. The 64-bit shift writes ACC and P from one shared expression. */
module SimSystem {
  import opened Registers
  import opened Operands
  import opened Instructions
  import opened Il
  import opened IlCode
  import opened LiftOperands
  import opened LiftSystem
  import opened Relation
  import opened SimArith
  import opened SimMisc
  import opened SimMov
  import M = Machine
  import Bits

  // ---- SETC and CLRC ----

  function AfterMode(mask: nat, k: Known): Known {
    if Bits.Bit(mask, 3) then k.(c := Direct) else k
  }

  lemma WriteBitValue(flag: Flag, on: bool, st: State, o: Oracle)
    ensures Exec(WriteBit(flag, on), st, o) == st.(flags := st.flags.Set(flag, on))
  {
    hide Eval, Wrap, SizeOf, Const;
  }

  lemma ModeValue(mask: nat, on: bool, st: State, o: Oracle)
    ensures var f0 := if Bits.Bit(mask, 1) then st.flags.Set(OVM, on) else st.flags;
      var f1 := if Bits.Bit(mask, 2) then f0.Set(TC, on) else f0;
      var f2 := if Bits.Bit(mask, 3) then f1.Set(C, on) else f1;
      ExecBlock(ModeBlock(mask, on), st, o) == Falls(st.(flags := f2))
  {
    hide Exec, WriteBit, Bits.Bit, Flags.Set, ModeBlock;
    var b1, b2, b3 := Bits.Bit(mask, 1), Bits.Bit(mask, 2), Bits.Bit(mask, 3);
    ModeShape(mask, on);
    var st1 := if b1 then Exec(WriteBit(OVM, on), st, o) else st;
    var st2 := if b2 then Exec(WriteBit(TC, on), st1, o) else st1;
    WriteBitValue(OVM, on, st, o);
    WriteBitValue(TC, on, st1, o);
    WriteBitValue(C, on, st2, o);
    var last := if b3 then Do(WriteBit(C, on), End) else End;
    var middle := if b2 then Do(WriteBit(TC, on), last) else last;
    var st3 := if b3 then Exec(WriteBit(C, on), st2, o) else st2;
    assert ExecBlock(last, st2, o) == Falls(st3);
    assert ExecBlock(middle, st1, o) == Falls(st3);
    assert ExecBlock(if b1 then Do(WriteBit(OVM, on), middle) else middle, st, o) == Falls(st3);
    NopKeeps(st, o);
  }

  lemma NopKeeps(st: State, o: Oracle)
    ensures ExecBlock(Do(Nop, End), st, o) == Falls(st)
  {}

  lemma ModeShape(mask: nat, on: bool)
    ensures var last := if Bits.Bit(mask, 3) then Do(WriteBit(C, on), End) else End;
      var middle := if Bits.Bit(mask, 2) then Do(WriteBit(TC, on), last) else last;
      var all := if Bits.Bit(mask, 1) then Do(WriteBit(OVM, on), middle) else middle;
      ModeBlock(mask, on) == if all == End then Do(Nop, End) else all
  {
    hide WriteBit, Bits.Bit;
    assert MODE_FLAGS[1..] == [(2, TC), (3, C)];
    assert MODE_FLAGS[1..][1..] == [(3, C)];
    assert MODE_FLAGS[1..][1..][1..] == [];
    var none: seq<(nat, Flag)> := [];
    assert ModeBits(mask, on, none) == End;
    var last := if Bits.Bit(mask, 3) then Do(WriteBit(C, on), End) else End;
    assert ModeBits(mask, on, [(3, C)]) == last;
    var middle := if Bits.Bit(mask, 2) then Do(WriteBit(TC, on), last) else last;
    assert ModeBits(mask, on, [(2, TC), (3, C)]) == middle;
    assert MODE_FLAGS[0] == (1, OVM);
    assert ModeBits(mask, on, MODE_FLAGS) == if Bits.Bit(mask, 1) then Do(WriteBit(OVM, on), middle) else middle;
  }

  lemma ModeOk(mask: nat, on: bool, k: Known, st: State, ms: M.Machine, o: Oracle)
    requires Rel(k, st, ms)
    ensures var out := ExecBlock(ModeBlock(mask, on), st, o);
      && out.Falls? && Rel(AfterMode(mask, k), out.st, M.SetMode(ms, mask, on))
      && (st.flags.ovm == ms.status.modes.ovm ==> out.st.flags.ovm == M.SetMode(ms, mask, on).status.modes.ovm)
  {
    hide Rel, ModeBlock, ExecBlock, Bits.Bit;
    ModeValue(mask, on, st, o);
    RelFlags(k, st, ms);
    var out := ExecBlock(ModeBlock(mask, on), st, o);
    StatusOnly(k, AfterMode(mask, k), st, out.st.flags, ms, M.SetMode(ms, mask, on).status);
  }

  // ---- MAX and MIN ----

  /** The compare that sets the flags, after the operand is in the temporary. */
  lemma SelectFlags(reg: Register, v: nat, a: nat, st: State)
    requires 0 in st.temps && st.temps[0] == v < Modulus(4) && ReadReg(st.regs, reg) == a < Modulus(4)
    ensures var e := Sub(4, Reg(4, reg), Temp(4, 0)); var total: int := (a as int) - v;
      && Eval(e, st) == Wrap(total, 4) && SizeOf(e) == 4
      && forall o: Oracle :: CarryOf(e, st, o) == (a < v)
  {
    hide Eval, SizeOf, Modulus, Wrap, ReadReg, CarryOf, Sub, Reg, Temp;
  }

  lemma FlaggedNZV(op: Expr, st: State, o: Oracle)
    ensures var f := FlagsAfter(WithFlags(op, NZV), st, o);
      f.z == (Eval(op, st) == 0) && f.c == st.flags.c && f.tc == st.flags.tc
  {
    hide Eval, CarryOf, Modulus, SizeOf;
  }

  function AfterSelect(flags: FlagWrite, k: Known): Known {
    if flags.All? then Known(Inverted, false, true) else k.(n := false, z := true)
  }

  lemma CompareStatus(reg: Register, v: nat, a: nat, flags: FlagWrite, k: Known, st: State, ms: M.Machine, o: Oracle)
    requires Rel(k, st, ms) && (flags.All? || flags.NZV?)
    requires 0 in st.temps && st.temps[0] == v < Modulus(4) && ReadReg(st.regs, reg) == a < Modulus(4)
    ensures var e := WithFlags(Sub(4, Reg(4, reg), Temp(4, 0)), flags); var total: int := (a as int) - v;
      var s := M.AluStatus(ms.status, total, 4, true);
      Rel(AfterSelect(flags, k), st.(flags := FlagsAfter(e, st, o)),
          ms.(status := if flags.All? then s else s.(c := ms.status.c)))
  {
    hide Eval, SizeOf, Modulus, Wrap, ReadReg, CarryOf, Sub, Reg, Temp, FlagsAfter, WithFlags, Rel;
    var e := Sub(4, Reg(4, reg), Temp(4, 0));
    var total: int := (a as int) - v;
    var s := M.AluStatus(ms.status, total, 4, true);
    SelectFlags(reg, v, a, st);
    RelFlags(k, st, ms);
    if flags.All? { FlaggedAll(e, st, o); } else { FlaggedNZV(e, st, o); }
    StatusOnly(k, AfterSelect(flags, k), st, FlagsAfter(WithFlags(e, flags), st, o), ms,
               if flags.All? then s else s.(c := ms.status.c));
  }

  lemma ReplaceOk(reg: Register, keep: CmpOp, v: nat, k: Known, st: State, ms: M.Machine, o: Oracle)
    requires Rel(k, st, ms) && (reg == ACC || reg == P)
    requires 0 in st.temps && st.temps[0] == v < Modulus(4)
    ensures var out := ExecBlock(SelectReplace(reg, keep), st, o);
      out.Falls? && Rel(k, out.st, M.Select(ms, reg, v, Compare(keep, 4, ReadReg(ms.regs, reg), v)))
  {
    hide Eval, SizeOf, Modulus, Wrap, ReadReg, Compare, Reg, Temp, Cmp, Rel, Exec, FlagsAfter, M.PutReg;
    AccSame(k, st, ms);
    var a := ReadReg(ms.regs, reg);
    assert (Eval(KeepTest(reg, keep), st) != 0) == Compare(keep, 4, a, v);
    TempValue(v, st, o);
    LoadRegOk(reg, Temp(4, 0), v, k, st, ms, o);
    ExecOne(Replace(reg), st, o);
  }

  lemma TempValue(v: nat, st: State, o: Oracle)
    requires 0 in st.temps && st.temps[0] == v < Modulus(4)
    ensures Eval(Temp(4, 0), st) == v && SizeOf(Temp(4, 0)) == 4 && FlagsAfter(Temp(4, 0), st, o) == st.flags
  {
    hide Wrap, Modulus, ReadReg;
  }

  /** The block runs its compare on the value in the temporary, then its replacement. */
  lemma SelectExec(reg: Register, op: Operand, keep: CmpOp, flags: FlagWrite, v: nat, st: State, o: Oracle)
    requires OpBlock(op) == End && Eval(OpExpr(op, 4), st) == v < Modulus(4)
    requires FlagsAfter(OpExpr(op, 4), st, o) == st.flags
    ensures var st1 := WithTemp(st, v);
      ExecBlock(SelectBlock(reg, op, keep, flags), st, o) ==
      ExecBlock(SelectReplace(reg, keep),
                st1.(flags := FlagsAfter(WithFlags(Sub(4, Reg(4, reg), Temp(4, 0)), flags), st1, o)), o)
  {
    hide Eval, SizeOf, Modulus, OpBlock, OpExpr, FlagsAfter, WithFlags, SelectReplace, SelectCompare, ExecBlock, Sub,
      Reg, Temp, Append;
    var value := OpExpr(op, 4);
    AppendToEnd(Append(SelectCompare(reg, value, flags), SelectReplace(reg, keep)));
    ExecAppend(SelectCompare(reg, value, flags), SelectReplace(reg, keep), st, o);
    SelectCompareExec(reg, value, v, flags, st, o);
  }

  /** Compare and replacement, once the operand is in the temporary. */
  lemma SelectTail(reg: Register, keep: CmpOp, flags: FlagWrite, v: nat, k: Known, st: State, ms: M.Machine, o: Oracle)
    requires Rel(k, st, ms) && (reg == ACC || reg == P) && (flags.All? || flags.NZV?)
    requires 0 in st.temps && st.temps[0] == v < Modulus(4)
    ensures var st2 := st.(flags := FlagsAfter(WithFlags(Sub(4, Reg(4, reg), Temp(4, 0)), flags), st, o));
      var out := ExecBlock(SelectReplace(reg, keep), st2, o);
      out.Falls? && Rel(AfterSelect(flags, k), out.st,
                        M.Max(ms, reg, v, Compare(keep, 4, ReadReg(ms.regs, reg), v), flags.All?))
  {
    hide Eval, SizeOf, Modulus, Wrap, ReadReg, Compare, Rel, FlagsAfter, WithFlags, SelectReplace, ExecBlock,
      M.AluStatus, WriteReg, Sub, Reg, Temp, AfterSelect;
    AccSame(k, st, ms);
    var a := ReadReg(ms.regs, reg);
    CompareStatus(reg, v, a, flags, k, st, ms, o);
    var total: int := (a as int) - v;
    var s := M.AluStatus(ms.status, total, 4, true);
    var st2 := st.(flags := FlagsAfter(WithFlags(Sub(4, Reg(4, reg), Temp(4, 0)), flags), st, o));
    ReplaceOk(reg, keep, v, AfterSelect(flags, k), st2, ms.(status := if flags.All? then s else s.(c := ms.status.c)),
      o);
  }

  lemma SelectOk(reg: Register, op: Operand, keep: CmpOp, flags: FlagWrite, k: Known, st: State, ms: M.Machine,
                 o: Oracle)
    requires Rel(k, st, ms) && (reg == ACC || reg == P) && (flags.All? || flags.NZV?)
    requires IsLoc(op, 4) && OpReaches(op, ms)
    ensures var out := ExecBlock(SelectBlock(reg, op, keep, flags), st, o); var v := M.Value(op, 4, ms);
      out.Falls? && Rel(AfterSelect(flags, k), out.st,
                        M.Max(ms, reg, v, Compare(keep, 4, ReadReg(ms.regs, reg), v), flags.All?))
  {
    hide Eval, SizeOf, Modulus, Wrap, ReadReg, Compare, Rel, OpBlock, OpExpr, WriteOpBlock, WriteInsn, M.Value, Plain,
      Reaches, OpReaches, FlagsAfter, WithFlags, SelectReplace, SelectBlock, ExecBlock, M.Max, Sub, Reg, Temp,
      AfterSelect;
    var v := M.Value(op, 4, ms);
    PlainOp(op, 4, Const(4, 0));
    OperandSame(op, 4, k, st, ms);
    NoFlags(op, 4, ACC, st, o);
    SelectExec(reg, op, keep, flags, v, st, o);
    TempRel(k, st, v, ms);
    SelectTail(reg, keep, flags, v, k, WithTemp(st, v), ms, o);
  }

  lemma TempRel(k: Known, st: State, v: nat, ms: M.Machine)
    requires Rel(k, st, ms)
    ensures Rel(k, WithTemp(st, v), ms) && ReadReg(WithTemp(st, v).regs, ACC) == ReadReg(ms.regs, ACC)
    ensures ReadReg(WithTemp(st, v).regs, P) == ReadReg(ms.regs, P)
  {
    hide SameMem, ReadReg;
    AccSame(k, st, ms);
  }

  lemma SelectCompareExec(reg: Register, value: Expr, v: nat, flags: FlagWrite, st: State, o: Oracle)
    requires Eval(value, st) == v < Modulus(4) && FlagsAfter(value, st, o) == st.flags
    ensures var st1 := WithTemp(st, v);
      ExecBlock(SelectCompare(reg, value, flags), st, o) ==
      Falls(st1.(flags := FlagsAfter(WithFlags(Sub(4, Reg(4, reg), Temp(4, 0)), flags), st1, o)))
  {
    hide Eval, SizeOf, Modulus, Wrap, FlagsAfter, WithFlags, Sub, Reg, Temp, ExecBlock, Two;
    ExecTwo(SetTemp(4, 0, value), Compute(WithFlags(Sub(4, Reg(4, reg), Temp(4, 0)), flags)), st, o);
  }

  // ---- LSL64 ACC:P ----

  /** ACC << 32 | P is the pair as one number. */
  lemma PairValue(acc: nat, p: nat, k: nat, st: State)
    requires ReadReg(st.regs, ACC) == acc < Modulus(4) && ReadReg(st.regs, P) == p < Modulus(4) && k <= 16
    ensures Eval(ShiftedPair(Const(8, k)), st) == Wrap(Bits.Shl(acc * 0x1_0000_0000 + p, k), 8)
  {
    hide Eval, SizeOf, Modulus, Wrap, ReadReg, Bits.Shl, Bits.Or, Lsl, Zx, Reg, Or, WithFlags, Const;
    JoinPair(acc, p);
  }

  lemma JoinPair(acc: nat, p: nat)
    requires acc < 0x1_0000_0000 && p < 0x1_0000_0000
    ensures Bits.Shl(acc, 32) == 0x1_0000_0000 * acc < 0x1_0000_0000_0000_0000
    ensures Bits.Or(Bits.Shl(acc, 32), p) == 0x1_0000_0000 * acc + p < 0x1_0000_0000_0000_0000
  {
    hide *;
    Bits.Pow2At32();
    Bits.Shl32(acc);
    Bits.OrIsSum(32, acc, p);
  }

  /** The high word of the shifted pair. */
  lemma ShiftHighValue(acc: nat, p: nat, k: nat, st: State)
    requires ReadReg(st.regs, ACC) == acc < Modulus(4) && ReadReg(st.regs, P) == p < Modulus(4) && k <= 16
    ensures var v := Wrap(Bits.Shl(acc * 0x1_0000_0000 + p, k), 8);
      Wrap(Eval(Lsr(8, ShiftedPair(Const(8, k)), Const(8, 32)), st), 4) == v / 0x1_0000_0000 < Modulus(4)
  {
    hide Eval, SizeOf, Wrap, Modulus, ReadReg, Bits.Shl, Bits.Shr, ShiftedPair, Const, Lsr;
    PairValue(acc, p, k, st);
    Bits.Shr32(Wrap(Bits.Shl(acc * 0x1_0000_0000 + p, k), 8));
  }

  /** The low word does not depend on ACC: whatever ACC is, its bits are shifted past bit 31. */
  lemma LowWordIgnoresHigh(acc: nat, p: nat, k: nat)
    ensures Wrap(Wrap(Bits.Shl(acc * 0x1_0000_0000 + p, k), 8), 4) == Wrap(Bits.Shl(p, k), 4)
  {
    hide Wrap;
    var q := Bits.Pow2(k);
    Bits.ShlIsMul(acc * 0x1_0000_0000 + p, k);
    Bits.ShlIsMul(p, k);
    hide Bits.Shl, Bits.Pow2;
    assert (acc * 0x1_0000_0000 + p) * q == (acc * q) * 0x1_0000_0000 + p * q;
    LowOfWide((acc * q) * 0x1_0000_0000 + p * q);
    WrapShift(acc * q, p * q);
  }

  lemma LowOfWide(v: nat)
    ensures Wrap(Wrap(v, 8), 4) == Wrap(v, 4)
  {}

  lemma WrapShift(a: nat, b: nat)
    ensures Wrap(a * 0x1_0000_0000 + b, 4) == Wrap(b, 4)
  {}

  lemma ShiftLowValue(acc: nat, p: nat, k: nat, st: State)
    requires ReadReg(st.regs, ACC) == acc < Modulus(4) && ReadReg(st.regs, P) == p < Modulus(4) && k <= 16
    ensures Eval(Low(4, ShiftedPair(Const(8, k))), st) == Wrap(Bits.Shl(p, k), 4)
  {
    hide Eval, SizeOf, Wrap, Modulus, ReadReg, Bits.Shl, ShiftedPair, Const, Low;
    PairValue(acc, p, k, st);
    LowWordIgnoresHigh(acc, p, k);
  }

  lemma ShiftFlags(k: nat, st: State, o: Oracle)
    ensures var e := ShiftedPair(Const(8, k));
      && FlagsAfter(Lsr(8, e, Const(8, 32)), st, o).tc == st.flags.tc
      && FlagsAfter(Low(4, e), st, o).tc == st.flags.tc
  {
    hide Eval, CarryOf, SizeOf, Modulus;
  }

  /** LSL64: the two writes give the two words of the shifted pair, although the second one is
      evaluated on the ACC the first has already replaced. */
  lemma Lsl64Ok(n: nat, k: Known, st: State, ms: M.Machine, o: Oracle)
    requires Rel(k, st, ms) && n <= 16
    ensures var out := ExecBlock(Two(ShiftHigh(Const(8, n)), ShiftLow(Const(8, n))), st, o);
      out.Falls? && Rel(NOTHING, out.st, M.ShiftPair(ms, n))
  {
    hide Eval, SizeOf, Modulus, Wrap, ReadReg, SameMem, FlagsAfter, ShiftedPair, Const, Lsr, Low, Bits.Shl, WriteReg,
      SameRegs, Two, ExecBlock;
    AccSame(k, st, ms);
    var acc, p := ReadReg(ms.regs, ACC), ReadReg(ms.regs, P);
    var v := Wrap(Bits.Shl(acc * 0x1_0000_0000 + p, n), 8);
    var high := v / 0x1_0000_0000;
    ShiftHighValue(acc, p, n, st);
    ShiftFlags(n, st, o);
    var st1 := Exec(ShiftHigh(Const(8, n)), st, o);
    WriteSame(st.regs, ms, ACC, high);
    WriteOther(st.regs, ACC, P, high);
    FullWidth(st1.regs);
    ShiftLowValue(ReadReg(st1.regs, ACC), p, n, st1);
    ShiftFlags(n, st1, o);
    LowWordIgnoresHigh(acc, p, n);
    LowWord(v);
    WriteSame(st1.regs, M.PutReg(ms, ACC, high), P, v % 0x1_0000_0000);
    ExecTwo(ShiftHigh(Const(8, n)), ShiftLow(Const(8, n)), st, o);
  }

  lemma LowWord(v: nat)
    ensures Wrap(v, 4) == v % 0x1_0000_0000 < Modulus(4)
  {}

  // ---- Every row ----

  function AfterSystem(id: SystemId, ops: seq<Operand>, k: Known): Known {
    match id
    case SETC_MODE => AfterMode(Mask(ops), k)
    case CLRC_MODE => AfterMode(Mask(ops), k)
    case MAXL_ACC_LOC32 => AfterSelect(All, k)
    case MINL_ACC_LOC32 => AfterSelect(All, k)
    case MAXCUL_P_LOC32 => AfterSelect(NZV, k)
    case MINCUL_P_LOC32 => AfterSelect(NZV, k)
    case LSL64_ACC_P_SHIFT => NOTHING
  }

  lemma SystemOk(id: SystemId, ops: seq<Operand>, k: Known, st: State, ms: M.Machine, o: Oracle)
    requires SystemShape(id, ops) && OpReaches(ops[0], ms) && Rel(k, st, ms)
    ensures var out := ExecBlock(SystemBlock(id, ops), st, o);
      out.Falls? && Rel(AfterSystem(id, ops, k), out.st, M.SystemEffect(id, ops[0], ms))
  {
    hide Rel, ExecBlock, ModeBlock, SelectBlock, AfterMode, AfterSelect, Plain, OpReaches, ReadReg, M.SetMode, M.Max,
      M.ShiftPair, Const, Wrap, Modulus, Signed;
    if id.SETC_MODE? || id.CLRC_MODE? {
      ModeOk(Mask(ops), id.SETC_MODE?, k, st, ms, o);
    } else if id.LSL64_ACC_P_SHIFT? {
      Lsl64Ok(ops[0].value, k, st, ms, o);
      AppendToEnd(Two(ShiftHigh(Const(8, ops[0].value)), ShiftLow(Const(8, ops[0].value))));
    } else if id.MAXL_ACC_LOC32? {
      SelectOk(ACC, ops[0], Sge, All, k, st, ms, o);
    } else if id.MINL_ACC_LOC32? {
      SelectOk(ACC, ops[0], Sle, All, k, st, ms, o);
    } else if id.MAXCUL_P_LOC32? {
      SelectOk(P, ops[0], Uge, NZV, k, st, ms, o);
    } else {
      SelectOk(P, ops[0], Ule, NZV, k, st, ms, o);
    }
  }
}
