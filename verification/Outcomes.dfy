/** What the emitted sums, maxima and absolute values are, as plain numbers. */
module Outcomes {
  import opened Registers
  import opened Operands
  import opened Instructions
  import opened Il
  import opened IlCode
  import opened LiftOperands
  import opened LiftArith
  import opened LiftMisc
  import opened LiftSystem
  import opened Relation
  import opened SimArith
  import opened SimMisc
  import opened SimMov
  import opened SimSystem
  import opened Storage
  import M = Machine
  import Bits

  /** The number an operand holds. */
  function Held(op: Operand, st: State): nat {
    match op
    case Loc16(loc) => Eval(ReadExpr(loc, 2), st)
    case Loc32(loc) => Eval(ReadExpr(loc, 4), st)
    case Immediate(value) => Wrap(value, 4)
    case Condition(_) => 0
  }

  lemma HeldSame(op: Operand, size: nat, k: Known, st: State, ms: M.Machine)
    requires IsLoc(op, size) && (size == 2 || size == 4) && OpReaches(op, ms) && Rel(k, st, ms)
    ensures M.Value(op, size, ms) == M.Value(op, 4, ms) == Held(op, st) < Modulus(size)
  {
    hide Eval, Rel, ReadExpr, M.ReadLoc, Modulus, Plain, Reaches;
    OperandSame(op, size, k, st, ms);
  }

  // ---- Sums into ACC ----

  predicate Adds(id: ArithId) { id in {ADD_ACC_LOC16, ADDU_ACC_LOC16, ADDL_ACC_LOC32} }

  predicate Subtracts(id: ArithId) { id in {SUB_ACC_LOC16, SUBU_ACC_LOC16, SUBL_ACC_LOC32} }

  /** The number a row adds or takes away: ADD and SUB read theirs as signed. */
  function Addend(id: ArithId, op: Operand, st: State): int {
    if id in {ADD_ACC_LOC16, SUB_ACC_LOC16} then Signed(Held(op, st), 2) else Held(op, st)
  }

  lemma AddendSame(id: ArithId, op: Operand, k: Known, st: State, ms: M.Machine)
    requires (Adds(id) || Subtracts(id)) && ArithShape(id, [op]) && OpReaches(op, ms) && Rel(k, st, ms)
    ensures M.SourceValue(id, op, ms) % 0x1_0000_0000 == Addend(id, op, st) % 0x1_0000_0000
  {
    hide M.Value, Held, Rel, Signed, Plain;
    HeldSame(op, ArithWidth(id), k, st, ms);
  }

  lemma Same32(a: int, b: int, c: int)
    requires a % 0x1_0000_0000 == b % 0x1_0000_0000
    ensures (c + a) % 0x1_0000_0000 == (c + b) % 0x1_0000_0000
    ensures (c - a) % 0x1_0000_0000 == (c - b) % 0x1_0000_0000
  {
    hide *;
    var q := a / 0x1_0000_0000 - b / 0x1_0000_0000;
    assert a == b + 0x1_0000_0000 * q;
    Shifted(c + b, q);
    Shifted(c - b, -q);
  }

  lemma Shifted(x: int, q: int)
    ensures (x + 0x1_0000_0000 * q) % 0x1_0000_0000 == x % 0x1_0000_0000
  {
    Bits.DivUnique(x + 0x1_0000_0000 * q, 0x1_0000_0000, x / 0x1_0000_0000 + q, x % 0x1_0000_0000);
  }

  lemma AccOf(id: ArithId, op: Operand, ms: M.Machine)
    requires Adds(id) || Subtracts(id)
    ensures var acc: int, v: int := ReadReg(ms.regs, ACC), M.SourceValue(id, op, ms);
      ReadReg(M.ArithEffect(id, op, ms).regs, ACC) == (if Adds(id) then acc + v else acc - v) % 0x1_0000_0000
  {
    hide M.SourceValue, ReadReg, M.AluInto;
    var acc: int, v: int := ReadReg(ms.regs, ACC), M.SourceValue(id, op, ms);
    var total := if Adds(id) then acc + v else acc - v;
    assert M.ArithEffect(id, op, ms) == M.AluInto(ms, ACC, total, !M.IsSum(id));
    IntoAcc(total, !M.IsSum(id), ms);
  }

  lemma IntoAcc(total: int, subtract: bool, ms: M.Machine)
    ensures ReadReg(M.AluInto(ms, ACC, total, subtract).regs, ACC) == total % 0x1_0000_0000
  {
    hide WriteReg, ReadReg, M.AluStatus;
    ReadWritten(ms.regs, ACC, Wrap(total, 4));
  }

  /** ADD, SUB, ADDU, SUBU, ADDL and SUBL leave in ACC the sum or difference modulo 2^32. */
  lemma {:induction false} AccIs(id: ArithId, op: Operand, k: Known, st: State, ms: M.Machine, o: Oracle)
    requires (Adds(id) || Subtracts(id)) && ArithShape(id, [op]) && OpReaches(op, ms) && Rel(k, st, ms)
    ensures var out := ExecBlock(ArithBlock(id, [op]), st, o);
      && out.Falls?
      && var acc: int, v := ReadReg(st.regs, ACC), Addend(id, op, st);
         ReadReg(out.st.regs, ACC) == (if Adds(id) then acc + v else acc - v) % 0x1_0000_0000
  {
    hide Rel, ExecBlock, ArithBlock, ReadReg, M.ArithEffect, M.SourceValue, Addend, Plain, OpReaches, AfterArith;
    ArithOk(id, [op], k, st, ms, o);
    RelRead(AfterArith(id, k), ExecBlock(ArithBlock(id, [op]), st, o).st, M.ArithEffect(id, op, ms), ACC);
    RelRead(k, st, ms, ACC);
    AccOf(id, op, ms);
    AddendSame(id, op, k, st, ms);
    Same32(M.SourceValue(id, op, ms), Addend(id, op, st), ReadReg(ms.regs, ACC));
  }

  // ---- Maximum and minimum ----

  lemma Selected(r: Register, v: nat, keep: bool, ms: M.Machine)
    requires (r == ACC || r == P) && v < 0x1_0000_0000
    ensures forall carry: bool ::
              ReadReg(M.Max(ms, r, v, keep, carry).regs, r) == if keep then ReadReg(ms.regs, r) else v
  {
    hide WriteReg, ReadReg, M.AluStatus;
    ReadWritten(ms.regs, r, v);
  }

  /** MAXL and MINL leave in ACC the larger or smaller of the two as signed numbers, MAXCUL and
      MINCUL in P as unsigned ones. */
  lemma {:induction false} LargerIs(id: SystemId, op: Operand, k: Known, st: State, ms: M.Machine, o: Oracle)
    requires id in {MAXL_ACC_LOC32, MINL_ACC_LOC32, MAXCUL_P_LOC32, MINCUL_P_LOC32}
    requires IsLoc(op, 4) && OpReaches(op, ms) && Rel(k, st, ms)
    ensures var out := ExecBlock(SystemBlock(id, [op]), st, o);
      && out.Falls?
      && var r := if id.MAXL_ACC_LOC32? || id.MINL_ACC_LOC32? then ACC else P;
         var was, now, v := ReadReg(st.regs, r), ReadReg(out.st.regs, r), Held(op, st);
         && (now == was || now == v)
         && (id.MAXL_ACC_LOC32? ==> Signed(now, 4) >= Signed(was, 4) && Signed(now, 4) >= Signed(v, 4))
         && (id.MINL_ACC_LOC32? ==> Signed(now, 4) <= Signed(was, 4) && Signed(now, 4) <= Signed(v, 4))
         && (id.MAXCUL_P_LOC32? ==> now >= was && now >= v)
         && (id.MINCUL_P_LOC32? ==> now <= was && now <= v)
  {
    hide Rel, ExecBlock, SystemBlock, ReadReg, M.Max, Plain, OpReaches, AfterSystem, Signed, Held, M.Value;
    var r := if id.MAXL_ACC_LOC32? || id.MINL_ACC_LOC32? then ACC else P;
    var v := M.Value(op, 4, ms);
    SystemOk(id, [op], k, st, ms, o);
    RelRead(AfterSystem(id, [op], k), ExecBlock(SystemBlock(id, [op]), st, o).st, M.SystemEffect(id, op, ms), r);
    RelRead(k, st, ms, r);
    HeldSame(op, 4, k, st, ms);
    Selected(r, v, true, ms);
    Selected(r, v, false, ms);
  }

  // ---- Absolute value ----

  lemma AbsRegs(ms: M.Machine)
    ensures var acc := ReadReg(ms.regs, ACC);
      M.MiscEffect(ABS_ACC, [], ms).regs == if acc >= 0x8000_0000 then M.NegateAcc(ms).regs else ms.regs
  {
    hide WriteReg, ReadReg, M.Judge, M.NegateAcc;
  }

  lemma NegateRegs(ms: M.Machine)
    ensures M.NegateAcc(ms).regs == WriteReg(ms.regs, ACC, Wrap(0 - ReadReg(ms.regs, ACC), 4))
  {
    hide WriteReg, ReadReg, M.Judge, Wrap;
  }

  lemma AbsOf(ms: M.Machine)
    ensures var was, now := ReadReg(ms.regs, ACC), ReadReg(M.MiscEffect(ABS_ACC, [], ms).regs, ACC);
      now == if was > 0x8000_0000 then 0x1_0000_0000 - was else was
  {
    hide *;
    var acc: int := ReadReg(ms.regs, ACC);
    AccBound(ms.regs);
    AbsRegs(ms);
    NegateRegs(ms);
    ReadWritten(ms.regs, ACC, Wrap(0 - acc, 4));
    if acc >= 0x8000_0000 { Negated(acc); }
  }

  lemma Negated(acc: int)
    requires 0 < acc <= 0x1_0000_0000
    ensures Wrap(0 - acc, 4) == (0x1_0000_0000 - acc) % 0x1_0000_0000
    ensures Wrap(Wrap(0 - acc, 4), 4) == Wrap(0 - acc, 4)
  {}

  lemma AccBound(regs: RegFile)
    ensures ReadReg(regs, ACC) < 0x1_0000_0000 && ACC.Size() == 4
  {
    hide Full, Wrap;
  }

  /** ABS leaves the absolute value of the signed ACC, and the one number that has none as it is. */
  lemma {:induction false} AbsIs(k: Known, st: State, ms: M.Machine, o: Oracle)
    requires Rel(k, st, ms)
    ensures var out := ExecBlock(MiscBlock(ABS_ACC, []), st, o);
      && out.Falls?
      && var was, now := Signed(ReadReg(st.regs, ACC), 4), Signed(ReadReg(out.st.regs, ACC), 4);
         now == if was == -0x8000_0000 then was else if was < 0 then -was else was
  {
    hide Rel, ExecBlock, MiscBlock, ReadReg, M.MiscEffect, AfterMisc;
    MiscOk(ABS_ACC, [], k, st, ms, o);
    RelRead(AfterMisc(ABS_ACC, k), ExecBlock(MiscBlock(ABS_ACC, []), st, o).st, M.MiscEffect(ABS_ACC, [], ms), ACC);
    RelRead(k, st, ms, ACC);
    AbsOf(ms);
  }

  // ---- Results in the operand ----

  /** The rows whose result is in their operand. */
  predicate IntoLoc(id: ArithId) { id in {INC_LOC16, DEC_LOC16, ADDL_LOC32_ACC, SUBL_LOC32_ACC, SUBRL_LOC32_ACC} }

  lemma CellBack(mem: M.Words, addr: nat, size: nat, v: nat)
    requires (size == 2 || size == 4) && v < Modulus(size)
    ensures M.ReadWords(M.WriteWords(mem, addr, size, v), addr, size) == v
  {}

  /** What a plain operand of the machine is written as, it reads as. */
  lemma StoredBack(op: Operand, size: nat, v: nat, s: M.Status, ms: M.Machine)
    requires IsLoc(op, size) && (size == 2 || size == 4) && v < Modulus(size) && OpReaches(op, ms)
    ensures var m := M.StoreOperand(op, size, v, ms).(status := s);
      OpReaches(op, m) && M.Value(op, size, m) == v
  {
    hide ReadReg, WriteReg, M.WriteWords, M.ReadWords;
    var r := op.loc;
    if M.NamesRegister(r) {
      ReadWritten(ms.regs, r.register.value, v);
    } else {
      CellBack(ms.mem, M.WordAddress(r, ms), size, v);
    }
  }

  function Total(id: ArithId, v: int, acc: int): int {
    match id
    case INC_LOC16 => v + 1
    case DEC_LOC16 => v - 1
    case ADDL_LOC32_ACC => v + acc
    case SUBL_LOC32_ACC => v - acc
    case _ => acc - v
  }

  lemma StoredOf(id: ArithId, op: Operand, ms: M.Machine) returns (s: M.Status)
    requires IntoLoc(id)
    ensures var size := ArithWidth(id);
      M.ArithEffect(id, op, ms) ==
      M.StoreOperand(op, size, Wrap(Total(id, M.Value(op, size, ms), ReadReg(ms.regs, ACC)), size), ms).(status := s)
  {
    hide M.Value, M.StoreOperand, ReadReg, M.AluStatus, Wrap;
    s := M.ArithStored(id, op, ms).status;
  }

  lemma TotalWraps(id: ArithId, v: int, acc: int)
    requires IntoLoc(id)
    ensures var now := Wrap(Total(id, v, acc), ArithWidth(id));
      && now < Modulus(ArithWidth(id))
      && (id.INC_LOC16? ==> now == (v + 1) % 0x1_0000)
      && (id.DEC_LOC16? ==> now == (v - 1) % 0x1_0000)
      && (id.ADDL_LOC32_ACC? ==> now == (v + acc) % 0x1_0000_0000)
      && (id.SUBL_LOC32_ACC? ==> now == (v - acc) % 0x1_0000_0000)
      && (id.SUBRL_LOC32_ACC? ==> now == (acc - v) % 0x1_0000_0000)
  {}

  /** INC and DEC count their operand up and down, ADDL and SUBL add ACC to theirs and take it away,
      SUBRL takes the operand from ACC; all modulo the operand's width. */
  lemma {:induction false} OperandIs(id: ArithId, op: Operand, k: Known, st: State, ms: M.Machine, o: Oracle)
    requires IntoLoc(id) && ArithShape(id, [op]) && OpReaches(op, ms) && Rel(k, st, ms)
    ensures var out := ExecBlock(ArithBlock(id, [op]), st, o);
      && out.Falls?
      && var was, now, acc := Held(op, st), Held(op, out.st), ReadReg(st.regs, ACC);
         && (id.INC_LOC16? ==> now == (was + 1) % 0x1_0000)
         && (id.DEC_LOC16? ==> now == (was - 1) % 0x1_0000)
         && (id.ADDL_LOC32_ACC? ==> now == (was + acc) % 0x1_0000_0000)
         && (id.SUBL_LOC32_ACC? ==> now == (was - acc) % 0x1_0000_0000)
         && (id.SUBRL_LOC32_ACC? ==> now == (acc - was) % 0x1_0000_0000)
  {
    hide Rel, ExecBlock, ArithBlock, ReadReg, M.ArithEffect, M.StoreOperand, Held, Plain, OpReaches, AfterArith,
      M.Value, Wrap, Modulus, Total;
    var size := ArithWidth(id);
    var m, out := M.ArithEffect(id, op, ms), ExecBlock(ArithBlock(id, [op]), st, o);
    ArithOk(id, [op], k, st, ms, o);
    RelRead(k, st, ms, ACC);
    HeldSame(op, size, k, st, ms);
    var s := StoredOf(id, op, ms);
    var total := Total(id, M.Value(op, size, ms), ReadReg(ms.regs, ACC));
    TotalWraps(id, M.Value(op, size, ms), ReadReg(ms.regs, ACC));
    StoredBack(op, size, Wrap(total, size), s, ms);
    HeldSame(op, size, AfterArith(id, k), out.st, m);
  }
}
