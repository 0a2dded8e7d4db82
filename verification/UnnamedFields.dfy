/** Operand fields that name no pointer, and the field that names SP itself. */
module UnnamedFields {
  import opened Wrappers
  import opened Registers
  import opened Operands
  import opened Il
  import opened IlCode
  import opened LiftOperands
  import opened Relation
  import opened SimArith
  import M = Machine

  /** The ten fields with a mode and no pointer: 0xAE, 0xAF and 0xB8 to 0xBF. */
  predicate IsUnnamed(field: nat) { field == 0xAE || field == 0xAF || 0xB8 <= field <= 0xBF }

  lemma UnnamedDecoded(field: nat)
    requires field < 0x100 && IsUnnamed(field)
    ensures DecodeLoc16(field) == DecodeLoc32(field) == Resolved(Indirect, None, None, 0)
  {}

  /** Through them the lifter loads from address zero and moves nothing. */
  lemma UnnamedRead(field: nat, size: nat, st: State, o: Oracle)
    requires field < 0x100 && IsUnnamed(field) && (size == 2 || size == 4)
    ensures var r := if size == 2 then DecodeLoc16(field) else DecodeLoc32(field);
      && ExecBlock(ReadBlock(r, size), st, o) == Falls(st)
      && Eval(ReadExpr(r, size), st) == LoadBytes(st.mem, 0, size)
  {
    hide DecodeLoc16, DecodeLoc32, LoadBytes;
    UnnamedDecoded(field);
  }

  /** And stores to address zero. */
  lemma UnnamedWrite(field: nat, size: nat, value: Expr, st: State, o: Oracle)
    requires field < 0x100 && IsUnnamed(field) && (size == 2 || size == 4)
    ensures var r := if size == 2 then DecodeLoc16(field) else DecodeLoc32(field);
      ExecBlock(WriteBlock(r, size, value), st, o) ==
      Falls(st.(mem := StoreBytes(st.mem, 0, size, Eval(value, st)), flags := FlagsAfter(value, st, o)))
  {
    hide DecodeLoc16, DecodeLoc32, StoreBytes, FlagsAfter, Eval;
    UnnamedDecoded(field);
    AtZero(st);
    var r := Resolved(Indirect, None, None, 0);
    ExecOne(WriteInsn(r, size, value), st, o);
  }

  lemma AtZero(st: State)
    ensures Eval(Const(4, 0), st) == 0
  {}

  /** SP holds a byte address in the plugin: field 0xAD reads the low half of twice the machine's
      SP, which is the machine's SP only when that is zero. */
  lemma SpReadExactly(k: Known, st: State, ms: M.Machine)
    requires Rel(k, st, ms)
    ensures Eval(ReadExpr(DecodeLoc16(0xAD), 2), st) == 2 * ms.sp % 0x1_0000
    ensures Eval(ReadExpr(DecodeLoc16(0xAD), 2), st) == ms.sp <==> ms.sp == 0
  {
    hide SameMem, SameFlags, Full, Wrap;
    SpHalf(st);
    var v := 2 * ms.sp % 0x1_0000;
    assert Full(st.regs, SP) == 2 * ms.sp;
    assert v == 2 * ms.sp || v == 2 * ms.sp - 0x1_0000;
  }

  lemma SpHalf(st: State)
    ensures DecodeLoc16(0xAD) == RegDirect(SP) && Eval(Reg(2, SP), st) == Full(st.regs, SP) % 0x1_0000
  {
    hide Full;
  }

  /** Written through field 0xAD, the plugin's SP stands for the value only when that is zero. */
  lemma SpWriteExactly(value: Expr, v: nat, k: Known, st: State, ms: M.Machine, o: Oracle)
    requires Rel(k, st, ms) && v < 0x1_0000 && Eval(value, st) == v && FlagsAfter(value, st, o) == st.flags
    ensures var out := ExecBlock(WriteBlock(DecodeLoc16(0xAD), 2, value), st, o);
      out.Falls? && (Rel(k, out.st, ms.(sp := v)) <==> v == 0)
  {
    hide SameMem, SameFlags, Eval, FlagsAfter;
    var r := RegDirect(SP);
    ExecOne(WriteInsn(r, 2, value), st, o);
    var out := Exec(WriteInsn(r, 2, value), st, o);
    assert DecodeLoc16(0xAD) == r;
    assert out == st.(regs := WriteReg(st.regs, SP, v));
    forall q: Register | q.IsFull() ensures Full(out.regs, q) == if q == SP then v else Full(st.regs, q) {
      FullWrite(st.regs, SP, v, q);
    }
  }
}
