/** Storage laws: what a read sees after a write, for registers and parts, memory and operands. */
module Storage {
  import opened Registers
  import opened Operands
  import opened Il
  import opened IlCode
  import opened LiftOperands
  import opened Relation
  import M = Machine
  import Bits

  // ---- Registers and their parts ----

  /** Two registers share a byte. */
  predicate Overlap(q: Register, r: Register) {
    && q.Parent() == r.Parent()
    && q.Offset() < r.Offset() + r.Size()
    && r.Offset() < q.Offset() + q.Size()
  }

  /** A part lies inside its parent, at an offset where another part can stand beside it. */
  lemma PartPlace(r: Register)
    ensures r.IsFull() ==> r.Offset() == 0
    ensures !r.IsFull() ==> r.Size() == 2 && (r.Offset() == 0 || r.Offset() == 2) && r.Parent().Size() == 4
  {}

  /** A part read back after a write is what was written, truncated to its width. */
  lemma ReadWritten(regs: RegFile, r: Register, v: nat)
    ensures ReadReg(WriteReg(regs, r, v), r) == Wrap(v, r.Size())
  {
    hide Full, Modulus, WriteReg, Wrap;
    PartPlace(r);
    PartSizes(r);
    FullWrite(regs, r, v, r.Parent());
  }

  /** Nothing that shares no byte with it changes, the other half of its parent included. */
  lemma ReadUntouched(regs: RegFile, r: Register, v: nat, q: Register)
    requires !Overlap(q, r)
    ensures ReadReg(WriteReg(regs, r, v), q) == ReadReg(regs, q)
  {
    hide Full, Modulus, WriteReg, Wrap;
    PartPlace(r);
    PartPlace(q);
    PartSizes(r);
    PartSizes(q);
    FullWrite(regs, r, v, q.Parent());
  }

  /** Writing back what was read changes nothing. */
  lemma WriteBack(regs: RegFile, r: Register, q: Register)
    ensures ReadReg(WriteReg(regs, r, ReadReg(regs, r)), q) == ReadReg(regs, q)
  {
    hide Full, WriteReg, Wrap, Register.Parent, Register.Offset, Register.Size;
    PartPlace(r);
    PartSizes(r);
    PartSizes(q);
    FullWrite(regs, r, ReadReg(regs, r), q.Parent());
  }

  lemma RewrittenTwice(whole: nat, r: Register, v: nat, w: nat)
    requires whole < 0x1_0000_0000
    ensures Rewritten(Rewritten(whole, r, v), r, w) == Rewritten(whole, r, w)
  {
    hide Register.Size, Register.Parent, Register.Offset;
    var low, high := whole % 0x1_0000, whole / 0x1_0000;
    var first := Wrap(v, 2);
    assert (low + first * 0x1_0000) % 0x1_0000 == low;
    assert (high * 0x1_0000 + first) / 0x1_0000 == high;
  }

  /** The last write wins. */
  lemma WriteTwice(regs: RegFile, r: Register, v: nat, w: nat, q: Register)
    ensures ReadReg(WriteReg(WriteReg(regs, r, v), r, w), q) == ReadReg(WriteReg(regs, r, w), q)
  {
    hide Full, WriteReg, Wrap, Rewritten, Modulus, Register.Parent, Register.Offset, Register.Size;
    PartSizes(q);
    RewrittenTwice(Full(regs, q.Parent()), r, v, w);
    FullWrite(regs, r, v, q.Parent());
    FullWrite(WriteReg(regs, r, v), r, w, q.Parent());
    FullWrite(regs, r, w, q.Parent());
  }

  // ---- Word memory ----

  /** The words a 16- or 32-bit access touches. */
  function Cells(addr: nat, size: nat): set<nat> {
    if size == 2 then {addr % M.WORD_SPACE}
    else if size == 4 then {addr % M.WORD_SPACE, (addr + 1) % M.WORD_SPACE}
    else {}
  }

  lemma WordUntouched(mem: M.Words, addr: nat, size: nat, v: nat, w: nat)
    requires w !in Cells(addr, size)
    ensures M.Word(M.WriteWords(mem, addr, size, v), w) == M.Word(mem, w)
  {
    hide Wrap;
  }

  lemma ReadStored(mem: M.Words, addr: nat, size: nat, v: nat)
    requires (size == 2 || size == 4) && v < Modulus(size)
    ensures M.ReadWords(M.WriteWords(mem, addr, size, v), addr, size) == v
  {
    hide Wrap, Modulus;
  }

  /** Words in a range are the same in both memories. */
  ghost predicate SameWords(a: M.Words, b: M.Words, low: nat, high: nat) {
    forall w: nat :: low <= w < high ==> M.Word(a, w) == M.Word(b, w)
  }

  lemma ReadSameWords(a: M.Words, b: M.Words, low: nat, high: nat, addr: nat)
    requires SameWords(a, b, low, high) && low <= addr && addr + 2 <= high <= M.WORD_SPACE
    ensures M.ReadWords(a, addr, 4) == M.ReadWords(b, addr, 4)
  {
    hide M.Word;
    assert M.Word(a, addr) == M.Word(b, addr) && M.Word(a, addr + 1) == M.Word(b, addr + 1);
  }

  // ---- Byte memory ----

  /** The bytes an access touches; addresses wrap. */
  predicate Touches(addr: nat, size: nat, b: nat) {
    (b - addr) % ADDRESS_SPACE < size
  }

  lemma StoreHalfBytes(mem: Memory, addr: nat, v: nat, b: nat)
    requires b < ADDRESS_SPACE
    ensures Byte(StoreHalf(mem, addr, v), b) ==
            if b == (addr + 1) % ADDRESS_SPACE then v / 0x100 % 0x100
            else if b == addr % ADDRESS_SPACE then v % 0x100
            else Byte(mem, b)
  {}

  /** Every byte outside the access keeps its value. */
  lemma ByteUntouched(mem: Memory, addr: nat, size: nat, v: nat, b: nat)
    requires (size == 2 || size == 4) && b < ADDRESS_SPACE && !Touches(addr, size, b)
    ensures Byte(StoreBytes(mem, addr, size, v), b) == Byte(mem, b)
  {
    hide Byte, StoreHalf;
    TouchesAt(addr, 0);
    TouchesAt(addr, 1);
    TouchesAt(addr, 2);
    TouchesAt(addr, 3);
    StoreHalfBytes(mem, addr, v, b);
    if size == 4 {
      StoreHalfBytes(StoreHalf(mem, addr, v), addr + 2, v / 0x1_0000, b);
    }
  }

  lemma TouchesAt(addr: nat, j: nat)
    requires j < ADDRESS_SPACE
    ensures ((addr + j) % ADDRESS_SPACE - addr) % ADDRESS_SPACE == j
  {
    var q := (addr + j) / ADDRESS_SPACE;
    Bits.DivUnique((addr + j) % ADDRESS_SPACE - addr, ADDRESS_SPACE, -q, j);
  }

  lemma HalfStored(mem: Memory, addr: nat, v: nat, other: nat)
    ensures other == addr ==> Half(StoreHalf(mem, addr, v), other) == v % 0x1_0000
    ensures addr == other + 2 ==> Half(StoreHalf(mem, addr, v), other) == Half(mem, other)
  {
    hide Byte, StoreHalf;
    StoreHalfBytes(mem, addr, v, other % ADDRESS_SPACE);
    StoreHalfBytes(mem, addr, v, (other + 1) % ADDRESS_SPACE);
  }

  /** A load after a store to the same place returns the truncated value. */
  lemma LoadStored(mem: Memory, addr: nat, size: nat, v: nat)
    requires size == 2 || size == 4
    ensures LoadBytes(StoreBytes(mem, addr, size, v), addr, size) == Wrap(v, size)
  {
    hide Half, StoreHalf;
    var m1 := StoreHalf(mem, addr, v);
    HalfStored(mem, addr, v, addr);
    if size == 4 {
      HalfStored(m1, addr + 2, v / 0x1_0000, addr + 2);
      HalfStored(m1, addr + 2, v / 0x1_0000, addr);
    }
  }

  // ---- Operands ----

  lemma Writes(r: ResolvedOperand, size: nat, value: Expr, st: State, o: Oracle)
    ensures Exec(WriteInsn(r, size, value), st, o) ==
            if IsRegister(r)
            then st.(regs := WriteReg(st.regs, r.register.value, Wrap(Eval(value, st), size)),
              flags := FlagsAfter(value, st, o))
            else st.(mem := StoreBytes(st.mem, Eval(LocAddress(r), st), size, Eval(value, st)),
              flags := FlagsAfter(value, st, o))
  {
    hide Eval, Wrap, WriteReg, StoreBytes, LocAddress, FlagsAfter;
  }

  /** The address of a plain memory operand depends on registers alone. */
  lemma AddressFromRegisters(r: ResolvedOperand, st: State, st': State)
    requires st.regs == st'.regs
    ensures Eval(LocAddress(r), st) == Eval(LocAddress(r), st')
  {
    hide Eval, Wrap, Modulus, SizeOf, ReadReg, Bits.Shl;
  }

  /** Writing a plain operand and reading it back returns the value truncated to its width. */
  lemma OperandReadBack(r: ResolvedOperand, size: nat, value: Expr, st: State, o: Oracle)
    requires (size == 2 || size == 4) && Plain(r, size)
    ensures Eval(ReadExpr(r, size), Exec(WriteInsn(r, size, value), st, o)) == Wrap(Eval(value, st), size)
  {
    hide Eval, WriteReg, ReadReg, Modulus, LocAddress, FlagsAfter, Exec, StoreBytes, LoadBytes, WriteInsn, Wrap, SizeOf;
    var v := Eval(value, st);
    var st' := Exec(WriteInsn(r, size, value), st, o);
    Writes(r, size, value, st, o);
    if IsRegister(r) {
      ReadWritten(st.regs, r.register.value, Wrap(v, size));
    } else {
      AddressFromRegisters(r, st, st');
      LoadStored(st.mem, Eval(LocAddress(r), st), size, v);
    }
  }

  /** It leaves every register it does not share a byte with, and every byte of memory outside
      the operand, as they were. */
  lemma OperandWriteIsLocal(r: ResolvedOperand, size: nat, value: Expr, st: State, o: Oracle, q: Register, b: nat)
    requires (size == 2 || size == 4) && Plain(r, size) && b < ADDRESS_SPACE
    ensures var st' := Exec(WriteInsn(r, size, value), st, o);
      && ((IsRegister(r) ==> !Overlap(q, r.register.value)) ==> ReadReg(st'.regs, q) == ReadReg(st.regs, q))
      && ((!IsRegister(r) ==> !Touches(Eval(LocAddress(r), st), size, b)) ==> Byte(st'.mem, b) == Byte(st.mem, b))
      && st'.temps == st.temps
  {
    hide Eval, WriteReg, ReadReg, Wrap, Modulus, LocAddress, FlagsAfter, Exec, StoreBytes, Byte, Touches, WriteInsn,
      Overlap, Plain;
    Writes(r, size, value, st, o);
    if IsRegister(r) {
      if !Overlap(q, r.register.value) { ReadUntouched(st.regs, r.register.value, Wrap(Eval(value, st), size), q); }
    } else if !Touches(Eval(LocAddress(r), st), size, b) {
      ByteUntouched(st.mem, Eval(LocAddress(r), st), size, Eval(value, st), b);
    }
  }
}
