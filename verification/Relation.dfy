/** How an IL state stands for a machine state, and that operand accesses respect it. */
module Relation {
  import opened Registers
  import opened Operands
  import opened Il
  import opened IlCode
  import opened LiftOperands
  import M = Machine
  import Bits

  /** How the IL's carry flag stands to the hardware bit. It follows Binary Ninja's convention,
      set on carry-out and on borrow; the hardware bit is clear on borrow. */
  datatype CarryView = Direct | Inverted | Unknown

  /** What is known of the flags at a program point. */
  datatype Known = Known(c: CarryView, n: bool, z: bool)

  /** Registers agree; SP holds a byte address in the IL and a word address in the machine. */
  ghost predicate SameRegs(regs: RegFile, ms: M.Machine) {
    && (forall r: Register :: r.IsFull() && r != SP ==> Full(regs, r) == Full(ms.regs, r))
    && Full(regs, SP) == 2 * ms.sp
    && ms.sp < 0x1_0000
  }

  /** Every word is its two bytes, low byte first. */
  ghost predicate SameMem(bytes: Memory, words: M.Words) {
    forall w: nat :: w < M.WORD_SPACE ==> M.Word(words, w) == Half(bytes, 2 * w)
  }

  predicate SameFlags(k: Known, f: Flags, s: M.Status) {
    && f.tc == s.tc
    && (k.n ==> f.n == s.n)
    && (k.z ==> f.z == s.z)
    && (k.c.Direct? ==> f.c == s.c)
    && (k.c.Inverted? ==> f.c == !s.c)
  }

  ghost predicate Rel(k: Known, st: State, ms: M.Machine) {
    SameRegs(st.regs, ms) && SameMem(st.mem, ms.mem) && SameFlags(k, st.flags, ms.status)
  }

  // ---- Registers ----

  lemma ReadSame(regs: RegFile, ms: M.Machine, r: Register)
    requires SameRegs(regs, ms) && r != SP
    ensures ReadReg(regs, r) == ReadReg(ms.regs, r)
  {
    hide Full, Wrap;
  }

  /** The full register after its part `r` is written. */
  function Rewritten(whole: nat, r: Register, v: nat): nat {
    if r.IsFull() then Wrap(v, r.Size())
    else if r.Offset() == 2 then whole % 0x1_0000 + Wrap(v, 2) * 0x1_0000
    else whole / 0x1_0000 * 0x1_0000 + Wrap(v, 2)
  }

  lemma PartSizes(r: Register)
    ensures !r.IsFull() ==> r.Size() == 2 && r.Parent().Size() == 4
    ensures r.Parent().IsFull()
  {}

  lemma FullWrite(regs: RegFile, r: Register, v: nat, q: Register)
    requires q.IsFull()
    ensures Full(WriteReg(regs, r, v), q) ==
            if q == r.Parent() then Rewritten(Full(regs, q), r, v) else Full(regs, q)
  {
    hide Wrap, Modulus, Register.Parent, Register.Size, Register.Offset;
    PartSizes(r);
  }

  lemma WriteSame(regs: RegFile, ms: M.Machine, r: Register, v: nat)
    requires SameRegs(regs, ms) && r != SP
    ensures SameRegs(WriteReg(regs, r, v), M.PutReg(ms, r, v))
  {
    hide Full, Rewritten, WriteReg, Register.Size, Register.Offset;
    PartSizes(r);
    forall q: Register | q.IsFull() && q != SP
      ensures Full(WriteReg(regs, r, v), q) == Full(WriteReg(ms.regs, r, v), q)
    {
      FullWrite(regs, r, v, q);
      FullWrite(ms.regs, r, v, q);
    }
    FullWrite(regs, r, v, SP);
  }

  /** Writing one register leaves every register of another parent alone. */
  lemma WriteOther(regs: RegFile, r: Register, q: Register, v: nat)
    requires r.Parent() != q.Parent()
    ensures ReadReg(WriteReg(regs, r, v), q) == ReadReg(regs, q)
  {
    hide Wrap;
  }

  // ---- Memory ----

  lemma LoadSame(bytes: Memory, words: M.Words, w: nat, size: nat)
    requires SameMem(bytes, words) && w < M.WORD_SPACE && (size == 2 || size == 4)
    ensures LoadBytes(bytes, 2 * w, size) == M.ReadWords(words, w, size)
  {
    hide Half, M.Word;
    assert M.Word(words, w) == Half(bytes, 2 * w);
    if size == 4 {
      var w1 := (w + 1) % M.WORD_SPACE;
      assert M.Word(words, w1) == Half(bytes, 2 * w1);
      HalfWraps(bytes, 2 * w + 2);
      assert (2 * w + 2) % ADDRESS_SPACE == 2 * w1;
    }
  }

  lemma HalfWraps(bytes: Memory, a: nat)
    ensures Half(bytes, a) == Half(bytes, a % ADDRESS_SPACE)
  {
    hide Byte;
  }

  lemma StoreHalfSame(bytes: Memory, words: M.Words, w: nat, v: nat)
    requires SameMem(bytes, words) && w < M.WORD_SPACE
    ensures SameMem(StoreHalf(bytes, 2 * w, v), words[w := v % 0x1_0000])
  {
    hide Half, StoreHalf, M.Word;
    var bytes' := StoreHalf(bytes, 2 * w, v);
    var words' := words[w := v % 0x1_0000];
    forall u: nat | u < M.WORD_SPACE ensures M.Word(words', u) == Half(bytes', 2 * u) {
      WordUpdate(words, w, u, v);
      HalfUpdate(bytes, w, u, v);
      assert M.Word(words, u) == Half(bytes, 2 * u);
    }
  }

  lemma WordUpdate(words: M.Words, w: nat, u: nat, v: nat)
    ensures M.Word(words[w := v % 0x1_0000], u) == if u == w then v % 0x1_0000 else M.Word(words, u)
  {
    hide Wrap;
  }

  lemma HalfUpdate(bytes: Memory, w: nat, u: nat, v: nat)
    requires w < M.WORD_SPACE && u < M.WORD_SPACE
    ensures Half(StoreHalf(bytes, 2 * w, v), 2 * u) == if u == w then v % 0x1_0000 else Half(bytes, 2 * u)
  {
    hide Half, StoreHalf, Byte;
    LowHalf(v);
    var lo, hi := v % 0x100, v / 0x100 % 0x100;
    var bytes' := bytes[2 * w := lo][2 * w + 1 := hi];
    StoreEven(bytes, w, v);
    HalfEven(bytes, u);
    HalfEven(bytes', u);
    ByteUpdate(bytes, 2 * w, lo, 2 * w + 1, hi, 2 * u);
    ByteUpdate(bytes, 2 * w, lo, 2 * w + 1, hi, 2 * u + 1);
  }

  lemma LowHalf(v: nat)
    ensures v % 0x100 + 0x100 * (v / 0x100 % 0x100) == v % 0x1_0000
  {
    var low, rest := v % 0x100, v / 0x100;
    Bits.DivUnique(v, 0x1_0000, rest / 0x100, 0x100 * (rest % 0x100) + low);
  }

  lemma HalfEven(bytes: Memory, u: nat)
    requires u < M.WORD_SPACE
    ensures Half(bytes, 2 * u) == Byte(bytes, 2 * u) + 0x100 * Byte(bytes, 2 * u + 1)
  {
    hide Byte;
  }

  lemma StoreEven(bytes: Memory, w: nat, v: nat)
    requires w < M.WORD_SPACE
    ensures StoreHalf(bytes, 2 * w, v) == bytes[2 * w := v % 0x100][2 * w + 1 := v / 0x100 % 0x100]
  {}

  lemma ByteUpdate(bytes: Memory, a: nat, x: nat, b: nat, y: nat, i: nat)
    requires a != b && x < 0x100 && y < 0x100
    ensures Byte(bytes[a := x][b := y], i) == if i == b then y else if i == a then x else Byte(bytes, i)
  {}

  lemma StoreSame(bytes: Memory, words: M.Words, w: nat, size: nat, v: nat)
    requires SameMem(bytes, words) && w < M.WORD_SPACE && (size == 2 || size == 4)
    ensures SameMem(StoreBytes(bytes, 2 * w, size, v), M.WriteWords(words, w, size, v))
  {
    hide SameMem, StoreHalf;
    StoreHalfSame(bytes, words, w, v);
    if size == 4 {
      var w1 := (w + 1) % M.WORD_SPACE;
      StoreHalfSame(StoreHalf(bytes, 2 * w, v), words[w := v % 0x1_0000], w1, v / 0x1_0000);
      StoreHalfWraps(StoreHalf(bytes, 2 * w, v), 2 * w + 2, v / 0x1_0000);
      assert (2 * w + 2) % ADDRESS_SPACE == 2 * w1;
    }
  }

  lemma StoreHalfWraps(bytes: Memory, a: nat, v: nat)
    ensures StoreHalf(bytes, a, v) == StoreHalf(bytes, a % ADDRESS_SPACE, v)
  {}

  // ---- Operands ----

  /** An SP-relative operand stays above the bottom of the address space. */
  predicate Reaches(r: ResolvedOperand, ms: M.Machine) {
    r.mode.SpRelative? ==> r.offset <= ms.sp
  }

  predicate IsMemory(r: ResolvedOperand) { !r.mode.RegisterDirect? }

  lemma AddressBound(r: ResolvedOperand, ms: M.Machine)
    requires ms.sp < 0x1_0000
    ensures M.WordAddress(r, ms) < M.WORD_SPACE
  {
    hide ReadReg;
  }

  /** The byte address of a memory operand is exactly twice its word address. */
  lemma {:induction false} AddressSame(r: ResolvedOperand, size: nat, st: State, ms: M.Machine)
    requires Plain(r, size) && IsMemory(r) && Reaches(r, ms)
    requires SameRegs(st.regs, ms)
    ensures Eval(LocAddress(r), st) == 2 * M.WordAddress(r, ms)
  {
    if r.mode.DpDirect? {
      DpAddress(r, st, ms);
    } else if r.mode.SpRelative? {
      SpAddress(r, st, ms);
    } else {
      XarAddress(r, st, ms);
    }
  }

  lemma DpAddress(r: ResolvedOperand, st: State, ms: M.Machine)
    requires r.mode.DpDirect? && SameRegs(st.regs, ms) && r.offset < 0x1_0000
    ensures Eval(LocAddress(r), st) == 2 * M.WordAddress(r, ms)
  {
    hide Eval, SameRegs, ReadReg, Wrap, Modulus, SizeOf, Bits.Shl;
    ReadSame(st.regs, ms, DP);
    var dp := ReadReg(ms.regs, DP);
    Bits.Shl6(dp);
    Bits.Shl1(dp * 0x40 + r.offset);
  }

  lemma SpAddress(r: ResolvedOperand, st: State, ms: M.Machine)
    requires r.mode.SpRelative? && SameRegs(st.regs, ms) && r.offset <= ms.sp
    ensures Eval(LocAddress(r), st) == 2 * M.WordAddress(r, ms)
  {
    hide Eval, Wrap, Modulus, SizeOf;
  }

  lemma XarAddress(r: ResolvedOperand, st: State, ms: M.Machine)
    requires r.mode.Indirect? || r.mode.IndirectAr0? || r.mode.IndirectAr1?
    requires r.xarIndex.Some? && r.offset < 0x1_0000 && SameRegs(st.regs, ms)
    ensures Eval(LocAddress(r), st) == 2 * M.WordAddress(r, ms)
  {
    hide Eval, SameRegs, ReadReg, Wrap, Modulus, SizeOf, Bits.Shl;
    var n := r.xarIndex.value;
    ReadSame(st.regs, ms, XAR(n));
    ReadSame(st.regs, ms, AR(0));
    ReadSame(st.regs, ms, AR(1));
    var xar := ReadReg(ms.regs, XAR(n));
    var step := if r.mode.IndirectAr0? then ReadReg(ms.regs, AR(0))
                else if r.mode.IndirectAr1? then ReadReg(ms.regs, AR(1)) else r.offset;
    Bits.Shl1(Wrap(xar + step, 4));
    DoubleWord(xar + step);
    Bits.Shl1(xar);
  }

  /** Doubling a 32-bit word address drops the bit the byte address has no room for. */
  lemma DoubleWord(x: nat)
    ensures Wrap(2 * Wrap(x, 4), 4) == 2 * (x % M.WORD_SPACE)
  {
    var top, low := x / M.WORD_SPACE, x % M.WORD_SPACE;
    Bits.DivUnique(x, 0x1_0000_0000, top / 2, M.WORD_SPACE * (top % 2) + low);
    Bits.DivUnique(2 * (M.WORD_SPACE * (top % 2) + low), 0x1_0000_0000, top % 2, 2 * low);
  }

  // ---- Reading and writing operands ----

  lemma {:induction false} ReadLocSame(r: ResolvedOperand, size: nat, st: State, ms: M.Machine)
    requires Plain(r, size) && Reaches(r, ms) && (size == 2 || size == 4)
    requires SameRegs(st.regs, ms) && SameMem(st.mem, ms.mem)
    ensures Eval(ReadExpr(r, size), st) == M.ReadLoc(r, size, ms) < Modulus(size)
    ensures SizeOf(ReadExpr(r, size)) == size
  {
    hide Eval, SameRegs, SameMem, ReadReg, Wrap, Modulus, SizeOf, LocAddress, LoadBytes, M.WordAddress, M.ReadWords,
      Reaches;
    if r.mode.RegisterDirect? {
      ReadSame(st.regs, ms, r.register.value);
    } else {
      AddressSame(r, size, st, ms);
      SpBound(st.regs, ms);
      AddressBound(r, ms);
      LoadSame(st.mem, ms.mem, M.WordAddress(r, ms), size);
    }
  }

  lemma SpBound(regs: RegFile, ms: M.Machine)
    requires SameRegs(regs, ms)
    ensures ms.sp < 0x1_0000
  {}

  /** Storing a value of the operand's width does to the IL state what the machine does. */
  lemma {:induction false} WriteLocSame(r: ResolvedOperand, size: nat, value: Expr, st: State, ms: M.Machine, o: Oracle)
    requires Plain(r, size) && Reaches(r, ms) && (size == 2 || size == 4)
    requires SameRegs(st.regs, ms) && SameMem(st.mem, ms.mem)
    requires Eval(value, st) < Modulus(size)
    ensures var st', ms' := Exec(WriteInsn(r, size, value), st, o), M.WriteLoc(r, size, Eval(value, st), ms);
      && SameRegs(st'.regs, ms') && SameMem(st'.mem, ms'.mem)
      && st'.flags == FlagsAfter(value, st, o) && ms'.status == ms.status && st'.temps == st.temps
  {
    hide Eval, SameMem, ReadReg, WriteReg, Wrap, Modulus, SizeOf, LocAddress, StoreBytes, M.WordAddress, M.WriteWords,
      FlagsAfter, Reaches, Full;
    if r.mode.RegisterDirect? {
      WriteSame(st.regs, ms, r.register.value, Eval(value, st));
    } else {
      AddressSame(r, size, st, ms);
      SpBound(st.regs, ms);
      AddressBound(r, ms);
      StoreSame(st.mem, ms.mem, M.WordAddress(r, ms), size, Eval(value, st));
    }
  }
}
