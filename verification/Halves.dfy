/** The register table spelled out: halves, widths and byte order. */
module Halves {
  import opened Registers
  import opened Il
  import opened Relation
  import opened Storage
  import Bits

  // ---- Halves of registers ----

  /** A 32-bit register is its high half times 2^16 plus its low half, and ARn the low half of XARn. */
  lemma Wholes(regs: RegFile)
    ensures ReadReg(regs, ACC) == ReadReg(regs, AH) * 0x1_0000 + ReadReg(regs, AL)
    ensures ReadReg(regs, P) == ReadReg(regs, PH) * 0x1_0000 + ReadReg(regs, PL)
    ensures ReadReg(regs, XT) == ReadReg(regs, T) * 0x1_0000 + ReadReg(regs, TL)
    ensures forall n: Index :: ReadReg(regs, AR(n)) == ReadReg(regs, XAR(n)) % 0x1_0000
  {
    hide Full, Wrap, Modulus;
  }

  /** A write of a high half keeps the low half of the whole. */
  lemma HighWritten(regs: RegFile, v: nat)
    ensures ReadReg(WriteReg(regs, AH, v), ACC) == v % 0x1_0000 * 0x1_0000 + ReadReg(regs, ACC) % 0x1_0000
    ensures ReadReg(WriteReg(regs, PH, v), P) == v % 0x1_0000 * 0x1_0000 + ReadReg(regs, P) % 0x1_0000
    ensures ReadReg(WriteReg(regs, T, v), XT) == v % 0x1_0000 * 0x1_0000 + ReadReg(regs, XT) % 0x1_0000
  {
    hide Full, WriteReg;
    FullWrite(regs, AH, v, ACC);
    FullWrite(regs, PH, v, P);
    FullWrite(regs, T, v, XT);
  }

  /** A write of a low half keeps the high half. */
  lemma LowWritten(regs: RegFile, v: nat, n: Index)
    ensures ReadReg(WriteReg(regs, AL, v), ACC) == ReadReg(regs, ACC) / 0x1_0000 * 0x1_0000 + v % 0x1_0000
    ensures ReadReg(WriteReg(regs, PL, v), P) == ReadReg(regs, P) / 0x1_0000 * 0x1_0000 + v % 0x1_0000
    ensures ReadReg(WriteReg(regs, TL, v), XT) == ReadReg(regs, XT) / 0x1_0000 * 0x1_0000 + v % 0x1_0000
    ensures ReadReg(WriteReg(regs, AR(n), v), XAR(n)) == ReadReg(regs, XAR(n)) / 0x1_0000 * 0x1_0000 + v % 0x1_0000
  {
    hide Full, WriteReg;
    FullWrite(regs, AL, v, ACC);
    FullWrite(regs, PL, v, P);
    FullWrite(regs, TL, v, XT);
    FullWrite(regs, AR(n), v, XAR(n));
  }

  // ---- Widths and aliases ----

  /** The registers of 32 bits. */
  predicate IsWide(r: Register) {
    r in {ACC, P, XT, SP, PC, RPC, STF} || r.XAR? || r.FPU?
  }

  /** A register reads back as the value, cut to 32 or 16 bits. */
  lemma Cut(regs: RegFile, r: Register, v: nat)
    ensures ReadReg(WriteReg(regs, r, v), r) == v % (if IsWide(r) then 0x1_0000_0000 else 0x1_0000)
  {
    hide ReadReg, WriteReg;
    ReadWritten(regs, r, v);
  }

  /** The registers a write can be seen in. */
  function Sharing(r: Register): set<Register> {
    match r
    case ACC => {ACC, AH, AL}
    case AH => {ACC, AH}
    case AL => {ACC, AL}
    case P => {P, PH, PL}
    case PH => {P, PH}
    case PL => {P, PL}
    case XT => {XT, T, TL}
    case T => {XT, T}
    case TL => {XT, TL}
    case XAR(n) => {XAR(n), AR(n)}
    case AR(n) => {XAR(n), AR(n)}
    case _ => {r}
  }

  /** No other register changes. */
  lemma OnlySharing(regs: RegFile, r: Register, v: nat, q: Register)
    requires q !in Sharing(r)
    ensures ReadReg(WriteReg(regs, r, v), q) == ReadReg(regs, q)
  {
    hide ReadReg, WriteReg;
    ReadUntouched(regs, r, v, q);
  }

  // ---- Signed numbers ----

  /** The two's complement reading is the one number of the width's signed range that the value
      is congruent to. */
  lemma SignedIs(v: nat, size: nat, s: int)
    requires (size == 1 || size == 2 || size == 4) && v < Modulus(size)
    ensures s == Signed(v, size) <==> 0 - Modulus(size) <= 2 * s < Modulus(size) && s % Modulus(size) == v
  {
    var m: int := Modulus(size);
    if -m <= 2 * s < m && s % m == v {
      if s >= 0 { Bits.DivUnique(s, m, 0, s); } else { Bits.DivUnique(s, m, -1, s + m); }
    }
    if s == Signed(v, size) {
      if s >= 0 { Bits.DivUnique(s, m, 0, s); } else { Bits.DivUnique(s, m, -1, s + m); }
    }
  }

  // ---- Bytes in memory ----

  /** The bytes of a value, least significant first. */
  function BytesOf(v: nat, size: nat): (bytes: seq<nat>)
    ensures |bytes| == size && forall i :: 0 <= i < |bytes| ==> bytes[i] < 0x100
  {
    if size == 0 then [] else [v % 0x100] + BytesOf(v / 0x100, size - 1)
  }

  /** A 16- or 32-bit load sees the bytes at rising addresses, low byte first. */
  lemma LoadIsLittleEndian(mem: Memory, addr: nat, size: nat, v: nat)
    requires (size == 2 || size == 4) && v < Modulus(size)
    ensures LoadBytes(mem, addr, size) == v <==>
            forall i: nat :: i < size ==> Byte(mem, (addr + i) % ADDRESS_SPACE) == BytesOf(v, size)[i]
  {
    hide Byte, BytesOf;
    var bytes := BytesOf(v, size);
    var b0, b1 := Byte(mem, (addr + 0) % ADDRESS_SPACE), Byte(mem, (addr + 1) % ADDRESS_SPACE);
    var b2, b3 := Byte(mem, (addr + 2) % ADDRESS_SPACE), Byte(mem, (addr + 3) % ADDRESS_SPACE);
    EachByte(v);
    if size == 2 { TwoTell(b0, b1, v); } else { FourTell(b0, b1, b2, b3, v); }
    if forall i: nat :: i < size ==> Byte(mem, (addr + i) % ADDRESS_SPACE) == bytes[i] {
      assert b0 == bytes[0] && b1 == bytes[1];
      if size == 4 { assert b2 == bytes[2] && b3 == bytes[3]; }
    }
    if LoadBytes(mem, addr, size) == v {
      forall i: nat | i < size ensures Byte(mem, (addr + i) % ADDRESS_SPACE) == bytes[i] {
        if i == 0 { assert b0 == bytes[0]; }
        else if i == 1 { assert b1 == bytes[1]; }
        else if i == 2 { assert b2 == bytes[2]; }
        else { assert b3 == bytes[3]; }
      }
    }
  }

  lemma EachByte(v: nat)
    ensures BytesOf(v, 2) == [v % 0x100, v / 0x100 % 0x100]
    ensures BytesOf(v, 4) ==
            [v % 0x100, v / 0x100 % 0x100, v / 0x100 / 0x100 % 0x100, v / 0x100 / 0x100 / 0x100 % 0x100]
  {
    assert BytesOf(v / 0x100 / 0x100, 2) == [v / 0x100 / 0x100 % 0x100] + BytesOf(v / 0x100 / 0x100 / 0x100, 1);
    assert BytesOf(v / 0x100, 3) == [v / 0x100 % 0x100] + BytesOf(v / 0x100 / 0x100, 2);
  }

  lemma TwoTell(a: nat, b: nat, v: nat)
    requires a < 0x100 && b < 0x100 && v < 0x1_0000
    ensures a + 0x100 * b == v <==> a == v % 0x100 && b == v / 0x100 % 0x100
  {}

  lemma FourTell(a: nat, b: nat, c: nat, d: nat, v: nat)
    requires a < 0x100 && b < 0x100 && c < 0x100 && d < 0x100 && v < 0x1_0000_0000
    ensures a + 0x100 * b + 0x1_0000 * (c + 0x100 * d) == v <==>
            && a == v % 0x100 && b == v / 0x100 % 0x100
            && c == v / 0x100 / 0x100 % 0x100 && d == v / 0x100 / 0x100 / 0x100 % 0x100
  {
    var low, high := v % 0x1_0000, v / 0x1_0000;
    assert high == v / 0x100 / 0x100 && low % 0x100 == v % 0x100 && low / 0x100 == v / 0x100 % 0x100;
    TwoTell(a, b, low);
    TwoTell(c, d, high);
  }

  /** So a store leaves the bytes of the value. */
  lemma StoreIsLittleEndian(mem: Memory, addr: nat, size: nat, v: nat, i: nat)
    requires (size == 2 || size == 4) && v < Modulus(size) && i < size
    ensures Byte(StoreBytes(mem, addr, size, v), (addr + i) % ADDRESS_SPACE) == BytesOf(v, size)[i]
  {
    hide Byte, BytesOf, StoreBytes, LoadBytes;
    LoadStored(mem, addr, size, v);
    LoadIsLittleEndian(StoreBytes(mem, addr, size, v), addr, size, v);
  }
}
