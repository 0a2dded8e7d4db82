/** The loc16 and loc32 fields: encoding a register or an addressing mode and decoding it gives it back. */
module LocFields {
  import opened Wrappers
  import opened Registers
  import opened Operands
  import opened Decoder
  import opened RoundTrip
  import Bits
  import Rows

  // ---- Encoding ----

  /** The field that names a register as a 16-bit operand. */
  function Code16(r: Register): Option<nat> {
    match r
    case AR(n) => Some(0xA0 + n)
    case AH => Some(0xA8)
    case AL => Some(0xA9)
    case PH => Some(0xAA)
    case PL => Some(0xAB)
    case T => Some(0xAC)
    case SP => Some(0xAD)
    case _ => None
  }

  /** And as a 32-bit operand; ACC and P have a second field each, one higher. */
  function Code32(r: Register): Option<nat> {
    match r
    case XAR(n) => Some(0xA0 + n)
    case ACC => Some(0xA8)
    case P => Some(0xAA)
    case XT => Some(0xAC)
    case _ => None
  }

  /** The field of a memory operand: a page offset, a stack offset, or a pointer `n` and how it is
      stepped, indexed or displaced. The mode is None when the operand has no such field. */
  function CodeOf(mode: AddressingMode, n: Index, offset: nat): Option<nat> {
    match mode
    case DpDirect => if offset < 0x40 then Some(offset) else None
    case SpRelative => if offset < 0x40 then Some(0x40 + offset) else None
    case IndirectPostInc => if offset == 0 then Some(0x80 + n) else None
    case IndirectPreDec => if offset == 0 then Some(0x88 + n) else None
    case IndirectAr0 => if offset == 0 then Some(0x90 + n) else None
    case IndirectAr1 => if offset == 0 then Some(0x98 + n) else None
    case Indirect => if offset < 8 then Some(0xC0 + 8 * offset + n) else None
    case RegisterDirect => None
  }

  /** The pointer a mode goes through, if it has one. */
  function PointerOf(mode: AddressingMode, n: Index): Option<Index> {
    if mode.DpDirect? || mode.SpRelative? then None else Some(n)
  }

  // ---- Decoding gives it back ----

  lemma Register16ComesBack(r: Register)
    requires Code16(r).Some?
    ensures var f := Code16(r).value;
      f < 0x100 && DecodeLoc16(f) == Resolved(RegisterDirect, Some(r), None, 0)
  {}

  lemma Register32ComesBack(r: Register)
    requires Code32(r).Some?
    ensures var f := Code32(r).value;
      && f < 0x100 && DecodeLoc32(f) == Resolved(RegisterDirect, Some(r), None, 0)
      && (r == ACC || r == P ==> DecodeLoc32(f + 1) == DecodeLoc32(f))
  {}

  lemma MemoryComesBack(mode: AddressingMode, n: Index, offset: nat)
    requires CodeOf(mode, n, offset).Some?
    ensures var f := CodeOf(mode, n, offset).value;
      && f < 0x100
      && DecodeLoc16(f) == Resolved(mode, None, PointerOf(mode, n), offset)
      && DecodeLoc32(f) == Resolved(mode, None, PointerOf(mode, n), offset)
  {}

  /** The fields left over: a pointer chosen by ARP, at 0xB0 to 0xB7; specials without a pointer;
      and 0xAD, which names SP as a 16-bit operand only. */
  lemma OtherFields(n: Index, field: nat)
    ensures DecodeLoc16(0xB0 + n) == DecodeLoc32(0xB0 + n) == Resolved(Indirect, None, Some(n), 0)
    ensures field == 0xAE || field == 0xAF || 0xB8 <= field <= 0xBF ==>
              DecodeLoc16(field) == DecodeLoc32(field) == Resolved(Indirect, None, None, 0)
    ensures DecodeLoc32(0xAD) == Resolved(Indirect, None, Some(5), 0)
  {}

  // ---- Through the instruction word ----

  /** A loc operand holds its field, and is resolved by the table of its own width; no other
      operand is resolved to anything. */
  lemma {:induction false} FieldComesBack(rows: seq<Rows.Row>, r: nat, values: seq<int>, i: nat)
    requires r < |rows| && RoundTrips(rows, r) && Encodable(rows[r], values) && i < |values|
    ensures i < |rows[r].operands| && Extractable(rows[r].operands[i])
    ensures var op := rows[r].operands[i];
      var d := DecodeOperand(op, Word(rows[r], values, |values|));
      && d.value == values[i] && d.kind == op.kind
      && (op.kind.Loc16? ==> values[i] >= 0 && d.resolved == Some(DecodeLoc16(values[i] % 0x100)))
      && (op.kind.Loc32? ==> values[i] >= 0 && d.resolved == Some(DecodeLoc32(values[i] % 0x100)))
      && (!op.kind.Loc16? && !op.kind.Loc32? ==> d.resolved == None)
  {
    hide InRange, Encoded, RoundTrips, Encodable, RawOf, Word, DecodeLoc16, DecodeLoc32, SignExtend, Narrow,
      Rows.HasField, Rows.FieldAt;
    var row := rows[r];
    EncodableFacts(row, values, i);
    FieldFacts(rows, r, i);
    NarrowIs(row, i);
    RawComesBack(rows, r, values, i);
    ValueComesBack(row.operands[i], values[i], Word(row, values, |values|));
    CodesRaw(row.operands[i], values[i]);
  }

  lemma CodesRaw(op: Rows.OperandRow, value: int)
    requires Extractable(op) && InRange(op, value)
    ensures IsCode(op.kind) ==> value >= 0 && Encoded(op, value) == value
  {
    hide Bits.Pow2;
  }

  /** An operand encoded as a register of its width decodes to that register. */
  lemma {:induction false} RegisterOperand(rows: seq<Rows.Row>, r: nat, values: seq<int>, i: nat, reg: Register)
    requires r < |rows| && RoundTrips(rows, r) && Encodable(rows[r], values) && i < |values| == |rows[r].operands|
    requires rows[r].operands[i].kind.Loc16? || rows[r].operands[i].kind.Loc32?
    requires var code := if rows[r].operands[i].kind.Loc16? then Code16(reg) else Code32(reg);
      code.Some? && values[i] == code.value
    ensures Extractable(rows[r].operands[i])
    ensures DecodeOperand(rows[r].operands[i], Word(rows[r], values, |values|)).resolved ==
            Some(Resolved(RegisterDirect, Some(reg), None, 0))
  {
    hide RoundTrips, Encodable, Word, DecodeLoc16, DecodeLoc32, DecodeOperand, Code16, Code32, Extractable;
    FieldComesBack(rows, r, values, i);
    if rows[r].operands[i].kind.Loc16? { Register16ComesBack(reg); } else { Register32ComesBack(reg); }
  }

  /** And one encoded as an addressing mode to that mode, pointer and offset. */
  lemma {:induction false} MemoryOperand(rows: seq<Rows.Row>, r: nat, values: seq<int>, i: nat,
                                         mode: AddressingMode, n: Index, offset: nat)
    requires r < |rows| && RoundTrips(rows, r) && Encodable(rows[r], values) && i < |values| == |rows[r].operands|
    requires rows[r].operands[i].kind.Loc16? || rows[r].operands[i].kind.Loc32?
    requires CodeOf(mode, n, offset).Some? && values[i] == CodeOf(mode, n, offset).value
    ensures Extractable(rows[r].operands[i])
    ensures DecodeOperand(rows[r].operands[i], Word(rows[r], values, |values|)).resolved ==
            Some(Resolved(mode, None, PointerOf(mode, n), offset))
  {
    hide RoundTrips, Encodable, Word, DecodeLoc16, DecodeLoc32, DecodeOperand, CodeOf, Extractable;
    FieldComesBack(rows, r, values, i);
    MemoryComesBack(mode, n, offset);
  }
}
