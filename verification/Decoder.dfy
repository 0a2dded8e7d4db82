/** The decoder: two table sweeps, operand extraction, and branch targets. */
module Decoder {
  import opened Wrappers
  import opened Bits
  import opened Rows
  import opened Table
  import Operands

  type Byte = b: nat | b < 0x100

  // ---- Bit fields ----

  /** Bits high..low. A 32-bit field shifts the mask's one around to bit 0, which leaves an empty
      mask; so in a release build, where an overlong shift wraps and does not panic. */
  function ExtractBits(value: nat, high: nat, low: nat): nat
    requires low <= high
  {
    var mask := if high - low + 1 >= 32 then 0 else Pow2(high - low + 1) - 1;
    And(Shr(value, low), mask)
  }

  lemma ExtractIs(value: nat, high: nat, low: nat)
    requires low <= high && high - low + 1 < 32
    ensures ExtractBits(value, high, low) == LowBits(Shr(value, low), high - low + 1)
  {
    hide And, Shr, LowBits, Pow2;
    AndOnes(Shr(value, low), high - low + 1);
  }

  /** 32-bit two's complement. */
  function AsI32(v: int): int {
    var low := v % 0x1_0000_0000;
    if low >= 0x8000_0000 then low - 0x1_0000_0000 else low
  }

  /** Flip the sign bit, subtract it, and read the result as signed. */
  function SignExtend(value: nat, bits: nat): int
    requires bits > 0
  {
    AsI32(Xor(value, Pow2(bits - 1)) - Pow2(bits - 1))
  }

  lemma {:induction false} XorTop(v: nat, k: nat)
    requires v < Pow2(k + 1)
    ensures Xor(v, Pow2(k)) == if v < Pow2(k) then v + Pow2(k) else v - Pow2(k)
    decreases k
  {
    if k == 0 {
      assert Pow2(1) == 2 && Xor(0, 1) == 1 && Xor(1, 1) == 2 * Xor(0, 0);
    } else {
      XorTop(v / 2, k - 1);
    }
  }

  /** Sign extension reads the field as two's complement of its own width. */
  lemma SignExtendIs(v: nat, bits: nat)
    requires 0 < bits <= 32 && v < Pow2(bits)
    ensures SignExtend(v, bits) == if v < Pow2(bits - 1) then v else v - Pow2(bits)
  {
    hide Xor, Pow2;
    XorTop(v, bits - 1);
    Pow2Succ(bits - 1);
    Pow2Monotonic(bits - 1, 31);
    Pow2At32();
  }

  // ---- Operands ----

  predicate IsImmediate(kind: OpKind) {
    kind.Imm8? || kind.Imm16? || kind.Imm22? || kind.OtherImm?
  }

  /** Bit positions; a row without a pair is generated with both zero. */
  function HighLow(op: OperandRow): (nat, nat) {
    if op.bits.Some? then op.bits.value else (0, 0)
  }

  predicate Extractable(op: OperandRow) { HighLow(op).1 <= HighLow(op).0 }

  function RawOf(op: OperandRow, word: nat): nat
    requires Extractable(op)
  {
    ExtractBits(word, HighLow(op).0, HighLow(op).1)
  }

  /** A decoded operand: its value, and the addressing mode of a loc field. */
  datatype DecodedOperand = DecodedOperand(kind: OpKind, value: int, resolved: Option<Operands.ResolvedOperand>)

  function DecodeOperand(op: OperandRow, word: nat): DecodedOperand
    requires Extractable(op)
  {
    var raw := RawOf(op, word);
    var bits := HighLow(op).0 - HighLow(op).1 + 1;
    if op.kind.Loc16? then DecodedOperand(op.kind, raw, Some(Operands.DecodeLoc16(raw % 0x100)))
    else if op.kind.Loc32? then DecodedOperand(op.kind, raw, Some(Operands.DecodeLoc32(raw % 0x100)))
    else if IsImmediate(op.kind) then
      DecodedOperand(op.kind, (if op.signed then SignExtend(raw, bits) else raw) + op.bias, None)
    else DecodedOperand(op.kind, raw, None)
  }

  // ---- Branches ----

  datatype BranchType = NoBranch | Unconditional | ConditionalTrue | CallBranch | ReturnBranch | TrapBranch | HaltBranch

  function ResolveBranchType(sem: Semantics, cond: Option<nat>): BranchType {
    match sem
    case Return => ReturnBranch
    case Call => CallBranch
    case Trap => TrapBranch
    case Halt => HaltBranch
    case Jump => Unconditional
    case CondJump => if cond == Some(0xF) then Unconditional else ConditionalTrue
    case OtherSemantics => NoBranch
  }

  predicate AbsoluteName(name: string) { name == "XB_PMA_COND" || name == "XCALL_PMA_COND" }

  predicate IsRelative(op: OperandRow) { (op.kind.Imm16? || op.kind.Imm8?) && op.signed }

  /** The operand that decides the target, and whether it holds an offset or an address. */
  predicate IsTarget(op: OperandRow, name: string) {
    op.kind.Imm22? || IsRelative(op) || ((op.kind.Imm16? || op.kind.Imm8?) && AbsoluteName(name))
  }

  predicate AllExtractable(row: Row) {
    forall i :: 0 <= i < |row.operands| ==> Extractable(row.operands[i])
  }

  /** The target one operand gives, as a word address; none before word zero. */
  function TargetOf(op: OperandRow, word: nat, addr: nat, size: nat): Option<nat>
    requires Extractable(op)
  {
    var raw := RawOf(op, word);
    if op.kind.Imm22? || !op.signed then Some(2 * raw)
    else
      var target := addr / 2 + size / 2 + SignExtend(raw, HighLow(op).0 - HighLow(op).1 + 1);
      if target < 0 then None else Some(2 * target)
  }

  /** The first operand that names a target. */
  function FirstTarget(ops: seq<OperandRow>, name: string): Option<OperandRow> {
    if ops == [] then None
    else if IsTarget(ops[0], name) then Some(ops[0])
    else FirstTarget(ops[1..], name)
  }

  method ResolveTarget(row: Row, word: nat, addr: nat, size: nat) returns (t: Option<nat>)
    requires AllExtractable(row)
    ensures FirstTarget(row.operands, row.name).None? ==> t == None
    ensures FirstTarget(row.operands, row.name).Some? ==>
              var op := FirstTarget(row.operands, row.name).value;
              Extractable(op) && t == TargetOf(op, word, addr, size)
  {
    hide Extractable, SignExtend;
    for i := 0 to |row.operands|
      invariant FirstTarget(row.operands, row.name) == FirstTarget(row.operands[i..], row.name)
    {
      var op := row.operands[i];
      assert row.operands[i..][0] == op && row.operands[i..][1..] == row.operands[i + 1..];
      if op.kind.Imm22? {
        return TargetOf(op, word, addr, size);
      } else if IsRelative(op) {
        return TargetOf(op, word, addr, size);
      } else if (op.kind.Imm16? || op.kind.Imm8?) && AbsoluteName(row.name) {
        return TargetOf(op, word, addr, size);
      }
    }
    return None;
  }

  /** A target strictly inside the instruction is no target. */
  function Outside(t: Option<nat>, addr: nat, size: nat): Option<nat> {
    if t.Some? && addr < t.value < addr + size then None else t
  }

  predicate HasTarget(b: BranchType) { !b.NoBranch? && !b.ReturnBranch? && !b.HaltBranch? }

  // ---- Whole instructions ----

  datatype Instruction = Instruction(
    row: Row, word: nat, size: nat, operands: seq<DecodedOperand>, branch: BranchType, target: Option<nat>)

  function OperandsOf(ops: seq<OperandRow>, word: nat): (r: seq<DecodedOperand>)
    requires forall i :: 0 <= i < |ops| ==> Extractable(ops[i])
    ensures |r| == |ops| && forall i :: 0 <= i < |ops| ==> r[i] == DecodeOperand(ops[i], word)
  {
    seq(|ops|, i requires 0 <= i < |ops| => DecodeOperand(ops[i], word))
  }

  /** The last cond4 operand. */
  function CondOf(ops: seq<OperandRow>, word: nat, n: nat): Option<nat>
    requires n <= |ops| && forall i :: 0 <= i < |ops| ==> Extractable(ops[i])
  {
    if n == 0 then None
    else if ops[n - 1].kind.Cond4? then Some(RawOf(ops[n - 1], word) % 0x100)
    else CondOf(ops, word, n - 1)
  }

  function BranchOf(row: Row, word: nat): BranchType
    requires AllExtractable(row)
  {
    ResolveBranchType(row.sem, CondOf(row.operands, word, |row.operands|))
  }

  function BranchTargetOf(row: Row, word: nat, addr: nat, size: nat): Option<nat>
    requires AllExtractable(row)
  {
    FirstIsExtractable(row.operands, row.name);
    var first := FirstTarget(row.operands, row.name);
    if !HasTarget(BranchOf(row, word)) || first.None? then None
    else Outside(TargetOf(first.value, word, addr, size), addr, size)
  }

  lemma {:induction false} FirstIsExtractable(ops: seq<OperandRow>, name: string)
    requires forall i :: 0 <= i < |ops| ==> Extractable(ops[i])
    ensures FirstTarget(ops, name).Some? ==>
              FirstTarget(ops, name).value in ops && Extractable(FirstTarget(ops, name).value)
  {
    hide IsTarget, Extractable;
    if ops != [] && !IsTarget(ops[0], name) { FirstIsExtractable(ops[1..], name); }
  }

  method Build(e: Entry, word: nat, addr: nat, size: nat) returns (insn: Instruction)
    requires AllExtractable(e.row)
    ensures insn == Instruction(e.row, word, size, OperandsOf(e.row.operands, word), BranchOf(e.row, word),
                                BranchTargetOf(e.row, word, addr, size))
  {
    hide Extractable, DecodeOperand, TargetOf, RawOf;
    var operands: seq<DecodedOperand> := [];
    var cond: Option<nat> := None;
    for i := 0 to |e.row.operands|
      invariant |operands| == i && forall j :: 0 <= j < i ==> operands[j] == DecodeOperand(e.row.operands[j], word)
      invariant cond == CondOf(e.row.operands, word, i)
    {
      var op := DecodeOperand(e.row.operands[i], word);
      if e.row.operands[i].kind.Cond4? {
        RegisterValue(e.row.operands[i], word);
        cond := Some(op.value % 0x100);
      }
      operands := operands + [op];
    }
    assert operands == OperandsOf(e.row.operands, word);
    var branch := ResolveBranchType(e.row.sem, cond);
    var target: Option<nat> := None;
    if HasTarget(branch) {
      FirstIsExtractable(e.row.operands, e.row.name);
      target := ResolveTarget(e.row, word, addr, size);
      if target.Some? {
        if target.value > addr && target.value < addr + size {
          target := None;
        }
      }
    }
    insn := Instruction(e.row, word, size, operands, branch, target);
  }

  lemma RegisterValue(op: OperandRow, word: nat)
    requires Extractable(op) && op.kind.Cond4?
    ensures DecodeOperand(op, word).value == RawOf(op, word)
  {}

  // ---- The two sweeps ----

  /** Tables as the build script leaves them. */
  datatype Tables = Tables(
    short: seq<Entry>, shortFlat: seq<nat>, shortSlots: seq<(nat, nat)>,
    long: seq<Entry>, longFlat: seq<nat>, longSlots: seq<(nat, nat)>)

  predicate IndexOf(table: seq<Entry>, shift: nat, flat: seq<nat>, slots: seq<(nat, nat)>) {
    && flat == Flattened(table, shift, 256) && |flat| < 0x1_0000
    && |slots| == 256 && forall b :: 0 <= b < 256 ==> slots[b] == Slot(table, shift, b)
  }

  predicate Generated(t: Tables) {
    IndexOf(t.short, 8, t.shortFlat, t.shortSlots) && IndexOf(t.long, 24, t.longFlat, t.longSlots)
  }

  function ShortWord(data: seq<Byte>): nat
    requires |data| >= 2
  {
    (data[0] as nat) + 0x100 * (data[1] as nat)
  }

  /** The first word is the high half. */
  function LongWord(data: seq<Byte>): nat
    requires |data| >= 4
  {
    Or(Or(Or(Shl(data[1], 24), Shl(data[0], 16)), Shl(data[3], 8)), data[2])
  }

  datatype Found = Found(entry: Entry, word: nat, size: nat)

  /** What full scans of the two tables find: a 16-bit row first, a 32-bit row only then. */
  function Find(short: seq<Entry>, long: seq<Entry>, data: seq<Byte>, mode: nat): Option<Found> {
    if |data| < 2 then None
    else
      var s := Scan(short, ShortWord(data), mode, 0);
      if s.Some? then Some(Found(short[s.value], ShortWord(data), 2))
      else if |data| < 4 then None
      else
        var l := Scan(long, LongWord(data), mode, 0);
        if l.Some? then Some(Found(long[l.value], LongWord(data), 4)) else None
  }

  predicate AllRowsExtractable(table: seq<Entry>) {
    forall k :: 0 <= k < |table| ==> AllExtractable(table[k].row)
  }

  /** The instruction of a found entry. */
  function InstructionOf(f: Found, addr: nat): Instruction
    requires AllExtractable(f.entry.row)
  {
    Instruction(f.entry.row, f.word, f.size, OperandsOf(f.entry.row.operands, f.word), BranchOf(f.entry.row, f.word),
                BranchTargetOf(f.entry.row, f.word, addr, f.size))
  }

  /** The indexed decoder finds what the scans find. */
  method Decode(t: Tables, data: seq<Byte>, addr: nat, mode: nat) returns (r: Option<Instruction>)
    requires Generated(t) && AllRowsExtractable(t.short) && AllRowsExtractable(t.long)
    ensures var f := Find(t.short, t.long, data, mode);
      if f.None? then r == None
      else AllExtractable(f.value.entry.row) && r == Some(InstructionOf(f.value, addr))
  {
    hide Scan, Flattened, Slot, AllExtractable, ShortWord, LongWord, OperandsOf, BranchOf, BranchTargetOf;
    if |data| < 2 {
      return None;
    }
    var short := TryMatch(t.short, ShortWord(data), mode, t.shortFlat, t.shortSlots, 8);
    if short.Some? {
      var insn := Build(t.short[short.value], ShortWord(data), addr, 2);
      return Some(insn);
    }
    if |data| < 4 {
      return None;
    }
    var long := TryMatch(t.long, LongWord(data), mode, t.longFlat, t.longSlots, 24);
    if long.None? {
      return None;
    }
    var insn := Build(t.long[long.value], LongWord(data), addr, 4);
    return Some(insn);
  }

  // ---- Properties of the decoder ----

  /** A two-byte instruction does not depend on the bytes after it, and no instruction depends
      on bytes after its fourth. */
  lemma DecodeIgnoresRest(short: seq<Entry>, long: seq<Entry>, data: seq<Byte>, mode: nat)
    requires |data| >= 2
    ensures Find(short, long, data[..2], mode).Some? ==>
              Find(short, long, data, mode) == Find(short, long, data[..2], mode)
    ensures |data| >= 4 ==> Find(short, long, data, mode) == Find(short, long, data[..4], mode)
    ensures var f := Find(short, long, data, mode);
      f.Some? && f.value.size == 2 ==> f == Find(short, long, data[..2], mode)
  {
    hide Scan, Or, Shl;
    assert ShortWord(data[..2]) == ShortWord(data);
    if |data| >= 4 {
      assert ShortWord(data[..4]) == ShortWord(data) && LongWord(data[..4]) == LongWord(data);
    }
  }

  /** What the decoder finds in the tables generated from the source rows. */
  function FindIn(rows: seq<Row>, data: seq<Byte>, mode: nat): Option<Found> {
    Find(SourceTable(rows, 16), SourceTable(rows, 32), data, mode)
  }

  /** Over the source rows: decoding yields a matching 16-bit row that no other matching 16-bit
      row stands ahead of, whenever there is one. */
  lemma ShortRowWins(rows: seq<Row>, data: seq<Byte>, mode: nat, i: nat)
    requires |data| >= 2 && i < |rows| && rows[i].format == 16 && Matches(EntryOf(rows[i]), ShortWord(data), mode)
    ensures var f := FindIn(rows, data, mode);
      && f.Some? && f.value.size == 2
      && exists w: nat ::
           w < |rows| && rows[w].format == 16 && f.value.entry == EntryOf(rows[w]) && (w == i || Ahead(rows, w, i))
  {
    hide Scan, Matches, EntryOf, Ahead, SourceTable;
    FormatWins(rows, 16, ShortWord(data), mode, i);
  }

  /** And a 32-bit row exactly when no 16-bit row matches and a 32-bit one does. */
  lemma LongRowWins(rows: seq<Row>, data: seq<Byte>, mode: nat, i: nat)
    requires |data| >= 4 && i < |rows| && rows[i].format == 32 && Matches(EntryOf(rows[i]), LongWord(data), mode)
    requires forall k :: 0 <= k < |rows| && rows[k].format == 16 ==> !Matches(EntryOf(rows[k]), ShortWord(data), mode)
    ensures var f := FindIn(rows, data, mode);
      && f.Some? && f.value.size == 4
      && exists w: nat ::
           w < |rows| && rows[w].format == 32 && f.value.entry == EntryOf(rows[w]) && (w == i || Ahead(rows, w, i))
  {
    hide Matches, EntryOf, Ahead, ShortWord, LongWord, SourceTable;
    NoShortRow(rows, ShortWord(data), mode);
    FormatWins(rows, 32, LongWord(data), mode, i);
  }

  lemma NoShortRow(rows: seq<Row>, word: nat, mode: nat)
    requires forall k :: 0 <= k < |rows| && rows[k].format == 16 ==> !Matches(EntryOf(rows[k]), word, mode)
    ensures Scan(SourceTable(rows, 16), word, mode, 0) == None
  {
    hide Matches, EntryOf, SourceTable;
    var table := SourceTable(rows, 16);
    var r := Scan(table, word, mode, 0);
    if r.Some? { SourceTableHolds(rows, 16, table[r.value]); }
  }

  // ---- From the source rows to the tables ----

  /** The flat indices are short enough for 16-bit starts and lengths. */
  predicate IndicesFit(rows: seq<Row>) {
    |Flattened(SourceTable(rows, 16), 8, 256)| < 0x1_0000 && |Flattened(SourceTable(rows, 32), 24, 256)| < 0x1_0000
  }

  /** Filter by format, sort, and index. */
  method Generate(rows: seq<Row>) returns (t: Tables)
    ensures t.short == SourceTable(rows, 16) && t.long == SourceTable(rows, 32)
    ensures Generated(t) <==> IndicesFit(rows)
  {
    hide Flattened, Slot, TableOf;
    var short, long := TableOf(OfFormat(rows, 16)), TableOf(OfFormat(rows, 32));
    var shortFlat, shortSlots := WriteLookupTable(short, 8);
    var longFlat, longSlots := WriteLookupTable(long, 24);
    t := Tables(short, shortFlat, shortSlots, long, longFlat, longSlots);
  }

  /** No operand of a validated table has its bits reversed. */
  lemma CleanIsExtractable(rows: seq<Row>, format: nat)
    requires Clean(rows)
    ensures AllRowsExtractable(SourceTable(rows, format))
  {
    hide SourceTable, IsProblem;
    var table := SourceTable(rows, format);
    forall k | 0 <= k < |table| ensures AllExtractable(table[k].row) {
      SourceTableHolds(rows, format, table[k]);
      var i: nat :| i < |rows| && rows[i].format == format && table[k] == EntryOf(rows[i]);
      forall j: nat | j < |rows[i].operands| ensures Extractable(rows[i].operands[j]) {
        if HasBits(rows[i], j) { BitsAreFields(rows, i, j); }
      }
    }
  }

  /** Validated source rows, built into tables, decode as full scans of the source rows do. */
  method DecodeSource(rows: seq<Row>, data: seq<Byte>, addr: nat, mode: nat) returns (r: Option<Instruction>)
    requires Clean(rows) && IndicesFit(rows)
    ensures var f := FindIn(rows, data, mode);
      if f.None? then r == None
      else AllExtractable(f.value.entry.row) && r == Some(InstructionOf(f.value, addr))
  {
    hide *;
    var t := Generate(rows);
    CleanIsExtractable(rows, 16);
    CleanIsExtractable(rows, 32);
    r := Decode(t, data, addr, mode);
    FindInIs(rows, t, data, mode);
  }

  lemma FindInIs(rows: seq<Row>, t: Tables, data: seq<Byte>, mode: nat)
    requires t.short == SourceTable(rows, 16) && t.long == SourceTable(rows, 32)
    ensures FindIn(rows, data, mode) == Find(t.short, t.long, data, mode)
  {
    hide Find, SourceTable;
  }
}
