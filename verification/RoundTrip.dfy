/** Encoding operands into a row's word, laying it out in bytes, and decoding it again. */
module RoundTrip {
  import opened Wrappers
  import opened Bits
  import opened Rows
  import opened Table
  import opened Decoder

  // ---- Encoding ----

  function FieldWidth(op: OperandRow): nat
    requires Extractable(op)
  {
    HighLow(op).0 - HighLow(op).1 + 1
  }

  /** Kinds whose field is an index or a code and not a number: they have neither sign nor bias. */
  predicate IsCode(kind: OpKind) {
    kind.Loc16? || kind.Loc32? || kind.Ax? || kind.Cond4? || kind.Cndf? || kind.Reg3? || kind.Arn? || kind.FpuReg?
  }

  predicate IsSigned(op: OperandRow) { !IsCode(op.kind) && op.signed }

  function Bias(op: OperandRow): int { if IsCode(op.kind) then 0 else op.bias }

  /** Values the field of an operand can hold, after its bias. */
  predicate InRange(op: OperandRow, value: int)
    requires Extractable(op)
  {
    var v := value - Bias(op);
    if IsSigned(op) then -(Pow2(FieldWidth(op) - 1) as int) <= v < Pow2(FieldWidth(op) - 1)
    else 0 <= v < Pow2(FieldWidth(op))
  }

  /** The bits that stand for a value: two's complement of the field's width. */
  function Encoded(op: OperandRow, value: int): (raw: nat)
    requires Extractable(op) && InRange(op, value)
    ensures raw < Pow2(FieldWidth(op))
  {
    Pow2Succ(FieldWidth(op) - 1);
    var v := value - Bias(op);
    if v < 0 then v + Pow2(FieldWidth(op)) else v
  }

  predicate Encodable(row: Row, values: seq<int>) {
    && AllExtractable(row) && |values| == |row.operands|
    && forall i :: 0 <= i < |values| ==> InRange(row.operands[i], values[i])
  }

  /** The opcode with the first `n` operands or-ed in at their places. */
  function Word(row: Row, values: seq<int>, n: nat): nat
    requires Encodable(row, values) && n <= |values|
  {
    if n == 0 then row.opcode
    else Or(Word(row, values, n - 1), Shl(Encoded(row.operands[n - 1], values[n - 1]), HighLow(row.operands[n - 1]).1))
  }

  // ---- The bits of an encoded word ----

  /** Bit `k` of operand `i`, at its place. */
  predicate PlacedBit(row: Row, values: seq<int>, i: nat, k: nat)
    requires Encodable(row, values) && i < |values|
  {
    var low := HighLow(row.operands[i]).1;
    k >= low && Bit(Encoded(row.operands[i], values[i]), k - low)
  }

  lemma {:induction false} WordBit(row: Row, values: seq<int>, n: nat, k: nat)
    requires Encodable(row, values) && n <= |values|
    ensures Bit(Word(row, values, n), k) <==>
            Bit(row.opcode, k) || exists i: nat :: i < n && PlacedBit(row, values, i, k)
  {
    hide Bit, Or, Shl, Encoded, InRange, Extractable;
    if n > 0 {
      WordBit(row, values, n - 1, k);
      var low := HighLow(row.operands[n - 1]).1;
      var raw := Encoded(row.operands[n - 1], values[n - 1]);
      OrBit(Word(row, values, n - 1), Shl(raw, low), k);
      ShlBit(raw, low, k);
      assert PlacedBit(row, values, n - 1, k) == Bit(Shl(raw, low), k);
      LastOf(row, values, n, k);
    }
  }

  lemma LastOf(row: Row, values: seq<int>, n: nat, k: nat)
    requires Encodable(row, values) && 0 < n <= |values|
    ensures (exists i: nat :: i < n && PlacedBit(row, values, i, k)) <==>
            (exists i: nat :: i < n - 1 && PlacedBit(row, values, i, k)) || PlacedBit(row, values, n - 1, k)
  {
    hide PlacedBit, Encodable;
    if i: nat :| i < n && PlacedBit(row, values, i, k) {
      if i < n - 1 { assert PlacedBit(row, values, i, k); }
    }
  }

  /** A placed operand stays inside its field. */
  lemma PlacedInField(row: Row, values: seq<int>, i: nat, k: nat)
    requires Encodable(row, values) && i < |values| && PlacedBit(row, values, i, k)
    ensures var op := row.operands[i]; Bit(FieldOf(HighLow(op).0, HighLow(op).1), k)
  {
    hide Bit, Encoded, InRange, Pow2, Field;
    var op := row.operands[i];
    var low := HighLow(op).1;
    var raw := Encoded(op, values[i]);
    if k - low >= FieldWidth(op) { BitsBelow(raw, FieldWidth(op), k - low); }
    FieldBit(low, FieldWidth(op), k);
  }

  // ---- A clean row whose fields avoid its mask ----

  /** What the round trip needs beyond validation: every operand declares its bits, no field is
      a whole 32-bit word, the fields avoid the mask entirely, and the opcode fits the format. */
  ghost predicate RoundTrips(rows: seq<Row>, r: nat) {
    && Clean(rows) && r < |rows|
    && rows[r].opcode < Pow2(Width(rows[r]))
    && forall i: nat :: i < |rows[r].operands| ==>
         && HasBits(rows[r], i)
         && (HasField(rows[r], i) ==> Narrow(rows[r], i) && Apart(FieldAt(rows[r], i), rows[r].mask))
  }

  predicate Narrow(row: Row, i: nat)
    requires HasField(row, i)
  {
    row.operands[i].bits.value.0 - row.operands[i].bits.value.1 + 1 < 32
  }

  lemma FieldFacts(rows: seq<Row>, r: nat, i: nat)
    requires r < |rows| && RoundTrips(rows, r) && i < |rows[r].operands|
    ensures HasField(rows[r], i) && Narrow(rows[r], i) && Apart(FieldAt(rows[r], i), rows[r].mask)
    ensures var op := rows[r].operands[i];
      Extractable(op) && FieldAt(rows[r], i) == FieldOf(HighLow(op).0, HighLow(op).1)
  {
    hide Apart, IsProblem, Field;
    BitsAreFields(rows, r, i);
  }

  lemma OpcodeInMask(rows: seq<Row>, r: nat, k: nat)
    requires r < |rows| && RoundTrips(rows, r) && Bit(rows[r].opcode, k)
    ensures Bit(rows[r].mask, k)
  {
    hide Apart, IsProblem, Bit, Pow2, HasField, HasBits, FieldAt, Narrow;
    if k >= Width(rows[r]) { BitsBelow(rows[r].opcode, Width(rows[r]), k); }
    OpcodeInsideMask(rows, r, k);
  }

  /** Inside field `i` the word has exactly the bits of operand `i`. */
  lemma OwnField(rows: seq<Row>, r: nat, values: seq<int>, i: nat, k: nat)
    requires r < |rows| && RoundTrips(rows, r) && Encodable(rows[r], values) && i < |values|
    requires var op := rows[r].operands[i]; HighLow(op).1 <= k <= HighLow(op).0
    ensures Bit(Word(rows[r], values, |values|), k) <==> PlacedBit(rows[r], values, i, k)
  {
    hide Bit, IsProblem, PlacedBit, Word, InRange, Field, RoundTrips, HasField, HasBits, Narrow, Encodable, Encoded;
    var row := rows[r];
    EncodableFacts(row, values, i);
    WordBit(row, values, |values|, k);
    FieldFacts(rows, r, i);
    var op := row.operands[i];
    FieldBit(HighLow(op).1, HighLow(op).0 - HighLow(op).1 + 1, k);
    if Bit(row.opcode, k) { OpcodeInMask(rows, r, k); }
    if j: nat :| j < |values| && PlacedBit(row, values, j, k) {
      EncodableFacts(row, values, j);
      PlacedInField(row, values, j, k);
      FieldFacts(rows, r, j);
      CleanOf(rows, r);
      if j != i { FieldsApart(rows, r, i, j); }
    }
  }

  lemma EncodableFacts(row: Row, values: seq<int>, i: nat)
    requires Encodable(row, values) && i < |values|
    ensures |values| == |row.operands| && Extractable(row.operands[i]) && InRange(row.operands[i], values[i])
  {
    hide InRange;
  }

  lemma CleanOf(rows: seq<Row>, r: nat)
    requires RoundTrips(rows, r)
    ensures Clean(rows) && r < |rows|
  {
    hide Clean, Apart;
  }

  // ---- Round trip ----

  /** Extracting a field gives back the bits that were put there. */
  lemma {:induction false} RawComesBack(rows: seq<Row>, r: nat, values: seq<int>, i: nat)
    requires r < |rows| && RoundTrips(rows, r) && Encodable(rows[r], values) && i < |values|
    ensures RawOf(rows[r].operands[i], Word(rows[r], values, |values|)) == Encoded(rows[r].operands[i], values[i])
  {
    hide Bit, IsProblem, Word, InRange, Field, RoundTrips, HasField, HasBits, Narrow, Encodable, Encoded, ExtractBits,
      LowBits, Shr, Pow2;
    var row := rows[r];
    EncodableFacts(row, values, i);
    FieldFacts(rows, r, i);
    var op := row.operands[i];
    var word, raw := Word(row, values, |values|), Encoded(op, values[i]);
    var low, w := HighLow(op).1, FieldWidth(op);
    NarrowIs(row, i);
    ExtractIs(word, HighLow(op).0, low);
    var got := LowBits(Shr(word, low), w);
    forall k: nat ensures Bit(got, k) == Bit(raw, k) {
      LowBit(Shr(word, low), w, k);
      ShrBit(word, low, k);
      if k < w { OwnField(rows, r, values, i, low + k); } else { BitsBelow(raw, w, k); }
    }
    SameBits(got, raw);
  }

  lemma NarrowIs(row: Row, i: nat)
    requires HasField(row, i) && Narrow(row, i) && Extractable(row.operands[i])
    ensures FieldWidth(row.operands[i]) < 32
  {}

  /** Sign extension and bias undo the encoding of a value. */
  lemma ValueComesBack(op: OperandRow, value: int, word: nat)
    requires Extractable(op) && InRange(op, value) && FieldWidth(op) <= 32 && RawOf(op, word) == Encoded(op, value)
    ensures DecodeOperand(op, word).value == value
  {
    hide Pow2, SignExtend, ExtractBits;
    var w := FieldWidth(op);
    Pow2Succ(w - 1);
    SignExtendIs(Encoded(op, value), w);
  }

  /** The encoded word still matches its row. */
  lemma {:induction false} StillMatches(rows: seq<Row>, r: nat, values: seq<int>, mode: nat)
    requires r < |rows| && RoundTrips(rows, r) && Encodable(rows[r], values)
    requires rows[r].objmode.Some? ==> rows[r].objmode.value == mode
    ensures Matches(EntryOf(rows[r]), Word(rows[r], values, |values|), mode)
  {
    hide Bit, And, IsProblem, Word, RoundTrips, Encodable, Pow2, LowBits, FieldOf;
    var row := rows[r];
    var word := Word(row, values, |values|);
    InFormat(rows, r);
    forall k: nat ensures Bit(And(word, row.mask), k) == Bit(row.opcode, k) {
      AndBit(word, row.mask, k);
      WordBit(row, values, |values|, k);
      if Bit(row.opcode, k) { OpcodeInMask(rows, r, k); }
      if Bit(row.mask, k) {
        if i: nat :| i < |values| && PlacedBit(row, values, i, k) {
          EncodableFacts(row, values, i);
          PlacedInField(row, values, i, k);
          FieldFacts(rows, r, i);
        }
      }
    }
    SameBits(And(word, row.mask), row.opcode);
  }

  /** Neither opcode nor mask is cut by the generated table. */
  lemma InFormat(rows: seq<Row>, r: nat)
    requires RoundTrips(rows, r)
    ensures LowBits(rows[r].opcode, 32) == rows[r].opcode && LowBits(rows[r].mask, 32) == rows[r].mask
  {
    hide Pow2, LowBits, Apart, HasField, HasBits, IsProblem;
    MaskInFormat(rows, r);
    Pow2Monotonic(Width(rows[r]), 32);
    LowBitsBound(rows[r].opcode, 32);
    LowBitsBound(rows[r].mask, 32);
  }

  /** The encoded word fits the row's format. */
  lemma WordFits(rows: seq<Row>, r: nat, values: seq<int>)
    requires r < |rows| && RoundTrips(rows, r) && Encodable(rows[r], values)
    ensures Word(rows[r], values, |values|) < Pow2(Width(rows[r]))
  {
    hide Bit, IsProblem, Word, RoundTrips, Encodable, Pow2, Field;
    var row := rows[r];
    OpcodeFits(rows, r);
    forall k: nat | k >= Width(row) ensures !Bit(Word(row, values, |values|), k) {
      WordBit(row, values, |values|, k);
      BitsBelow(row.opcode, Width(row), k);
      if i: nat :| i < |values| && PlacedBit(row, values, i, k) {
        EncodableFacts(row, values, i);
        PlacedInField(row, values, i, k);
        FieldFacts(rows, r, i);
        var op := row.operands[i];
        FieldBit(HighLow(op).1, HighLow(op).0 - HighLow(op).1 + 1, k);
      }
    }
    BelowBits(Word(row, values, |values|), Width(row));
  }

  lemma OpcodeFits(rows: seq<Row>, r: nat)
    requires RoundTrips(rows, r)
    ensures rows[r].opcode < Pow2(Width(rows[r]))
  {
    hide Clean, Apart, Pow2;
  }

  // ---- Bytes ----

  /** Little-endian words, the high one first. */
  function ShortBytes(word: nat): seq<Byte> { [word % 0x100, word / 0x100 % 0x100] }

  function LongBytes(word: nat): seq<Byte> {
    ShortBytes(word / 0x1_0000) + ShortBytes(word)
  }

  lemma ShortComesBack(word: nat, rest: seq<Byte>)
    requires word < 0x1_0000
    ensures ShortWord(ShortBytes(word) + rest) == word
  {}

  /** Putting bytes together with or is adding them up. */
  lemma LongWordIs(data: seq<Byte>)
    requires |data| >= 4
    ensures LongWord(data) ==
            0x100_0000 * (data[1] as nat) + 0x1_0000 * (data[0] as nat) + 0x100 * (data[3] as nat) + data[2]
  {
    hide Or, Shl, Pow2;
    var a: nat, b: nat, c: nat, d: nat := data[1], data[0], data[3], data[2];
    PlacesOf();
    ShlIsMul(a, 24);
    ShlIsMul(b, 16);
    ShlIsMul(c, 8);
    ShlIsMul(0x100 * a + b, 16);
    ShlIsMul(0x1_0000 * a + 0x100 * b + c, 8);
    OrIsSum(24, a, 0x1_0000 * b);
    OrIsSum(16, 0x100 * a + b, 0x100 * c);
    OrIsSum(8, 0x1_0000 * a + 0x100 * b + c, d);
  }

  lemma PlacesOf()
    ensures Pow2(8) == 0x100 && Pow2(16) == 0x1_0000 && Pow2(24) == 0x100_0000
  {
    hide Pow2;
    EightIs();
    Pow2At16();
    Pow2Add(16, 8);
  }

  lemma EightIs()
    ensures Pow2(8) == 0x100
  {}

  lemma LongComesBack(word: nat, rest: seq<Byte>)
    requires word < 0x1_0000_0000
    ensures LongWord(LongBytes(word) + rest) == word
  {
    hide LongWord, LongBytes;
    var data := LongBytes(word) + rest;
    LaidOut(word, rest);
    LongWordIs(data);
    FourBytes(word);
  }

  lemma LaidOut(word: nat, rest: seq<Byte>)
    ensures |LongBytes(word)| == 4
    ensures var data := LongBytes(word) + rest;
      && data[0] == word / 0x1_0000 % 0x100 && data[1] == word / 0x1_0000 / 0x100 % 0x100
      && data[2] == word % 0x100 && data[3] == word / 0x100 % 0x100
  {}

  lemma FourBytes(word: nat)
    requires word < 0x1_0000_0000
    ensures 0x100_0000 * (word / 0x1_0000 / 0x100 % 0x100) + 0x1_0000 * (word / 0x1_0000 % 0x100)
            + 0x100 * (word / 0x100 % 0x100) + word % 0x100 == word
  {
    var low, high := word % 0x100, word / 0x100;
    Halve(high, low, word);
    TwoBytes(word / 0x1_0000);
  }

  /** Splitting after 8 bits and after 8 more is splitting after 16. */
  lemma Halve(high: nat, low: nat, word: nat)
    requires word == 0x100 * high + low && low < 0x100
    ensures word == 0x1_0000 * (word / 0x1_0000) + 0x100 * (high % 0x100) + low
  {
    DivUnique(word, 0x1_0000, high / 0x100, 0x100 * (high % 0x100) + low);
  }

  lemma TwoBytes(w: nat)
    requires w < 0x1_0000
    ensures 0x100 * (w / 0x100 % 0x100) + w % 0x100 == w
  {}

  /** The bytes of an encoded instruction, read back as the decoder reads its first or its
      second sweep's word. */
  function BytesOf(row: Row, word: nat): seq<Byte> { if row.format == 32 then LongBytes(word) else ShortBytes(word) }

  function ReadBack(row: Row, data: seq<Byte>): nat
    requires |data| >= Width(row) / 8
  {
    if row.format == 32 then LongWord(data) else ShortWord(data)
  }

  /** Encoding any in-range operand values and decoding the bytes with the same row gives every
      value back, through sign extension and bias, and the word still matches the row. */
  lemma {:induction false} OperandsComeBack(rows: seq<Row>, r: nat, values: seq<int>, mode: nat, rest: seq<Byte>)
    requires r < |rows| && RoundTrips(rows, r) && Encodable(rows[r], values)
    requires rows[r].objmode.Some? ==> rows[r].objmode.value == mode
    ensures var row := rows[r]; var data := BytesOf(row, Word(row, values, |values|)) + rest;
      && |data| >= Width(row) / 8
      && var word := ReadBack(row, data);
         && Matches(EntryOf(row), word, mode)
         && |values| == |row.operands|
         && AllExtractable(row)
         && forall i :: 0 <= i < |values| ==> OperandsOf(row.operands, word)[i].value == values[i]
  {
    hide Bit, And, IsProblem, Word, RoundTrips, Encodable, Pow2, LowBits, DecodeOperand, Matches, EntryOf, LongWord,
      ShortWord, Encoded, InRange, Extractable, RawOf;
    var row := rows[r];
    var word := Word(row, values, |values|);
    EncodableIs(row, values);
    WordFits(rows, r, values);
    Pow2At16();
    Pow2At32();
    if row.format == 32 { LongComesBack(word, rest); } else { ShortComesBack(word, rest); }
    StillMatches(rows, r, values, mode);
    forall i | 0 <= i < |values| ensures DecodeOperand(row.operands[i], word).value == values[i] {
      EncodableFacts(row, values, i);
      FieldFacts(rows, r, i);
      NarrowIs(row, i);
      RawComesBack(rows, r, values, i);
      ValueComesBack(row.operands[i], values[i], word);
    }
  }

  lemma EncodableIs(row: Row, values: seq<int>)
    requires Encodable(row, values)
    ensures AllExtractable(row) && |values| == |row.operands|
  {
    hide InRange, Extractable;
  }

  /** No row of its format that stands ahead of row `r` matches the word. */
  ghost predicate Unrivalled(rows: seq<Row>, r: nat, word: nat, mode: nat)
    requires r < |rows|
  {
    forall w: nat :: w < |rows| && rows[w].format == rows[r].format && Ahead(rows, w, r) ==>
      !Matches(EntryOf(rows[w]), word, mode)
  }

  lemma ScanFinds(rows: seq<Row>, r: nat, word: nat, mode: nat)
    requires r < |rows| && Matches(EntryOf(rows[r]), word, mode) && Unrivalled(rows, r, word, mode)
    ensures var table := SourceTable(rows, rows[r].format);
      var s := Scan(table, word, mode, 0); s.Some? && table[s.value] == EntryOf(rows[r])
  {
    hide Matches, EntryOf, Ahead, SourceTable;
    FormatWins(rows, rows[r].format, word, mode, r);
  }

  /** Decoding the bytes of an encoded 16-bit row finds that row, whatever follows, unless a row
      ahead of it matches the same word. */
  lemma ShortRowDecodes(rows: seq<Row>, r: nat, values: seq<int>, mode: nat, rest: seq<Byte>)
    requires r < |rows| && RoundTrips(rows, r) && Encodable(rows[r], values) && rows[r].format == 16
    requires rows[r].objmode.Some? ==> rows[r].objmode.value == mode
    requires Unrivalled(rows, r, Word(rows[r], values, |values|), mode)
    ensures var word := Word(rows[r], values, |values|);
      FindIn(rows, ShortBytes(word) + rest, mode) == Some(Found(EntryOf(rows[r]), word, 2))
  {
    hide Scan, Matches, EntryOf, RoundTrips, Encodable, Unrivalled, ShortWord, Pow2, Word, LongWord, SourceTable;
    var word := Word(rows[r], values, |values|);
    WordFits(rows, r, values);
    Pow2At16();
    ShortComesBack(word, rest);
    StillMatches(rows, r, values, mode);
    ScanFinds(rows, r, word, mode);
  }

  /** And likewise for a 32-bit row, when no 16-bit row matches its first word. */
  lemma LongRowDecodes(rows: seq<Row>, r: nat, values: seq<int>, mode: nat, rest: seq<Byte>)
    requires r < |rows| && RoundTrips(rows, r) && Encodable(rows[r], values) && rows[r].format == 32
    requires rows[r].objmode.Some? ==> rows[r].objmode.value == mode
    requires Unrivalled(rows, r, Word(rows[r], values, |values|), mode)
    requires var first := Word(rows[r], values, |values|) / 0x1_0000 % 0x1_0000;
      forall k :: 0 <= k < |rows| && rows[k].format == 16 ==> !Matches(EntryOf(rows[k]), first, mode)
    ensures var word := Word(rows[r], values, |values|);
      FindIn(rows, LongBytes(word) + rest, mode) == Some(Found(EntryOf(rows[r]), word, 4))
  {
    hide Matches, EntryOf, RoundTrips, Encodable, Unrivalled, ShortWord, Pow2, Word, LongWord, SourceTable;
    var word := Word(rows[r], values, |values|);
    WordFits(rows, r, values);
    Pow2At32();
    LongComesBack(word, rest);
    FirstWord(word, rest);
    StillMatches(rows, r, values, mode);
    NoShortRow(rows, word / 0x1_0000 % 0x1_0000, mode);
    ScanFinds(rows, r, word, mode);
  }

  lemma FirstWord(word: nat, rest: seq<Byte>)
    ensures ShortWord(LongBytes(word) + rest) == word / 0x1_0000 % 0x1_0000
  {}

  // ---- What validation lets through ----

  /** A clean 16-bit row is matchable exactly when its opcode has no bits above the format:
      the check for stray bits looks only at the bits of the format. */
  lemma MatchableExactly(rows: seq<Row>, r: nat)
    requires Clean(rows) && r < |rows|
    ensures var e, limit := EntryOf(rows[r]), Pow2(Width(rows[r]));
      (exists word: nat :: word < limit && And(word, e.mask) == e.opcode) <==> e.opcode < limit
  {
    hide Bit, And, IsProblem, Pow2, LowBits;
    var row := rows[r];
    var e, w := EntryOf(row), Width(row);
    MaskInFormat(rows, r);
    Pow2Monotonic(w, 32);
    LowBitsBound(row.mask, 32);
    if word: nat :| word < Pow2(w) && And(word, e.mask) == e.opcode {
      forall k: nat | k >= w ensures !Bit(e.opcode, k) {
        AndBit(word, e.mask, k);
        BitsBelow(word, w, k);
      }
      BelowBits(e.opcode, w);
    }
    if e.opcode < Pow2(w) {
      forall k: nat | Bit(e.opcode, k) ensures Bit(e.mask, k) {
        if k >= w { BitsBelow(e.opcode, w, k); }
        LowBit(row.opcode, 32, k);
        OpcodeInsideMask(rows, r, k);
      }
      AndIsSelf(e.opcode, e.mask);
      assert e.opcode < Pow2(w) && And(e.opcode, e.mask) == e.opcode;
    }
  }

  /** Such a row: validation finds nothing wrong with it, and no word matches it. */
  lemma UnmatchableRow(word: nat, mode: nat)
    ensures Clean([HighOpcode()])
    ensures word < 0x1_0000 ==> !Matches(EntryOf(HighOpcode()), word, mode)
  {
    hide Pow2, And, Minus, LowBits;
    var rows := [HighOpcode()];
    Pow2At16();
    Pow2At32();
    HighBitIsNoStray();
    LowBitsBound(0x1_0000, 32);
    LowBitsBound(0, 32);
    NoMask(word);
  }

  /** A 16-bit row with an opcode bit above the format and an empty mask. */
  function HighOpcode(): Row { Row("HIGH", 0x1_0000, 0, 16, None, [], OtherSemantics) }

  lemma HighBitIsNoStray()
    ensures And(Minus(0x1_0000, 0), 0xFFFF) == 0 && Minus(0, 0xFFFF) == 0
  {
    hide Pow2, And, Minus, LowBits;
    Pow2At16();
    MinusNothing(0x1_0000);
    AndOnes(0x1_0000, 16);
    LowBitsIsMod(0x1_0000, 16);
    MinusFromNothing(0xFFFF);
  }

  lemma {:induction false} MinusNothing(a: nat)
    ensures Minus(a, 0) == a
    decreases a
  {
    if a > 0 { MinusNothing(a / 2); }
  }

  lemma MinusFromNothing(b: nat)
    ensures Minus(0, b) == 0
  {}

  /** The extraction is right exactly when the field is narrower than the word, or empty anyway;
      validation lets a whole 32-bit word through. The mask is zero then in a release build, where
      `1u32 << 32` wraps to 1; with overflow checks on, the shift panics instead. */
  lemma ExtractExactly(value: nat, high: nat, low: nat)
    requires low <= high < 32
    ensures ExtractBits(value, high, low) == LowBits(Shr(value, low), high - low + 1)
            <==> high - low + 1 < 32 || LowBits(value, 32) == 0
  {
    hide And, Pow2, LowBits;
    if high - low + 1 < 32 {
      ExtractIs(value, high, low);
    } else {
      NoMask(value);
      NoShift(value);
    }
  }

  lemma NoMask(value: nat)
    ensures And(value, 0) == 0
  {}

  lemma NoShift(value: nat)
    ensures Shr(value, 0) == value
  {}

  /** A 32-bit row whose one operand is the whole word. */
  function WholeWord(): Row {
    Row("WHOLE", 0, 0, 32, None, [OperandRow(OtherImm, Some((31, 0)), false, 0)], OtherSemantics)
  }

  /** Such a row: validation finds nothing wrong with it, and the operand reads as zero. */
  lemma WholeWordReadsZero(word: nat)
    ensures Clean([WholeWord()])
    ensures Extractable(WholeWord().operands[0]) && RawOf(WholeWord().operands[0], word) == 0
  {
    hide Pow2, And, Minus, Field;
    var rows := [WholeWord()];
    NothingMasked();
    NoMask(Shr(word, 0));
  }

  lemma NothingMasked()
    ensures forall b: nat :: Minus(0, b) == 0 && And(0, b) == 0 && And(b, 0) == 0
    ensures Field(0, 32) != 0
  {
    hide Pow2;
    Pow2At32();
  }
}
