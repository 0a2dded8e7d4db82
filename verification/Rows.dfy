/** Rows of the instruction table, and the build script's validation of them. */
module Rows {
  import opened Wrappers
  import opened Bits

  datatype OpKind =
    | Loc16 | Loc32 | Ax | Cond4 | Cndf | Reg3 | Arn | FpuReg
    | Imm8 | Imm16 | Imm22 | OtherImm

  /** An operand and the bits that hold it, high and low; a `bits` list that is not a pair is None. */
  datatype OperandRow = OperandRow(kind: OpKind, bits: Option<(nat, nat)>, signed: bool, bias: int)

  datatype Semantics = Return | Call | Trap | Halt | Jump | CondJump | OtherSemantics

  datatype Row = Row(
    name: string, opcode: nat, mask: nat, format: nat, objmode: Option<nat>,
    operands: seq<OperandRow>, sem: Semantics)

  /** Anything but 32 counts as a 16-bit format. */
  function Width(row: Row): (w: nat)
    ensures w == 16 || w == 32
  {
    if row.format == 32 then 32 else 16
  }

  function Full(row: Row): nat { Pow2(Width(row)) - 1 }

  /** The bits an operand occupies. */
  function FieldOf(high: nat, low: nat): nat
    requires low <= high
  {
    Field(low, high - low + 1)
  }

  // ---- What can be wrong with a row ----

  datatype Problem =
    | StrayBits(row: nat)
    | DuplicateName(row: nat)
    | SameEncoding(row: nat)
    | MaskTooWide(row: nat)
    | Reversed(row: nat, op: nat)
    | OutsideFormat(row: nat, op: nat)
    | InsideMask(row: nat, op: nat)
    | Overlaps(row: nat, op: nat)

  predicate HasBits(row: Row, i: nat) {
    i < |row.operands| && row.operands[i].bits.Some?
  }

  /** An operand whose bits make a field of the row's format. */
  predicate HasField(row: Row, i: nat) {
    HasBits(row, i) && row.operands[i].bits.value.1 <= row.operands[i].bits.value.0 < Width(row)
  }

  function FieldAt(row: Row, i: nat): nat
    requires HasField(row, i)
  {
    FieldOf(row.operands[i].bits.value.0, row.operands[i].bits.value.1)
  }

  predicate Encodes(a: Row, b: Row) {
    a.opcode == b.opcode && a.mask == b.mask && a.format == b.format
  }

  /** Two fields of one row share a bit. */
  predicate Collide(row: Row, i: nat, j: nat)
    requires HasField(row, i) && HasField(row, j)
  {
    And(FieldAt(row, i), FieldAt(row, j)) != 0
  }

  /** The problems there are, each in its own words: a problem of a row is about that row and
      the rows before it, one of an operand about that operand and the operands before it. */
  predicate IsProblem(rows: seq<Row>, p: Problem) {
    && p.row < |rows|
    && var row := rows[p.row];
       match p
       case StrayBits(_) => And(Minus(row.opcode, row.mask), Full(row)) != 0
       case DuplicateName(_) => exists j: nat :: j < p.row && rows[j].name == row.name
       case SameEncoding(_) => exists j: nat :: j < p.row && Encodes(rows[j], row)
       case MaskTooWide(_) => Minus(row.mask, Full(row)) != 0
       case Reversed(_, i) => HasBits(row, i) && row.operands[i].bits.value.0 < row.operands[i].bits.value.1
       case OutsideFormat(_, i) =>
         HasBits(row, i) && row.operands[i].bits.value.1 <= row.operands[i].bits.value.0
         && row.operands[i].bits.value.0 >= Width(row)
       case InsideMask(_, i) => HasField(row, i) && And(FieldAt(row, i), row.mask) == FieldAt(row, i)
       case Overlaps(_, i) => HasField(row, i) && exists j: nat :: j < i && HasField(row, j) && Collide(row, i, j)
  }

  predicate OfOperand(p: Problem) {
    p.Reversed? || p.OutsideFormat? || p.InsideMask? || p.Overlaps?
  }

  /** Problems of the rows before `n`. */
  predicate Before(p: Problem, n: nat) { p.row < n }

  /** Problems of row `r` with operands before `i`. */
  predicate OperandBefore(p: Problem, r: nat, i: nat) { OfOperand(p) && p.row == r && p.op < i }

  // ---- The validation ----

  /** The claimed bits after the first `n` operands. */
  ghost predicate Claimed(row: Row, claimed: nat, n: nat) {
    forall k: nat :: Bit(claimed, k) <==> exists j: nat :: j < n && HasField(row, j) && Bit(FieldAt(row, j), k)
  }

  lemma ClaimedMeets(row: Row, claimed: nat, n: nat, field: nat)
    requires Claimed(row, claimed, n)
    ensures And(field, claimed) != 0 <==> exists j: nat :: j < n && HasField(row, j) && And(field, FieldAt(row, j)) != 0
  {
    hide And, Bit, HasField, FieldAt;
    AndIsZero(field, claimed);
    if And(field, claimed) != 0 {
      var k: nat :| Bit(field, k) && Bit(claimed, k);
      var j: nat :| j < n && HasField(row, j) && Bit(FieldAt(row, j), k);
      AndIsZero(field, FieldAt(row, j));
    }
    if j: nat :| j < n && HasField(row, j) && And(field, FieldAt(row, j)) != 0 {
      AndIsZero(field, FieldAt(row, j));
      var k: nat :| Bit(field, k) && Bit(FieldAt(row, j), k);
    }
  }

  lemma ClaimMore(row: Row, claimed: nat, n: nat)
    requires Claimed(row, claimed, n)
    ensures HasField(row, n) ==> Claimed(row, Or(claimed, FieldAt(row, n)), n + 1)
    ensures !HasField(row, n) ==> Claimed(row, claimed, n + 1)
  {
    hide Or, Bit, HasField, FieldAt;
    if HasField(row, n) {
      forall k: nat
        ensures Bit(Or(claimed, FieldAt(row, n)), k) <==>
                exists j: nat :: j < n + 1 && HasField(row, j) && Bit(FieldAt(row, j), k)
      {
        OrBit(claimed, FieldAt(row, n), k);
      }
    }
  }

  lemma NothingClaimed(row: Row)
    ensures Claimed(row, 0, 0)
  {
    forall k: nat ensures !Bit(0, k) { BitOfZero(k); }
  }

  /** The operand fields of one row: outside the fixed mask, inside the format, and apart. */
  method ValidateOperands(rows: seq<Row>, r: nat) returns (problems: seq<Problem>)
    requires r < |rows|
    ensures forall p :: p in problems <==> OperandBefore(p, r, |rows[r].operands|) && IsProblem(rows, p)
  {
    hide And, Or, Bit, Minus, Field, FieldOf;
    var row := rows[r];
    problems := [];
    var claimed := 0;
    NothingClaimed(row);
    for i := 0 to |row.operands|
      invariant Claimed(row, claimed, i)
      invariant forall p :: p in problems <==> OperandBefore(p, r, i) && IsProblem(rows, p)
    {
      ghost var before := problems;
      ClaimMore(row, claimed, i);
      if row.operands[i].bits.Some? {
        var (high, low) := row.operands[i].bits.value;
        if high < low {
          problems := problems + [Reversed(r, i)];
        } else if high >= Width(row) {
          problems := problems + [OutsideFormat(r, i)];
        } else {
          var field := FieldOf(high, low);
          if And(field, row.mask) == field {
            problems := problems + [InsideMask(r, i)];
          }
          ClaimedMeets(row, claimed, i, field);
          if And(field, claimed) != 0 {
            problems := problems + [Overlaps(r, i)];
          }
          claimed := Or(claimed, field);
        }
      }
      OperandStep(rows, r, i, before, problems);
    }
  }

  /** What one more operand adds to the list. */
  lemma OperandStep(rows: seq<Row>, r: nat, i: nat, before: seq<Problem>, after: seq<Problem>)
    requires r < |rows|
    requires forall p :: p in before <==> OperandBefore(p, r, i) && IsProblem(rows, p)
    requires forall p :: p in after <==>
                         p in before || (p in [Reversed(r, i), OutsideFormat(r, i), InsideMask(r, i), Overlaps(r, i)]
                           && IsProblem(rows, p))
    ensures forall p :: p in after <==> OperandBefore(p, r, i + 1) && IsProblem(rows, p)
  {
    hide IsProblem;
    forall p ensures p in after <==> OperandBefore(p, r, i + 1) && IsProblem(rows, p) {
      assert OperandBefore(p, r, i + 1) <==>
             OperandBefore(p, r, i) || p in [Reversed(r, i), OutsideFormat(r, i), InsideMask(r, i), Overlaps(r, i)];
    }
  }

  function Encoding(row: Row): (nat, nat, nat) { (row.opcode, row.mask, row.format) }

  /** A map from the names, or encodings, of the rows before `n`. */
  ghost predicate Names(rows: seq<Row>, seen: map<string, nat>, n: nat)
    requires n <= |rows|
  {
    forall name: string :: name in seen <==> exists j: nat :: j < n && rows[j].name == name
  }

  ghost predicate Encodings(rows: seq<Row>, seen: map<(nat, nat, nat), nat>, n: nat)
    requires n <= |rows|
  {
    forall e: (nat, nat, nat) :: e in seen <==> exists j: nat :: j < n && Encoding(rows[j]) == e
  }

  /** The problems of row `i` that are not its operands'. */
  function RowProblems(i: nat): seq<Problem> {
    [StrayBits(i), DuplicateName(i), SameEncoding(i), MaskTooWide(i)]
  }

  lemma SeenBefore(rows: seq<Row>, seen: map<string, nat>, encodings: map<(nat, nat, nat), nat>, i: nat)
    requires i < |rows| && Names(rows, seen, i) && Encodings(rows, encodings, i)
    ensures rows[i].name in seen <==> IsProblem(rows, DuplicateName(i))
    ensures Encoding(rows[i]) in encodings <==> IsProblem(rows, SameEncoding(i))
  {
    if Encoding(rows[i]) in encodings {
      var j: nat :| j < i && Encoding(rows[j]) == Encoding(rows[i]);
      assert Encodes(rows[j], rows[i]);
    }
    if j: nat :| j < i && Encodes(rows[j], rows[i]) {
      assert Encoding(rows[j]) == Encoding(rows[i]);
    }
  }

  lemma SeeMore(rows: seq<Row>, seen: map<string, nat>, encodings: map<(nat, nat, nat), nat>, i: nat)
    requires i < |rows| && Names(rows, seen, i) && Encodings(rows, encodings, i)
    ensures Names(rows, seen[rows[i].name := i], i + 1)
    ensures Encodings(rows, encodings[Encoding(rows[i]) := i], i + 1)
  {}

  /** Every problem, each exactly when it is one; the build stops unless the list is empty. */
  method Validate(rows: seq<Row>) returns (problems: seq<Problem>)
    ensures forall p :: p in problems <==> IsProblem(rows, p)
  {
    hide And, Minus, Full, HasField, HasBits, Encodes, Names, Encodings;
    problems := [];
    var seen: map<string, nat> := map[];
    var encodings: map<(nat, nat, nat), nat> := map[];
    NothingSeen(rows);
    for i := 0 to |rows|
      invariant Names(rows, seen, i) && Encodings(rows, encodings, i)
      invariant forall p :: p in problems <==> Before(p, i) && IsProblem(rows, p)
    {
      var row := rows[i];
      SeenBefore(rows, seen, encodings, i);
      SeeMore(rows, seen, encodings, i);
      var found: seq<Problem> := [];
      if And(Minus(row.opcode, row.mask), Full(row)) != 0 {
        found := found + [StrayBits(i)];
      }
      if row.name in seen {
        found := found + [DuplicateName(i)];
      }
      seen := seen[row.name := i];
      if Encoding(row) in encodings {
        found := found + [SameEncoding(i)];
      }
      encodings := encodings[Encoding(row) := i];
      if Minus(row.mask, Full(row)) != 0 {
        found := found + [MaskTooWide(i)];
      }
      var operands := ValidateOperands(rows, i);
      RowStep(rows, i, problems, found, operands);
      problems := problems + (found + operands);
    }
  }

  lemma NothingSeen(rows: seq<Row>)
    ensures Names(rows, map[], 0) && Encodings(rows, map[], 0)
  {}

  lemma RowStep(rows: seq<Row>, i: nat, before: seq<Problem>, found: seq<Problem>, operands: seq<Problem>)
    requires i < |rows|
    requires forall p :: p in before <==> Before(p, i) && IsProblem(rows, p)
    requires forall p :: p in found <==> p in RowProblems(i) && IsProblem(rows, p)
    requires forall p :: p in operands <==> OperandBefore(p, i, |rows[i].operands|) && IsProblem(rows, p)
    ensures forall p :: p in before + (found + operands) <==> Before(p, i + 1) && IsProblem(rows, p)
  {
    hide IsProblem;
    forall p ensures p in before + (found + operands) <==> Before(p, i + 1) && IsProblem(rows, p) {
      OperandInRange(rows, p);
    }
  }

  /** An operand problem names an operand of its row. */
  lemma OperandInRange(rows: seq<Row>, p: Problem)
    ensures IsProblem(rows, p) && OfOperand(p) ==> p.op < |rows[p.row].operands|
    ensures OfOperand(p) || p in RowProblems(p.row)
  {}

  // ---- What a clean table guarantees ----

  ghost predicate Clean(rows: seq<Row>) {
    forall p: Problem :: !IsProblem(rows, p)
  }

  /** The fields of a clean row are pairwise apart; the accumulated claim says so. */
  lemma FieldsApart(rows: seq<Row>, r: nat, i: nat, j: nat)
    requires Clean(rows) && r < |rows| && i != j && HasField(rows[r], i) && HasField(rows[r], j)
    ensures Apart(FieldAt(rows[r], i), FieldAt(rows[r], j))
  {
    hide And, Bit, HasField, FieldAt;
    AndIsZero(FieldAt(rows[r], i), FieldAt(rows[r], j));
    AndIsZero(FieldAt(rows[r], j), FieldAt(rows[r], i));
    assert !IsProblem(rows, Overlaps(r, i)) && !IsProblem(rows, Overlaps(r, j));
    if i < j { assert !Collide(rows[r], j, i); } else { assert !Collide(rows[r], i, j); }
  }

  /** The opcode of a clean row lies inside its mask, as far as its format reaches. */
  lemma OpcodeInsideMask(rows: seq<Row>, r: nat, k: nat)
    requires Clean(rows) && r < |rows| && k < Width(rows[r]) && Bit(rows[r].opcode, k)
    ensures Bit(rows[r].mask, k)
  {
    hide And, Bit, Minus, Pow2;
    var row := rows[r];
    assert !IsProblem(rows, StrayBits(r));
    AndIsZero(Minus(row.opcode, row.mask), Full(row));
    MinusBit(row.opcode, row.mask, k);
    OnesBit(Width(row), k);
  }

  /** Every declared bit pair of a clean row is a field of its format. */
  lemma BitsAreFields(rows: seq<Row>, r: nat, i: nat)
    requires Clean(rows) && r < |rows| && HasBits(rows[r], i)
    ensures HasField(rows[r], i)
  {
    assert !IsProblem(rows, Reversed(r, i)) && !IsProblem(rows, OutsideFormat(r, i));
  }

  lemma MaskInFormat(rows: seq<Row>, r: nat)
    requires Clean(rows) && r < |rows|
    ensures rows[r].mask < Pow2(Width(rows[r]))
  {
    hide And, Bit, Minus, Pow2;
    var row := rows[r];
    assert !IsProblem(rows, MaskTooWide(r));
    MinusIsZero(row.mask, Full(row));
    forall k: nat | k >= Width(row) ensures !Bit(row.mask, k) { OnesBit(Width(row), k); }
    BelowBits(row.mask, Width(row));
  }
}
