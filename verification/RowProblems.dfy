/** What is wrong with a row, in bits and places instead of masks. */
module RowProblems {
  import opened Wrappers
  import opened Bits
  import opened Rows

  function Bound(row: Row): nat { if row.format == 32 then 32 else 16 }

  /** Operand `i` declares its bits from `low` to `high`, the right way round and inside the format. */
  predicate Spans(row: Row, i: nat, high: nat, low: nat) {
    i < |row.operands| && row.operands[i].bits == Some((high, low)) && low <= high < Bound(row)
  }

  /** The two operands share a place. */
  predicate Meet(row: Row, i: nat, j: nat) {
    && i < |row.operands| && j < |row.operands| && row.operands[i].bits.Some? && row.operands[j].bits.Some?
    && var (a, b) := row.operands[i].bits.value;
       var (c, d) := row.operands[j].bits.value;
       Spans(row, i, a, b) && Spans(row, j, c, d) && b <= c && d <= a
  }

  ghost predicate IsWrong(rows: seq<Row>, p: Problem) {
    && p.row < |rows|
    && var row := rows[p.row];
       match p
       case StrayBits(_) => exists k: nat :: k < Bound(row) && HasBit(row.opcode, k) && !HasBit(row.mask, k)
       case DuplicateName(_) => exists j: nat :: j < p.row && rows[j].name == row.name
       case SameEncoding(_) =>
         exists j: nat ::
           j < p.row && rows[j].opcode == row.opcode && rows[j].mask == row.mask && rows[j].format == row.format
       case MaskTooWide(_) => exists k: nat :: k >= Bound(row) && HasBit(row.mask, k)
       case Reversed(_, i) =>
         i < |row.operands| && row.operands[i].bits.Some? && row.operands[i].bits.value.0 < row.operands[i].bits.value.1
       case OutsideFormat(_, i) =>
         && i < |row.operands| && row.operands[i].bits.Some?
         && row.operands[i].bits.value.1 <= row.operands[i].bits.value.0 && row.operands[i].bits.value.0 >= Bound(row)
       case InsideMask(_, i) =>
         && i < |row.operands| && row.operands[i].bits.Some?
         && var (high, low) := row.operands[i].bits.value;
            Spans(row, i, high, low) && forall k: nat :: low <= k <= high ==> HasBit(row.mask, k)
       case Overlaps(_, i) => exists j: nat :: j < i && Meet(row, i, j)
  }

  lemma StrayAt(row: Row, k: nat)
    ensures Bit(Minus(row.opcode, row.mask), k) == (HasBit(row.opcode, k) && !HasBit(row.mask, k))
    ensures Bit(Full(row), k) == (k < Bound(row)) && Bit(row.mask, k) == HasBit(row.mask, k)
  {
    hide Bit, Minus, Pow2, HasBit;
    MinusBit(row.opcode, row.mask, k);
    OnesBit(Width(row), k);
    BitIs(row.opcode, k);
    BitIs(row.mask, k);
  }

  lemma StrayIs(row: Row)
    ensures And(Minus(row.opcode, row.mask), Full(row)) != 0 <==>
            exists k: nat :: k < Bound(row) && HasBit(row.opcode, k) && !HasBit(row.mask, k)
  {
    hide And, Bit, Minus, Full, Bound, HasBit;
    AndIsZero(Minus(row.opcode, row.mask), Full(row));
    if k: nat :| Bit(Minus(row.opcode, row.mask), k) && Bit(Full(row), k) {
      StrayAt(row, k);
    }
    if k: nat :| k < Bound(row) && HasBit(row.opcode, k) && !HasBit(row.mask, k) {
      StrayAt(row, k);
      assert !Apart(Minus(row.opcode, row.mask), Full(row));
    }
  }

  lemma TooWideIs(row: Row)
    ensures Minus(row.mask, Full(row)) != 0 <==> exists k: nat :: k >= Bound(row) && HasBit(row.mask, k)
  {
    hide And, Bit, Minus, Full, Bound, HasBit;
    MinusIsZero(row.mask, Full(row));
    if k: nat :| Bit(row.mask, k) && !Bit(Full(row), k) {
      StrayAt(row, k);
    }
    if k: nat :| k >= Bound(row) && HasBit(row.mask, k) {
      StrayAt(row, k);
      assert !Inside(row.mask, Full(row));
    }
  }

  lemma FieldIs(row: Row, i: nat, k: nat)
    requires HasField(row, i)
    ensures var (high, low) := row.operands[i].bits.value;
      && Spans(row, i, high, low) && Bit(FieldAt(row, i), k) == (low <= k <= high)
      && Bit(row.mask, k) == HasBit(row.mask, k)
  {
    hide Bit, Field, HasBit;
    var (high, low) := row.operands[i].bits.value;
    FieldBit(low, high - low + 1, k);
    BitIs(row.mask, k);
  }

  lemma InsideIs(row: Row, i: nat)
    requires HasField(row, i)
    ensures var (high, low) := row.operands[i].bits.value;
      And(FieldAt(row, i), row.mask) == FieldAt(row, i) <==> forall k: nat :: low <= k <= high ==> HasBit(row.mask, k)
  {
    hide And, Bit, FieldAt, HasBit;
    var f := FieldAt(row, i);
    var (high, low) := row.operands[i].bits.value;
    if And(f, row.mask) == f {
      forall k: nat | low <= k <= high ensures HasBit(row.mask, k) {
        FieldIs(row, i, k);
        AndBit(f, row.mask, k);
      }
    }
    if forall k: nat :: low <= k <= high ==> HasBit(row.mask, k) {
      forall k: nat ensures Bit(And(f, row.mask), k) == Bit(f, k) {
        FieldIs(row, i, k);
        AndBit(f, row.mask, k);
      }
      SameBits(And(f, row.mask), f);
    }
  }

  lemma CollideIs(row: Row, i: nat, j: nat)
    requires HasField(row, i) && HasField(row, j)
    ensures Collide(row, i, j) <==> Meet(row, i, j)
  {
    hide And, Bit, FieldAt;
    AndIsZero(FieldAt(row, i), FieldAt(row, j));
    var (a, b) := row.operands[i].bits.value;
    var (c, d) := row.operands[j].bits.value;
    forall k: nat
      ensures Bit(FieldAt(row, i), k) == (b <= k <= a) && Bit(FieldAt(row, j), k) == (d <= k <= c)
    {
      FieldIs(row, i, k);
      FieldIs(row, j, k);
    }
    if b <= c && d <= a {
      var k := if b > d then b else d;
      assert Bit(FieldAt(row, i), k) && Bit(FieldAt(row, j), k);
    }
  }

  /** The validation's tests on masks say what is wrong in plain terms. */
  lemma {:induction false} ProblemsAre(rows: seq<Row>, p: Problem)
    ensures IsProblem(rows, p) <==> IsWrong(rows, p)
  {
    hide And, Minus, Full, FieldAt, Collide, Meet, HasBit;
    if p.row < |rows| {
      var row := rows[p.row];
      match p
      case StrayBits(_) => StrayIs(row);
      case MaskTooWide(_) => TooWideIs(row);
      case InsideMask(_, i) => if HasField(row, i) { InsideIs(row, i); }
      case Overlaps(_, i) => OverlapIs(row, i);
      case _ =>
    }
  }

  lemma OverlapIs(row: Row, i: nat)
    ensures (HasField(row, i) && exists j: nat :: j < i && HasField(row, j) && Collide(row, i, j)) <==>
            (exists j: nat :: j < i && Meet(row, i, j))
  {
    hide And, Bit, FieldAt, Collide;
    forall j: nat | j < i ensures (HasField(row, i) && HasField(row, j) && Collide(row, i, j)) <==> Meet(row, i, j) {
      if HasField(row, i) && HasField(row, j) { CollideIs(row, i, j); }
    }
  }
}
