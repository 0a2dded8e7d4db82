/** Which row a word selects, bit by bit and without the table. */
module Selection {
  import opened Wrappers
  import opened Bits
  import opened Rows
  import opened Table
  import opened Decoder

  // ---- Matching, bit by bit ----

  /** The row's mode is absent or the decoder's, and the word has the opcode's bits wherever the
      mask has one; an opcode bit outside the mask is never had. */
  ghost predicate Fits(row: Row, word: nat, mode: nat) {
    && (row.objmode == None || row.objmode == Some(mode))
    && forall k: nat :: k < 32 ==>
         if HasBit(row.mask, k) then HasBit(word, k) == HasBit(row.opcode, k) else !HasBit(row.opcode, k)
  }

  lemma BitAgrees(row: Row, word: nat, k: nat)
    ensures Bit(And(word, LowBits(row.mask, 32)), k) == (k < 32 && HasBit(row.mask, k) && HasBit(word, k))
    ensures Bit(LowBits(row.opcode, 32), k) == (k < 32 && HasBit(row.opcode, k))
  {
    hide *;
    AndBit(word, LowBits(row.mask, 32), k);
    LowBit(row.mask, 32, k);
    LowBit(row.opcode, 32, k);
    BitIs(row.mask, k);
    BitIs(row.opcode, k);
    BitIs(word, k);
  }

  lemma {:induction false} MatchesExactly(row: Row, word: nat, mode: nat)
    ensures Matches(EntryOf(row), word, mode) <==> Fits(row, word, mode)
  {
    hide Bit, And, LowBits, HasBit;
    var both, opcode := And(word, LowBits(row.mask, 32)), LowBits(row.opcode, 32);
    if both == opcode {
      forall k: nat | k < 32
        ensures if HasBit(row.mask, k) then HasBit(word, k) == HasBit(row.opcode, k) else !HasBit(row.opcode, k)
      {
        BitAgrees(row, word, k);
      }
    }
    if Fits(row, word, mode) {
      forall k: nat ensures Bit(both, k) == Bit(opcode, k) { BitAgrees(row, word, k); }
      SameBits(both, opcode);
    }
  }

  // ---- The number of mask bits ----

  /** The places below `w` where a number has a bit. */
  function Ones(n: nat, w: nat): set<nat> { set k: nat | k < w && HasBit(n, k) }

  function MaskBits(row: Row): set<nat> { Ones(row.mask, 32) }

  lemma PopDouble(n: nat, b: nat)
    requires b < 2
    ensures PopCount(2 * n + b) == PopCount(n) + b
  {}

  lemma {:induction false} TopBit(n: nat, w: nat)
    requires w > 0
    ensures PopCount(LowBits(n, w)) == PopCount(LowBits(n, w - 1)) + (if Bit(n, w - 1) then 1 else 0)
    decreases w
  {
    hide PopCount;
    PopDouble(LowBits(n / 2, w - 1), n % 2);
    if w == 1 {
      PopDouble(0, 0);
      assert PopCount(0) == 0 by { NoBits(); }
    } else {
      PopDouble(LowBits(n / 2, w - 2), n % 2);
      TopBit(n / 2, w - 1);
    }
  }

  lemma NoBits()
    ensures PopCount(0) == 0
  {}

  lemma OnesNext(n: nat, w: nat)
    requires w > 0
    ensures |Ones(n, w)| == |Ones(n, w - 1)| + (if Bit(n, w - 1) then 1 else 0)
  {
    hide Bit, HasBit;
    BitIs(n, w - 1);
    assert w - 1 !in Ones(n, w - 1);
    assert Ones(n, w) == Ones(n, w - 1) + (if HasBit(n, w - 1) then {w - 1} else {});
  }

  lemma {:induction false} PopCountIs(n: nat, w: nat)
    ensures PopCount(LowBits(n, w)) == |Ones(n, w)|
  {
    hide PopCount, LowBits, Bit, Ones;
    if w == 0 {
      NoBits();
      NoOnes(n);
    } else {
      PopCountIs(n, w - 1);
      TopBit(n, w);
      OnesNext(n, w);
    }
  }

  lemma NoOnes(n: nat)
    ensures Ones(n, 0) == {} && LowBits(n, 0) == 0
  {}

  /** A table is sorted by the number of bits in the masks. */
  lemma SpecificityIs(row: Row)
    ensures Specificity(row) == |MaskBits(row)|
  {
    hide PopCount, LowBits, Ones;
    PopCountIs(row.mask, 32);
  }

  // ---- The selected row ----

  /** The source place of the entry at `at`. */
  function SourceOf(rows: seq<Row>, format: nat, at: nat): nat
    requires at < |OfFormat(rows, format)|
  {
    Positions(rows, format, |rows|)[Order(OfFormat(rows, format), |OfFormat(rows, format)|)[at]]
  }

  /** Row `w` fits, and every other row of its format that fits has fewer mask bits, or as many and
      stands later in the source. */
  ghost predicate IsSelected(rows: seq<Row>, w: nat, word: nat, mode: nat) {
    && w < |rows| && Fits(rows[w], word, mode)
    && forall j: nat :: j < |rows| && rows[j].format == rows[w].format && Fits(rows[j], word, mode) ==>
         |MaskBits(rows[w])| > |MaskBits(rows[j])| || (|MaskBits(rows[w])| == |MaskBits(rows[j])| && w <= j)
  }

  lemma SourceIs(rows: seq<Row>, format: nat, at: nat)
    requires at < |OfFormat(rows, format)|
    ensures var w := SourceOf(rows, format, at);
      w < |rows| && rows[w].format == format && SourceTable(rows, format)[at] == EntryOf(rows[w])
  {
    hide EntryOf, Specificity;
  }

  lemma BeatenBy(rows: seq<Row>, format: nat, word: nat, mode: nat, j: nat)
    requires j < |rows| && rows[j].format == format && Matches(EntryOf(rows[j]), word, mode)
    ensures var r := Scan(SourceTable(rows, format), word, mode, 0);
      && r.Some? && r.value < |OfFormat(rows, format)|
      && var w := SourceOf(rows, format, r.value); w < |rows| && (w == j || Ahead(rows, w, j))
  {
    hide EntryOf, Matches, Specificity;
    var part, p := OfFormat(rows, format), Positions(rows, format, |rows|);
    var i: nat :| i < |p| && p[i] == j;
    MostSpecificWins(part, word, mode, i);
  }

  /** The scan of a format's table finds a row exactly when some row of the format fits, and then
      the selected one. */
  lemma {:induction false} ScanSelects(rows: seq<Row>, format: nat, word: nat, mode: nat)
    ensures var r := Scan(SourceTable(rows, format), word, mode, 0);
      && (r.Some? <==> exists i: nat :: i < |rows| && rows[i].format == format && Fits(rows[i], word, mode))
      && (r.Some? ==> r.value < |OfFormat(rows, format)|
                      && var w := SourceOf(rows, format, r.value);
                         && IsSelected(rows, w, word, mode) && rows[w].format == format
                         && SourceTable(rows, format)[r.value] == EntryOf(rows[w]))
  {
    hide EntryOf, Matches, Fits, Specificity, SourceTable, SourceOf, MaskBits, Scan;
    var r := Scan(SourceTable(rows, format), word, mode, 0);
    forall j: nat | j < |rows| && rows[j].format == format && Fits(rows[j], word, mode)
      ensures r.Some? && r.value < |OfFormat(rows, format)|
      ensures var w := SourceOf(rows, format, r.value); w < |rows| && (w == j || Ahead(rows, w, j))
    {
      MatchesExactly(rows[j], word, mode);
      BeatenBy(rows, format, word, mode, j);
    }
    if r.Some? {
      ScanBound(rows, format, word, mode);
      SourceIs(rows, format, r.value);
      var w := SourceOf(rows, format, r.value);
      MatchesExactly(rows[w], word, mode);
      forall j: nat | j < |rows| && rows[j].format == rows[w].format && Fits(rows[j], word, mode)
        ensures |MaskBits(rows[w])| > |MaskBits(rows[j])| || (|MaskBits(rows[w])| == |MaskBits(rows[j])| && w <= j)
      {
        SpecificityIs(rows[w]);
        SpecificityIs(rows[j]);
      }
    }
  }

  lemma ScanBound(rows: seq<Row>, format: nat, word: nat, mode: nat)
    ensures var r := Scan(SourceTable(rows, format), word, mode, 0);
      r.Some? ==> r.value < |OfFormat(rows, format)| == |SourceTable(rows, format)|
                  && Matches(SourceTable(rows, format)[r.value], word, mode)
  {
    hide Matches, EntryOf;
  }

  /** Row `w` of a format is the one a word selects. */
  ghost predicate Selects(rows: seq<Row>, format: nat, word: nat, mode: nat, w: nat) {
    IsSelected(rows, w, word, mode) && rows[w].format == format
  }

  ghost predicate SomeFits(rows: seq<Row>, format: nat, word: nat, mode: nat) {
    exists i: nat :: i < |rows| && rows[i].format == format && Fits(rows[i], word, mode)
  }

  /** Decoding finds the 16-bit row the first word selects; only when none fits, and four bytes are
      there, the 32-bit row the long word selects; otherwise nothing. */
  lemma {:induction false} DecodeSelects(rows: seq<Row>, data: seq<Byte>, mode: nat)
    ensures var f := FindIn(rows, data, mode);
      && (|data| < 2 ==> f == None)
      && (|data| >= 2 && SomeFits(rows, 16, ShortWord(data), mode) ==>
            f.Some? && f.value.size == 2 && f.value.word == ShortWord(data)
            && exists w: nat :: Selects(rows, 16, ShortWord(data), mode, w) && f.value.entry == EntryOf(rows[w]))
      && (|data| >= 2 && !SomeFits(rows, 16, ShortWord(data), mode) ==>
            (f.Some? <==> |data| >= 4 && SomeFits(rows, 32, LongWord(data), mode)))
      && (|data| >= 4 && !SomeFits(rows, 16, ShortWord(data), mode) && SomeFits(rows, 32, LongWord(data), mode) ==>
            f.Some? && f.value.size == 4 && f.value.word == LongWord(data)
            && exists w: nat :: Selects(rows, 32, LongWord(data), mode, w) && f.value.entry == EntryOf(rows[w]))
  {
    hide Scan, EntryOf, IsSelected, Fits, SourceTable, SourceOf, ShortWord, LongWord;
    if |data| >= 2 {
      ScanSelects(rows, 16, ShortWord(data), mode);
      TableSize(rows, 16);
      if |data| >= 4 {
        ScanSelects(rows, 32, LongWord(data), mode);
        TableSize(rows, 32);
      }
    }
  }

  lemma TableSize(rows: seq<Row>, format: nat)
    ensures |SourceTable(rows, format)| == |OfFormat(rows, format)|
  {}
}
