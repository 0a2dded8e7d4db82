/** The generated tables: rows sorted by how specific their mask is, and the 256-bucket index. */
module Table {
  import opened Wrappers
  import opened Bits
  import opened Rows

  // ---- Generated entries ----

  /** An entry holds its opcode and mask cut to 32 bits. */
  datatype Entry = Entry(row: Row, opcode: nat, mask: nat)

  function EntryOf(row: Row): Entry { Entry(row, LowBits(row.opcode, 32), LowBits(row.mask, 32)) }

  predicate Matches(e: Entry, word: nat, mode: nat) {
    And(word, e.mask) == e.opcode && (e.row.objmode.Some? ==> e.row.objmode.value == mode)
  }

  // ---- Sorting by specificity ----

  function Specificity(row: Row): nat { PopCount(LowBits(row.mask, 32)) }

  /** Row `a` stands before row `b`: more mask bits, or as many and earlier in the source. */
  predicate Ahead(rows: seq<Row>, a: nat, b: nat)
    requires a < |rows| && b < |rows|
  {
    Specificity(rows[a]) > Specificity(rows[b]) || (Specificity(rows[a]) == Specificity(rows[b]) && a < b)
  }

  predicate Indices(rows: seq<Row>, order: seq<nat>) {
    forall k :: 0 <= k < |order| ==> order[k] < |rows|
  }

  /** Put row `i` after every row at least as specific. */
  function Insert(rows: seq<Row>, order: seq<nat>, i: nat): seq<nat>
    requires Indices(rows, order) && i < |rows|
  {
    if order == [] then [i]
    else if Specificity(rows[order[0]]) < Specificity(rows[i]) then [i] + order
    else [order[0]] + Insert(rows, order[1..], i)
  }

  predicate Ordered(rows: seq<Row>, order: seq<nat>)
    requires Indices(rows, order)
  {
    forall x, y :: 0 <= x < y < |order| ==> Ahead(rows, order[x], order[y])
  }

  lemma {:induction false} InsertOrders(rows: seq<Row>, order: seq<nat>, i: nat)
    requires Indices(rows, order) && i < |rows| && Ordered(rows, order)
    requires forall k :: 0 <= k < |order| ==> order[k] < i
    ensures var r := Insert(rows, order, i);
      && |r| == |order| + 1
      && (forall x: nat :: x in r <==> x in order || x == i)
      && Indices(rows, r) && Ordered(rows, r)
  {
    hide Specificity;
    if order != [] && Specificity(rows[order[0]]) >= Specificity(rows[i]) {
      var rest := order[1..];
      InsertOrders(rows, rest, i);
      var r := Insert(rows, rest, i);
      forall y | 0 <= y < |r| ensures Ahead(rows, order[0], r[y]) {
        assert r[y] in r;
        if r[y] != i {
          var k :| 0 <= k < |rest| && rest[k] == r[y];
          assert order[k + 1] == r[y];
        }
      }
    }
  }

  /** The stable sort of the first `n` rows, as the order of their indices. */
  function Order(rows: seq<Row>, n: nat): (order: seq<nat>)
    requires n <= |rows|
    ensures |order| == n && (forall k :: 0 <= k < n ==> order[k] < n) && (forall x: nat :: x < n ==> x in order)
    ensures Indices(rows, order) && Ordered(rows, order)
  {
    if n == 0 then []
    else
      InsertOrders(rows, Order(rows, n - 1), n - 1);
      InsertBound(rows, Order(rows, n - 1), n - 1);
      Insert(rows, Order(rows, n - 1), n - 1)
  }

  lemma InsertBound(rows: seq<Row>, order: seq<nat>, i: nat)
    requires Indices(rows, order) && i < |rows| && Ordered(rows, order)
    requires forall k :: 0 <= k < |order| ==> order[k] < i
    ensures var r := Insert(rows, order, i); forall k :: 0 <= k < |r| ==> r[k] <= i
  {
    hide Insert, Ordered;
    InsertOrders(rows, order, i);
    var r := Insert(rows, order, i);
    forall k | 0 <= k < |r| ensures r[k] <= i { assert r[k] in r; }
  }

  /** The generated table of one format. */
  function TableOf(rows: seq<Row>): (table: seq<Entry>)
    ensures |table| == |rows|
    ensures forall k | 0 <= k < |table| :: table[k] == EntryOf(rows[Order(rows, |rows|)[k]])
  {
    var order := Order(rows, |rows|);
    seq(|rows|, k requires 0 <= k < |rows| => EntryOf(rows[order[k]]))
  }

  // ---- Linear scan ----

  /** The first matching entry from `from` on: what a scan of the whole table finds. */
  function Scan(table: seq<Entry>, word: nat, mode: nat, from: nat): (r: Option<nat>)
    requires from <= |table|
    ensures r.Some? ==> from <= r.value < |table| && Matches(table[r.value], word, mode)
    ensures r.Some? ==> forall k | from <= k < r.value :: !Matches(table[k], word, mode)
    ensures r.None? ==> forall k | from <= k < |table| :: !Matches(table[k], word, mode)
    decreases |table| - from
  {
    hide Matches;
    if from == |table| then None
    else if Matches(table[from], word, mode) then Some(from)
    else Scan(table, word, mode, from + 1)
  }

  /** The most specific row wins: no matching row of the table has more mask bits than the one
      the scan finds, and among those with as many it is the first in the source. */
  lemma MostSpecificWins(rows: seq<Row>, word: nat, mode: nat, i: nat)
    requires i < |rows| && Matches(EntryOf(rows[i]), word, mode)
    ensures var r := Scan(TableOf(rows), word, mode, 0);
      && r.Some?
      && var winner := Order(rows, |rows|)[r.value];
         winner == i || Ahead(rows, winner, i)
  {
    hide Matches, EntryOf, Specificity;
    var order := Order(rows, |rows|);
    assert i in order;
    var k: nat :| k < |order| && order[k] == i;
    var table := TableOf(rows);
    assert table[k] == EntryOf(rows[i]);
  }

  // ---- The two tables of the source rows ----

  /** Where the rows of a format stand in the source. */
  function Positions(rows: seq<Row>, format: nat, n: nat): (p: seq<nat>)
    requires n <= |rows|
    ensures forall k :: 0 <= k < |p| ==> p[k] < n && rows[p[k]].format == format
    ensures forall x: nat :: x < n && rows[x].format == format ==> x in p
    ensures forall i, j :: 0 <= i < j < |p| ==> p[i] < p[j]
  {
    if n == 0 then []
    else Positions(rows, format, n - 1) + (if rows[n - 1].format == format then [n - 1] else [])
  }

  /** The rows of a format, in source order. */
  function OfFormat(rows: seq<Row>, format: nat): (part: seq<Row>)
    ensures |part| == |Positions(rows, format, |rows|)|
    ensures forall k | 0 <= k < |part| :: part[k] == rows[Positions(rows, format, |rows|)[k]]
  {
    var p := Positions(rows, format, |rows|);
    seq(|p|, k requires 0 <= k < |p| => rows[p[k]])
  }

  /** The table generated for a format. */
  function SourceTable(rows: seq<Row>, format: nat): seq<Entry> { TableOf(OfFormat(rows, format)) }

  /** It holds the rows of that format and no other: a row that is neither 16 nor 32 bits wide
      is in neither table. */
  lemma SourceTableHolds(rows: seq<Row>, format: nat, e: Entry)
    ensures e in SourceTable(rows, format) <==>
            exists i: nat :: i < |rows| && rows[i].format == format && e == EntryOf(rows[i])
  {
    hide EntryOf;
    var part, p := OfFormat(rows, format), Positions(rows, format, |rows|);
    var order := Order(part, |part|);
    if e in SourceTable(rows, format) {
      var k: nat :| k < |part| && TableOf(part)[k] == e;
      assert e == EntryOf(rows[p[order[k]]]);
    }
    if i: nat :| i < |rows| && rows[i].format == format && e == EntryOf(rows[i]) {
      var j: nat :| j < |p| && p[j] == i;
      assert j in order;
      var k: nat :| k < |order| && order[k] == j;
      assert TableOf(part)[k] == e;
    }
  }

  /** Of all the source rows of a format that match, the scan of that format's table finds one
      that no other stands ahead of. */
  lemma FormatWins(rows: seq<Row>, format: nat, word: nat, mode: nat, i: nat)
    requires i < |rows| && rows[i].format == format && Matches(EntryOf(rows[i]), word, mode)
    ensures var table := SourceTable(rows, format);
      var r := Scan(table, word, mode, 0);
      && r.Some?
      && exists w: nat ::
           w < |rows| && rows[w].format == format && table[r.value] == EntryOf(rows[w]) && (w == i || Ahead(rows, w, i))
  {
    hide EntryOf, Matches, Specificity;
    var part, p := OfFormat(rows, format), Positions(rows, format, |rows|);
    var j: nat :| j < |p| && p[j] == i;
    MostSpecificWins(part, word, mode, j);
    var r := Scan(TableOf(part), word, mode, 0);
    var winner := Order(part, |part|)[r.value];
    var w := p[winner];
    assert TableOf(part)[r.value] == EntryOf(rows[w]);
    assert w == i || Ahead(rows, w, i);
  }

  /** A row whose mask properly contains another's is the more specific one. */
  lemma ContainmentIsMoreSpecific(a: Row, b: Row)
    requires And(b.mask, a.mask) == b.mask && a.mask != b.mask && a.mask < 0x1_0000_0000
    ensures Specificity(a) > Specificity(b)
  {
    hide *;
    AndIsSelf(b.mask, a.mask);
    PopCountMonotonic(b.mask, a.mask);
    InsideIsBelow(b.mask, a.mask);
    Pow2At32();
    LowBitsBound(a.mask, 32);
    LowBitsBound(b.mask, 32);
    SpecificityOf(a);
    SpecificityOf(b);
  }

  lemma SpecificityOf(row: Row)
    ensures Specificity(row) == PopCount(LowBits(row.mask, 32))
  {}

  lemma {:induction false} InsideIsBelow(a: nat, b: nat)
    requires Inside(a, b)
    ensures a <= b
    decreases a + b
  {
    assert Bit(a, 0) ==> Bit(b, 0);
    if a + b > 0 {
      forall k: nat | Bit(a / 2, k) ensures Bit(b / 2, k) { assert Bit(a, k + 1) && Bit(b, k + 1); }
      InsideIsBelow(a / 2, b / 2);
    }
  }

  /** So a row always beats a matching row whose mask it properly contains. */
  lemma StricterMaskBeats(rows: seq<Row>, word: nat, mode: nat, a: nat, b: nat)
    requires a < |rows| && b < |rows| && Matches(EntryOf(rows[a]), word, mode)
    requires And(rows[b].mask, rows[a].mask) == rows[b].mask && rows[a].mask != rows[b].mask
    requires rows[a].mask < 0x1_0000_0000
    ensures var r := Scan(TableOf(rows), word, mode, 0);
      r.Some? && Order(rows, |rows|)[r.value] != b
  {
    hide Matches, EntryOf, Specificity, And;
    ContainmentIsMoreSpecific(rows[a], rows[b]);
    MostSpecificWins(rows, word, mode, a);
  }

  // ---- The bucket index ----

  function TopByte(word: nat, shift: nat): (b: nat)
    ensures b < 0x100
  {
    LowBitsBound(Shr(word, shift), 8);
    assert Pow2(8) == 0x100;
    LowBits(Shr(word, shift), 8)
  }

  /** An entry can match words with top byte `b`. */
  predicate Belongs(e: Entry, shift: nat, b: nat) {
    And(b, TopByte(e.mask, shift)) == TopByte(e.opcode, shift)
  }

  /** Indices below `n` of the entries that belong in bucket `b`, in table order. */
  function Bucket(table: seq<Entry>, shift: nat, b: nat, n: nat): (r: seq<nat>)
    requires n <= |table|
    ensures forall k :: 0 <= k < |r| ==> r[k] < n && Belongs(table[r[k]], shift, b)
    ensures forall x: nat :: x < n && Belongs(table[x], shift, b) ==> x in r
    ensures forall i, j :: 0 <= i < j < |r| ==> r[i] < r[j]
  {
    hide Belongs;
    if n == 0 then []
    else Bucket(table, shift, b, n - 1) + (if Belongs(table[n - 1], shift, b) then [n - 1] else [])
  }

  /** All buckets below `b`, one after the other. */
  function Flattened(table: seq<Entry>, shift: nat, b: nat): seq<nat> {
    if b == 0 then [] else Flattened(table, shift, b - 1) + Bucket(table, shift, b - 1, |table|)
  }

  /** Start and length of bucket `b` in the flattened index, cut to 16 bits; an empty bucket has neither. */
  function Slot(table: seq<Entry>, shift: nat, b: nat): (nat, nat) {
    var bucket := Bucket(table, shift, b, |table|);
    if bucket == [] then (0, 0) else (|Flattened(table, shift, b)| % 0x1_0000, |bucket| % 0x1_0000)
  }

  function InGroup(groups: map<nat, seq<nat>>, b: nat): seq<nat> {
    if b in groups then groups[b] else []
  }

  ghost predicate GroupsAre(table: seq<Entry>, shift: nat, groups: map<nat, seq<nat>>, n: nat)
    requires n <= |table|
  {
    forall b: nat :: b < 0x100 ==>
      (InGroup(groups, b) == Bucket(table, shift, b, n) && (b in groups ==> groups[b] != []))
  }

  /** A fully constrained top byte belongs in one bucket. */
  lemma OneBucket(e: Entry, shift: nat, b: nat)
    requires TopByte(e.mask, shift) == 0xFF && b < 0x100
    ensures Belongs(e, shift, b) <==> b == TopByte(e.opcode, shift)
  {
    hide And, TopByte, LowBits;
    assert Pow2(8) == 0x100;
    AndOnes(b, 8);
    LowBitsBound(b, 8);
  }

  /** `after` is `before` with entry `idx` added to the groups below `upTo` it belongs in. */
  ghost predicate Added(table: seq<Entry>, shift: nat, idx: nat, before: map<nat, seq<nat>>, after: map<nat, seq<nat>>,
                        upTo: nat)
    requires idx < |table|
  {
    forall b: nat :: b < 0x100 ==>
      (InGroup(after, b) == InGroup(before, b) + (if b < upTo && Belongs(table[idx], shift, b) then [idx] else [])
       && (b in after ==> after[b] != []))
  }

  lemma GroupsGrow(table: seq<Entry>, shift: nat, idx: nat, before: map<nat, seq<nat>>, after: map<nat, seq<nat>>)
    requires idx < |table| && GroupsAre(table, shift, before, idx) && Added(table, shift, idx, before, after, 0x100)
    ensures GroupsAre(table, shift, after, idx + 1)
  {
    hide Belongs, InGroup;
    forall b: nat | b < 0x100 ensures InGroup(after, b) == Bucket(table, shift, b, idx + 1) {
      assert InGroup(before, b) == Bucket(table, shift, b, idx);
    }
  }

  lemma AddedStep(table: seq<Entry>, shift: nat, idx: nat, before: map<nat, seq<nat>>, after: map<nat, seq<nat>>,
                  b: nat)
    requires idx < |table| && b < 0x100 && Added(table, shift, idx, before, after, b)
    ensures var more := if Belongs(table[idx], shift, b) then after[b := InGroup(after, b) + [idx]] else after;
      Added(table, shift, idx, before, more, b + 1)
  {
    hide Belongs;
  }

  lemma AddedNone(table: seq<Entry>, shift: nat, idx: nat, groups: map<nat, seq<nat>>)
    requires idx < |table| && forall b: nat :: b in groups ==> groups[b] != []
    ensures Added(table, shift, idx, groups, groups, 0)
  {
    hide Belongs;
  }

  lemma AddedOne(table: seq<Entry>, shift: nat, idx: nat, groups: map<nat, seq<nat>>, top: nat)
    requires idx < |table| && forall b: nat :: b in groups ==> groups[b] != []
    requires forall b: nat :: b < 0x100 ==> (Belongs(table[idx], shift, b) <==> b == top)
    ensures Added(table, shift, idx, groups, groups[top := InGroup(groups, top) + [idx]], 0x100)
  {
    hide Belongs;
  }

  /** Add an entry to every group it can match in. */
  method AddToGroups(table: seq<Entry>, shift: nat, idx: nat, groups: map<nat, seq<nat>>)
    returns (after: map<nat, seq<nat>>)
    requires idx < |table| && forall b: nat :: b in groups ==> groups[b] != []
    requires forall b: nat :: b in groups ==> b < 0x100
    ensures Added(table, shift, idx, groups, after, 0x100)
    ensures forall b: nat :: b in after ==> b < 0x100
  {
    hide And, TopByte, Added, InGroup;
    var topMask, topOpcode := TopByte(table[idx].mask, shift), TopByte(table[idx].opcode, shift);
    after := groups;
    if topMask == 0xFF {
      forall b: nat | b < 0x100 ensures Belongs(table[idx], shift, b) <==> b == topOpcode {
        OneBucket(table[idx], shift, b);
      }
      AddedOne(table, shift, idx, groups, topOpcode);
      after := after[topOpcode := InGroup(after, topOpcode) + [idx]];
    } else {
      AddedNone(table, shift, idx, groups);
      for byteVal := 0 to 256
        invariant Added(table, shift, idx, groups, after, byteVal)
        invariant forall b: nat :: b in after ==> b < 0x100
      {
        AddedStep(table, shift, idx, groups, after, byteVal);
        if And(byteVal, topMask) == topOpcode {
          after := after[byteVal := InGroup(after, byteVal) + [idx]];
        }
      }
    }
  }

  /** Group the entries by top byte. */
  method GroupByTopByte(table: seq<Entry>, shift: nat) returns (groups: map<nat, seq<nat>>)
    ensures GroupsAre(table, shift, groups, |table|)
  {
    hide Added, Belongs, Bucket;
    groups := map[];
    NoGroups(table, shift);
    for idx := 0 to |table|
      invariant GroupsAre(table, shift, groups, idx)
      invariant forall b: nat :: b in groups ==> b < 0x100
    {
      var after := AddToGroups(table, shift, idx, groups);
      GroupsGrow(table, shift, idx, groups, after);
      groups := after;
    }
  }

  lemma NoGroups(table: seq<Entry>, shift: nat)
    ensures GroupsAre(table, shift, map[], 0)
  {
    hide Belongs;
  }

  /** Build the flat index and the 256 slots. */
  method WriteLookupTable(table: seq<Entry>, shift: nat) returns (flat: seq<nat>, slots: seq<(nat, nat)>)
    ensures flat == Flattened(table, shift, 256)
    ensures |slots| == 256 && forall b :: 0 <= b < 256 ==> slots[b] == Slot(table, shift, b)
  {
    hide Bucket, Belongs;
    var groups := GroupByTopByte(table, shift);
    flat := [];
    var lookup := new (nat, nat)[256](_ => (0, 0));
    for byteVal := 0 to 256
      invariant flat == Flattened(table, shift, byteVal)
      invariant forall b :: 0 <= b < byteVal ==> lookup[b] == Slot(table, shift, b)
      invariant forall b :: byteVal <= b < 256 ==> lookup[b] == (0, 0)
    {
      assert InGroup(groups, byteVal) == Bucket(table, shift, byteVal, |table|);
      if byteVal in groups {
        var start := |flat| % 0x1_0000;
        var count := |groups[byteVal]| % 0x1_0000;
        flat := flat + groups[byteVal];
        lookup[byteVal] := (start, count);
      }
    }
    slots := lookup[..];
  }

  // ---- The index agrees with the scan ----

  lemma {:induction false} FlattenedGrows(table: seq<Entry>, shift: nat, b: nat, c: nat)
    requires b <= c
    ensures |Flattened(table, shift, b)| <= |Flattened(table, shift, c)|
    ensures Flattened(table, shift, c)[..|Flattened(table, shift, b)|] == Flattened(table, shift, b)
    decreases c
  {
    hide Bucket;
    if b < c {
      FlattenedGrows(table, shift, b, c - 1);
    }
  }

  /** Bucket `b` is a slice of the flat index. */
  lemma BucketIsSlice(table: seq<Entry>, shift: nat, b: nat)
    requires b < 256
    ensures var flat, bucket := Flattened(table, shift, 256), Bucket(table, shift, b, |table|);
      var start := |Flattened(table, shift, b)|;
      start + |bucket| <= |flat| && flat[start..start + |bucket|] == bucket
  {
    hide Bucket;
    var start, bucket := |Flattened(table, shift, b)|, Bucket(table, shift, b, |table|);
    var end := start + |bucket|;
    var upTo := Flattened(table, shift, b + 1);
    assert |upTo| == end && upTo[start..] == bucket;
    FlattenedGrows(table, shift, b + 1, 256);
    assert Flattened(table, shift, 256)[start..end] == Flattened(table, shift, 256)[..end][start..];
  }

  /** An entry that matches a word belongs in the bucket of the word's top byte. */
  lemma MatchBelongs(e: Entry, word: nat, mode: nat, shift: nat)
    requires Matches(e, word, mode)
    ensures Belongs(e, shift, TopByte(word, shift))
  {
    hide And, Bit, TopByte, LowBits, Shr;
    var left, right := And(TopByte(word, shift), TopByte(e.mask, shift)), TopByte(e.opcode, shift);
    forall k: nat ensures Bit(left, k) == Bit(right, k) {
      AndBit(TopByte(word, shift), TopByte(e.mask, shift), k);
      TopByteBit(word, shift, k);
      TopByteBit(e.mask, shift, k);
      TopByteBit(e.opcode, shift, k);
      AndBit(word, e.mask, shift + k);
    }
    SameBits(left, right);
  }

  lemma TopByteBit(word: nat, shift: nat, k: nat)
    ensures Bit(TopByte(word, shift), k) == (k < 8 && Bit(word, shift + k))
  {
    hide Bit, LowBits, Shr;
    LowBit(Shr(word, shift), 8, k);
    ShrBit(word, shift, k);
  }

  /** When the flat index fits 16 bits, no start or length is cut. */
  lemma SlotIsSlice(table: seq<Entry>, shift: nat, b: nat)
    requires b < 256 && |Flattened(table, shift, 256)| < 0x1_0000
    ensures var flat, bucket := Flattened(table, shift, 256), Bucket(table, shift, b, |table|);
      var (start, count) := Slot(table, shift, b);
      && count == |bucket|
      && start + count <= |flat| && flat[start..start + count] == bucket
  {
    hide Bucket, Flattened;
    BucketIsSlice(table, shift, b);
  }

  lemma BucketBound(table: seq<Entry>, shift: nat, b: nat)
    ensures var r := Bucket(table, shift, b, |table|);
      && (forall k :: 0 <= k < |r| ==> r[k] < |table|)
      && (forall x: nat :: x < |table| && Belongs(table[x], shift, b) ==> x in r)
      && (forall i, j :: 0 <= i < j < |r| ==> r[i] < r[j])
  {
    hide Belongs;
  }

  /** One bucket is scanned. */
  method TryMatch(table: seq<Entry>, word: nat, mode: nat, flat: seq<nat>, slots: seq<(nat, nat)>, shift: nat)
    returns (r: Option<nat>)
    requires flat == Flattened(table, shift, 256) && |flat| < 0x1_0000
    requires |slots| == 256 && forall b :: 0 <= b < 256 ==> slots[b] == Slot(table, shift, b)
    ensures r == Scan(table, word, mode, 0)
  {
    hide *;
    var top := TopByte(word, shift);
    var (start, count) := slots[top];
    ghost var bucket := Bucket(table, shift, top, |table|);
    SlotIsSlice(table, shift, top);
    BucketBound(table, shift, top);
    forall k: nat | k < |table| && Matches(table[k], word, mode) ensures k in bucket {
      MatchBelongs(table[k], word, mode, shift);
    }
    if count == 0 {
      NoneInBucket(table, bucket, word, mode);
      return None;
    }
    for i := start to start + count
      invariant forall j :: 0 <= j < i - start ==> !Matches(table[bucket[j]], word, mode)
    {
      assert flat[i] == bucket[i - start];
      var idx := flat[i];
      if Matches(table[idx], word, mode) {
        FirstInBucket(table, bucket, word, mode, i - start);
        return Some(idx);
      }
    }
    NoneInBucket(table, bucket, word, mode);
    return None;
  }

  lemma FirstInBucket(table: seq<Entry>, bucket: seq<nat>, word: nat, mode: nat, i: nat)
    requires i < |bucket| && forall k :: 0 <= k < |bucket| ==> bucket[k] < |table|
    requires forall a, b :: 0 <= a < b < |bucket| ==> bucket[a] < bucket[b]
    requires forall k: nat :: k < |table| && Matches(table[k], word, mode) ==> k in bucket
    requires forall j :: 0 <= j < i ==> !Matches(table[bucket[j]], word, mode)
    requires Matches(table[bucket[i]], word, mode)
    ensures Scan(table, word, mode, 0) == Some(bucket[i])
  {
    hide Matches;
    var r := Scan(table, word, mode, 0);
    assert Matches(table[bucket[i]], word, mode);
    assert r.Some? && r.value in bucket;
    var j: nat :| j < |bucket| && bucket[j] == r.value;
  }

  lemma NoneInBucket(table: seq<Entry>, bucket: seq<nat>, word: nat, mode: nat)
    requires forall k :: 0 <= k < |bucket| ==> bucket[k] < |table|
    requires forall k: nat :: k < |table| && Matches(table[k], word, mode) ==> k in bucket
    requires forall j :: 0 <= j < |bucket| ==> !Matches(table[bucket[j]], word, mode)
    ensures Scan(table, word, mode, 0) == None
  {
    hide Matches;
  }
}
