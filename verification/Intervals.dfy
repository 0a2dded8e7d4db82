/** The interval index: merged ranges, binary-searched. */
module Intervals {

  type Range = (int, int)

  predicate Covers(r: Range, addr: int) { r.0 <= addr < r.1 }

  /** Some range covers the address; empty and inverted ranges cover nothing. */
  ghost predicate SomeCovers(ranges: seq<Range>, addr: int) {
    exists k :: 0 <= k < |ranges| && Covers(ranges[k], addr)
  }

  // ---- Sorting, by start and then by end ----

  predicate AtMost(a: Range, b: Range) { a.0 < b.0 || (a.0 == b.0 && a.1 <= b.1) }

  function Insert(r: Range, sorted: seq<Range>): seq<Range> {
    if sorted == [] then [r]
    else if AtMost(r, sorted[0]) then [r] + sorted
    else [sorted[0]] + Insert(r, sorted[1..])
  }

  function Sorted(ranges: seq<Range>): seq<Range> {
    if ranges == [] then [] else Insert(ranges[0], Sorted(ranges[1..]))
  }

  predicate StartsRise(s: seq<Range>) {
    forall i, j :: 0 <= i < j < |s| ==> s[i].0 <= s[j].0
  }

  lemma {:induction false} InsertMembers(r: Range, sorted: seq<Range>)
    ensures multiset(Insert(r, sorted)) == multiset(sorted) + multiset{r}
  {
    if sorted != [] && !AtMost(r, sorted[0]) {
      InsertMembers(r, sorted[1..]);
      assert sorted == [sorted[0]] + sorted[1..];
    }
  }

  lemma {:induction false} InsertRises(r: Range, sorted: seq<Range>)
    requires StartsRise(sorted)
    ensures StartsRise(Insert(r, sorted))
  {
    if sorted != [] && !AtMost(r, sorted[0]) {
      var rest := sorted[1..];
      var s := Insert(r, rest);
      InsertRises(r, rest);
      InsertMembers(r, rest);
      forall j | 0 <= j < |s| ensures sorted[0].0 <= s[j].0 {
        assert s[j] in multiset(s);
        if s[j] != r { assert s[j] in rest; }
      }
    }
  }

  lemma {:induction false} SortedKeeps(ranges: seq<Range>)
    ensures StartsRise(Sorted(ranges)) && multiset(Sorted(ranges)) == multiset(ranges)
  {
    if ranges != [] {
      SortedKeeps(ranges[1..]);
      InsertRises(ranges[0], Sorted(ranges[1..]));
      InsertMembers(ranges[0], Sorted(ranges[1..]));
      assert ranges == [ranges[0]] + ranges[1..];
    }
  }

  lemma SortedCovers(ranges: seq<Range>, addr: int)
    ensures SomeCovers(Sorted(ranges), addr) <==> SomeCovers(ranges, addr)
  {
    SortedKeeps(ranges);
    if k :| 0 <= k < |ranges| && Covers(ranges[k], addr) {
      assert ranges[k] in multiset(ranges);
      assert ranges[k] in Sorted(ranges);
    }
    if k :| 0 <= k < |Sorted(ranges)| && Covers(Sorted(ranges)[k], addr) {
      assert Sorted(ranges)[k] in multiset(Sorted(ranges));
      assert Sorted(ranges)[k] in ranges;
    }
  }

  // ---- Merging ----

  /** Merged ranges rise, and each ends before the next starts. */
  predicate Separated(merged: seq<Range>) {
    StartsRise(merged) && forall i, j :: 0 <= i < j < |merged| ==> merged[i].1 < merged[j].0
  }

  ghost predicate SameCover(a: seq<Range>, b: seq<Range>) {
    forall addr: int :: SomeCovers(a, addr) <==> SomeCovers(b, addr)
  }

  /** A range that starts inside the last one extends it. */
  lemma Extending(merged: seq<Range>, done: seq<Range>, r: Range)
    requires merged != [] && SameCover(merged, done)
    requires var last := merged[|merged| - 1]; last.0 <= r.0 <= last.1
    ensures var last := merged[|merged| - 1];
      SameCover(merged[|merged| - 1 := (last.0, if r.1 > last.1 then r.1 else last.1)], done + [r])
  {
    var n := |merged| - 1;
    var last := merged[n];
    var joined := (last.0, if r.1 > last.1 then r.1 else last.1);
    forall addr: int ensures SomeCovers(merged[n := joined], addr) <==> SomeCovers(done + [r], addr) {
      Appended(done, r, addr);
      Updated(merged, n, joined, addr);
      assert SomeCovers(merged, addr) <==> SomeCovers(done, addr);
      Updated(merged, n, last, addr);
      assert merged[n := last] == merged;
      assert Covers(joined, addr) <==> Covers(last, addr) || Covers(r, addr);
    }
  }

  /** Coverage of a list without one of its places. */
  ghost predicate ElsewhereCovers(s: seq<Range>, n: nat, addr: int) {
    exists k :: 0 <= k < |s| && k != n && Covers(s[k], addr)
  }

  lemma Updated(s: seq<Range>, n: nat, r: Range, addr: int)
    requires n < |s|
    ensures SomeCovers(s[n := r], addr) <==> ElsewhereCovers(s, n, addr) || Covers(r, addr)
  {
    hide Covers;
    var t := s[n := r];
    if k :| 0 <= k < |t| && Covers(t[k], addr) { if k != n { assert Covers(s[k], addr); } }
    if k :| 0 <= k < |s| && k != n && Covers(s[k], addr) { assert Covers(t[k], addr); }
    if Covers(r, addr) { assert Covers(t[n], addr); }
  }

  lemma Appended(s: seq<Range>, r: Range, addr: int)
    ensures SomeCovers(s + [r], addr) <==> SomeCovers(s, addr) || Covers(r, addr)
  {
    hide Covers;
    var t := s + [r];
    if k :| 0 <= k < |t| && Covers(t[k], addr) { if k < |s| { assert Covers(s[k], addr); } }
    if k :| 0 <= k < |s| && Covers(s[k], addr) { assert Covers(t[k], addr); }
    if Covers(r, addr) { assert Covers(t[|s|], addr); }
  }

  lemma Appending(merged: seq<Range>, done: seq<Range>, r: Range)
    requires SameCover(merged, done)
    ensures SameCover(merged + [r], done + [r])
  {
    forall addr: int ensures SomeCovers(merged + [r], addr) <==> SomeCovers(done + [r], addr) {
      Appended(merged, r, addr);
      Appended(done, r, addr);
      assert SomeCovers(merged, addr) <==> SomeCovers(done, addr);
    }
  }

  /** The merging loop, over the sorted ranges. */
  method Merge(ranges: seq<Range>) returns (merged: seq<Range>)
    ensures Separated(merged)
    ensures SameCover(merged, ranges)
  {
    hide SomeCovers, Insert, Covers;
    var sorted := Sorted(ranges);
    SortedKeeps(ranges);
    merged := [];
    for i := 0 to |sorted|
      invariant Separated(merged) && SameCover(merged, sorted[..i])
      invariant merged != [] ==> i > 0 && merged[|merged| - 1].0 <= sorted[i - 1].0
    {
      var (start, end) := sorted[i];
      assert sorted[..i + 1] == sorted[..i] + [(start, end)];
      var n := |merged| - 1;
      if merged != [] && start <= merged[n].1 {
        Extending(merged, sorted[..i], (start, end));
        merged := merged[n := (merged[n].0, if end > merged[n].1 then end else merged[n].1)];
      } else {
        Appending(merged, sorted[..i], (start, end));
        Separate(merged, (start, end));
        merged := merged + [(start, end)];
      }
    }
    assert sorted[..|sorted|] == sorted;
    forall addr: int ensures SomeCovers(merged, addr) <==> SomeCovers(ranges, addr) {
      SortedCovers(ranges, addr);
    }
  }

  lemma Separate(merged: seq<Range>, r: Range)
    requires Separated(merged)
    requires merged != [] ==> merged[|merged| - 1].1 < r.0 && merged[|merged| - 1].0 <= r.0
    ensures Separated(merged + [r])
  {
    var t := merged + [r];
    forall i, j | 0 <= i < j < |t| ensures t[i].0 <= t[j].0 && t[i].1 < t[j].0 {
      if j == |merged| && i < |merged| - 1 { assert merged[i].1 < merged[|merged| - 1].0; }
    }
  }

  // ---- Looking up ----

  function Starts(merged: seq<Range>): (s: seq<int>)
    ensures |s| == |merged| && forall k :: 0 <= k < |s| ==> s[k] == merged[k].0
  {
    seq(|merged|, k requires 0 <= k < |merged| => merged[k].0)
  }

  predicate Rising(s: seq<int>) { forall i, j :: 0 <= i < j < |s| ==> s[i] <= s[j] }

  /** The insertion point after every element that is not greater. */
  function BisectRight(s: seq<int>, x: int): (i: nat)
    requires Rising(s)
    ensures i <= |s|
    ensures forall k :: 0 <= k < i ==> s[k] <= x
    ensures forall k :: i <= k < |s| ==> x < s[k]
  {
    if s == [] || x < s[0] then 0 else 1 + BisectRight(s[1..], x)
  }

  predicate Lookup(merged: seq<Range>, addr: int)
    requires Separated(merged)
  {
    var i := BisectRight(Starts(merged), addr) - 1;
    i >= 0 && addr < merged[i].1
  }

  /** Only the last range that starts at or before the address can cover it. */
  lemma LookupIsCover(merged: seq<Range>, addr: int)
    requires Separated(merged)
    ensures Lookup(merged, addr) <==> SomeCovers(merged, addr)
  {
    var i := BisectRight(Starts(merged), addr) - 1;
    if i >= 0 && addr < merged[i].1 { assert Covers(merged[i], addr); }
    if k :| 0 <= k < |merged| && Covers(merged[k], addr) {
      assert k <= i;
      if k < i { assert merged[k].1 < merged[i].0; }
    }
  }

  /** `covered(addr)` is true exactly when some input range starts at or before the address and
      ends after it, for any ranges: overlapping, touching, empty or inverted. */
  method Covered(ranges: seq<Range>, addr: int) returns (covered: bool)
    ensures covered <==> exists k :: 0 <= k < |ranges| && ranges[k].0 <= addr < ranges[k].1
  {
    hide BisectRight, Starts;
    var merged := Merge(ranges);
    LookupIsCover(merged, addr);
    covered := Lookup(merged, addr);
    assert SomeCovers(merged, addr) <==> SomeCovers(ranges, addr);
    if k :| 0 <= k < |ranges| && ranges[k].0 <= addr < ranges[k].1 { assert Covers(ranges[k], addr); }
    if k :| 0 <= k < |ranges| && Covers(ranges[k], addr) { assert ranges[k].0 <= addr < ranges[k].1; }
  }
}
