/** The flash scanners: runs of a padding word, and tables of code pointers. */
module FlashScan {
  import Bits

  type Byte = b: nat | b < 0x100

  /** `count` cells from cell `start` on. */
  datatype Run = Run(start: nat, count: nat)

  // ---- Runs of marked cells ----

  /** A run of marked cells that no marked cell adjoins. */
  predicate Maximal(cells: seq<bool>, r: Run) {
    && r.count > 0 && r.start + r.count <= |cells|
    && (forall k :: r.start <= k < r.start + r.count ==> cells[k])
    && (r.start > 0 ==> !cells[r.start - 1])
    && (r.start + r.count < |cells| ==> !cells[r.start + r.count])
  }

  /** `runs` are exactly the maximal runs of at least `least` cells that start before `end`,
      each once, in order and disjoint. */
  ghost predicate RunsBefore(cells: seq<bool>, least: nat, end: nat, runs: seq<Run>) {
    && (forall r: Run :: r in runs <==> Maximal(cells, r) && r.count >= least && r.start < end)
    && (forall i, j :: 0 <= i < j < |runs| ==> runs[i].start + runs[i].count < runs[j].start)
  }

  ghost predicate ExactRuns(cells: seq<bool>, least: nat, runs: seq<Run>) {
    RunsBefore(cells, least, |cells|, runs)
  }

  /** Two maximal runs that share a start are one. */
  lemma SameStart(cells: seq<bool>, a: Run, b: Run)
    requires Maximal(cells, a) && Maximal(cells, b) && a.start == b.start
    ensures a == b
  {
    if a.count < b.count { assert false; }
    if b.count < a.count { assert false; }
  }

  /** A maximal run that starts earlier ends before the later one starts. */
  lemma EarlierEnds(cells: seq<bool>, a: Run, b: Run)
    requires Maximal(cells, a) && Maximal(cells, b) && a.start < b.start
    ensures a.start + a.count < b.start
  {
    if a.start + a.count >= b.start { assert false; }
  }

  /** No run starts at an unmarked cell. */
  lemma NothingStarts(cells: seq<bool>, least: nat, k: nat, runs: seq<Run>)
    requires RunsBefore(cells, least, k, runs) && k < |cells| && !cells[k]
    ensures RunsBefore(cells, least, k + 1, runs)
  {
    forall r: Run ensures r in runs <==> Maximal(cells, r) && r.count >= least && r.start < k + 1 {
      if Maximal(cells, r) && r.start == k { assert false; }
    }
  }

  /** A run found at `from` is the next one, if it is long enough. */
  lemma NextRun(cells: seq<bool>, least: nat, r: Run, runs: seq<Run>)
    requires RunsBefore(cells, least, r.start, runs) && Maximal(cells, r)
    ensures RunsBefore(cells, least, r.start + r.count, if r.count >= least then runs + [r] else runs)
  {
    var after := if r.count >= least then runs + [r] else runs;
    forall q: Run ensures q in after <==> Maximal(cells, q) && q.count >= least && q.start < r.start + r.count {
      if Maximal(cells, q) && r.start <= q.start < r.start + r.count {
        if q.start == r.start { SameStart(cells, q, r); } else { assert false; }
      }
    }
    forall i, j | 0 <= i < j < |after| ensures after[i].start + after[i].count < after[j].start {
      if j == |runs| { assert runs[i] in runs; EarlierEnds(cells, runs[i], r); }
    }
  }

  lemma NoRuns(cells: seq<bool>, least: nat)
    ensures RunsBefore(cells, least, 0, [])
  {}

  // ---- The view ----

  /** A 16-bit word of the image, by its place in words. */
  function WordAt(data: seq<Byte>, k: nat): nat
    requires 2 * k + 1 < |data|
  {
    (data[2 * k] as nat) + 0x100 * (data[2 * k + 1] as nat)
  }

  /** Which words equal the target's low 16 bits; a last odd byte is no word. */
  function PaddingCells(data: seq<Byte>, target: nat): (cells: seq<bool>)
    ensures |cells| == |data| / 2
    ensures forall k :: 0 <= k < |cells| ==> cells[k] == (WordAt(data, k) == target % 0x1_0000)
  {
    seq(|data| / 2, k requires 0 <= k < |data| / 2 => WordAt(data, k) == target % 0x1_0000)
  }

  function LongAt(data: seq<Byte>, k: nat): nat
    requires 4 * k + 3 < |data|
  {
    (data[4 * k] as nat) + 0x100 * (data[4 * k + 1] as nat) + 0x1_0000 * (data[4 * k + 2] as nat)
      + 0x100_0000 * (data[4 * k + 3] as nat)
  }

  /** A 22-bit word address whose byte address lies in the file-backed flash. */
  predicate IsPointer(raw: nat, flashBase: nat, fileLen: nat) {
    Bits.And(raw, 0x3F_FFFF) == raw && flashBase <= 2 * raw < flashBase + fileLen
  }

  function PointerCells(data: seq<Byte>, flashBase: nat): (cells: seq<bool>)
    ensures |cells| == |data| / 4
    ensures forall k :: 0 <= k < |cells| ==> cells[k] == IsPointer(LongAt(data, k), flashBase, |data|)
  {
    seq(|data| / 4, k requires 0 <= k < |data| / 4 => IsPointer(LongAt(data, k), flashBase, |data|))
  }

  /** Byte addresses the first `n` entries of a table name, where code may be. */
  function Entries(data: seq<Byte>, start: nat, n: nat, executable: nat -> bool): seq<nat>
    requires 4 * (start + n) <= |data|
  {
    if n == 0 then []
    else
      var target := 2 * Bits.And(LongAt(data, start + n - 1), 0x3F_FFFF);
      Entries(data, start, n - 1, executable) + (if executable(target) then [target] else [])
  }

  predicate InFile(data: seq<Byte>, runs: seq<Run>) {
    forall i :: 0 <= i < |runs| ==> 4 * (runs[i].start + runs[i].count) <= |data|
  }

  function AllEntries(data: seq<Byte>, runs: seq<Run>, executable: nat -> bool): seq<nat>
    requires InFile(data, runs)
  {
    if runs == [] then []
    else
      var last := runs[|runs| - 1];
      AllEntries(data, runs[..|runs| - 1], executable) + Entries(data, last.start, last.count, executable)
  }

  /** What the scanners add to a Binary Ninja view: data variables over padding, pointer tables
      reported, and functions at their targets. Variables are kept as runs of words. */
  class FlashView {
    var marks: seq<Run>
    var tables: seq<Run>
    var functions: seq<nat>

    constructor ()
      ensures marks == [] && tables == [] && functions == []
    {
      marks, tables, functions := [], [], [];
    }

    /** Mark every run of the target word that is long enough, and no more. */
    method MarkPatternRuns(data: seq<Byte>, target: nat, minWords: nat) returns (runsMarked: nat)
      modifies this`marks
      ensures old(marks) <= marks && runsMarked == |marks| - |old(marks)|
      ensures ExactRuns(PaddingCells(data, target), minWords, marks[|old(marks)|..])
    {
      hide RunsBefore, Maximal, WordAt, PaddingCells;
      var i, n := 0, |data|;
      var low, high := target % 0x100, target / 0x100 % 0x100;
      ghost var cells := PaddingCells(data, target);
      ghost var found: seq<Run> := [];
      ghost var first := marks;
      runsMarked := 0;
      NoRuns(cells, minWords);
      while i + 1 < n
        invariant i % 2 == 0 && i / 2 <= |cells|
        invariant i > 0 && i / 2 < |cells| ==> !cells[i / 2 - 1] || !cells[i / 2]
        invariant marks == first + found && runsMarked == |found|
        invariant RunsBefore(cells, minWords, i / 2, found)
        decreases n - i
      {
        CellIs(data, target, i / 2);
        if data[i] == low && data[i + 1] == high {
          var runStart := i;
          var j := RunEnd(data, target, i);
          var runWords := (j - runStart) / 2;
          ghost var run := Run(runStart / 2, runWords);
          IsMaximal(cells, run);
          NextRun(cells, minWords, run, found);
          if runWords >= minWords {
            marks := marks + [Run(runStart / 2, runWords)];
            assert marks == first + (found + [run]);
            found := found + [run];
            runsMarked := runsMarked + 1;
          }
          i := j;
        } else {
          NothingStarts(cells, minWords, i / 2, found);
          i := i + 2;
        }
      }
      assert i / 2 == |cells|;
      assert marks[|first|..] == found;
    }

    /** Report every table of four pointers or more, and add a function at every target in an
        executable segment. */
    method FindPointerTables(data: seq<Byte>, flashBase: nat, executable: nat -> bool) returns (total: nat)
      modifies this`tables, this`functions
      ensures old(tables) <= tables
      ensures var found := tables[|old(tables)|..];
        && ExactRuns(PointerCells(data, flashBase), 4, found)
        && InFile(data, found)
        && functions == old(functions) + AllEntries(data, found, executable)
        && total == CellsIn(found)
        && (exists cells :: ListsCells(found, cells) && total == |cells|)
        && (exists places :: NamesTargets(data, found, executable, functions[|old(functions)|..], places))
    {
      hide RunsBefore, Maximal, IsPointer, Entries, PointerCells, LongAt, RunLength, ShortRest, AllEntries, CellsIn,
        InFile, ListsCells, NamesTargets;
      var fileLen := |data|;
      ghost var cells := PointerCells(data, flashBase);
      ghost var found: seq<Run> := [];
      ghost var firstTables, firstFunctions := tables, functions;
      total := 0;
      var offset := 0;
      NoRuns(cells, 4);
      NothingYet(data, cells, executable);
      while offset + 15 < fileLen
        invariant offset % 4 == 0 && offset / 4 <= |cells|
        invariant ShortRest(cells, offset / 4)
        invariant RunsBefore(cells, 4, offset / 4, found)
        invariant tables == firstTables + found && InFile(data, found)
        invariant functions == firstFunctions + AllEntries(data, found, executable) && total == CellsIn(found)
        decreases fileLen - offset
      {
        var runStart, runCount := ScanRun(data, flashBase, offset);
        if runCount >= 4 {
          TableIsMaximal(cells, offset / 4, runCount);
          NextRun(cells, 4, Run(offset / 4, runCount), found);
          var added := EntriesOf(data, runStart / 4, runCount, executable);
          AddRun(data, found, Run(offset / 4, runCount), executable);
          assert tables + [Run(runStart / 4, runCount)] == firstTables + (found + [Run(offset / 4, runCount)]);
          found := found + [Run(offset / 4, runCount)];
          functions := functions + added;
          tables := tables + [Run(runStart / 4, runCount)];
          total := total + runCount;
          offset := runStart + 4 * runCount;
        } else {
          ShortRunSkipped(cells, offset / 4, runCount, found);
          offset := offset + 4;
        }
      }
      NoneFits(cells, offset / 4, found);
      assert tables[|firstTables|..] == found && functions[|firstFunctions|..] == AllEntries(data, found, executable);
      ghost var counted := CountedOnce(cells, found);
      ghost var places := TargetsOnce(data, flashBase, found, executable);
    }
  }

  /** The end of the run that starts at an even offset. */
  method RunEnd(data: seq<Byte>, target: nat, i: nat) returns (j: nat)
    requires i % 2 == 0 && i + 1 < |data|
    ensures var cells := PaddingCells(data, target);
      && i <= j && j % 2 == 0 && j / 2 <= |cells|
      && (forall k :: i / 2 <= k < j / 2 ==> cells[k])
      && (j / 2 < |cells| ==> !cells[j / 2])
  {
    var n := |data|;
    var low, high := target % 0x100, target / 0x100 % 0x100;
    ghost var cells := PaddingCells(data, target);
    j := i;
    while j + 1 < n && data[j] == low && data[j + 1] == high
      invariant i <= j && j % 2 == 0 && j / 2 <= |cells|
      invariant forall k :: i / 2 <= k < j / 2 ==> cells[k]
      decreases n - j
    {
      CellIs(data, target, j / 2);
      j := j + 2;
    }
    if j + 1 < n { CellIs(data, target, j / 2); }
  }

  /** The two bytes compared are the word. */
  lemma CellIs(data: seq<Byte>, target: nat, k: nat)
    requires 2 * k + 1 < |data|
    ensures PaddingCells(data, target)[k] <==>
            data[2 * k] == target % 0x100 && data[2 * k + 1] == target / 0x100 % 0x100
  {}

  lemma IsMaximal(cells: seq<bool>, r: Run)
    requires r.count > 0 && r.start + r.count <= |cells|
    requires forall k :: r.start <= k < r.start + r.count ==> cells[k]
    requires r.start > 0 ==> !cells[r.start - 1] || !cells[r.start]
    requires r.start + r.count < |cells| ==> !cells[r.start + r.count]
    ensures Maximal(cells, r)
  {
    assert cells[r.start];
  }

  /** Number of cells in all runs. */
  function CellsIn(runs: seq<Run>): nat {
    if runs == [] then 0 else CellsIn(runs[..|runs| - 1]) + runs[|runs| - 1].count
  }

  lemma NothingYet(data: seq<Byte>, cells: seq<bool>, executable: nat -> bool)
    ensures InFile(data, []) && AllEntries(data, [], executable) == [] && CellsIn([]) == 0 && ShortRest(cells, 0)
  {}

  lemma AddRun(data: seq<Byte>, runs: seq<Run>, r: Run, executable: nat -> bool)
    requires InFile(data, runs) && 4 * (r.start + r.count) <= |data|
    ensures InFile(data, runs + [r])
    ensures AllEntries(data, runs + [r], executable) ==
            AllEntries(data, runs, executable) + Entries(data, r.start, r.count, executable)
    ensures CellsIn(runs + [r]) == CellsIn(runs) + r.count
  {
    hide Entries;
    assert (runs + [r])[..|runs|] == runs;
  }

  // ---- What a table names ----

  /** Cell `k` is in one of the runs. */
  predicate InRuns(runs: seq<Run>, k: nat) {
    exists i :: 0 <= i < |runs| && runs[i].start <= k < runs[i].start + runs[i].count
  }

  predicate Increasing(places: seq<nat>) {
    forall i, j :: 0 <= i < j < |places| ==> places[i] < places[j]
  }

  /** The cells of the runs, each once and in order. */
  ghost predicate ListsCells(runs: seq<Run>, cells: seq<nat>) {
    Increasing(cells) && forall k: nat :: k in cells <==> InRuns(runs, k)
  }

  /** `added` holds twice the value of the cell at each of the places, which are in order. */
  predicate Doubles(data: seq<Byte>, added: seq<nat>, places: seq<nat>) {
    && Increasing(places)
    && |places| == |added|
    && forall i :: 0 <= i < |places| ==> 4 * places[i] + 3 < |data| && added[i] == 2 * LongAt(data, places[i])
  }

  /** The addresses added are, in order and once for each, those of the cells of the runs whose
      doubled value may be executed. */
  ghost predicate NamesTargets(
      data: seq<Byte>, runs: seq<Run>, executable: nat -> bool, added: seq<nat>, places: seq<nat>) {
    && Doubles(data, added, places)
    && forall k: nat :: k in places <==> IsTarget(data, runs, executable, k)
  }

  predicate IsTarget(data: seq<Byte>, runs: seq<Run>, executable: nat -> bool, k: nat) {
    InRuns(runs, k) && 4 * k + 3 < |data| && executable(2 * LongAt(data, k))
  }

  /** A cell's bytes, the lowest first. */
  lemma LongIsLittleEndian(data: seq<Byte>, k: nat)
    requires 4 * k + 3 < |data|
    ensures var raw := LongAt(data, k);
      && raw < 0x1_0000_0000
      && data[4 * k] == raw % 0x100 && data[4 * k + 1] == raw / 0x100 % 0x100
      && data[4 * k + 2] == raw / 0x1_0000 % 0x100 && data[4 * k + 3] == raw / 0x100_0000
  {}

  /** A cell is a pointer if and only if its value fits 22 bits and twice that is in the file's flash. */
  lemma PointerTest(data: seq<Byte>, flashBase: nat, k: nat)
    requires 4 * k + 3 < |data|
    ensures PointerCells(data, flashBase)[k] <==>
            var raw := LongAt(data, k);
            raw < 0x40_0000 && flashBase <= 2 * raw && 2 * raw < flashBase + |data|
    ensures PointerCells(data, flashBase)[k] <==>
            && data[4 * k + 3] == 0 && data[4 * k + 2] < 0x40
            && flashBase <= 2 * (data[4 * k] + 0x100 * data[4 * k + 1] + 0x1_0000 * data[4 * k + 2])
                         < flashBase + |data|
  {
    hide Bits.And;
    MaskIsMod(LongAt(data, k));
  }

  lemma MaskIsMod(raw: nat)
    ensures Bits.And(raw, 0x3F_FFFF) == raw % 0x40_0000
  {
    hide Bits.And, Bits.LowBits;
    Pow2At22();
    hide Bits.Pow2;
    Bits.AndOnes(raw, 22);
    Bits.LowBitsIsMod(raw, 22);
  }

  lemma Pow2At22()
    ensures Bits.Pow2(22) == 0x40_0000
  {
    Bits.Pow2At16();
    Bits.Pow2Add(16, 6);
  }

  lemma {:induction false} EveryCell(runs: seq<Run>) returns (cells: seq<nat>)
    requires forall i, j :: 0 <= i < j < |runs| ==> runs[i].start + runs[i].count <= runs[j].start
    ensures ListsCells(runs, cells) && |cells| == CellsIn(runs)
  {
    if runs == [] {
      cells := [];
    } else {
      var n := |runs| - 1;
      var before := EveryCell(runs[..n]);
      var last := seq(runs[n].count, k requires 0 <= k < runs[n].count => runs[n].start + k);
      cells := before + last;
      forall k: nat ensures k in cells <==> InRuns(runs, k) { CellLast(runs, before, last, k); }
      forall i, j | 0 <= i < j < |cells| ensures cells[i] < cells[j] {
        if i < |before| <= j { assert before[i] in before; }
      }
    }
  }

  lemma CellLast(runs: seq<Run>, before: seq<nat>, last: seq<nat>, k: nat)
    requires runs != [] && (k in before <==> InRuns(runs[..|runs| - 1], k))
    requires |last| == runs[|runs| - 1].count
    requires forall i :: 0 <= i < |last| ==> last[i] == runs[|runs| - 1].start + i
    ensures k in before + last <==> InRuns(runs, k)
  {
    var n := |runs| - 1;
    InRunsNext(runs, k);
    if runs[n].start <= k < runs[n].start + runs[n].count { assert last[k - runs[n].start] == k; }
  }

  lemma InRunsNext(runs: seq<Run>, k: nat)
    requires runs != []
    ensures var n := |runs| - 1;
      InRuns(runs, k) <==> InRuns(runs[..n], k) || runs[n].start <= k < runs[n].start + runs[n].count
  {
    var n := |runs| - 1;
    if i :| 0 <= i < n && runs[i].start <= k < runs[i].start + runs[i].count { assert runs[..n][i] == runs[i]; }
  }

  /** The total counts every cell of the tables once. */
  lemma CountedOnce(cells: seq<bool>, runs: seq<Run>) returns (counted: seq<nat>)
    requires ExactRuns(cells, 4, runs)
    ensures ListsCells(runs, counted) && CellsIn(runs) == |counted|
  {
    hide ListsCells, CellsIn;
    counted := EveryCell(runs);
  }

  lemma JoinDoubles(data: seq<Byte>, a: seq<nat>, b: seq<nat>, placesA: seq<nat>, placesB: seq<nat>)
    requires Doubles(data, a, placesA) && Doubles(data, b, placesB)
    requires forall i, j :: 0 <= i < |placesA| && 0 <= j < |placesB| ==> placesA[i] < placesB[j]
    ensures Doubles(data, a + b, placesA + placesB)
  {
    hide LongAt;
  }

  /** The addresses of one table's cells. */
  lemma {:induction false} EntryTargets(data: seq<Byte>, start: nat, n: nat, executable: nat -> bool)
    returns (places: seq<nat>)
    requires 4 * (start + n) <= |data|
    requires forall k :: start <= k < start + n ==> LongAt(data, k) < 0x40_0000
    ensures Doubles(data, Entries(data, start, n, executable), places)
    ensures forall k: nat :: k in places <==> start <= k < start + n && executable(2 * LongAt(data, k))
  {
    hide LongAt, Bits.And;
    if n == 0 {
      places := [];
    } else {
      var k := start + n - 1;
      var before := EntryTargets(data, start, n - 1, executable);
      var target := 2 * LongAt(data, k);
      MaskIsMod(LongAt(data, k));
      places := before + if executable(target) then [k] else [];
      forall i | 0 <= i < |before| ensures before[i] < k { assert before[i] in before; }
      JoinDoubles(data, Entries(data, start, n - 1, executable), if executable(target) then [target] else [], before,
                  if executable(target) then [k] else []);
    }
  }

  lemma {:induction false} AllTargets(data: seq<Byte>, runs: seq<Run>, executable: nat -> bool)
    returns (places: seq<nat>)
    requires InFile(data, runs)
    requires forall i, j :: 0 <= i < j < |runs| ==> runs[i].start + runs[i].count <= runs[j].start
    requires forall k: nat :: InRuns(runs, k) ==> 4 * k + 3 < |data| && LongAt(data, k) < 0x40_0000
    ensures NamesTargets(data, runs, executable, AllEntries(data, runs, executable), places)
  {
    hide LongAt, Bits.And, Entries, Doubles, InRuns;
    if runs == [] {
      places := [];
      NoTargets(data, executable);
    } else {
      var n := |runs| - 1;
      var last := runs[n];
      forall k: nat ensures InRuns(runs, k) <==> InRuns(runs[..n], k) || last.start <= k < last.start + last.count {
        InRunsNext(runs, k);
      }
      var before := AllTargets(data, runs[..n], executable);
      var after := EntryTargets(data, last.start, last.count, executable);
      places := before + after;
      Behind(data, runs, executable, before, after);
      JoinDoubles(data, AllEntries(data, runs[..n], executable), Entries(data, last.start, last.count, executable),
                  before, after);
    }
  }

  lemma NoTargets(data: seq<Byte>, executable: nat -> bool)
    ensures NamesTargets(data, [], executable, [], [])
  {}

  /** The last run's places are behind those of the runs before it. */
  lemma Behind(data: seq<Byte>, runs: seq<Run>, executable: nat -> bool, before: seq<nat>, after: seq<nat>)
    requires runs != []
    requires forall i, j :: 0 <= i < j < |runs| ==> runs[i].start + runs[i].count <= runs[j].start
    requires forall k: nat :: k in before ==> InRuns(runs[..|runs| - 1], k)
    requires forall k: nat :: k in after ==> runs[|runs| - 1].start <= k
    ensures forall i, j :: 0 <= i < |before| && 0 <= j < |after| ==> before[i] < after[j]
  {
    forall i, j | 0 <= i < |before| && 0 <= j < |after| ensures before[i] < after[j] {
      assert before[i] in before && after[j] in after;
    }
  }

  /** An address is added once for each cell of a reported table that holds half of it, if it may be
      executed, in the order of the cells. */
  lemma TargetsOnce(data: seq<Byte>, flashBase: nat, runs: seq<Run>, executable: nat -> bool)
    returns (places: seq<nat>)
    requires ExactRuns(PointerCells(data, flashBase), 4, runs)
    ensures InFile(data, runs) && NamesTargets(data, runs, executable, AllEntries(data, runs, executable), places)
  {
    hide LongAt, Bits.And, AllEntries, NamesTargets;
    var cells := PointerCells(data, flashBase);
    forall k: nat | InRuns(runs, k) ensures 4 * k + 3 < |data| && LongAt(data, k) < 0x40_0000 {
      var i :| 0 <= i < |runs| && runs[i].start <= k < runs[i].start + runs[i].count;
      assert runs[i] in runs && cells[k];
      PointerTest(data, flashBase, k);
    }
    assert InFile(data, runs) by {
      forall i | 0 <= i < |runs| ensures 4 * (runs[i].start + runs[i].count) <= |data| { assert runs[i] in runs; }
    }
    places := AllTargets(data, runs, executable);
  }

  // ---- Pointer tables ----

  /** Marked cells from `k` on, up to the first unmarked one. */
  function RunLength(cells: seq<bool>, k: nat): (n: nat)
    requires k <= |cells|
    ensures k + n <= |cells| && (forall j :: k <= j < k + n ==> cells[j]) && (k + n < |cells| ==> !cells[k + n])
    decreases |cells| - k
  {
    if k == |cells| || !cells[k] then 0 else 1 + RunLength(cells, k + 1)
  }

  /** If the cell before is marked, fewer than three marked ones follow: the run it is in was
      too short to report, or has been reported whole. */
  predicate ShortRest(cells: seq<bool>, k: nat)
    requires k <= |cells|
  {
    k > 0 && cells[k - 1] ==> RunLength(cells, k) < 3
  }

  /** Count consecutive pointers from an offset. */
  method ScanRun(data: seq<Byte>, flashBase: nat, offset: nat) returns (runStart: nat, runCount: nat)
    requires offset % 4 == 0 && offset <= |data|
    ensures runStart == offset && offset / 4 <= |data| / 4
            && runCount == RunLength(PointerCells(data, flashBase), offset / 4)
  {
    hide IsPointer;
    ghost var cells := PointerCells(data, flashBase);
    runStart, runCount := offset, 0;
    var scan := offset;
    while scan + 3 < |data|
      invariant scan == offset + 4 * runCount && scan / 4 <= |cells|
      invariant RunLength(cells, offset / 4) == runCount + RunLength(cells, scan / 4)
      decreases |data| - scan
    {
      var raw := LongAt(data, scan / 4);
      if !IsPointer(raw, flashBase, |data|) {
        break;
      }
      runCount := runCount + 1;
      scan := scan + 4;
    }
    assert scan / 4 == |cells| || !cells[scan / 4];
  }

  /** The functions added for one table. */
  method EntriesOf(data: seq<Byte>, start: nat, n: nat, executable: nat -> bool) returns (added: seq<nat>)
    requires 4 * (start + n) <= |data|
    ensures added == Entries(data, start, n, executable)
  {
    hide Bits.And;
    added := [];
    for i := 0 to n
      invariant added == Entries(data, start, i, executable)
    {
      var byteAddr := 2 * Bits.And(LongAt(data, start + i), 0x3F_FFFF);
      if executable(byteAddr) {
        added := added + [byteAddr];
      }
    }
  }

  lemma TableIsMaximal(cells: seq<bool>, k: nat, n: nat)
    requires k <= |cells| && ShortRest(cells, k) && n == RunLength(cells, k) && n >= 4
    ensures Maximal(cells, Run(k, n))
    ensures ShortRest(cells, k + n)
  {}

  lemma ShortRunSkipped(cells: seq<bool>, k: nat, n: nat, runs: seq<Run>)
    requires k < |cells| && ShortRest(cells, k) && n == RunLength(cells, k) && n < 4 && RunsBefore(cells, 4, k, runs)
    ensures ShortRest(cells, k + 1) && RunsBefore(cells, 4, k + 1, runs)
  {
    forall r: Run ensures r in runs <==> Maximal(cells, r) && r.count >= 4 && r.start < k + 1 {
      if Maximal(cells, r) && r.count >= 4 && r.start == k { assert false; }
    }
  }

  /** No table of four cells starts in the last three. */
  lemma NoneFits(cells: seq<bool>, k: nat, runs: seq<Run>)
    requires RunsBefore(cells, 4, k, runs) && k <= |cells| < k + 4
    ensures ExactRuns(cells, 4, runs)
  {
    forall r: Run ensures r in runs <==> Maximal(cells, r) && r.count >= 4 && r.start < |cells| {}
  }
}
