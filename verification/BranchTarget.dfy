/** Branches: which kind a row is, and that encoding a target gives it back. */
module BranchTarget {
  import opened Wrappers
  import opened Bits
  import opened Rows
  import opened Decoder
  import opened RoundTrip

  // ---- Kinds ----

  /** Operand `c` is the last condition field of the row. */
  predicate LastCondition(row: Row, c: nat) {
    && c < |row.operands| && row.operands[c].kind.Cond4?
    && forall j :: c < j < |row.operands| ==> !row.operands[j].kind.Cond4?
  }

  lemma {:induction false} CondOfIs(row: Row, word: nat, n: nat)
    requires AllExtractable(row) && n <= |row.operands|
    requires forall j :: n <= j < |row.operands| ==> !row.operands[j].kind.Cond4?
    ensures CondOf(row.operands, word, n) == None ==> forall c: nat :: !LastCondition(row, c)
    ensures forall c: nat :: LastCondition(row, c) ==>
              CondOf(row.operands, word, n) == Some(RawOf(row.operands[c], word) % 0x100)
  {
    hide Extractable, RawOf;
    if n > 0 && !row.operands[n - 1].kind.Cond4? { CondOfIs(row, word, n - 1); }
    if n > 0 && row.operands[n - 1].kind.Cond4? { assert LastCondition(row, n - 1); }
  }

  /** The row has a condition field, and the last one holds 0xF, cut to a byte. */
  ghost predicate SaysUnc(row: Row, word: nat)
    requires AllExtractable(row)
  {
    exists c: nat :: LastCondition(row, c) && RawOf(row.operands[c], word) % 0x100 == 0xF
  }

  lemma CondIsUnc(row: Row, word: nat)
    requires AllExtractable(row)
    ensures CondOf(row.operands, word, |row.operands|) == Some(0xF) <==> SaysUnc(row, word)
  {
    hide Extractable, RawOf, CondOf, LastCondition;
    CondOfIs(row, word, |row.operands|);
    var cond := CondOf(row.operands, word, |row.operands|);
    if cond.Some? { SomeLast(row, word, |row.operands|); }
  }

  lemma {:induction false} SomeLast(row: Row, word: nat, n: nat)
    requires AllExtractable(row) && n <= |row.operands|
    requires forall j :: n <= j < |row.operands| ==> !row.operands[j].kind.Cond4?
    requires CondOf(row.operands, word, n).Some?
    ensures exists c: nat :: LastCondition(row, c)
  {
    hide Extractable, RawOf;
    if row.operands[n - 1].kind.Cond4? {
      assert LastCondition(row, n - 1);
    } else {
      SomeLast(row, word, n - 1);
    }
  }

  /** The kind of branch, for every row and word. */
  lemma {:induction false} KindIs(row: Row, word: nat)
    requires AllExtractable(row)
    ensures var b := BranchOf(row, word);
      && (b == Unconditional <==> row.sem.Jump? || (row.sem.CondJump? && SaysUnc(row, word)))
      && (b == ConditionalTrue <==> row.sem.CondJump? && !SaysUnc(row, word))
      && (b == ReturnBranch <==> row.sem.Return?) && (b == CallBranch <==> row.sem.Call?)
      && (b == TrapBranch <==> row.sem.Trap?) && (b == HaltBranch <==> row.sem.Halt?)
      && (b == NoBranch <==> row.sem.OtherSemantics?)
  {
    hide Extractable, CondOf, SaysUnc;
    CondIsUnc(row, word);
  }

  /** A conditional row whose last condition was encoded as UNC branches always, with any other
      code, or without one, conditionally. */
  lemma {:induction false} ConditionComesBack(rows: seq<Row>, r: nat, values: seq<int>)
    requires r < |rows| && RoundTrips(rows, r) && Encodable(rows[r], values) && rows[r].sem.CondJump?
    ensures AllExtractable(rows[r]) && |values| == |rows[r].operands|
    ensures BranchOf(rows[r], Word(rows[r], values, |values|)) ==
            if exists c: nat :: LastCondition(rows[r], c) && values[c] % 0x100 == 0xF then Unconditional
            else ConditionalTrue
  {
    hide Extractable, InRange, Encoded, RoundTrips, Encodable, RawOf, Word, BranchOf;
    var row, word := rows[r], Word(rows[r], values, |values|);
    EncodableIs(row, values);
    KindIs(row, word);
    forall c: nat | LastCondition(row, c) ensures RawOf(row.operands[c], word) == values[c] {
      EncodableFacts(row, values, c);
      RawComesBack(rows, r, values, c);
      CodeIsRaw(row.operands[c], values[c]);
    }
  }

  lemma CodeIsRaw(op: OperandRow, value: int)
    requires Extractable(op) && InRange(op, value) && IsCode(op.kind)
    ensures Encoded(op, value) == value
  {
    hide Pow2;
  }

  /** Instructions whose kind of branch has a target. */
  predicate Branches(sem: Semantics) { sem.Call? || sem.Trap? || sem.Jump? || sem.CondJump? }

  lemma BranchesHaveTargets(row: Row, word: nat)
    requires AllExtractable(row)
    ensures HasTarget(BranchOf(row, word)) <==> Branches(row.sem)
  {
    hide CondOf, Extractable;
  }

  // ---- The operand that names the target ----

  /** A 22-bit immediate, a signed 8- or 16-bit one, or any 8- or 16-bit one of the two rows that
      branch to an unsigned program address. */
  predicate NamesTarget(op: OperandRow, name: string) {
    || op.kind.Imm22?
    || ((op.kind.Imm16? || op.kind.Imm8?) && (op.signed || name == "XB_PMA_COND" || name == "XCALL_PMA_COND"))
  }

  /** Operand `j` is the first that names a target. */
  predicate TargetAt(row: Row, j: nat) {
    && j < |row.operands| && NamesTarget(row.operands[j], row.name)
    && forall i :: 0 <= i < j ==> !NamesTarget(row.operands[i], row.name)
  }

  lemma {:induction false} FirstTargetIs(ops: seq<OperandRow>, name: string, j: nat)
    requires j <= |ops| && forall i :: 0 <= i < j ==> !NamesTarget(ops[i], name)
    ensures j < |ops| && NamesTarget(ops[j], name) ==> FirstTarget(ops, name) == Some(ops[j])
    ensures j == |ops| ==> FirstTarget(ops, name) == None
    decreases j
  {
    if j > 0 {
      assert !NamesTarget(ops[0], name);
      FirstTargetIs(ops[1..], name, j - 1);
    }
  }

  /** A row that does not branch, or has no operand that names a target, has none. */
  lemma NoTarget(row: Row, word: nat, addr: nat, size: nat)
    requires AllExtractable(row)
    requires !Branches(row.sem) || forall i :: 0 <= i < |row.operands| ==> !NamesTarget(row.operands[i], row.name)
    ensures BranchTargetOf(row, word, addr, size) == None
  {
    hide Extractable, BranchOf, TargetOf, NamesTarget, FirstTarget;
    BranchesHaveTargets(row, word);
    if Branches(row.sem) { FirstTargetIs(row.operands, row.name, |row.operands|); }
  }

  /** Every resolved target is even, and never strictly inside the instruction. */
  lemma TargetsAreSound(row: Row, word: nat, addr: nat, size: nat)
    requires AllExtractable(row)
    ensures var t := BranchTargetOf(row, word, addr, size);
      t.Some? ==> t.value % 2 == 0 && (t.value <= addr || t.value >= addr + size) && Branches(row.sem)
  {
    hide Extractable, BranchOf, SignExtend, RawOf;
    FirstIsExtractable(row.operands, row.name);
    BranchesHaveTargets(row, word);
  }

  // ---- Targets ----

  /** A signed raw field read back is the value without its bias. */
  lemma SignedRaw(op: OperandRow, value: int)
    requires Extractable(op) && InRange(op, value) && IsSigned(op) && FieldWidth(op) < 32
    ensures SignExtend(Encoded(op, value), FieldWidth(op)) == value - op.bias
  {
    hide Pow2, SignExtend;
    Pow2Succ(FieldWidth(op) - 1);
    SignExtendIs(Encoded(op, value), FieldWidth(op));
  }

  lemma RelativeResolves(op: OperandRow, value: int, word: nat, addr: nat, size: nat)
    requires Extractable(op) && (op.kind.Imm16? || op.kind.Imm8?) && op.signed
    requires FieldWidth(op) < 32 && InRange(op, value)
    requires RawOf(op, word) == Encoded(op, value) && addr % 2 == 0 && size % 2 == 0
    ensures var target := addr + size + 2 * (value - op.bias);
      TargetOf(op, word, addr, size) == if target < 0 then None else Some(target)
  {
    hide SignExtend, Pow2, InRange, Encoded, RawOf;
    SignedRaw(op, value);
  }

  /** PC-relative branches: for every even address and every value of the offset field, the target
      is that many words from the next instruction, doubled to bytes; there is none before address
      zero and none strictly inside the instruction. So every even target in reach comes back from
      its offset. */
  lemma {:induction false} RelativeTargetComesBack(rows: seq<Row>, r: nat, values: seq<int>, j: nat, addr: nat,
                                                   size: nat)
    requires r < |rows| && RoundTrips(rows, r) && Encodable(rows[r], values) && j < |values|
    requires Branches(rows[r].sem) && TargetAt(rows[r], j)
    requires var op := rows[r].operands[j]; (op.kind.Imm16? || op.kind.Imm8?) && op.signed
    requires addr % 2 == 0 && size % 2 == 0
    ensures AllExtractable(rows[r])
    ensures var target := addr + size + 2 * (values[j] - rows[r].operands[j].bias);
      BranchTargetOf(rows[r], Word(rows[r], values, |values|), addr, size) ==
      if target < 0 || addr < target < addr + size then None else Some(target)
  {
    hide Extractable, InRange, Encoded, RawOf, RoundTrips, Encodable, HasField, Narrow, FieldAt, TargetOf, BranchOf,
      Word, FirstTarget, NamesTarget;
    var row := rows[r];
    EncodableFacts(row, values, j);
    EncodableIs(row, values);
    FirstTargetIs(row.operands, row.name, j);
    var op, word := row.operands[j], Word(row, values, |values|);
    FieldFacts(rows, r, j);
    NarrowIs(row, j);
    RawComesBack(rows, r, values, j);
    RelativeResolves(op, values[j], word, addr, size);
    BranchesHaveTargets(row, word);
  }

  /** Absolute branches: the target is the address in the field, doubled to bytes, under the same
      proviso. These are 22-bit immediates, and the unsigned ones of the two rows above. */
  lemma {:induction false} AbsoluteTargetComesBack(rows: seq<Row>, r: nat, values: seq<int>, j: nat, addr: nat,
                                                   size: nat)
    requires r < |rows| && RoundTrips(rows, r) && Encodable(rows[r], values) && j < |values|
    requires Branches(rows[r].sem) && TargetAt(rows[r], j) && !rows[r].operands[j].signed
    ensures AllExtractable(rows[r])
    ensures var target := 2 * (values[j] - rows[r].operands[j].bias);
      && target >= 0
      && BranchTargetOf(rows[r], Word(rows[r], values, |values|), addr, size) ==
         if addr < target < addr + size then None else Some(target)
  {
    hide Extractable, RawOf, RoundTrips, Encodable, HasField, Narrow, FieldAt, BranchOf, Word, FirstTarget, Pow2;
    var row := rows[r];
    EncodableFacts(row, values, j);
    EncodableIs(row, values);
    FirstTargetIs(row.operands, row.name, j);
    var op, word := row.operands[j], Word(row, values, |values|);
    FieldFacts(rows, r, j);
    RawComesBack(rows, r, values, j);
    BranchesHaveTargets(row, word);
  }
}
