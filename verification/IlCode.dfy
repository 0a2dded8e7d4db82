/** IL instructions, the structured blocks the lifter's arms denote, and the flat code with
    labels that they are emitted as. */
module IlCode {
  import opened Wrappers
  import opened Registers
  import opened Il

  type Label = nat

  datatype Insn =
    | SetReg(size: nat, reg: Register, value: Expr)
    | SetRegFlags(size: nat, reg: Register, value: Expr, written: FlagWrite)
    | SetTemp(size: nat, index: nat, value: Expr)
    | SetFlag(flag: Flag, value: Expr)
    | Store(size: nat, addr: Expr, value: Expr)
    | Compute(value: Expr)
    | Nop
    | If(cond: Expr, yes: Label, no: Label)
    | Goto(dest: Label)
    | Jump(target: Expr)
    | Unimplemented
  {
    /** Whether control simply falls through to the next instruction. */
    predicate IsPlain() {
      !If? && !Goto? && !Jump? && !Unimplemented?
    }
  }

  function Exec(insn: Insn, st: State, o: Oracle): State
    requires insn.IsPlain()
  {
    match insn
    case SetReg(size, reg, value) =>
      st.(regs := WriteReg(st.regs, reg, Wrap(Eval(value, st), size)), flags := FlagsAfter(value, st, o))
    case SetRegFlags(size, reg, value, written) =>
      st.(regs := WriteReg(st.regs, reg, Wrap(Eval(value, st), size)), flags := WriteFlags(written, value, st, o))
    case SetTemp(size, index, value) =>
      st.(temps := st.temps[index := Wrap(Eval(value, st), size)], flags := FlagsAfter(value, st, o))
    case SetFlag(flag, value) => st.(flags := st.flags.Set(flag, Eval(value, st) != 0))
    case Store(size, addr, value) =>
      st.(mem := StoreBytes(st.mem, Eval(addr, st), size, Eval(value, st)), flags := FlagsAfter(value, st, o))
    case Compute(value) => st.(flags := FlagsAfter(value, st, o))
    case Nop => st
  }

  /** How a piece of code ends. */
  datatype Outcome = Falls(st: State) | Jumps(target: nat, st: State) | Stuck

  /** Structured code. `Guard` runs its body when the condition has the given sense,
      `Choose` has a body for either sense. */
  datatype Block =
    | End
    | Do(insn: Insn, next: Block)
    | Guard(cond: Expr, sense: bool, body: Block, next: Block)
    | Choose(cond: Expr, yes: Block, no: Block, next: Block)
    | Leave(target: Expr)
    | Refuse(next: Block)

  function Then(first: Outcome, next: Block, o: Oracle): Outcome
    decreases next, 1
  {
    match first
    case Falls(st) => ExecBlock(next, st, o)
    case other => other
  }

  function ExecBlock(b: Block, st: State, o: Oracle): Outcome
    decreases b, 0
  {
    hide Exec, Eval;
    match b
    case End => Falls(st)
    case Do(insn, next) => if insn.IsPlain() then ExecBlock(next, Exec(insn, st, o), o) else Stuck
    case Guard(cond, sense, body, next) =>
      if (Eval(cond, st) != 0) == sense then Then(ExecBlock(body, st, o), next, o)
      else ExecBlock(next, st, o)
    case Choose(cond, yes, no, next) =>
      Then(if Eval(cond, st) != 0 then ExecBlock(yes, st, o) else ExecBlock(no, st, o), next, o)
    case Leave(target) => Jumps(Eval(target, st), st)
    case Refuse(_) => Stuck
  }

  /** Number of flat instructions a block takes. */
  function Len(b: Block): nat {
    match b
    case End => 0
    case Do(_, next) => 1 + Len(next)
    case Guard(_, _, body, next) => 1 + Len(body) + Len(next)
    case Choose(_, yes, no, next) => 2 + Len(yes) + Len(no) + Len(next)
    case Leave(_) => 1
    case Refuse(next) => 1 + Len(next)
  }

  /** Flat code: instructions, and for each label the place where it was marked. */
  datatype Code = Code(insns: seq<Insn>, marks: seq<Option<nat>>) {
    predicate Marked(l: Label, place: nat) {
      l < |marks| && marks[l] == Some(place)
    }
  }

  /** Run flat code from `i` until control reaches `end`. The lifter only branches forward
      inside an instruction, so a backward or unmarked label counts as stuck. */
  function Run(code: Code, i: nat, end: nat, st: State, o: Oracle): Outcome
    decreases end - i
  {
    if i == end then Falls(st)
    else if i > end || i >= |code.insns| then Stuck
    else
      match code.insns[i]
      case If(cond, yes, no) => Follow(code, if Eval(cond, st) != 0 then yes else no, i, end, st, o)
      case Goto(dest) => Follow(code, dest, i, end, st, o)
      case Jump(target) => Jumps(Eval(target, st), st)
      case Unimplemented => Stuck
      case insn => Run(code, i + 1, end, Exec(insn, st, o), o)
  }

  function Follow(code: Code, l: Label, i: nat, end: nat, st: State, o: Oracle): Outcome
    requires i < end
    decreases end - i, 0
  {
    if l < |code.marks| && code.marks[l].Some? && i < code.marks[l].value <= end
    then Run(code, code.marks[l].value, end, st, o)
    else Stuck
  }

  /** Instruction `i` is a branch on `cond` to the two places. */
  predicate IfAt(code: Code, i: nat, cond: Expr, yes: nat, no: nat) {
    && i < |code.insns|
    && code.insns[i].If?
    && code.insns[i].cond == cond
    && code.Marked(code.insns[i].yes, yes)
    && code.Marked(code.insns[i].no, no)
  }

  predicate GotoAt(code: Code, i: nat, place: nat) {
    i < |code.insns| && code.insns[i].Goto? && code.Marked(code.insns[i].dest, place)
  }

  /** The flat instructions from `i` on are `b` with its branches turned into labels. */
  ghost predicate Emitted(code: Code, i: nat, b: Block)
    decreases b
  {
    match b
    case End => true
    case Do(insn, next) =>
      i < |code.insns| && insn.IsPlain() && code.insns[i] == insn && Emitted(code, i + 1, next)
    case Guard(cond, sense, body, next) =>
      var after := i + 1 + Len(body);
      && (if sense then IfAt(code, i, cond, i + 1, after) else IfAt(code, i, cond, after, i + 1))
      && Emitted(code, i + 1, body)
      && Emitted(code, after, next)
    case Choose(cond, yes, no, next) =>
      var middle := i + 1 + Len(yes);
      var after := middle + 1 + Len(no);
      && IfAt(code, i, cond, i + 1, middle + 1)
      && GotoAt(code, middle, after)
      && Emitted(code, i + 1, yes)
      && Emitted(code, middle + 1, no)
      && Emitted(code, after, next)
    case Leave(target) => i < |code.insns| && code.insns[i] == Jump(target)
    case Refuse(next) => i < |code.insns| && code.insns[i] == Unimplemented && Emitted(code, i + 1, next)
  }

  function RunOn(first: Outcome, code: Code, i: nat, end: nat, o: Oracle): Outcome {
    match first
    case Falls(st) => Run(code, i, end, st, o)
    case other => other
  }

  lemma RunIf(code: Code, i: nat, end: nat, cond: Expr, yes: nat, no: nat, st: State, o: Oracle)
    requires IfAt(code, i, cond, yes, no) && i < yes <= end && i < no <= end
    ensures Run(code, i, end, st, o) == Run(code, if Eval(cond, st) != 0 then yes else no, end, st, o)
  {
    hide Eval, Exec;
  }

  lemma RunGoto(code: Code, i: nat, end: nat, place: nat, st: State, o: Oracle)
    requires GotoAt(code, i, place) && i < place <= end
    ensures Run(code, i, end, st, o) == Run(code, place, end, st, o)
  {
    hide Eval, Exec;
  }

  /** Running emitted code is executing the block: labels and gotos add nothing. */
  lemma {:induction false} RunEmitted(code: Code, i: nat, end: nat, b: Block, st: State, o: Oracle)
    requires Emitted(code, i, b)
    requires i + Len(b) <= end
    ensures Run(code, i, end, st, o) == RunOn(ExecBlock(b, st, o), code, i + Len(b), end, o)
    decreases b, 1
  {
    hide Eval, Exec, IfAt, GotoAt;
    match b
    case End =>
    case Do(insn, next) => RunEmitted(code, i + 1, end, next, Exec(insn, st, o), o);
    case Guard(_, _, _, _) => RunGuard(code, i, end, b, st, o);
    case Choose(_, _, _, _) => RunChoose(code, i, end, b, st, o);
    case Leave(target) =>
    case Refuse(next) =>
  }

  lemma {:induction false} RunGuard(code: Code, i: nat, end: nat, b: Block, st: State, o: Oracle)
    requires b.Guard? && Emitted(code, i, b)
    requires i + Len(b) <= end
    ensures Run(code, i, end, st, o) == RunOn(ExecBlock(b, st, o), code, i + Len(b), end, o)
    decreases b, 0
  {
    hide Eval, Exec, IfAt, GotoAt, Run;
    var after := i + 1 + Len(b.body);
    if b.sense { RunIf(code, i, end, b.cond, i + 1, after, st, o); }
    else { RunIf(code, i, end, b.cond, after, i + 1, st, o); }
    if (Eval(b.cond, st) != 0) == b.sense {
      var r := ExecBlock(b.body, st, o);
      RunEmitted(code, i + 1, end, b.body, st, o);
      if r.Falls? { RunEmitted(code, after, end, b.next, r.st, o); }
    } else {
      RunEmitted(code, after, end, b.next, st, o);
    }
  }

  lemma {:induction false} RunChoose(code: Code, i: nat, end: nat, b: Block, st: State, o: Oracle)
    requires b.Choose? && Emitted(code, i, b)
    requires i + Len(b) <= end
    ensures Run(code, i, end, st, o) == RunOn(ExecBlock(b, st, o), code, i + Len(b), end, o)
    decreases b, 0
  {
    hide Eval, Exec, IfAt, GotoAt, Run;
    var middle := i + 1 + Len(b.yes);
    var after := middle + 1 + Len(b.no);
    RunIf(code, i, end, b.cond, i + 1, middle + 1, st, o);
    if Eval(b.cond, st) != 0 {
      var r := ExecBlock(b.yes, st, o);
      RunEmitted(code, i + 1, end, b.yes, st, o);
      if r.Falls? {
        RunGoto(code, middle, end, after, r.st, o);
        RunEmitted(code, after, end, b.next, r.st, o);
      }
    } else {
      var r := ExecBlock(b.no, st, o);
      RunEmitted(code, middle + 1, end, b.no, st, o);
      if r.Falls? { RunEmitted(code, after, end, b.next, r.st, o); }
    }
  }

  /** Instructions are only added, and a label that was marked stays where it is. */
  predicate Grows(before: Code, after: Code) {
    && before.insns <= after.insns
    && |before.marks| <= |after.marks|
    && forall l | 0 <= l < |before.marks| && before.marks[l].Some? :: after.marks[l] == before.marks[l]
  }

  /** Nothing that was there before, labels included, has changed. */
  predicate Extends(before: Code, after: Code) {
    before.insns <= after.insns && before.marks <= after.marks
  }

  lemma IfStable(before: Code, after: Code, i: nat, cond: Expr, yes: nat, no: nat)
    requires Grows(before, after) && IfAt(before, i, cond, yes, no)
    ensures IfAt(after, i, cond, yes, no)
  {}

  lemma GotoStable(before: Code, after: Code, i: nat, place: nat)
    requires Grows(before, after) && GotoAt(before, i, place)
    ensures GotoAt(after, i, place)
  {}

  lemma {:induction false} EmittedStable(before: Code, after: Code, i: nat, b: Block)
    requires Grows(before, after)
    requires Emitted(before, i, b)
    ensures Emitted(after, i, b)
    decreases b
  {
    hide IfAt, GotoAt;
    match b
    case End =>
    case Do(insn, next) => EmittedStable(before, after, i + 1, next);
    case Guard(cond, sense, body, next) =>
      var end := i + 1 + Len(body);
      if sense { IfStable(before, after, i, cond, i + 1, end); }
      else { IfStable(before, after, i, cond, end, i + 1); }
      EmittedStable(before, after, i + 1, body);
      EmittedStable(before, after, end, next);
    case Choose(cond, yes, no, next) =>
      var middle := i + 1 + Len(yes);
      var end := middle + 1 + Len(no);
      IfStable(before, after, i, cond, i + 1, middle + 1);
      GotoStable(before, after, middle, end);
      EmittedStable(before, after, i + 1, yes);
      EmittedStable(before, after, middle + 1, no);
      EmittedStable(before, after, end, next);
    case Leave(target) =>
    case Refuse(next) => EmittedStable(before, after, i + 1, next);
  }

  /** `tail` after `head`. */
  function Append(head: Block, tail: Block): Block {
    match head
    case End => tail
    case Do(insn, next) => Do(insn, Append(next, tail))
    case Guard(cond, sense, body, next) => Guard(cond, sense, body, Append(next, tail))
    case Choose(cond, yes, no, next) => Choose(cond, yes, no, Append(next, tail))
    case Leave(target) => head
    case Refuse(next) => Refuse(Append(next, tail))
  }

  /** Control can reach the end of the block. */
  predicate Open(b: Block) {
    match b
    case End => true
    case Do(_, next) => Open(next)
    case Guard(_, _, _, next) => Open(next)
    case Choose(_, _, _, next) => Open(next)
    case Leave(_) => false
    case Refuse(next) => Open(next)
  }

  /** `after` is `before` with exactly `b` emitted at its end. */
  ghost predicate Emits(before: Code, after: Code, b: Block) {
    && Extends(before, after)
    && |after.insns| == |before.insns| + Len(b)
    && Emitted(after, |before.insns|, b)
  }

  lemma EmitsNothing(code: Code)
    ensures Emits(code, code, End)
  {}

  lemma EmitsRefuse(code: Code)
    ensures Emits(code, Code.Code(code.insns + [Unimplemented], code.marks), Refuse(End))
  {}

  lemma EmitsDo(code: Code, insn: Insn)
    requires insn.IsPlain()
    ensures Emits(code, Code.Code(code.insns + [insn], code.marks), Do(insn, End))
  {}

  lemma {:induction false} LenAppend(a: Block, b: Block)
    requires Open(a)
    ensures Len(Append(a, b)) == Len(a) + Len(b)
  {
    match a
    case End =>
    case Do(_, next) => LenAppend(next, b);
    case Guard(_, _, _, next) => LenAppend(next, b);
    case Choose(_, _, _, next) => LenAppend(next, b);
    case Refuse(next) => LenAppend(next, b);
  }

  lemma {:induction false} EmittedAppend(code: Code, i: nat, a: Block, b: Block)
    requires Open(a) && Emitted(code, i, a) && Emitted(code, i + Len(a), b)
    ensures Emitted(code, i, Append(a, b))
    decreases a, 1
  {
    hide IfAt, GotoAt;
    match a
    case End =>
    case Do(_, next) => EmittedAppend(code, i + 1, next, b);
    case Guard(cond, sense, body, next) => EmittedAppendGuard(code, i, a, b);
    case Choose(cond, yes, no, next) => EmittedAppendChoose(code, i, a, b);
    case Refuse(next) => EmittedAppend(code, i + 1, next, b);
  }

  lemma {:induction false} EmittedAppendGuard(code: Code, i: nat, a: Block, b: Block)
    requires a.Guard? && Open(a) && Emitted(code, i, a) && Emitted(code, i + Len(a), b)
    ensures Emitted(code, i, Append(a, b))
    decreases a, 0
  {
    hide *;
    Parts(code, i, a, b);
    EmittedAppend(code, i + 1 + Len(a.body), a.next, b);
    GuardNext(code, i, a, a.cond, a.sense, a.body, Append(a.next, b));
  }

  lemma {:induction false} EmittedAppendChoose(code: Code, i: nat, a: Block, b: Block)
    requires a.Choose? && Open(a) && Emitted(code, i, a) && Emitted(code, i + Len(a), b)
    ensures Emitted(code, i, Append(a, b))
    decreases a, 0
  {
    hide *;
    Parts(code, i, a, b);
    EmittedAppend(code, i + 2 + Len(a.yes) + Len(a.no), a.next, b);
    ChooseNext(code, i, a, a.cond, a.yes, a.no, Append(a.next, b));
  }

  /** One unfolding of the definitions for a branching block. */
  lemma Parts(code: Code, i: nat, a: Block, b: Block)
    requires Open(a) && Emitted(code, i, a)
    ensures a.Guard? ==>
              && Open(a.next)
              && Len(a) == 1 + Len(a.body) + Len(a.next)
              && Emitted(code, i + 1 + Len(a.body), a.next)
              && Append(a, b) == Guard(a.cond, a.sense, a.body, Append(a.next, b))
    ensures a.Choose? ==>
              && Open(a.next)
              && Len(a) == 2 + Len(a.yes) + Len(a.no) + Len(a.next)
              && Emitted(code, i + 2 + Len(a.yes) + Len(a.no), a.next)
              && Append(a, b) == Choose(a.cond, a.yes, a.no, Append(a.next, b))
  {
    hide IfAt, GotoAt;
  }

  /** What follows a branch can be exchanged for anything emitted at the same place. */
  lemma GuardNext(code: Code, i: nat, a: Block, cond: Expr, sense: bool, body: Block, next: Block)
    requires a.Guard? && a.cond == cond && a.sense == sense && a.body == body && Emitted(code, i, a)
    requires Emitted(code, i + 1 + Len(body), next)
    ensures Emitted(code, i, Guard(cond, sense, body, next))
  {
    hide IfAt, GotoAt;
  }

  lemma ChooseNext(code: Code, i: nat, a: Block, cond: Expr, yes: Block, no: Block, next: Block)
    requires a.Choose? && a.cond == cond && a.yes == yes && a.no == no && Emitted(code, i, a)
    requires Emitted(code, i + 2 + Len(yes) + Len(no), next)
    ensures Emitted(code, i, Choose(cond, yes, no, next))
  {
    hide IfAt, GotoAt;
  }

  /** Emitting two blocks one after the other emits their concatenation. */
  lemma EmitsAppend(c0: Code, c1: Code, c2: Code, a: Block, b: Block)
    requires Open(a) && Emits(c0, c1, a) && Emits(c1, c2, b)
    ensures Emits(c0, c2, Append(a, b))
  {
    hide Emitted, Len, Append;
    EmittedStable(c1, c2, |c0.insns|, a);
    EmittedAppend(c2, |c0.insns|, a, b);
    LenAppend(a, b);
  }

  /** A branch on two fresh labels around a body: the shape of every `if` without an `else`.
      `c1` is the code once the branch is appended and the body's label marked, `c2` once the
      body is emitted. */
  lemma GuardIntro(c: Code, c1: Code, c2: Code, cond: Expr, sense: bool, body: Block)
    requires var l := |c.marks|;
      c1 == Code.Code(c.insns + [If(cond, l, l + 1)],
                      c.marks + (if sense then [Some(|c.insns| + 1), None] else [None, Some(|c.insns| + 1)]))
    requires Emits(c1, c2, body)
    ensures var l := |c.marks| + (if sense then 1 else 0);
      && l < |c2.marks| && c2.marks[l] == None
      && Emits(c, Code.Code(c2.insns, c2.marks[l := Some(|c2.insns|)]), Guard(cond, sense, body, End))
  {
    hide IfAt, GotoAt;
    var l := |c.marks| + (if sense then 1 else 0);
    assert c1.marks[l] == None;
    var c3 := Code.Code(c2.insns, c2.marks[l := Some(|c2.insns|)]);
    ExtendsOver(c, c1, c2);
    ExtendsUnder(c, c2, l);
    EmittedStable(c2, c3, |c1.insns|, body);
    assert c2.insns[..|c1.insns|] == c1.insns && c2.marks[..|c1.marks|] == c1.marks;
    GuardLabels(c, c3, cond, sense, |c1.insns|, |c2.insns|);
    assert |c3.insns| == |c.insns| + Len(Guard(cond, sense, body, End));
    assert Emitted(c3, |c.insns|, Guard(cond, sense, body, End));
  }

  lemma ExtendsOver(a: Code, b: Code, c: Code)
    requires Extends(a, b) && Extends(b, c)
    ensures Extends(a, c)
  {}

  /** Marking a label that `a` does not have leaves `a` a prefix. */
  lemma ExtendsUnder(a: Code, b: Code, l: Label)
    requires Extends(a, b) && |a.marks| <= l < |b.marks|
    ensures Extends(a, Code.Code(b.insns, b.marks[l := Some(|b.insns|)]))
  {}

  lemma GuardLabels(c: Code, c3: Code, cond: Expr, sense: bool, first: nat, after: nat)
    requires |c.insns| < |c3.insns| && c3.insns[|c.insns|] == If(cond, |c.marks|, |c.marks| + 1)
    requires |c.marks| + 1 < |c3.marks|
    requires c3.marks[|c.marks|] == Some(if sense then first else after)
    requires c3.marks[|c.marks| + 1] == Some(if sense then after else first)
    ensures if sense then IfAt(c3, |c.insns|, cond, first, after) else IfAt(c3, |c.insns|, cond, after, first)
  {}

  /** The same with an `else`: three fresh labels and a goto over the second body. */
  lemma ChooseIntro(c: Code, c1: Code, c2: Code, c3: Code, c4: Code, cond: Expr, yes: Block, no: Block)
    requires var l := |c.marks|;
      c1 == Code.Code(c.insns + [If(cond, l, l + 1)], c.marks + [Some(|c.insns| + 1), None, None])
    requires Emits(c1, c2, yes)
    requires |c.marks| + 1 < |c2.marks|
    requires c3 == Code.Code(c2.insns + [Goto(|c.marks| + 2)], c2.marks[|c.marks| + 1 := Some(|c2.insns| + 1)])
    requires Emits(c3, c4, no)
    ensures var l := |c.marks| + 2;
      && l < |c4.marks| && c4.marks[l] == None
      && Emits(c, Code.Code(c4.insns, c4.marks[l := Some(|c4.insns|)]), Choose(cond, yes, no, End))
  {
    hide IfAt, GotoAt;
    var l := |c.marks|;
    assert c1.marks[l + 1] == None && c1.marks[l + 2] == None && c1.marks[l] == Some(|c1.insns|);
    assert c2.marks[l + 2] == c1.marks[l + 2] && c2.marks[l] == c1.marks[l];
    assert c3.marks[l + 2] == None && c3.marks[l] == Some(|c1.insns|) && c3.marks[l + 1] == Some(|c3.insns|);
    var c5 := Code.Code(c4.insns, c4.marks[l + 2 := Some(|c4.insns|)]);
    assert c4.insns[..|c3.insns|] == c3.insns && c3.insns[..|c2.insns|] == c2.insns;
    ExtendsOver(c, c1, c2);
    ExtendsUnder(c, c2, l + 1);
    ExtendsOver(c, c3, c4);
    ExtendsUnder(c, c4, l + 2);
    EmittedStable(c2, c5, |c1.insns|, yes);
    EmittedStable(c4, c5, |c3.insns|, no);
    ChooseLabels(c, c5, cond, |c1.insns|, |c3.insns|, |c4.insns|);
    assert |c5.insns| == |c.insns| + Len(Choose(cond, yes, no, End));
    assert Emitted(c5, |c.insns|, Choose(cond, yes, no, End));
  }

  lemma ChooseLabels(c: Code, c5: Code, cond: Expr, yes: nat, no: nat, after: nat)
    requires var i, l := |c.insns|, |c.marks|;
      && i < no - 1 < |c5.insns| && l + 2 < |c5.marks|
      && c5.insns[i] == If(cond, l, l + 1) && c5.insns[no - 1] == Goto(l + 2)
      && c5.marks[l] == Some(yes) && c5.marks[l + 1] == Some(no) && c5.marks[l + 2] == Some(after)
    ensures IfAt(c5, |c.insns|, cond, yes, no) && GotoAt(c5, no - 1, after)
  {}

  lemma {:induction false} AppendIsOpen(a: Block, b: Block)
    requires Open(a) && Open(b)
    ensures Open(Append(a, b))
  {
    match a
    case End =>
    case Do(_, next) => AppendIsOpen(next, b);
    case Guard(_, _, _, next) => AppendIsOpen(next, b);
    case Choose(_, _, _, next) => AppendIsOpen(next, b);
    case Refuse(next) => AppendIsOpen(next, b);
  }

  /** Two plain instructions. */
  function Two(a: Insn, b: Insn): (r: Block)
    ensures Open(r)
  {
    assert Open(Do(b, End));
    Do(a, Do(b, End))
  }

  function OpenAppend(a: Block, b: Block): (r: Block)
    requires Open(a) && Open(b)
    ensures Open(r)
  {
    AppendIsOpen(a, b);
    Append(a, b)
  }

  lemma {:induction false} ExecAppend(a: Block, b: Block, st: State, o: Oracle)
    requires Open(a)
    ensures ExecBlock(Append(a, b), st, o) == Then(ExecBlock(a, st, o), b, o)
    decreases a
  {
    hide Eval, Exec;
    match a
    case End =>
    case Do(insn, next) => if insn.IsPlain() { ExecAppend(next, b, Exec(insn, st, o), o); }
    case Guard(cond, sense, body, next) =>
      if (Eval(cond, st) != 0) == sense {
        var r := ExecBlock(body, st, o);
        if r.Falls? { ExecAppend(next, b, r.st, o); }
      } else {
        ExecAppend(next, b, st, o);
      }
    case Choose(cond, yes, no, next) =>
      var r := if Eval(cond, st) != 0 then ExecBlock(yes, st, o) else ExecBlock(no, st, o);
      if r.Falls? { ExecAppend(next, b, r.st, o); }
    case Refuse(_) =>
  }
}
