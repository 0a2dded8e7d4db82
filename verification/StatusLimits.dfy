/** PUSH and POP of ST0, ST1 and RB: exactly when the lifted code ends as the machine does. */
module StatusLimits {
  import opened Registers
  import opened Instructions
  import opened Il
  import opened IlCode
  import opened LiftStack
  import opened Lifter
  import opened Relation
  import opened SimArith
  import opened SimMov
  import opened SimStack
  import opened Simulation
  import opened StraightLine
  import opened StackNesting
  import opened Limits
  import Scratch
  import M = Machine

  /** The lifted push or pop is its block, and the machine's step its effect. */
  lemma StackRow(id: StackId, st: State, ms: M.Machine, o: Oracle)
    requires id.PUSH? || id.POP?
    ensures var row := Scratch.Row(Stack(id), []);
      && ExecBlock(Lifted(row), st, o) == ExecBlock(StackBlock(id, []), st, o)
      && M.Step(row, ms) == M.Next(M.StackEffect(id, [], ms))
  {
    hide ExecBlock, StackBlock, M.StackEffect, M.Holds;
    Unc(ms.status);
  }

  // ---- POP ST0 ----

  /** The word a POP loads into ST0. */
  function PoppedStatus(arm: StackArm, ms: M.Machine): nat
    requires RoomDown(ms, M.ArmWords(arm))
  {
    M.ReadWords(ms.mem, ms.sp - M.ArmWords(arm), 2)
  }

  /** Bits 2 to 5 of a word are the TC, C, Z and N there are, as far as they are known. */
  predicate KeepsFlags(k: Known, s: M.Status, w: nat) {
    && M.BitAt(w, 4) == s.tc
    && (!k.c.Unknown? ==> M.BitAt(w, 8) == s.c)
    && (k.z ==> M.BitAt(w, 16) == s.z)
    && (k.n ==> M.BitAt(w, 32) == s.n)
  }

  lemma LoadedFlags(k: Known, f: Flags, s: M.Status, w: nat)
    requires SameFlags(k, f, s)
    ensures SameFlags(k, f, M.LoadStatus(s, w)) <==> KeepsFlags(k, s, w)
  {
    hide M.BitAt;
  }

  /** The registers and memory agree; only the status decides. */
  lemma StatusDecides(k: Known, st: State, m: M.Machine, w: nat)
    requires Rel(k, st, m)
    ensures Rel(k, st, m.(status := M.LoadStatus(m.status, w))) <==> KeepsFlags(k, m.status, w)
  {
    hide SameRegs, SameMem, SameFlags, M.LoadStatus, KeepsFlags;
    RelParts(k, st, m);
    LoadedFlags(k, st.flags, m.status, w);
    RegsOnly(st.regs, m, M.LoadStatus(m.status, w));
    RelParts(k, st, m.(status := M.LoadStatus(m.status, w)));
  }

  lemma PopST0Only(k: Known, st: State, ms: M.Machine, o: Oracle)
    requires RoomDown(ms, 1) && Rel(k, st, ms)
    ensures var out := ExecBlock(PopBlock(ST0, 2), st, o);
      out.Falls? && (Rel(k, out.st, M.PopReg(ms, ST0)) <==> KeepsFlags(k, ms.status, M.ReadWords(ms.mem, ms.sp - 1, 2)))
  {
    hide Rel, ExecBlock, PopBlock, M.ReadWords, WriteReg, KeepsFlags, M.LoadStatus;
    RelSp(k, st, ms);
    PopLoads(ST0, k, st, ms, o);
    var low := M.Lower(ms, 2);
    var w := M.ReadWords(low.mem, low.sp, 2);
    StatusDecides(k, ExecBlock(PopBlock(ST0, 2), st, o).st, M.PutReg(low, ST0, w), w);
  }

  /** The lifted POP ST0, alone or with T, leaves the flags as they were: it ends as the machine
      does exactly when the popped word says the same of TC, C, Z and N. */
  lemma {:induction false} PopStatusExact(arm: StackArm, k: Known, st: State, ms: M.Machine, o: Oracle)
    requires MovesST0(arm) && RoomDown(ms, M.ArmWords(arm)) && Rel(k, st, ms)
    ensures var row := Scratch.Row(Stack(POP(arm)), []);
      Matches(ExecBlock(Lifted(row), st, o), M.Step(row, ms), k) <==> KeepsFlags(k, ms.status, PoppedStatus(arm, ms))
  {
    hide Rel, ExecBlock, PopBlock, PopPair, Lifted, M.Step, M.PopReg, KeepsFlags, M.ReadWords;
    StackRow(POP(arm), st, ms, o);
    if arm.ArmST0? {
      PopST0Only(k, st, ms, o);
    } else {
      KeepsTC(T, ms);
      PopOk(T, k, st, ms, o);
      var mid := ExecBlock(PopBlock(T, 2), st, o);
      PopT(k, st, ms);
      PopST0Only(k, mid.st, M.PopReg(ms, T), o);
      PopPairIs(st, o);
    }
  }

  lemma PopT(k: Known, st: State, ms: M.Machine)
    requires RoomDown(ms, 2) && Rel(k, st, ms)
    ensures var m := M.PopReg(ms, T); m.sp == ms.sp - 1 && m.mem == ms.mem && m.status == ms.status && RoomDown(m, 1)
  {
    hide Rel, M.ReadWords, WriteReg;
    RelSp(k, st, ms);
  }

  lemma PopPairIs(st: State, o: Oracle)
    ensures ExecBlock(PopPair(T, ST0), st, o) == Then(ExecBlock(PopBlock(T, 2), st, o), PopBlock(ST0, 2), o)
  {
    hide PopBlock, ExecBlock;
    ExecAppend(PopBlock(T, 2), PopBlock(ST0, 2), st, o);
  }

  /** With Z set and the word 0 on the stack, POP ST0 clears the machine's Z and not the IL's. */
  lemma PopStatusFails(o: Oracle)
    ensures var st := OneInAcc().(regs := map[SP := 2], flags := OneInAcc().flags.(z := true));
      var row := Scratch.Row(Stack(POP(ArmST0)), []);
      && Rel(Known(Direct, true, true), st, Abstract(st))
      && !Matches(ExecBlock(Lifted(row), st, o), M.Step(row, Abstract(st)), Known(Direct, true, true))
  {
    hide Rel, SameMem, Matches, Lifted, ExecBlock, M.Step;
    var st := OneInAcc().(regs := map[SP := 2], flags := OneInAcc().flags.(z := true));
    AbstractRel(st);
    PopStatusExact(ArmST0, Known(Direct, true, true), st, Abstract(st), o);
    assert PoppedStatus(ArmST0, Abstract(st)) == 0;
  }

  // ---- PUSH ST0 and ST1 ----

  /** Two stores that differ are told apart by memory. */
  lemma StoredTells(k: Known, k': Known, st: State, ms: M.Machine, a: nat, b: nat)
    requires RoomUp(ms, 1) && a < 0x1_0000 && b < 0x1_0000
    requires Rel(k, st, M.Push(ms, 2, a)) && Rel(k', st, M.Push(ms, 2, b))
    ensures a == b
  {
    hide SameRegs, SameFlags, Half;
    assert M.Word(M.Push(ms, 2, a).mem, ms.sp) == Half(st.mem, 2 * ms.sp) == M.Word(M.Push(ms, 2, b).mem, ms.sp);
  }

  /** The status word an arm pushes. */
  function StatusOf(arm: StackArm): Register { if MovesST0(arm) then ST0 else ST1 }

  lemma PushOneExact(r: Register, k: Known, st: State, ms: M.Machine, o: Oracle)
    requires (r == ST0 || r == ST1) && RoomUp(ms, 1) && Rel(k, st, ms)
    ensures var out := ExecBlock(PushBlock(2, Reg(2, r)), st, o);
      out.Falls? && Rel(k, out.st, M.Push(ms, 2, ReadReg(ms.regs, r)))
      && (Rel(k, out.st, M.PushReg(ms, r)) <==> Current(r, ms))
  {
    hide Rel, ExecBlock, PushBlock, M.Push, M.Live, ReadReg, Reg, FlagsAfter, Eval;
    StatusSizes();
    RelRead(k, st, ms, r);
    RegValue(r, st);
    NoFlags(Immediate(0), 2, r, st, o);
    PushOk(2, Reg(2, r), ReadReg(ms.regs, r), k, st, ms, o);
    LiveBound(r, ms);
    var out := ExecBlock(PushBlock(2, Reg(2, r)), st, o).st;
    if Rel(k, out, M.Push(ms, 2, M.Live(r, ms))) { StoredTells(k, k, out, ms, ReadReg(ms.regs, r), M.Live(r, ms)); }
  }

  /** A second push leaves the word of the first. */
  lemma StoredBelow(k: Known, k': Known, st: State, ms: M.Machine, a: nat, b: nat, v: nat, w: nat)
    requires RoomUp(ms, 2) && a < 0x1_0000 && b < 0x1_0000
    requires Rel(k, st, M.Push(M.Push(ms, 2, a), 2, v)) && Rel(k', st, M.Push(M.Push(ms, 2, b), 2, w))
    ensures a == b
  {
    hide SameRegs, SameFlags, Half;
    assert M.Word(M.Push(M.Push(ms, 2, a), 2, v).mem, ms.sp) == Half(st.mem, 2 * ms.sp)
           == M.Word(M.Push(M.Push(ms, 2, b), 2, w).mem, ms.sp);
  }

  lemma PushTwoExact(r: Register, q: Register, k: Known, st: State, ms: M.Machine, o: Oracle)
    requires (r == ST0 || r == ST1) && (q == T || q == DP) && RoomUp(ms, 2) && Rel(k, st, ms)
    ensures var out := ExecBlock(PushPair(r, q), st, o);
      out.Falls? && (Rel(k, out.st, M.PushReg(M.PushReg(ms, r), q)) <==> Current(r, ms))
  {
    hide Rel, ExecBlock, PushBlock, M.Push, M.Live, ReadReg, Reg, FlagsAfter, Eval, M.PushReg;
    var a, b := ReadReg(ms.regs, r), M.Live(r, ms);
    StatusSizes();
    LiveBound(r, ms);
    PushOneExact(r, k, st, ms, o);
    var mid := ExecBlock(PushBlock(2, Reg(2, r)), st, o).st;
    PushedParts(r, a, ms);
    PushedParts(r, b, ms);
    PushPlainOk(q, k, mid, M.Push(ms, 2, a), o);
    ExecAppend(PushBlock(2, Reg(2, r)), PushBlock(2, Reg(2, q)), st, o);
    var out := ExecBlock(PushPair(r, q), st, o).st;
    PushedTwice(q, M.Push(ms, 2, a));
    PushedTwice(q, M.Push(ms, 2, b));
    if Rel(k, out, M.PushReg(M.PushReg(ms, r), q)) {
      StoredBelow(k, k, out, ms, a, b, ReadReg(ms.regs, q), ReadReg(ms.regs, q));
    }
  }

  lemma PushedParts(r: Register, v: nat, ms: M.Machine)
    requires (r == ST0 || r == ST1) && RoomUp(ms, 2)
    ensures RoomUp(M.Push(ms, 2, v), 1) && M.Push(ms, 2, v).regs == ms.regs
    ensures M.PushReg(ms, r) == M.Push(ms, 2, M.Live(r, ms))
  {
    hide M.WriteWords, M.Live;
  }

  lemma PushedTwice(q: Register, ms: M.Machine)
    requires q == T || q == DP
    ensures q.Size() == 2 && M.PushReg(ms, q) == M.Push(ms, 2, ReadReg(ms.regs, q))
  {
    hide M.Push, ReadReg;
  }

  /** The lifted PUSH of ST0, ST1, T:ST0 or DP:ST1 stores a status register that nothing keeps up to
      date: it ends as the machine does exactly when that register has the machine's live bits. */
  lemma {:induction false} PushStatusExact(arm: StackArm, k: Known, st: State, ms: M.Machine, o: Oracle)
    requires (MovesST0(arm) || MovesST1(arm)) && RoomUp(ms, M.ArmWords(arm)) && Rel(k, st, ms)
    ensures var row := Scratch.Row(Stack(PUSH(arm)), []);
      Matches(ExecBlock(Lifted(row), st, o), M.Step(row, ms), k) <==> Current(StatusOf(arm), ms)
  {
    hide Rel, ExecBlock, PushBlock, PushPair, Lifted, M.Step, M.PushReg, M.Live, ReadReg, Reg;
    StackRow(PUSH(arm), st, ms, o);
    match arm
    case ArmST0 => PushOneExact(ST0, k, st, ms, o);
    case ArmST1 => PushOneExact(ST1, k, st, ms, o);
    case T_ST0 => PushTwoExact(ST0, T, k, st, ms, o);
    case DP_ST1 => PushTwoExact(ST1, DP, k, st, ms, o);
  }

  /** Which bits that are. */
  lemma CurrentExactly(ms: M.Machine)
    ensures var w, s := ReadReg(ms.regs, ST0), ms.status;
      Current(ST0, ms) <==> && M.BitAt(w, 1) == s.modes.sxm && M.BitAt(w, 2) == s.modes.ovm && M.BitAt(w, 4) == s.tc
                            && M.BitAt(w, 8) == s.c && M.BitAt(w, 16) == s.z && M.BitAt(w, 32) == s.n
                              && w / 0x80 % 8 == s.modes.pm % 8
  {
    hide ReadReg, M.BitAt, M.StatusWord;
    var w, s := ReadReg(ms.regs, ST0), ms.status;
    StatusSizes();
    SameFields(w, s);
    SameBit(w, 1, s.modes.sxm);
    SameBit(w, 2, s.modes.ovm);
    SameBit(w, 4, s.tc);
    SameBit(w, 8, s.c);
    SameBit(w, 16, s.z);
    SameBit(w, 32, s.n);
  }

  lemma SameFields(w: nat, s: M.Status)
    requires w < 0x1_0000
    ensures M.StatusWord(w, s) == w <==>
            && w / 1 % 2 == M.Bool(s.modes.sxm) && w / 2 % 2 == M.Bool(s.modes.ovm) && w / 4 % 2 == M.Bool(s.tc)
            && w / 8 % 2 == M.Bool(s.c) && w / 16 % 2 == M.Bool(s.z) && w / 32 % 2 == M.Bool(s.n)
              && w / 0x80 % 8 == s.modes.pm % 8
  {
    hide *;
    Fields(w);
    WordIs(w, s);
    FieldsTell(w % 2, w / 2 % 2, w / 4 % 2, w / 8 % 2, w / 16 % 2, w / 32 % 2, w / 0x80 % 8,
               M.Bool(s.modes.sxm), M.Bool(s.modes.ovm), M.Bool(s.tc), M.Bool(s.c), M.Bool(s.z), M.Bool(s.n),
               s.modes.pm % 8);
  }

  lemma WordIs(w: nat, s: M.Status)
    ensures M.StatusWord(w, s) ==
            M.Bool(s.modes.sxm) + 2 * M.Bool(s.modes.ovm) + 4 * M.Bool(s.tc) + 8 * M.Bool(s.c)
            + 16 * M.Bool(s.z) + 32 * M.Bool(s.n)
            + 0x80 * (s.modes.pm % 8) + (0x40 * (w / 0x40 % 2) + 0x400 * (w / 0x400))
    ensures M.Bool(s.modes.sxm) < 2 && M.Bool(s.modes.ovm) < 2 && M.Bool(s.tc) < 2 && M.Bool(s.c) < 2
            && M.Bool(s.z) < 2 && M.Bool(s.n) < 2
  {}

  lemma Fields(w: nat)
    requires w < 0x1_0000
    ensures w == w % 2 + 2 * (w / 2 % 2) + 4 * (w / 4 % 2) + 8 * (w / 8 % 2) + 16 * (w / 16 % 2) + 32 * (w / 32 % 2)
                 + 0x80 * (w / 0x80 % 8) + (0x40 * (w / 0x40 % 2) + 0x400 * (w / 0x400))
    ensures w / 1 == w
  {
    WordParts(w);
  }

  lemma SameBit(w: nat, weight: nat, b: bool)
    requires weight > 0
    ensures M.BitAt(w, weight) == b <==> w / weight % 2 == M.Bool(b)
    ensures M.Bool(b) < 2
  {}

  /** Fields at different places make the same number only if each is the same. */
  lemma FieldsTell(a: nat, b: nat, c: nat, d: nat, e: nat, f: nat, p: nat, a': nat, b': nat, c': nat, d': nat, e': nat,
                   f': nat, p': nat)
    requires a < 2 && b < 2 && c < 2 && d < 2 && e < 2 && f < 2 && p < 8
    requires a' < 2 && b' < 2 && c' < 2 && d' < 2 && e' < 2 && f' < 2 && p' < 8
    ensures a + 2 * b + 4 * c + 8 * d + 16 * e + 32 * f + 0x80 * p ==
            a' + 2 * b' + 4 * c' + 8 * d' + 16 * e' + 32 * f' + 0x80 * p'
            <==> a == a' && b == b' && c == c' && d == d' && e == e' && f == f' && p == p'
  {}

  /** The same of ST1. */
  lemma CurrentModesExactly(ms: M.Machine)
    ensures var w, m := ReadReg(ms.regs, ST1), ms.status.modes;
      Current(ST1, ms) <==> && M.BitAt(w, 1) == m.intm && M.BitAt(w, 2) == m.dbgm && M.BitAt(w, 4) == m.page0
                            && M.BitAt(w, 8) == m.vmap
  {
    hide ReadReg, M.BitAt, M.ModeWord;
    var w, m := ReadReg(ms.regs, ST1), ms.status.modes;
    ModeFields(w, m);
    SameBit(w, 1, m.intm);
    SameBit(w, 2, m.dbgm);
    SameBit(w, 4, m.page0);
    SameBit(w, 8, m.vmap);
  }

  lemma ModeFields(w: nat, m: M.Modes)
    ensures M.ModeWord(w, m) == w <==>
            && w / 1 % 2 == M.Bool(m.intm) && w / 2 % 2 == M.Bool(m.dbgm)
            && w / 4 % 2 == M.Bool(m.page0) && w / 8 % 2 == M.Bool(m.vmap)
  {
    hide *;
    LowFour(w);
    assert w / 1 == w;
    ModeWordIs(w, m);
    FieldsTell(w % 2, w / 2 % 2, w / 4 % 2, w / 8 % 2, 0, 0, 0, M.Bool(m.intm), M.Bool(m.dbgm), M.Bool(m.page0),
               M.Bool(m.vmap), 0, 0, 0);
  }

  lemma ModeWordIs(w: nat, m: M.Modes)
    ensures M.ModeWord(w, m) ==
            M.Bool(m.intm) + 2 * M.Bool(m.dbgm) + 4 * M.Bool(m.page0) + 8 * M.Bool(m.vmap) + 0x10 * (w / 0x10)
    ensures M.Bool(m.intm) < 2 && M.Bool(m.dbgm) < 2 && M.Bool(m.page0) < 2 && M.Bool(m.vmap) < 2
  {}

  // ---- PUSH RB and POP RB ----

  lemma SpTells(k: Known, k': Known, st: State, a: M.Machine, b: M.Machine)
    requires Rel(k, st, a) && Rel(k', st, b)
    ensures a.sp == b.sp
  {
    hide SameMem;
  }

  /** What the plugin pushes and pops as RB is one word: that of its 16-bit register. */
  lemma {:induction false} RbMovesOneWord(push: bool, k: Known, st: State, ms: M.Machine, o: Oracle)
    requires Rel(k, st, ms) && if push then RoomUp(ms, 1) else RoomDown(ms, 1)
    ensures var row := Scratch.Row(Stack(if push then PUSH(ArmRB) else POP(ArmRB)), []);
      var out := ExecBlock(Lifted(row), st, o);
      && out.Falls?
      && (push ==> Rel(k, out.st, M.Push(ms, 2, ReadReg(st.regs, RB))))
      && (!push ==> var low := M.Lower(ms, 2);
                    Rel(k, out.st, M.PutReg(low, RB, M.ReadWords(low.mem, low.sp, 2))))
  {
    hide Rel, ExecBlock, PushBlock, PopBlock, Lifted, M.Step, ReadReg, Reg, FlagsAfter, Eval, M.ReadWords, M.WriteWords,
      WriteReg;
    StackRow(if push then PUSH(ArmRB) else POP(ArmRB), st, ms, o);
    RelRead(k, st, ms, RB);
    if push {
      RegValue(RB, st);
      NoFlags(Immediate(0), 2, RB, st, o);
      PushOk(2, Reg(2, RB), ReadReg(ms.regs, RB), k, st, ms, o);
    } else {
      PopLoads(RB, k, st, ms, o);
    }
  }

  /** RB takes four bytes on the machine and two in the plugin, so the stack pointers part. */
  lemma {:induction false} RbNeverMatches(push: bool, k: Known, k': Known, st: State, ms: M.Machine, o: Oracle)
    requires Rel(k, st, ms) && if push then RoomUp(ms, 2) else RoomDown(ms, 2)
    ensures var row := Scratch.Row(Stack(if push then PUSH(ArmRB) else POP(ArmRB)), []);
      !Matches(ExecBlock(Lifted(row), st, o), M.Step(row, ms), k')
  {
    hide Rel, ExecBlock, Lifted, M.Step, ReadReg, M.ReadWords, M.Push, M.PushArm, M.PopArm, M.PutReg, M.Lower,
      StackBlock;
    var id := if push then PUSH(ArmRB) else POP(ArmRB);
    StackRow(id, st, ms, o);
    RelSp(k, st, ms);
    RbMovesOneWord(push, k, st, ms, o);
    RbMovesSp(ms, ReadReg(st.regs, RB));
    var out, low := ExecBlock(Lifted(Scratch.Row(Stack(id), [])), st, o).st, M.Lower(ms, 2);
    var here := if push then M.Push(ms, 2, ReadReg(st.regs, RB))
    else M.PutReg(low, RB, M.ReadWords(low.mem, low.sp, 2));
    if Rel(k', out, M.StackEffect(id, [], ms)) { SpTells(k, k', out, here, M.StackEffect(id, [], ms)); }
  }

  /** Where SP goes with one word, and where with RB. */
  lemma RbMovesSp(ms: M.Machine, v: nat)
    requires ms.sp < 0x1_0000
    ensures var low := M.Lower(ms, 2);
      && (RoomUp(ms, 2) ==> M.Push(ms, 2, v).sp == ms.sp + 1 && M.PushArm(ArmRB, ms).sp == ms.sp + 2)
      && (RoomDown(ms, 2) ==>
            M.PutReg(low, RB, M.ReadWords(low.mem, low.sp, 2)).sp == ms.sp - 1 && M.PopArm(ArmRB, ms).sp == ms.sp - 2)
  {
    hide M.WriteWords, M.ReadWords, WriteReg;
  }
}
