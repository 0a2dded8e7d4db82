/** A POP gives back what the PUSH it matches saved, whatever well-bracketed code runs in between. */
module StackNesting {
  import opened Registers
  import opened Operands
  import opened Instructions
  import opened Il
  import opened IlCode
  import opened Relation
  import opened SimMov
  import opened SimStack
  import opened StraightLine
  import opened Storage
  import opened Scratch
  import M = Machine

  // ---- One register ----

  /** SP and everything below it are as `saved` left them. */
  ghost predicate Intact(saved: M.Machine, now: M.Machine) {
    now.sp == saved.sp && SameWords(saved.mem, now.mem, 0, saved.sp)
  }

  /** A push leaves the stack below it alone and the value on top. */
  lemma Pushed(ms: M.Machine, size: nat, v: nat)
    requires (size == 2 || size == 4) && RoomUp(ms, size / 2) && v < Modulus(size)
    ensures var m1 := M.Push(ms, size, v);
      && m1.sp == ms.sp + size / 2 && m1.regs == ms.regs
      && SameWords(ms.mem, m1.mem, 0, ms.sp)
      && M.ReadWords(m1.mem, ms.sp, size) == v
  {
    hide M.WriteWords, M.ReadWords, M.Word, Modulus;
    ReadStored(ms.mem, ms.sp, size, v);
    forall w: nat | w < ms.sp ensures M.Word(M.WriteWords(ms.mem, ms.sp, size, v), w) == M.Word(ms.mem, w) {
      WordUntouched(ms.mem, ms.sp, size, v, w);
    }
  }

  lemma ReadIntact(a: M.Words, b: M.Words, top: nat, addr: nat, size: nat)
    requires (size == 2 || size == 4) && SameWords(a, b, 0, top) && addr + size / 2 <= top < 0x1_0000
    ensures M.ReadWords(a, addr, size) == M.ReadWords(b, addr, size)
  {
    hide M.Word;
    assert M.Word(a, addr) == M.Word(b, addr);
    if size == 4 { assert M.Word(a, addr + 1) == M.Word(b, addr + 1); }
  }

  lemma SameWordsTrans(a: M.Words, b: M.Words, c: M.Words, low: nat, mid: nat, high: nat)
    requires SameWords(a, b, low, mid) && SameWords(b, c, low, high) && mid <= high
    ensures SameWords(a, c, low, mid)
  {
    hide M.Word;
  }

  /** Popping from an intact stack gets the pushed value back and lowers SP to where it was. */
  lemma Popped(ms: M.Machine, r: Register, v: nat, m2: M.Machine)
    requires RoomUp(ms, M.Width(r) / 2) && v < Modulus(M.Width(r)) && Intact(M.Push(ms, M.Width(r), v), m2)
    ensures var m3 := M.PopReg(m2, r);
      && m3.sp == ms.sp && m3.mem == m2.mem && SameWords(ms.mem, m3.mem, 0, ms.sp)
      && m3 == M.LoadLive(m2.(sp := ms.sp), r, v)
  {
    hide M.WriteWords, M.ReadWords, SameWords, WriteReg, M.Width, M.LoadStatus, M.LoadModes;
    var size := M.Width(r);
    Pushed(ms, size, v);
    var m1 := M.Push(ms, size, v);
    ReadIntact(m1.mem, m2.mem, m1.sp, ms.sp, size);
    SameWordsTrans(ms.mem, m1.mem, m2.mem, 0, ms.sp, m1.sp);
  }

  // ---- Status words ----

  /** A word is its low bits and fields. */
  lemma WordParts(v: nat)
    requires v < 0x1_0000
    ensures v == v % 2 + 2 * (v / 2 % 2) + 4 * (v / 4 % 2) + 8 * (v / 8 % 2) + 0x10 * (v / 0x10)
    ensures v / 0x10 == v / 0x10 % 2 + 2 * (v / 0x20 % 2) + 4 * (v / 0x40 % 2) + 8 * (v / 0x80 % 8) + 0x40 * (v / 0x400)
  {
    LowFour(v);
    var w := v / 0x10;
    assert v / 0x20 == w / 2 && v / 0x40 == w / 4 && v / 0x80 == w / 8 && v / 0x400 == w / 0x40;
    HighParts(w);
  }

  lemma LowFour(v: nat)
    ensures v == v % 2 + 2 * (v / 2 % 2) + 4 * (v / 4 % 2) + 8 * (v / 8 % 2) + 0x10 * (v / 0x10)
  {
    assert v / 4 == v / 2 / 2 && v / 8 == v / 4 / 2 && v / 0x10 == v / 8 / 2;
  }

  lemma HighParts(w: nat)
    ensures w == w % 2 + 2 * (w / 2 % 2) + 4 * (w / 4 % 2) + 8 * (w / 8 % 8) + 0x40 * (w / 0x40)
  {
    assert w / 4 == w / 2 / 2 && w / 8 == w / 4 / 2 && w / 0x40 == w / 8 / 8;
  }

  lemma BitWeighs(w: nat, weight: nat)
    requires weight > 0
    ensures M.Bool(M.BitAt(w, weight)) == w / weight % 2
  {}

  lemma StatusLoaded(s: M.Status, v: nat)
    requires v < 0x1_0000
    ensures M.StatusWord(v, M.LoadStatus(s, v)) == v
  {
    hide M.Bool, M.BitAt, M.LoadStatus;
    WordParts(v);
    LoadedBits(s, v);
    ModEight(v / 0x80);
  }

  lemma ModEight(v: nat)
    ensures v % 8 % 8 == v % 8
  {}

  lemma LoadedBits(s: M.Status, v: nat)
    ensures var l := M.LoadStatus(s, v);
      && M.Bool(l.modes.sxm) == v % 2 && M.Bool(l.modes.ovm) == v / 2 % 2 && M.Bool(l.tc) == v / 4 % 2
      && M.Bool(l.c) == v / 8 % 2 && M.Bool(l.z) == v / 0x10 % 2 && M.Bool(l.n) == v / 0x20 % 2
      && l.modes.pm == v / 0x80 % 8
  {
    hide M.Bool, M.BitAt;
    BitWeighs(v, 1);
    BitWeighs(v, 2);
    BitWeighs(v, 4);
    BitWeighs(v, 8);
    BitWeighs(v, 16);
    BitWeighs(v, 32);
  }

  lemma ModesLoaded(m: M.Modes, v: nat)
    requires v < 0x1_0000
    ensures M.ModeWord(v, M.LoadModes(m, v)) == v
  {
    hide M.Bool, M.BitAt;
    WordParts(v);
    BitWeighs(v, 1);
    BitWeighs(v, 2);
    BitWeighs(v, 4);
    BitWeighs(v, 8);
  }

  /** Storing the status and loading the word gives the bits back. */
  lemma BitsComeBack(w: nat, s: M.Status, t: M.Status)
    ensures var back := M.LoadStatus(t, M.StatusWord(w, s));
      && back.n == s.n && back.z == s.z && back.c == s.c && back.tc == s.tc
      && back.modes.sxm == s.modes.sxm && back.modes.ovm == s.modes.ovm
  {
    hide M.StatusWord;
    var rest := w / 0x40 % 2 + 2 * (s.modes.pm % 8) + 0x10 * (w / 0x400);
    StatusSum(w, s, rest);
    SixBits(M.Bool(s.modes.sxm), M.Bool(s.modes.ovm), M.Bool(s.tc), M.Bool(s.c), M.Bool(s.z), M.Bool(s.n), rest);
  }

  lemma StatusSum(w: nat, s: M.Status, rest: nat)
    requires rest == w / 0x40 % 2 + 2 * (s.modes.pm % 8) + 0x10 * (w / 0x400)
    ensures M.StatusWord(w, s) == M.Bool(s.modes.sxm) + 2 * M.Bool(s.modes.ovm) + 4 * M.Bool(s.tc) + 8 * M.Bool(s.c)
                                  + 16 * M.Bool(s.z) + 32 * M.Bool(s.n) + 64 * rest
  {
    hide M.Bool;
  }

  lemma SixBits(a: nat, b: nat, c: nat, d: nat, e: nat, f: nat, rest: nat)
    requires a < 2 && b < 2 && c < 2 && d < 2 && e < 2 && f < 2
    ensures var v := a + 2 * b + 4 * c + 8 * d + 16 * e + 32 * f + 64 * rest;
      && v / 1 % 2 == a && v / 2 % 2 == b && v / 4 % 2 == c && v / 8 % 2 == d && v / 16 % 2 == e && v / 32 % 2 == f
  {
    var v6 := f + 2 * rest;
    var v5 := e + 2 * v6;
    var v4 := d + 2 * v5;
    var v3 := c + 2 * v4;
    var v2 := b + 2 * v3;
    var v := a + 2 * v2;
    Halved(v, 1, a, v2);
    Halved(v2, 1, b, v3);
    Halved(v3, 1, c, v4);
    Halved(v4, 1, d, v5);
    Halved(v5, 1, e, v6);
    Halved(v6, 1, f, rest);
    Quarters(v);
  }

  lemma Halved(v: nat, one: nat, low: nat, high: nat)
    requires v == low + 2 * high && low < 2 && one == 1
    ensures v % 2 == low && v / 2 == high && v / one == v
  {}

  lemma Quarters(v: nat)
    ensures v / 4 == v / 2 / 2 && v / 8 == v / 2 / 2 / 2 && v / 16 == v / 2 / 2 / 2 / 2
            && v / 32 == v / 2 / 2 / 2 / 2 / 2
  {
    assert v / 8 == v / 4 / 2 && v / 16 == v / 8 / 2 && v / 32 == v / 16 / 2;
  }

  lemma LiveBound(r: Register, ms: M.Machine)
    ensures M.Live(r, ms) < Modulus(M.Width(r))
  {
    hide ReadReg, Wrap;
    var w := ReadReg(ms.regs, ST0);
    assert ST0.Size() == 2 && ST1.Size() == 2;
    assert w / 0x400 < 0x40 && ReadReg(ms.regs, ST1) / 0x10 < 0x1000;
  }

  /** A loaded register holds the value. */
  lemma LiveLoaded(ms: M.Machine, r: Register, v: nat)
    requires v < Modulus(M.Width(r))
    ensures M.Live(r, M.LoadLive(ms, r, v)) == v
    ensures r != RB ==> ReadReg(M.LoadLive(ms, r, v).regs, r) == v
  {
    hide ReadReg, WriteReg, M.LoadStatus, M.LoadModes, M.StatusWord, M.ModeWord, Register.Size, Wrap;
    assert ST0.Size() == 2 && ST1.Size() == 2 by { StatusSizes(); }
    ReadWritten(ms.regs, r, v);
    WrapIs(v, M.Width(r));
    if r == ST0 { StatusLoaded(ms.status, v); }
    if r == ST1 { ModesLoaded(ms.status.modes, v); }
  }

  lemma StatusSizes()
    ensures ST0.Size() == 2 && ST1.Size() == 2
  {}

  lemma WrapIs(v: nat, size: nat)
    requires v < Modulus(size)
    ensures Wrap(v, size) == v
  {}

  /** Loading one register leaves another, which is no status word, as it was. */
  lemma LiveOther(ms: M.Machine, r: Register, v: nat, q: Register)
    requires r.Parent() != q.Parent() && q != ST0 && q != ST1 && q != RB
    ensures M.Live(q, M.LoadLive(ms, r, v)) == M.Live(q, ms) == ReadReg(M.LoadLive(ms, r, v).regs, q)
  {
    hide ReadReg, WriteReg, M.LoadStatus, M.LoadModes, Register.Parent;
    WriteOther(ms.regs, r, q, v);
  }

  // ---- What saves a register ----

  /** The registers the loc16 field names, but SP. */
  type LocRegister = r: Register | r.AR? || r == AH || r == AL || r == PH || r == PL || r == T witness AL

  /** A PUSH and POP that carry their registers in their name, or PUSH and POP of a register
      named by the operand. */
  datatype Save = Arm(arm: StackArm) | Loc(reg: LocRegister)

  function PushOf(s: Save, ms: M.Machine): M.Machine {
    match s
    case Arm(arm) => M.PushArm(arm, ms)
    case Loc(r) => M.PushReg(ms, r)
  }

  function PopOf(s: Save, ms: M.Machine): M.Machine {
    match s
    case Arm(arm) => M.PopArm(arm, ms)
    case Loc(r) => M.PopReg(ms, r)
  }

  function Words(s: Save): nat {
    match s
    case Arm(arm) => M.ArmWords(arm)
    case Loc(_) => 1
  }

  const HIGHS: Save := Arm(AR1H_AR0H)

  const LOWS: Save := Arm(AR1_AR0)

  /** The registers pushed, in push order; the high-half arm pushes halves instead. */
  function Pieces(s: Save): (rs: seq<Register>)
    ensures if s == HIGHS then rs == [] else 1 <= |rs| <= 2 && forall r :: r in rs ==> r != SP
  {
    match s
    case Loc(r) => [r]
    case Arm(arm) =>
      match arm
      case ArmST0 => [ST0]
      case ArmST1 => [ST1]
      case ArmDP => [DP]
      case ArmRPC => [RPC]
      case ArmIFR => [IFR]
      case ArmDBGIER => [DBGIER]
      case ArmP => [P]
      case ArmXT => [XT]
      case ArmRB => [RB]
      case AR1_AR0 => [AR(0), AR(1)]
      case AR3_AR2 => [AR(2), AR(3)]
      case AR5_AR4 => [AR(4), AR(5)]
      case DP_ST1 => [ST1, DP]
      case T_ST0 => [ST0, T]
      case AR1H_AR0H => []
  }

  /** The registers hold again what was saved, status bits included. */
  predicate Reloaded(s: Save, ms: M.Machine, now: M.Machine) {
    if s == HIGHS then
      && ReadReg(ms.regs, XAR(0)) / 0x1_0000 == ReadReg(now.regs, XAR(0)) / 0x1_0000
      && ReadReg(ms.regs, XAR(1)) / 0x1_0000 == ReadReg(now.regs, XAR(1)) / 0x1_0000
    else
      forall r :: r in Pieces(s) ==>
        M.Live(r, now) == M.Live(r, ms) && (r != RB ==> ReadReg(now.regs, r) == M.Live(r, ms))
  }

  lemma SaveShape(s: Save, ms: M.Machine)
    ensures var rs := Pieces(s);
      && (|rs| == 1 ==> PushOf(s, ms) == M.PushReg(ms, rs[0]) && PopOf(s, ms) == M.PopReg(ms, rs[0]))
      && (|rs| == 2 ==> PushOf(s, ms) == M.PushReg(M.PushReg(ms, rs[0]), rs[1])
                        && PopOf(s, ms) == M.PopReg(M.PopReg(ms, rs[1]), rs[0]))
  {
    hide M.PushReg, M.PopReg, M.PushHigh, M.PopHigh;
  }

  lemma PieceSizes(s: Save)
    ensures var rs := Pieces(s);
      && (|rs| == 1 ==> Words(s) == M.Width(rs[0]) / 2)
      && (|rs| == 2 ==>
            && M.Width(rs[0]) == 2 && M.Width(rs[1]) == 2 && Words(s) == 2
            && rs[0].Parent() != rs[1].Parent()
            && rs[1] != ST0 && rs[1] != ST1 && rs[1] != RB)
  {}

  /** What a matching pop re-establishes. */
  ghost predicate Restored(s: Save, ms: M.Machine, m3: M.Machine) {
    Intact(ms, m3) && Reloaded(s, ms, m3)
  }

  lemma OneRestored(s: Save, ms: M.Machine, m2: M.Machine)
    requires |Pieces(s)| == 1 && RoomUp(ms, Words(s)) && Intact(PushOf(s, ms), m2)
    ensures Restored(s, ms, PopOf(s, m2))
  {
    hide PushOf, PopOf, M.Push, M.PopReg, Pieces, ReadReg, SameWords, Words, Modulus, M.Live, M.LoadLive, M.Width;
    var r := Pieces(s)[0];
    SaveShape(s, ms);
    PieceSizes(s);
    SaveShape(s, m2);
    var v := M.Live(r, ms);
    LiveBound(r, ms);
    Popped(ms, r, v, m2);
    LiveLoaded(m2.(sp := ms.sp), r, v);
    assert forall q :: q in Pieces(s) ==> q == r;
  }

  lemma PushKeeps(ms: M.Machine, a: Register, q: Register)
    ensures M.Live(q, M.PushReg(ms, a)) == M.Live(q, ms)
  {
    hide ReadReg, M.WriteWords, M.StatusWord, M.ModeWord, Wrap;
  }

  lemma TwoRestored(s: Save, ms: M.Machine, m2: M.Machine)
    requires |Pieces(s)| == 2 && RoomUp(ms, Words(s)) && Intact(PushOf(s, ms), m2)
    ensures Restored(s, ms, PopOf(s, m2))
  {
    hide PushOf, PopOf, M.PopReg, M.WriteWords, Pieces, ReadReg, SameWords, Words, Modulus, M.Live, M.LoadLive, M.Width;
    var a, b := Pieces(s)[0], Pieces(s)[1];
    SaveShape(s, ms);
    PieceSizes(s);
    SaveShape(s, m2);
    var va, vb := M.Live(a, ms), M.Live(b, ms);
    LiveBound(a, ms);
    LiveBound(b, ms);
    var m1 := M.PushReg(ms, a);
    PushKeeps(ms, a, b);
    Popped(m1, b, vb, m2);
    var m3 := M.PopReg(m2, b);
    Popped(ms, a, va, m3);
    LiveLoaded(m2.(sp := m1.sp), b, vb);
    LiveLoaded(m3.(sp := ms.sp), a, va);
    LiveOther(m3.(sp := ms.sp), a, va, b);
    LiveAtSp(m3, ms.sp, b);
    assert forall q :: q in Pieces(s) ==> q == a || q == b;
  }

  lemma LiveAtSp(ms: M.Machine, sp: nat, q: Register)
    ensures M.Live(q, ms.(sp := sp)) == M.Live(q, ms)
  {
    hide ReadReg, M.StatusWord, M.ModeWord, Wrap;
  }

  lemma HighPopped(ms: M.Machine, r: Register, v: nat, m2: M.Machine)
    requires r.XAR? && RoomUp(ms, 1) && v < 0x1_0000 && Intact(M.Push(ms, 2, v), m2)
    ensures var m3 := M.PopHigh(m2, r);
      && Intact(ms, m3) && m3.mem == m2.mem
      && m3.regs == WriteReg(m2.regs, r, ReadReg(m2.regs, r) % 0x1_0000 + 0x1_0000 * v)
  {
    hide M.WriteWords, M.ReadWords, SameWords, ReadReg, WriteReg;
    Pushed(ms, 2, v);
    var m1 := M.Push(ms, 2, v);
    ReadIntact(m1.mem, m2.mem, m1.sp, ms.sp, 2);
    SameWordsTrans(ms.mem, m1.mem, m2.mem, 0, ms.sp, m1.sp);
  }

  lemma Rebuilt(regs: RegFile, r: Register, v: nat)
    requires r.XAR? && v < 0x1_0000
    ensures var whole := ReadReg(regs, r) % 0x1_0000 + 0x1_0000 * v;
      ReadReg(WriteReg(regs, r, whole), r) == whole && whole / 0x1_0000 == v
        && whole % 0x1_0000 == ReadReg(regs, r) % 0x1_0000
  {
    hide ReadReg, WriteReg;
    ReadWritten(regs, r, ReadReg(regs, r) % 0x1_0000 + 0x1_0000 * v);
  }

  /** The rebuilt registers have the saved high halves and keep their own low halves. */
  lemma HighsRestored(ms: M.Machine, m2: M.Machine)
    requires RoomUp(ms, 2) && Intact(PushOf(HIGHS, ms), m2)
    ensures var m4 := PopOf(HIGHS, m2);
      && Restored(HIGHS, ms, m4)
      && ReadReg(m4.regs, XAR(0)) % 0x1_0000 == ReadReg(m2.regs, XAR(0)) % 0x1_0000
      && ReadReg(m4.regs, XAR(1)) % 0x1_0000 == ReadReg(m2.regs, XAR(1)) % 0x1_0000
  {
    hide M.WriteWords, M.PopHigh, SameWords, ReadReg, WriteReg;
    XarWidth(ms.regs);
    var v0, v1 := ReadReg(ms.regs, XAR(0)) / 0x1_0000, ReadReg(ms.regs, XAR(1)) / 0x1_0000;
    var m1 := M.Push(ms, 2, v0);
    HighPopped(m1, XAR(1), v1, m2);
    var m3 := M.PopHigh(m2, XAR(1));
    HighPopped(ms, XAR(0), v0, m3);
    Rebuilt(m2.regs, XAR(1), v1);
    Rebuilt(m3.regs, XAR(0), v0);
    WriteOther(m2.regs, XAR(1), XAR(0), ReadReg(m2.regs, XAR(1)) % 0x1_0000 + 0x1_0000 * v1);
    WriteOther(m3.regs, XAR(0), XAR(1), ReadReg(m3.regs, XAR(0)) % 0x1_0000 + 0x1_0000 * v0);
  }

  lemma XarWidth(regs: RegFile)
    ensures forall n: Index :: ReadReg(regs, XAR(n)) / 0x1_0000 < 0x1_0000
  {
    hide ReadReg, Modulus;
  }

  lemma SaveRestored(s: Save, ms: M.Machine, m2: M.Machine)
    requires RoomUp(ms, Words(s)) && Intact(PushOf(s, ms), m2)
    ensures Restored(s, ms, PopOf(s, m2))
  {
    hide PushOf, PopOf, Restored, Intact;
    if s == HIGHS { HighsRestored(ms, m2); }
    else if |Pieces(s)| == 1 { OneRestored(s, ms, m2); }
    else { TwoRestored(s, ms, m2); }
  }

  lemma SavePushed(s: Save, ms: M.Machine)
    requires RoomUp(ms, Words(s))
    ensures PushOf(s, ms).sp == ms.sp + Words(s)
  {
    hide ReadReg, M.WriteWords, PushOf, Words, Pieces, M.Width, Register.Parent, M.PushHigh, M.Live;
    SaveShape(s, ms);
    PieceSizes(s);
    if s == HIGHS { HighsPushed(ms); }
  }

  lemma HighsPushed(ms: M.Machine)
    ensures Words(HIGHS) == 2
    ensures RoomUp(ms, 2) ==> PushOf(HIGHS, ms).sp == ms.sp + 2
  {
    hide ReadReg, M.WriteWords;
  }

  // ---- Nested code ----

  /** Straight code and brackets, nested to any depth. */
  datatype Nesting =
    | Done
    | Straight(body: seq<DecodedInstruction>, next: Nesting)
    | Bracket(save: Save, inner: Nesting, next: Nesting)

  function PushRow(s: Save): DecodedInstruction {
    match s
    case Arm(arm) => Row(Stack(PUSH(arm)), [])
    case Loc(r) => Row(Stack(PUSH_LOC16), [Loc16(RegDirect(r))])
  }

  function PopRow(s: Save): DecodedInstruction {
    match s
    case Arm(arm) => Row(Stack(POP(arm)), [])
    case Loc(r) => Row(Stack(POP_LOC16), [Loc16(RegDirect(r))])
  }

  function Bracketed(s: Save, inner: seq<DecodedInstruction>): seq<DecodedInstruction> {
    [PushRow(s)] + (inner + [PopRow(s)])
  }

  function CodeOf(n: Nesting): seq<DecodedInstruction> {
    match n
    case Done => []
    case Straight(body, next) => body + CodeOf(next)
    case Bracket(s, inner, next) => Bracketed(s, CodeOf(inner)) + CodeOf(next)
  }

  /** The straight parts keep SP and write nothing below it, and SP never leaves 16 bits. */
  ghost predicate Behaves(n: Nesting, ms: M.Machine) {
    match n
    case Done => true
    case Straight(body, next) => Intact(ms, Steps(body, ms)) && Behaves(next, Steps(body, ms))
    case Bracket(s, inner, next) =>
      RoomUp(ms, Words(s)) && Behaves(inner, PushOf(s, ms)) && Behaves(next, Steps(Bracketed(s, CodeOf(inner)), ms))
  }

  /** No condition in the code decides whether a push or pop runs. */
  lemma RowSteps(s: Save, ms: M.Machine)
    ensures M.Step(PushRow(s), ms) == M.Next(M.Effect(PushRow(s), ms))
            && M.Step(PopRow(s), ms) == M.Next(M.Effect(PopRow(s), ms))
  {
    hide M.Effect;
    if s.Loc? { assert PushRow(s).operands[1..] == [] && PopRow(s).operands[1..] == []; }
  }

  lemma RowEffects(s: Save, ms: M.Machine)
    ensures M.Effect(PushRow(s), ms) == PushOf(s, ms) && M.Effect(PopRow(s), ms) == PopOf(s, ms)
  {
    hide M.PushArm, M.PopArm, ReadReg, WriteReg, M.ReadWords, M.WriteWords, M.LoadStatus, M.LoadModes;
  }

  lemma PushStep(s: Save, ms: M.Machine)
    ensures Steps([PushRow(s)], ms) == PushOf(s, ms)
  {
    hide PushOf, M.Effect, M.Step, PushRow, PopRow;
    RowSteps(s, ms);
    RowEffects(s, ms);
    assert [PushRow(s)][1..] == [];
  }

  lemma PopStep(s: Save, ms: M.Machine)
    ensures Steps([PopRow(s)], ms) == PopOf(s, ms)
  {
    hide PopOf, M.Effect, M.Step, PushRow, PopRow;
    RowSteps(s, ms);
    RowEffects(s, ms);
    assert [PopRow(s)][1..] == [];
  }

  lemma BracketSteps(s: Save, inner: seq<DecodedInstruction>, ms: M.Machine)
    ensures Steps(Bracketed(s, inner), ms) == PopOf(s, Steps(inner, PushOf(s, ms)))
  {
    hide PushOf, PopOf, Steps;
    StepsAppend([PushRow(s)], inner + [PopRow(s)], ms);
    PushStep(s, ms);
    StepsAppend(inner, [PopRow(s)], PushOf(s, ms));
    PopStep(s, Steps(inner, PushOf(s, ms)));
  }

  lemma IntactTrans(a: M.Machine, b: M.Machine, c: M.Machine)
    requires Intact(a, b) && Intact(b, c)
    ensures Intact(a, c)
  {
    hide SameWords;
    SameWordsTrans(a.mem, b.mem, c.mem, 0, a.sp, b.sp);
  }

  lemma IntactSelf(ms: M.Machine)
    ensures Intact(ms, ms)
  {}

  /** Nested code leaves SP and the stack below it as they were. */
  lemma {:induction false} NestingIntact(n: Nesting, ms: M.Machine)
    requires Behaves(n, ms)
    ensures Intact(ms, Steps(CodeOf(n), ms))
    decreases n, 0
  {
    hide Steps, Intact, PushOf, PopOf, Words, Bracketed, RoomUp;
    match n
    case Done =>
      IntactSelf(ms);
      NoSteps(ms);
    case Straight(body, next) =>
      var m1 := Steps(body, ms);
      NestingIntact(next, m1);
      StepsAppend(body, CodeOf(next), ms);
      IntactTrans(ms, m1, Steps(CodeOf(next), m1));
    case Bracket(s, inner, next) =>
      var code := Bracketed(s, CodeOf(inner));
      var m1 := Steps(code, ms);
      BracketRestores(s, inner, ms);
      NestingIntact(next, m1);
      StepsAppend(code, CodeOf(next), ms);
      RestoredIntact(s, ms, m1);
      IntactTrans(ms, m1, Steps(CodeOf(next), m1));
  }

  /** A bracket around nested code restores what it pushed, SP and the stack below. */
  lemma {:induction false} BracketRestores(s: Save, inner: Nesting, ms: M.Machine)
    requires RoomUp(ms, Words(s)) && Behaves(inner, PushOf(s, ms))
    ensures Restored(s, ms, Steps(Bracketed(s, CodeOf(inner)), ms))
    decreases inner, 1
  {
    hide Steps, Intact, Restored, Behaves, CodeOf, PushOf, PopOf, Words, Bracketed, RoomUp;
    NestingIntact(inner, PushOf(s, ms));
    BracketSteps(s, CodeOf(inner), ms);
    SaveRestored(s, ms, Steps(CodeOf(inner), PushOf(s, ms)));
  }

  /** So PUSH ST0 and POP ST0 keep the machine's flags over any bracketed code. */
  lemma {:induction false} FlagsRestored(s: Save, inner: Nesting, ms: M.Machine)
    requires (s == Arm(ArmST0) || s == Arm(T_ST0)) && RoomUp(ms, Words(s)) && Behaves(inner, PushOf(s, ms))
    ensures var now := Steps(Bracketed(s, CodeOf(inner)), ms).status;
      && now.n == ms.status.n && now.z == ms.status.z && now.c == ms.status.c && now.tc == ms.status.tc
      && now.modes.sxm == ms.status.modes.sxm && now.modes.ovm == ms.status.modes.ovm
  {
    hide Steps, Intact, Behaves, CodeOf, Bracketed, RoomUp, Words, M.StatusWord, M.LoadStatus, ReadReg, PushOf;
    BracketRestores(s, inner, ms);
    var m3 := Steps(Bracketed(s, CodeOf(inner)), ms);
    assert ST0 in Pieces(s);
    BitsComeBack(ReadReg(ms.regs, ST0), ms.status, ms.status);
    BitsComeBack(ReadReg(m3.regs, ST0), m3.status, ms.status);
  }

  lemma NoSteps(ms: M.Machine)
    ensures Steps([], ms) == ms
  {}

  lemma RestoredIntact(s: Save, ms: M.Machine, m1: M.Machine)
    requires Restored(s, ms, m1)
    ensures Intact(ms, m1) && Reloaded(s, ms, m1)
  {
    hide Intact, Reloaded;
  }

  // ---- The lifted code ----

  /** The emitted code does as the machine does: the straight parts are safe, and the pushes and
      pops are ones it can follow. */
  ghost predicate Simulated(n: Nesting, k: Known, ms: M.Machine) {
    match n
    case Done => true
    case Straight(body, next) => SafeLine(body, k, ms) && Simulated(next, AfterLine(body, k), Steps(body, ms))
    case Bracket(s, inner, next) =>
      && SaveSafe(s, ms) && Simulated(inner, k, PushOf(s, ms))
      && Simulated(next, AfterLine(Bracketed(s, CodeOf(inner)), k), Steps(Bracketed(s, CodeOf(inner)), ms))
  }

  /** All arms but those of ST0 and RB; ST1 while the register has its live mode bits. */
  predicate SaveSafe(s: Save, ms: M.Machine) {
    s.Loc? || PushSafe(s.arm, ms)
  }

  lemma PushRowSafe(s: Save, k: Known, ms: M.Machine)
    requires RoomUp(ms, Words(s)) && SaveSafe(s, ms)
    ensures SafeLine([PushRow(s)], k, ms) && AfterLine([PushRow(s)], k) == k
  {
    hide M.Effect, M.ArmWords, SafeLine, AfterLine, Current;
    OneSafe(PushRow(s), k, ms);
  }

  lemma PopRowSafe(s: Save, k: Known, ms: M.Machine)
    requires RoomDown(ms, Words(s)) && (s.Arm? ==> !MovesST0(s.arm) && !s.arm.ArmRB?)
    ensures SafeLine([PopRow(s)], k, ms)
  {
    hide M.Effect, M.ArmWords, SafeLine;
    OneSafe(PopRow(s), k, ms);
  }

  lemma {:induction false} NestingSafe(n: Nesting, k: Known, ms: M.Machine)
    requires Behaves(n, ms) && Simulated(n, k, ms)
    ensures SafeLine(CodeOf(n), k, ms)
    decreases n, 0
  {
    hide Steps, Intact, SafeLine, AfterLine, PushOf, PopOf, Words, Bracketed, RoomUp, SaveSafe;
    match n
    case Done => NothingSafe(k, ms);
    case Straight(body, next) =>
      NestingSafe(next, AfterLine(body, k), Steps(body, ms));
      SafeAppend(body, CodeOf(next), k, ms);
    case Bracket(s, inner, next) =>
      var code := Bracketed(s, CodeOf(inner));
      BracketSafe(s, inner, k, ms);
      NestingSafe(next, AfterLine(code, k), Steps(code, ms));
      SafeAppend(code, CodeOf(next), k, ms);
  }

  lemma NothingSafe(k: Known, ms: M.Machine)
    ensures SafeLine([], k, ms)
  {}

  lemma {:induction false} BracketSafe(s: Save, inner: Nesting, k: Known, ms: M.Machine)
    requires RoomUp(ms, Words(s)) && Behaves(inner, PushOf(s, ms))
    requires SaveSafe(s, ms) && Simulated(inner, k, PushOf(s, ms))
    ensures SafeLine(Bracketed(s, CodeOf(inner)), k, ms)
    decreases inner, 1
  {
    hide Steps, Behaves, Simulated, SafeLine, AfterLine, PushOf, PopOf, Words, CodeOf, SameWords, PushRow, PopRow;
    var m1 := PushOf(s, ms);
    var m2 := Steps(CodeOf(inner), m1);
    NestingSafe(inner, k, m1);
    NestingIntact(inner, m1);
    SavePushed(s, ms);
    PushStep(s, ms);
    PushRowSafe(s, k, ms);
    PopRowSafe(s, AfterLine(CodeOf(inner), k), m2);
    SafeAppend(CodeOf(inner), [PopRow(s)], k, m1);
    SafeAppend([PushRow(s)], CodeOf(inner) + [PopRow(s)], k, ms);
  }

  /** The saved registers, in the IL. */
  predicate SavedSame(s: Save, a: RegFile, b: RegFile) {
    if s == HIGHS then
      && ReadReg(a, XAR(0)) / 0x1_0000 == ReadReg(b, XAR(0)) / 0x1_0000
      && ReadReg(a, XAR(1)) / 0x1_0000 == ReadReg(b, XAR(1)) / 0x1_0000
    else forall r :: r in Pieces(s) ==> ReadReg(a, r) == ReadReg(b, r)
  }

  /** What the register file of the machine holds is what was saved. */
  lemma PiecesCurrent(s: Save, ms: M.Machine)
    requires SaveSafe(s, ms) && s != HIGHS
    ensures forall r :: r in Pieces(s) ==> r != RB && M.Live(r, ms) == ReadReg(ms.regs, r)
  {
    hide ReadReg, M.StatusWord, M.ModeWord, M.ArmWords;
  }

  lemma SavedInRegs(s: Save, ms: M.Machine, now: M.Machine)
    requires SaveSafe(s, ms) && Reloaded(s, ms, now)
    ensures SavedSame(s, ms.regs, now.regs)
  {
    hide ReadReg, Pieces, SaveSafe, M.Live;
    if s != HIGHS { PiecesCurrent(s, ms); }
  }

  lemma SavedRel(s: Save, k: Known, st: State, ms: M.Machine)
    requires Rel(k, st, ms)
    ensures SavedSame(s, st.regs, ms.regs) && SavedSame(s, ms.regs, st.regs)
  {
    hide SameRegs, SameMem, ReadReg, Pieces;
    forall r: Register | r != SP ensures ReadReg(st.regs, r) == ReadReg(ms.regs, r) { ReadSame(st.regs, ms, r); }
  }

  lemma SavedTrans(s: Save, a: RegFile, b: RegFile, c: RegFile)
    requires SavedSame(s, a, b) && SavedSame(s, b, c)
    ensures SavedSame(s, a, c)
  {
    hide ReadReg, Pieces;
  }

  /** SP, the saved registers and memory below SP are in the IL what they were. */
  ghost predicate IlRestored(s: Save, st: State, out: State) {
    && SavedSame(s, st.regs, out.regs)
    && Full(out.regs, SP) == Full(st.regs, SP)
    && forall w: nat :: 2 * w < Full(st.regs, SP) ==> Half(out.mem, 2 * w) == Half(st.mem, 2 * w)
  }

  /** What the machine restored, related states have restored. */
  lemma RestoredInIl(s: Save, k: Known, k': Known, st: State, out: State, ms: M.Machine, ms': M.Machine)
    requires SaveSafe(s, ms) && Restored(s, ms, ms') && Rel(k, st, ms) && Rel(k', out, ms')
    ensures IlRestored(s, st, out)
  {
    hide Rel, SavedSame, SaveSafe, Full, SameWords, Half, Reloaded, Pieces;
    RestoredIntact(s, ms, ms');
    SavedInRegs(s, ms, ms');
    SavedRel(s, k, st, ms);
    SavedRel(s, k', out, ms');
    SavedTrans(s, st.regs, ms.regs, ms'.regs);
    SavedTrans(s, st.regs, ms'.regs, out.regs);
    SpRel(k, st, ms);
    SpRel(k', out, ms');
    forall w: nat | w < ms.sp ensures Half(out.mem, 2 * w) == Half(st.mem, 2 * w) {
      MemoryBelow(k, k', st, out, ms, ms', w);
    }
  }

  /** Words below SP that are the same on the machine are the same bytes in the IL. */
  lemma MemoryBelow(k: Known, k': Known, st: State, st': State, ms: M.Machine, ms': M.Machine, w: nat)
    requires Rel(k, st, ms) && Rel(k', st', ms') && Intact(ms, ms') && w < ms.sp
    ensures Half(st'.mem, 2 * w) == Half(st.mem, 2 * w)
  {
    hide SameFlags, Half, Full, M.Word;
    assert M.Word(ms.mem, w) == M.Word(ms'.mem, w);
  }

  /** Running the IL emitted for a bracket, at any depth of nesting inside it, leaves SP, every
      register the PUSH saved, and memory below SP as they were. */
  lemma {:induction false} LiftedBracketRestores(s: Save, inner: Nesting, k: Known, codes: seq<Code>, st: State,
                                                 ms: M.Machine, o: Oracle)
    requires Rel(k, st, ms) && LiftedInto(Bracketed(s, CodeOf(inner)), codes)
    requires RoomUp(ms, Words(s)) && Behaves(inner, PushOf(s, ms))
    requires SaveSafe(s, ms) && Simulated(inner, k, PushOf(s, ms))
    ensures codes != [] && RunAll(codes, st, o).Falls? && IlRestored(s, st, RunAll(codes, st, o).st)
  {
    hide Rel, LiftedInto, Bracketed, CodeOf, Behaves, Simulated, RunAll, SafeLine, AfterLine, Steps, PushOf, Words,
      RoomUp, SaveSafe, IlRestored, Restored;
    var code := Bracketed(s, CodeOf(inner));
    BracketSafe(s, inner, k, ms);
    SafeLineRun(code, codes, k, st, ms, o);
    BracketRestores(s, inner, ms);
    RestoredInIl(s, k, AfterLine(code, k), st, RunAll(codes, st, o).st, ms, Steps(code, ms));
  }

  lemma SpRel(k: Known, st: State, ms: M.Machine)
    requires Rel(k, st, ms)
    ensures Full(st.regs, SP) == 2 * ms.sp
  {
    hide SameMem, Full;
  }

  /** AR1H:AR0H around AR1:AR0 saves all of XAR0 and XAR1. */
  lemma {:induction false} WholeXarsRestored(inner: Nesting, ms: M.Machine)
    requires RoomUp(ms, 4) && Behaves(inner, PushOf(LOWS, PushOf(HIGHS, ms)))
    ensures var ms' := Steps(Bracketed(HIGHS, Bracketed(LOWS, CodeOf(inner))), ms);
      && ReadReg(ms'.regs, XAR(0)) == ReadReg(ms.regs, XAR(0)) && ReadReg(ms'.regs, XAR(1)) == ReadReg(ms.regs, XAR(1))
      && Intact(ms, ms')
  {
    hide Steps, Intact, CodeOf, Behaves, PushOf, PopOf, ReadReg, Bracketed, Restored, Words, M.StatusWord, M.ModeWord;
    var m1 := PushOf(HIGHS, ms);
    var low := Bracketed(LOWS, CodeOf(inner));
    var m2 := Steps(low, m1);
    Widths();
    SavePushed(HIGHS, ms);
    BracketRestores(LOWS, inner, m1);
    RestoredIntact(LOWS, m1, m2);
    HighsRestored(ms, m2);
    RestoredIntact(HIGHS, ms, PopOf(HIGHS, m2));
    BracketSteps(HIGHS, low, ms);
    PushKeepsRegs(ms);
    LowHalves(ms.regs);
    LowHalves(m2.regs);
    assert AR(0) in Pieces(LOWS) && AR(1) in Pieces(LOWS);
  }

  lemma Widths()
    ensures Words(HIGHS) == 2 && Words(LOWS) == 2
  {}

  lemma PushKeepsRegs(ms: M.Machine)
    ensures PushOf(HIGHS, ms).regs == ms.regs
  {
    hide ReadReg, M.WriteWords;
  }

  lemma LowHalves(regs: RegFile)
    ensures ReadReg(regs, AR(0)) == ReadReg(regs, XAR(0)) % 0x1_0000
    ensures ReadReg(regs, AR(1)) == ReadReg(regs, XAR(1)) % 0x1_0000
  {
    hide Wrap;
  }

  /** The two brackets as one nesting. */
  function XarBracket(inner: Nesting): Nesting { Bracket(HIGHS, Bracket(LOWS, inner, Done), Done) }

  lemma XarCode(inner: Nesting)
    ensures CodeOf(XarBracket(inner)) == Bracketed(HIGHS, Bracketed(LOWS, CodeOf(inner)))
  {
    hide Bracketed;
    assert CodeOf(Bracket(LOWS, inner, Done)) == Bracketed(LOWS, CodeOf(inner));
  }

  lemma XarBehaves(inner: Nesting, k: Known, ms: M.Machine)
    requires RoomUp(ms, 4) && Behaves(inner, PushOf(LOWS, PushOf(HIGHS, ms)))
             && Simulated(inner, k, PushOf(LOWS, PushOf(HIGHS, ms)))
    ensures Behaves(XarBracket(inner), ms) && Simulated(XarBracket(inner), k, ms)
  {
    hide PushOf, Words, Bracketed, CodeOf, Steps, AfterLine, Intact, SaveSafe;
    Widths();
    SavePushed(HIGHS, ms);
    var outer := PushOf(HIGHS, ms);
    ArmsSafe(ms, outer);
    OneBracket(LOWS, inner, k, outer);
    OneBracket(HIGHS, Bracket(LOWS, inner, Done), k, ms);
  }

  lemma OneBracket(s: Save, inner: Nesting, k: Known, ms: M.Machine)
    requires RoomUp(ms, Words(s)) && Behaves(inner, PushOf(s, ms)) && SaveSafe(s, ms)
             && Simulated(inner, k, PushOf(s, ms))
    ensures Behaves(Bracket(s, inner, Done), ms) && Simulated(Bracket(s, inner, Done), k, ms)
  {
    hide PushOf, Words, Bracketed, CodeOf, Steps, AfterLine, Intact, SaveSafe;
    var m1, k1 := Steps(Bracketed(s, CodeOf(inner)), ms), AfterLine(Bracketed(s, CodeOf(inner)), k);
    assert Behaves(Done, m1);
    assert Simulated(Done, k1, m1);
  }

  lemma ArmsSafe(ms: M.Machine, outer: M.Machine)
    requires RoomUp(ms, 2) && RoomUp(outer, 2)
    ensures SaveSafe(HIGHS, ms) && SaveSafe(LOWS, outer)
  {
    hide Current;
  }

  /** Running the IL emitted for AR1H:AR0H around AR1:AR0 restores XAR0 and XAR1 whole, SP and
      memory below it, whatever nested code runs inside. */
  lemma {:induction false} LiftedXarsRestored(inner: Nesting, k: Known, codes: seq<Code>, st: State, ms: M.Machine,
                                              o: Oracle)
    requires Rel(k, st, ms) && LiftedInto(CodeOf(XarBracket(inner)), codes)
    requires RoomUp(ms, 4) && Behaves(inner, PushOf(LOWS, PushOf(HIGHS, ms)))
             && Simulated(inner, k, PushOf(LOWS, PushOf(HIGHS, ms)))
    ensures codes != [] && RunAll(codes, st, o).Falls?
    ensures var out := RunAll(codes, st, o).st;
      && ReadReg(out.regs, XAR(0)) == ReadReg(st.regs, XAR(0)) && ReadReg(out.regs, XAR(1)) == ReadReg(st.regs, XAR(1))
      && Full(out.regs, SP) == Full(st.regs, SP)
      && forall w: nat :: 2 * w < Full(st.regs, SP) ==> Half(out.mem, 2 * w) == Half(st.mem, 2 * w)
  {
    hide Rel, LiftedInto, CodeOf, Behaves, Simulated, RunAll, SafeLine, AfterLine, Steps, PushOf, Bracketed, RoomUp,
      Full, SameWords, Half, ReadReg, XarBracket;
    var code := CodeOf(XarBracket(inner));
    var ms' := Steps(code, ms);
    XarCode(inner);
    XarBehaves(inner, k, ms);
    NestingSafe(XarBracket(inner), k, ms);
    SafeLineRun(code, codes, k, st, ms, o);
    WholeXarsRestored(inner, ms);
    var out := RunAll(codes, st, o).st;
    RelRead(k, st, ms, XAR(0));
    RelRead(k, st, ms, XAR(1));
    RelRead(AfterLine(code, k), out, ms', XAR(0));
    RelRead(AfterLine(code, k), out, ms', XAR(1));
    SpRel(k, st, ms);
    SpRel(AfterLine(code, k), out, ms');
    forall w: nat | w < ms.sp ensures Half(out.mem, 2 * w) == Half(st.mem, 2 * w) {
      MemoryBelow(k, AfterLine(code, k), st, out, ms, ms', w);
    }
  }
}
