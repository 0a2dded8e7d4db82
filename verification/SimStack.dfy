/** Lifted pushes and pops do what the machine does, as long as SP stays inside 16 bits.

    In the IL the stack pointer is a byte address and moves by the operand's bytes; in the
    machine it counts words. A push stores and then raises SP, a pop lowers SP and then loads,
    and the high halves of XAR0 and XAR1 are rebuilt from their low halves and a popped word. */
module SimStack {
  import opened Registers
  import opened Operands
  import opened Instructions
  import opened Il
  import opened IlCode
  import opened LiftOperands
  import opened LiftStack
  import opened Relation
  import opened SimArith
  import opened SimMisc
  import opened SimMov
  import LiftArith
  import M = Machine
  import Bits

  lemma StoreAtSP(size: nat, value: Expr, v: nat, k: Known, st: State, ms: M.Machine, o: Oracle)
    requires Rel(k, st, ms) && (size == 2 || size == 4)
    requires Eval(value, st) == v && FlagsAfter(value, st, o) == st.flags
    ensures Rel(k, Exec(PushValue(size, value), st, o), ms.(mem := M.WriteWords(ms.mem, ms.sp, size, v)))
  {
    hide Eval, SameMem, SameFlags, FlagsAfter, StoreBytes, M.WriteWords, ReadReg, Reg, SizeOf, Modulus, Wrap, Full;
    SpValue(st.regs, ms);
    assert Eval(Reg(4, SP), st) == 2 * ms.sp;
    StoreSame(st.mem, ms.mem, ms.sp, size, v);
  }

  /** SP = SP + size bytes, or - size bytes. */
  lemma MoveSP(up: bool, size: nat, k: Known, st: State, ms: M.Machine, o: Oracle)
    requires Rel(k, st, ms) && (size == 2 || size == 4)
    requires if up then ms.sp + size / 2 < 0x1_0000 else size / 2 <= ms.sp
    ensures Rel(k, Exec(if up then RaiseSP(size) else LowerSP(size), st, o),
                ms.(sp := Wrap(if up then ms.sp + size / 2 else ms.sp - size / 2, 2)))
  {
    hide Eval, Rel, Exec, Wrap, Reg, Const, Add, Sub;
    RelSp(k, st, ms);
    assert RaiseSP(size) == LiftArith.MovePointer(true, SP, (size / 2) * 2);
    assert LowerSP(size) == LiftArith.MovePointer(false, SP, (size / 2) * 2);
    SpPointerOk(up, size / 2, k, st, ms, o);
  }

  predicate RoomUp(ms: M.Machine, words: nat) { ms.sp + words < 0x1_0000 }

  predicate RoomDown(ms: M.Machine, words: nat) { words <= ms.sp }

  lemma PushOk(size: nat, value: Expr, v: nat, k: Known, st: State, ms: M.Machine, o: Oracle)
    requires Rel(k, st, ms) && (size == 2 || size == 4) && RoomUp(ms, size / 2)
    requires Eval(value, st) == v && FlagsAfter(value, st, o) == st.flags
    ensures var out := ExecBlock(PushBlock(size, value), st, o);
      out.Falls? && Rel(k, out.st, M.Push(ms, size, v))
  {
    hide Eval, Rel, Exec, Wrap, FlagsAfter, M.WriteWords, PushValue, RaiseSP, LowerSP, Two, ExecBlock;
    var st1 := Exec(PushValue(size, value), st, o);
    var ms1 := ms.(mem := M.WriteWords(ms.mem, ms.sp, size, v));
    StoreAtSP(size, value, v, k, st, ms, o);
    MoveSP(true, size, k, st1, ms1, o);
    ExecTwo(PushValue(size, value), RaiseSP(size), st, o);
  }

  lemma LoadAtSP(size: nat, k: Known, st: State, ms: M.Machine, o: Oracle)
    requires Rel(k, st, ms) && (size == 2 || size == 4)
    ensures Eval(Load(size, Reg(4, SP)), st) == M.ReadWords(ms.mem, ms.sp, size) < Modulus(size)
    ensures SizeOf(Load(size, Reg(4, SP))) == size
    ensures FlagsAfter(Load(size, Reg(4, SP)), st, o) == st.flags
  {
    hide Eval, SameMem, SameFlags, LoadBytes, M.ReadWords, ReadReg, Reg, SizeOf, Modulus, Wrap, Full;
    SpValue(st.regs, ms);
    assert Eval(Reg(4, SP), st) == 2 * ms.sp;
    LoadSame(st.mem, ms.mem, ms.sp, size);
  }

  /** A load leaves the machine's word in the register; the status that a status word brings
      along is the machine's alone. */
  lemma PopLoads(r: Register, k: Known, st: State, ms: M.Machine, o: Oracle)
    requires Rel(k, st, ms) && r != SP && RoomDown(ms, r.Size() / 2)
    ensures var out, low := ExecBlock(PopBlock(r, r.Size()), st, o), M.Lower(ms, r.Size());
      out.Falls? && Rel(k, out.st, M.PutReg(low, r, M.ReadWords(low.mem, low.sp, r.Size())))
  {
    hide Eval, Rel, Exec, Wrap, FlagsAfter, M.ReadWords, RaiseSP, LowerSP, Two, ExecBlock, M.PutReg, Load, Reg, SizeOf,
      Modulus;
    var size := r.Size();
    var st1 := Exec(LowerSP(size), st, o);
    var low := M.Lower(ms, size);
    MoveSP(false, size, k, st, ms, o);
    LoadAtSP(size, k, st1, low, o);
    LoadRegOk(r, Load(size, Reg(4, SP)), M.ReadWords(low.mem, low.sp, size), k, st1, low, o);
    ExecTwo(LowerSP(size), PopReg(r, size), st, o);
  }

  lemma PoppedParts(r: Register, ms: M.Machine)
    requires r != RB
    ensures var low := M.Lower(ms, r.Size());
      var m := M.PutReg(low, r, M.ReadWords(low.mem, low.sp, r.Size()));
      && m.status == ms.status && M.PopReg(ms, r) == m.(status := M.PopReg(ms, r).status)
      && (r != ST0 && r != ST1 ==> M.PopReg(ms, r) == m)
      && (r == ST1 ==> M.PopReg(ms, r).status == ms.status.(modes := M.PopReg(ms, r).status.modes))
  {
    hide M.ReadWords, WriteReg, Wrap, M.LoadStatus, M.LoadModes;
  }

  /** What is known of the flags once `r` is loaded: ST0 brings its own. */
  function AfterLoad(r: Register, k: Known): Known { if r == ST0 then NOTHING else k }

  lemma PopOk(r: Register, k: Known, st: State, ms: M.Machine, o: Oracle)
    requires Rel(k, st, ms) && r != SP && r != RB && RoomDown(ms, r.Size() / 2)
    requires M.PopReg(ms, r).status.tc == ms.status.tc
    ensures var out := ExecBlock(PopBlock(r, r.Size()), st, o);
      out.Falls? && Rel(AfterLoad(r, k), out.st, M.PopReg(ms, r))
  {
    hide Rel, ExecBlock, PopBlock, M.PopReg, M.PutReg, M.ReadWords, Register.Size;
    var low := M.Lower(ms, r.Size());
    var m := M.PutReg(low, r, M.ReadWords(low.mem, low.sp, r.Size()));
    var out := ExecBlock(PopBlock(r, r.Size()), st, o);
    PopLoads(r, k, st, ms, o);
    PoppedParts(r, ms);
    RelFlags(k, out.st, m);
    if r == ST0 || r == ST1 {
      SameState(out.st);
      StatusOnly(k, AfterLoad(r, k), out.st, out.st.flags, m, M.PopReg(ms, r).status);
    }
  }

  lemma KeepsTC(r: Register, ms: M.Machine)
    requires r != ST0
    ensures M.PopReg(ms, r).status.tc == ms.status.tc
  {
    hide M.ReadWords, WriteReg, Wrap, M.LoadModes, M.LoadStatus;
  }

  // ---- The high halves of XAR0 and XAR1 ----

  lemma HighHalfOk(r: Register, k: Known, st: State, ms: M.Machine, o: Oracle)
    requires Rel(k, st, ms) && r.XAR?
    ensures Eval(HighHalf(r), st) == ReadReg(ms.regs, r) / 0x1_0000
    ensures FlagsAfter(HighHalf(r), st, o) == st.flags
  {
    hide Eval, Rel, ReadReg, Wrap, SizeOf, Modulus, Bits.Shr, WriteFlags;
    RelRead(k, st, ms, r);
    FullWidth(ms.regs);
    Bits.Shr16(ReadReg(ms.regs, r));
  }

  /** lo | hi << 16 joins two halves. */
  lemma JoinHalves(whole: nat, hi: nat)
    requires whole < 0x1_0000_0000 && hi < 0x1_0000
    ensures Bits.And(whole, 0xFFFF) == whole % 0x1_0000
    ensures Bits.Or(whole % 0x1_0000, Bits.Shl(hi, 16)) == whole % 0x1_0000 + 0x1_0000 * hi
    ensures Bits.Shl(hi, 16) == 0x1_0000 * hi
  {
    hide *;
    Bits.Pow2At16();
    Bits.AndOnes(whole, 16);
    Bits.LowBitsIsMod(whole, 16);
    Bits.OrIsSum(16, hi, whole % 0x1_0000);
    Bits.Shl16(hi);
  }

  /** The expression that rebuilds a register from its own low half and a popped high half. */
  function Rebuilt(r: Register): Expr {
    Or(4, And(4, Reg(4, r), Const(4, 0xFFFF)), Lsl(4, Zx(4, Load(2, Reg(4, SP))), Const(4, 16)))
  }

  lemma RebuiltValue(r: Register, whole: nat, hi: nat, st: State, o: Oracle)
    requires ReadReg(st.regs, r) == whole < Modulus(4) && Eval(Load(2, Reg(4, SP)), st) == hi < Modulus(2)
    ensures Eval(Rebuilt(r), st) == whole % 0x1_0000 + 0x1_0000 * hi
    ensures SizeOf(Rebuilt(r)) == 4
  {
    hide Eval, ReadReg, Wrap, SizeOf, Modulus, Bits.Shl, Bits.And, Bits.Or, And, Or, Lsl, Zx, Load, Const, Reg;
    JoinHalves(whole, hi);
  }

  lemma RebuiltFlags(r: Register, st: State, o: Oracle)
    ensures FlagsAfter(Rebuilt(r), st, o) == st.flags && PopHigh(r) == SetReg(4, r, Rebuilt(r))
  {
    hide Eval, WriteFlags;
  }

  lemma PopHighOk(r: Register, k: Known, st: State, ms: M.Machine, o: Oracle)
    requires Rel(k, st, ms) && r.XAR? && RoomDown(ms, 1)
    ensures var out := ExecBlock(PopHighBlock(r), st, o);
      out.Falls? && Rel(k, out.st, M.PopHigh(ms, r))
  {
    hide Eval, Rel, Exec, Wrap, FlagsAfter, M.ReadWords, RaiseSP, LowerSP, Two, ExecBlock, M.PutReg, Load, Reg, SizeOf,
      Modulus, PopHigh, Rebuilt, ReadReg;
    var st1 := Exec(LowerSP(2), st, o);
    var low := M.Lower(ms, 2);
    MoveSP(false, 2, k, st, ms, o);
    LoadAtSP(2, k, st1, low, o);
    RelRead(k, st1, low, r);
    FullWidth(low.regs);
    RebuiltValue(r, ReadReg(low.regs, r), M.ReadWords(low.mem, low.sp, 2), st1, o);
    RebuiltFlags(r, st1, o);
    LoadRegOk(r, Rebuilt(r), ReadReg(low.regs, r) % 0x1_0000 + 0x1_0000 * M.ReadWords(low.mem, low.sp, 2), k, st1, low,
      o);
    ExecTwo(LowerSP(2), PopHigh(r), st, o);
  }

  // ---- Arms ----

  /** The register file has the bits the machine would store. */
  predicate Current(r: Register, ms: M.Machine) { M.Live(r, ms) == ReadReg(ms.regs, r) }

  lemma PlainIsCurrent(r: Register, ms: M.Machine)
    requires r != ST0 && r != ST1 && r != RB
    ensures Current(r, ms)
  {}

  lemma PushRegOk(r: Register, k: Known, st: State, ms: M.Machine, o: Oracle)
    requires Rel(k, st, ms) && r != SP && r != RB && RoomUp(ms, r.Size() / 2) && Current(r, ms)
    ensures var out := ExecBlock(PushBlock(r.Size(), Reg(r.Size(), r)), st, o);
      out.Falls? && Rel(k, out.st, M.PushReg(ms, r))
  {
    hide Eval, Rel, FlagsAfter, PushBlock, ExecBlock, ReadReg, Reg, M.Push, M.Live;
    RelRead(k, st, ms, r);
    RegValue(r, st);
    NoFlags(Immediate(0), r.Size(), r, st, o);
    PushOk(r.Size(), Reg(r.Size(), r), ReadReg(ms.regs, r), k, st, ms, o);
  }

  lemma PushPairOk(a: Register, b: Register, k: Known, st: State, ms: M.Machine, o: Oracle)
    requires Rel(k, st, ms) && a != SP && b != SP && a.Size() == 2 && b.Size() == 2 && RoomUp(ms, 2)
    requires a != RB && b != RB && b != ST0 && b != ST1 && Current(a, ms)
    ensures var out := ExecBlock(PushPair(a, b), st, o);
      out.Falls? && Rel(k, out.st, M.PushReg(M.PushReg(ms, a), b))
  {
    hide Rel, PushBlock, ExecBlock, Reg, M.WriteWords, ReadReg, M.StatusWord, M.ModeWord;
    PlainIsCurrent(b, M.PushReg(ms, a));
    PushRegOk(a, k, st, ms, o);
    var first := ExecBlock(PushBlock(2, Reg(2, a)), st, o);
    PushRegOk(b, k, first.st, M.PushReg(ms, a), o);
    ExecAppend(PushBlock(2, Reg(2, a)), PushBlock(2, Reg(2, b)), st, o);
  }

  lemma PopPairOk(a: Register, b: Register, k: Known, st: State, ms: M.Machine, o: Oracle)
    requires Rel(k, st, ms) && a != SP && b != SP && a.Size() == 2 && b.Size() == 2 && RoomDown(ms, 2)
    requires a != RB && b != RB && a != ST0 && a != ST1 && M.PopReg(M.PopReg(ms, a), b).status.tc == ms.status.tc
    ensures var out := ExecBlock(PopPair(a, b), st, o);
      out.Falls? && Rel(AfterLoad(b, k), out.st, M.PopReg(M.PopReg(ms, a), b))
  {
    hide Rel, PopBlock, ExecBlock, M.ReadWords, ReadReg, M.LoadLive, M.StatusWord, M.ModeWord;
    KeepsTC(a, ms);
    PoppedSp(a, ms);
    RelSp(k, st, ms);
    PopOk(a, k, st, ms, o);
    var first := ExecBlock(PopBlock(a, 2), st, o);
    PopOk(b, k, first.st, M.PopReg(ms, a), o);
    ExecAppend(PopBlock(a, 2), PopBlock(b, 2), st, o);
  }

  lemma PoppedSp(r: Register, ms: M.Machine)
    ensures M.PopReg(ms, r).sp == Wrap(ms.sp - M.Width(r) / 2, 2)
  {
    hide M.ReadWords, WriteReg, Wrap, M.LoadModes, M.LoadStatus;
  }

  lemma PushHighsOk(k: Known, st: State, ms: M.Machine, o: Oracle)
    requires Rel(k, st, ms) && RoomUp(ms, 2)
    ensures var out := ExecBlock(LiftStack.PushArm(AR1H_AR0H), st, o);
      out.Falls? && Rel(k, out.st, M.PushArm(AR1H_AR0H, ms))
  {
    hide Rel, PushBlock, ExecBlock, M.WriteWords, ReadReg, HighHalf, FlagsAfter, Eval;
    HighHalfOk(XAR(0), k, st, ms, o);
    PushOk(2, HighHalf(XAR(0)), ReadReg(ms.regs, XAR(0)) / 0x1_0000, k, st, ms, o);
    var first := ExecBlock(PushBlock(2, HighHalf(XAR(0))), st, o);
    var ms1 := M.PushHigh(ms, XAR(0));
    HighHalfOk(XAR(1), k, first.st, ms1, o);
    PushOk(2, HighHalf(XAR(1)), ReadReg(ms1.regs, XAR(1)) / 0x1_0000, k, first.st, ms1, o);
    ExecAppend(PushBlock(2, HighHalf(XAR(0))), PushBlock(2, HighHalf(XAR(1))), st, o);
  }

  lemma PopHighsOk(k: Known, st: State, ms: M.Machine, o: Oracle)
    requires Rel(k, st, ms) && RoomDown(ms, 2)
    ensures var out := ExecBlock(LiftStack.PopArm(AR1H_AR0H), st, o);
      out.Falls? && Rel(k, out.st, M.PopArm(AR1H_AR0H, ms))
  {
    hide Rel, PopHighBlock, ExecBlock, M.ReadWords, ReadReg;
    RelSp(k, st, ms);
    PopHighOk(XAR(1), k, st, ms, o);
    var first := ExecBlock(PopHighBlock(XAR(1)), st, o);
    PopHighOk(XAR(0), k, first.st, M.PopHigh(ms, XAR(1)), o);
    ExecAppend(PopHighBlock(XAR(1)), PopHighBlock(XAR(0)), st, o);
  }

  predicate MovesST0(arm: StackArm) { arm.ArmST0? || arm.T_ST0? }

  predicate MovesST1(arm: StackArm) { arm.ArmST1? || arm.DP_ST1? }

  lemma PushPlainOk(r: Register, k: Known, st: State, ms: M.Machine, o: Oracle)
    requires Rel(k, st, ms) && r != SP && r != ST0 && r != ST1 && r != RB && RoomUp(ms, r.Size() / 2)
    ensures var out := ExecBlock(PushBlock(r.Size(), Reg(r.Size(), r)), st, o);
      out.Falls? && Rel(k, out.st, M.PushReg(ms, r))
  {
    hide Rel, ExecBlock, PushBlock, Reg, M.PushReg, Register.Size;
    PlainIsCurrent(r, ms);
    PushRegOk(r, k, st, ms, o);
  }

  lemma PushPlainPairOk(a: Register, b: Register, k: Known, st: State, ms: M.Machine, o: Oracle)
    requires Rel(k, st, ms) && a != SP && b != SP && a.Size() == 2 && b.Size() == 2 && RoomUp(ms, 2)
    requires a != RB && a != ST0 && a != ST1 && b != RB && b != ST0 && b != ST1
    ensures var out := ExecBlock(PushPair(a, b), st, o);
      out.Falls? && Rel(k, out.st, M.PushReg(M.PushReg(ms, a), b))
  {
    hide Rel, ExecBlock, PushPair, M.PushReg, Register.Size;
    PlainIsCurrent(a, ms);
    PushPairOk(a, b, k, st, ms, o);
  }

  lemma PushArmOk(arm: StackArm, k: Known, st: State, ms: M.Machine, o: Oracle)
    requires Rel(k, st, ms) && PushSafe(arm, ms)
    ensures var out := ExecBlock(LiftStack.PushArm(arm), st, o);
      out.Falls? && Rel(k, out.st, M.PushArm(arm, ms))
  {
    hide Rel, PushBlock, PushPair, ExecBlock, Reg, M.PushReg, M.PushHigh, OpenAppend, RoomUp, HighHalf, Current;
    match arm
    case ArmST1 => PushRegOk(ST1, k, st, ms, o);
    case ArmDP => PushPlainOk(DP, k, st, ms, o);
    case ArmRPC => PushPlainOk(RPC, k, st, ms, o);
    case ArmIFR => PushPlainOk(IFR, k, st, ms, o);
    case ArmDBGIER => PushPlainOk(DBGIER, k, st, ms, o);
    case ArmP => PushPlainOk(P, k, st, ms, o);
    case ArmXT => PushPlainOk(XT, k, st, ms, o);
    case AR1_AR0 => PushPlainPairOk(AR(0), AR(1), k, st, ms, o);
    case AR3_AR2 => PushPlainPairOk(AR(2), AR(3), k, st, ms, o);
    case AR5_AR4 => PushPlainPairOk(AR(4), AR(5), k, st, ms, o);
    case DP_ST1 => PushPairOk(ST1, DP, k, st, ms, o);
    case AR1H_AR0H => PushHighsOk(k, st, ms, o);
    case _ =>
  }

  /** ST1 is pushed rightly while the register has its live mode bits. */
  predicate PushSafe(arm: StackArm, ms: M.Machine) {
    RoomUp(ms, M.ArmWords(arm)) && !MovesST0(arm) && !arm.ArmRB? && (MovesST1(arm) ==> Current(ST1, ms))
  }

  /** The emitted code has no way to load TC from a popped ST0, and of N, Z and C nothing is
      claimed afterwards. */
  predicate PopSafe(arm: StackArm, ms: M.Machine) {
    RoomDown(ms, M.ArmWords(arm)) && !arm.ArmRB? && (MovesST0(arm) ==> M.PopArm(arm, ms).status.tc == ms.status.tc)
  }

  function AfterPop(arm: StackArm, k: Known): Known { if MovesST0(arm) then NOTHING else k }

  lemma PopPlainOk(r: Register, k: Known, st: State, ms: M.Machine, o: Oracle)
    requires Rel(k, st, ms) && r != SP && r != RB && r != ST0 && RoomDown(ms, r.Size() / 2)
    ensures var out := ExecBlock(PopBlock(r, r.Size()), st, o);
      out.Falls? && Rel(k, out.st, M.PopReg(ms, r))
  {
    hide Rel, ExecBlock, PopBlock, M.PopReg, Register.Size;
    KeepsTC(r, ms);
    PopOk(r, k, st, ms, o);
  }

  lemma PopPlainPairOk(a: Register, b: Register, k: Known, st: State, ms: M.Machine, o: Oracle)
    requires Rel(k, st, ms) && a != SP && b != SP && a.Size() == 2 && b.Size() == 2 && RoomDown(ms, 2)
    requires a != RB && b != RB && a != ST0 && a != ST1 && b != ST0
    ensures var out := ExecBlock(PopPair(a, b), st, o);
      out.Falls? && Rel(k, out.st, M.PopReg(M.PopReg(ms, a), b))
  {
    hide Rel, ExecBlock, PopPair, M.PopReg, Register.Size;
    KeepsTC(a, ms);
    KeepsTC(b, M.PopReg(ms, a));
    PopPairOk(a, b, k, st, ms, o);
  }

  lemma PopArmOk(arm: StackArm, k: Known, st: State, ms: M.Machine, o: Oracle)
    requires Rel(k, st, ms) && PopSafe(arm, ms)
    ensures var out := ExecBlock(LiftStack.PopArm(arm), st, o);
      out.Falls? && Rel(AfterPop(arm, k), out.st, M.PopArm(arm, ms))
  {
    hide Rel, PopBlock, PopPair, ExecBlock, M.PopReg, M.PopHigh, OpenAppend, RoomDown, PopHighBlock;
    match arm
    case ArmST0 => PopOk(ST0, k, st, ms, o);
    case ArmST1 => PopPlainOk(ST1, k, st, ms, o);
    case ArmDP => PopPlainOk(DP, k, st, ms, o);
    case ArmRPC => PopPlainOk(RPC, k, st, ms, o);
    case ArmIFR => PopPlainOk(IFR, k, st, ms, o);
    case ArmDBGIER => PopPlainOk(DBGIER, k, st, ms, o);
    case ArmP => PopPlainOk(P, k, st, ms, o);
    case ArmXT => PopPlainOk(XT, k, st, ms, o);
    case AR1_AR0 => PopPlainPairOk(AR(1), AR(0), k, st, ms, o);
    case AR3_AR2 => PopPlainPairOk(AR(3), AR(2), k, st, ms, o);
    case AR5_AR4 => PopPlainPairOk(AR(5), AR(4), k, st, ms, o);
    case DP_ST1 => PopPlainPairOk(DP, ST1, k, st, ms, o);
    case T_ST0 => PopPairOk(T, ST0, k, st, ms, o);
    case AR1H_AR0H => PopHighsOk(k, st, ms, o);
    case ArmRB =>
  }

  // ---- Rows with an operand ----

  predicate StackSafe(id: StackId, ops: seq<Operand>, ms: M.Machine) {
    match id
    case PUSH(arm) => PushSafe(arm, ms)
    case POP(arm) => PopSafe(arm, ms)
    case PUSH_LOC16 => RoomUp(ms, 1) && OpReaches(M.First(ops), ms)
    case POP_LOC16 => RoomDown(ms, 1) && OpReaches(M.First(ops), M.Lower(ms, 2))
  }

  function AfterStack(id: StackId, ops: seq<Operand>, k: Known): Known {
    match id
    case POP(arm) => AfterPop(arm, k)
    case POP_LOC16 => AfterStore(M.First(ops), k)
    case _ => k
  }

  lemma PushLocOk(op: Operand, k: Known, st: State, ms: M.Machine, o: Oracle)
    requires Rel(k, st, ms) && IsLoc(op, 2) && OpReaches(op, ms) && RoomUp(ms, 1)
    ensures var out := ExecBlock(StackBlock(PUSH_LOC16, [op]), st, o);
      out.Falls? && Rel(k, out.st, M.StackEffect(PUSH_LOC16, [op], ms))
  {
    hide Eval, SizeOf, Modulus, Rel, OpBlock, OpExpr, WriteOpBlock, WriteInsn, ExecBlock, Plain, Reaches, OpReaches,
      PushBlock, M.Value, M.Push, FlagsAfter;
    PlainOp(op, 2, Const(4, 0));
    OperandSame(op, 2, k, st, ms);
    NoFlags(op, 2, ACC, st, o);
    AppendToEnd(PushBlock(2, OpExpr(op, 2)));
    PushOk(2, OpExpr(op, 2), M.Value(op, 2, ms), k, st, ms, o);
  }

  lemma PopLocOk(op: Operand, k: Known, st: State, ms: M.Machine, o: Oracle)
    requires Rel(k, st, ms) && IsLoc(op, 2) && OpReaches(op, M.Lower(ms, 2)) && RoomDown(ms, 1)
    ensures var out := ExecBlock(StackBlock(POP_LOC16, [op]), st, o);
      out.Falls? && Rel(k, out.st, M.StackEffect(POP_LOC16, [op], ms))
  {
    hide Eval, SizeOf, Modulus, Rel, WriteOpBlock, WriteInsn, ExecBlock, Exec, Plain, Reaches, LowerSP, Load, Reg, Wrap,
      M.ReadWords, M.WriteLoc, FlagsAfter;
    var st1 := Exec(LowerSP(2), st, o);
    var low := M.Lower(ms, 2);
    var value := Load(2, Reg(4, SP));
    MoveSP(false, 2, k, st, ms, o);
    LoadAtSP(2, k, st1, low, o);
    StoreOk(op.loc, 2, value, M.ReadWords(low.mem, low.sp, 2), k, st1, low, o);
    PlainOp(op, 2, value);
    ExecOne(LowerSP(2), st, o);
    ExecOne(WriteInsn(op.loc, 2, value), st1, o);
    LowerIsOpen();
    ExecAppend(Do(LowerSP(2), End), WriteOpBlock(op, 2, value), st, o);
  }

  lemma LowerIsOpen()
    ensures Open(Do(LowerSP(2), End))
  {}

  lemma StackOk(id: StackId, ops: seq<Operand>, k: Known, st: State, ms: M.Machine, o: Oracle)
    requires StackShape(id, ops) && StackSafe(id, ops, ms) && Rel(k, st, ms)
    ensures var out := ExecBlock(StackBlock(id, ops), st, o);
      out.Falls? && Rel(AfterStack(id, ops, k), out.st, M.StackEffect(id, ops, ms))
  {
    hide Rel, ExecBlock, Plain, Reaches, OpReaches, LiftStack.PushArm, LiftStack.PopArm, M.PushArm, M.PopArm, OpBlock,
      OpExpr, WriteOpBlock, Append, PushBlock, LowerSP, M.Push, M.StoreOperand, M.Value, M.ReadWords, PushSafe, PopSafe;
    match id
    case PUSH(arm) => PushArmOk(arm, k, st, ms, o);
    case POP(arm) => PopArmOk(arm, k, st, ms, o);
    case PUSH_LOC16 =>
      assert ops == [ops[0]];
      PushLocOk(ops[0], k, st, ms, o);
    case POP_LOC16 =>
      assert ops == [ops[0]];
      PopLocOk(ops[0], k, st, ms, o);
      var out := ExecBlock(StackBlock(id, ops), st, o);
      Weaken(AfterStack(id, ops, k), k, out.st, M.StackEffect(id, ops, ms));
  }
}
