/** Instructions lifted one after the other into the same builder. */
module StraightLine {
  import opened Registers
  import opened Operands
  import opened Instructions
  import opened Il
  import opened IlCode
  import opened IlBuilder
  import opened Lifter
  import opened Relation
  import opened Simulation
  import LiftSystem
  import M = Machine
  import Bits

  /** The builder's contents before the first and after each of the instructions. */
  ghost predicate LiftedInto(prog: seq<DecodedInstruction>, codes: seq<Code>) {
    |codes| == |prog| + 1 && forall i | 0 <= i < |prog| :: Emits(codes[i], codes[i + 1], Lifted(prog[i]))
  }

  /** Binary Ninja calls the lifter once per instruction, on the same builder. Whatever the
      builder holds, this leaves the code that the theorems about emitted code speak of. */
  method LiftAll(il: ILFunction, prog: seq<DecodedInstruction>) returns (ghost codes: seq<Code>)
    modifies il
    ensures LiftedInto(prog, codes) && codes[0] == old(il.code) && Last(codes) == il.code
  {
    hide Emits, Lifted;
    codes := [il.code];
    for i := 0 to |prog|
      invariant LiftedInto(prog[..i], codes) && codes[0] == old(il.code) && Last(codes) == il.code
    {
      Lift(il, prog[i]);
      codes := codes + [il.code];
      assert forall j | 0 <= j < i :: prog[..i + 1][j] == prog[..i][j];
    }
    assert prog[..|prog|] == prog;
  }

  function Last(codes: seq<Code>): Code
    requires codes != []
  {
    codes[|codes| - 1]
  }

  lemma Started(prog: seq<DecodedInstruction>, codes: seq<Code>)
    requires LiftedInto(prog, codes)
    ensures codes != []
  {
    hide Emits;
  }

  lemma {:induction false} GrowsToLast(prog: seq<DecodedInstruction>, codes: seq<Code>, i: nat)
    requires LiftedInto(prog, codes) && i <= |prog|
    ensures Extends(codes[i], Last(codes))
    decreases |prog| - i
  {
    hide Emitted, Len;
    if i < |prog| {
      GrowsToLast(prog, codes, i + 1);
      assert Emits(codes[i], codes[i + 1], Lifted(prog[i]));
      ExtendsOver(codes[i], codes[i + 1], Last(codes));
    }
  }

  /** Later instructions leave the code of earlier ones, and its labels, as they were. */
  lemma StaysEmitted(prog: seq<DecodedInstruction>, codes: seq<Code>, i: nat)
    requires LiftedInto(prog, codes) && i < |prog|
    ensures Emitted(Last(codes), |codes[i].insns|, Lifted(prog[i]))
    ensures |codes[i + 1].insns| == |codes[i].insns| + Len(Lifted(prog[i]))
    ensures |codes[i + 1].insns| <= |Last(codes).insns|
  {
    hide Emitted, Len, Lifted;
    assert Emits(codes[i], codes[i + 1], Lifted(prog[i]));
    GrowsToLast(prog, codes, i + 1);
    EmittedStable(codes[i + 1], Last(codes), |codes[i].insns|, Lifted(prog[i]));
  }

  // ---- Running a line of instructions ----

  /** The blocks of the instructions, one after the other. */
  function IlLine(prog: seq<DecodedInstruction>, st: State, o: Oracle): Outcome {
    if prog == [] then Falls(st)
    else
      match ExecBlock(Lifted(prog[0]), st, o)
      case Falls(st') => IlLine(prog[1..], st', o)
      case other => other
  }

  lemma {:induction false} IlLineAppend(a: seq<DecodedInstruction>, b: seq<DecodedInstruction>, st: State, o: Oracle)
    ensures IlLine(a + b, st, o) ==
            match IlLine(a, st, o)
            case Falls(st') => IlLine(b, st', o)
            case other => other
  {
    hide Lifted, ExecBlock;
    if a == [] {
      assert a + b == b;
    } else {
      assert (a + b)[1..] == a[1..] + b;
      var out := ExecBlock(Lifted(a[0]), st, o);
      if out.Falls? { IlLineAppend(a[1..], b, out.st, o); }
    }
  }

  /** All the code the line was lifted to. */
  function RunAll(codes: seq<Code>, st: State, o: Oracle): Outcome
    requires codes != []
  {
    Run(Last(codes), |codes[0].insns|, |Last(codes).insns|, st, o)
  }

  lemma {:induction false} RunIsLine(prog: seq<DecodedInstruction>, codes: seq<Code>, i: nat, st: State, o: Oracle)
    requires LiftedInto(prog, codes) && i <= |prog|
    ensures Run(Last(codes), |codes[i].insns|, |Last(codes).insns|, st, o) == IlLine(prog[i..], st, o)
    decreases |prog| - i
  {
    hide Emitted, Len, Lifted, Run, ExecBlock, Emits;
    RunNothing(Last(codes), st, o);
    if i < |prog| {
      StaysEmitted(prog, codes, i);
      RunEmitted(Last(codes), |codes[i].insns|, |Last(codes).insns|, Lifted(prog[i]), st, o);
      assert prog[i..][1..] == prog[i + 1..];
      var out := ExecBlock(Lifted(prog[i]), st, o);
      if out.Falls? { RunIsLine(prog, codes, i + 1, out.st, o); }
    }
  }

  lemma RunNothing(code: Code, st: State, o: Oracle)
    ensures Run(code, |code.insns|, |code.insns|, st, o) == Falls(st)
  {}

  // ---- The machine on a line: conditions gate, nothing branches ----

  function Stepped(insn: DecodedInstruction, ms: M.Machine): M.Machine { M.Step(insn, ms).ms }

  function Steps(prog: seq<DecodedInstruction>, ms: M.Machine): M.Machine {
    if prog == [] then ms else Steps(prog[1..], Stepped(prog[0], ms))
  }

  predicate SafeLine(prog: seq<DecodedInstruction>, k: Known, ms: M.Machine) {
    prog == [] ||
    (var insn := prog[0];
     WellFormed(insn) && !insn.id.Branch? && Safe(insn, k, ms)
       && SafeLine(prog[1..], After(insn, k), Stepped(insn, ms)))
  }

  lemma OneSafe(row: DecodedInstruction, k: Known, ms: M.Machine)
    requires WellFormed(row) && !row.id.Branch? && Safe(row, k, ms)
    ensures SafeLine([row], k, ms) && AfterLine([row], k) == After(row, k)
  {
    hide WellFormed, Safe, After, Stepped;
    assert [row][1..] == [];
  }

  function AfterLine(prog: seq<DecodedInstruction>, k: Known): Known {
    if prog == [] then k else AfterLine(prog[1..], After(prog[0], k))
  }

  lemma NoBranchNext(insn: DecodedInstruction, ms: M.Machine)
    requires !insn.id.Branch?
    ensures M.Step(insn, ms) == M.Next(Stepped(insn, ms))
  {
    hide M.Effect, M.Holds, M.ConditionOf;
  }

  /** The blocks of a line, run in order, follow the machine; gated moves included. */
  lemma {:induction false} LineSimulates(prog: seq<DecodedInstruction>, k: Known, st: State, ms: M.Machine, o: Oracle)
    requires SafeLine(prog, k, ms) && Rel(k, st, ms)
    ensures var out := IlLine(prog, st, o); out.Falls? && Rel(AfterLine(prog, k), out.st, Steps(prog, ms))
  {
    hide Rel, Lifted, ExecBlock, WellFormed, Safe, After, Stepped, M.Step;
    if prog != [] {
      InsnOk(prog[0], k, st, ms, o);
      NoBranchNext(prog[0], ms);
      var out := ExecBlock(Lifted(prog[0]), st, o);
      LineSimulates(prog[1..], After(prog[0], k), out.st, Stepped(prog[0], ms), o);
    }
  }

  lemma {:induction false} StepsAppend(a: seq<DecodedInstruction>, b: seq<DecodedInstruction>, ms: M.Machine)
    ensures Steps(a + b, ms) == Steps(b, Steps(a, ms))
  {
    hide Stepped;
    if a == [] {
      assert a + b == b;
    } else {
      assert (a + b)[1..] == a[1..] + b;
      StepsAppend(a[1..], b, Stepped(a[0], ms));
    }
  }

  lemma {:induction false} SafeAppend(a: seq<DecodedInstruction>, b: seq<DecodedInstruction>, k: Known, ms: M.Machine)
    requires SafeLine(a, k, ms) && SafeLine(b, AfterLine(a, k), Steps(a, ms))
    ensures SafeLine(a + b, k, ms)
  {
    hide Stepped, WellFormed, Safe, After;
    if a == [] {
      assert a + b == b;
    } else {
      assert (a + b)[1..] == a[1..] + b;
      SafeAppend(a[1..], b, After(a[0], k), Stepped(a[0], ms));
    }
  }

  lemma {:induction false} AfterAppend(a: seq<DecodedInstruction>, b: seq<DecodedInstruction>, k: Known)
    ensures AfterLine(a + b, k) == AfterLine(b, AfterLine(a, k))
  {
    hide After;
    if a == [] {
      assert a + b == b;
    } else {
      assert (a + b)[1..] == a[1..] + b;
      AfterAppend(a[1..], b, After(a[0], k));
    }
  }

  // ---- Lines without conditions, where a step is the instruction's effect ----

  predicate Plainly(insn: DecodedInstruction) {
    !insn.id.Branch? && !IsConditional(insn.id)
  }

  function Effects(prog: seq<DecodedInstruction>, ms: M.Machine): M.Machine {
    if prog == [] then ms else Effects(prog[1..], M.Effect(prog[0], ms))
  }

  predicate SafeUngated(prog: seq<DecodedInstruction>, k: Known, ms: M.Machine) {
    prog == [] ||
    (var insn := prog[0];
     WellFormed(insn) && Plainly(insn) && EffectSafe(insn, k, ms)
       && SafeUngated(prog[1..], After(insn, k), M.Effect(insn, ms)))
  }

  lemma UngatedStep(insn: DecodedInstruction, k: Known, ms: M.Machine)
    requires WellFormed(insn) && Plainly(insn) && EffectSafe(insn, k, ms)
    ensures Safe(insn, k, ms) && Stepped(insn, ms) == M.Effect(insn, ms)
  {
    hide M.Effect, WellFormed, EffectSafe, FindCondition, M.ConditionOf, M.Holds;
    Unconditional(insn);
    Unc(ms.status);
  }

  lemma {:induction false} UngatedLine(prog: seq<DecodedInstruction>, k: Known, ms: M.Machine)
    requires SafeUngated(prog, k, ms)
    ensures SafeLine(prog, k, ms) && Steps(prog, ms) == Effects(prog, ms)
  {
    hide M.Effect, WellFormed, EffectSafe, Safe, After, Stepped, IsConditional;
    if prog != [] {
      UngatedStep(prog[0], k, ms);
      UngatedLine(prog[1..], After(prog[0], k), M.Effect(prog[0], ms));
    }
  }

  lemma {:induction false} EffectsAppend(a: seq<DecodedInstruction>, b: seq<DecodedInstruction>, ms: M.Machine)
    ensures Effects(a + b, ms) == Effects(b, Effects(a, ms))
  {
    hide M.Effect;
    if a == [] {
      assert a + b == b;
    } else {
      assert (a + b)[1..] == a[1..] + b;
      EffectsAppend(a[1..], b, M.Effect(a[0], ms));
    }
  }

  lemma {:induction false} UngatedAppend(a: seq<DecodedInstruction>, b: seq<DecodedInstruction>, k: Known,
                                         ms: M.Machine)
    requires SafeUngated(a, k, ms) && SafeUngated(b, AfterLine(a, k), Effects(a, ms))
    ensures SafeUngated(a + b, k, ms)
  {
    hide M.Effect, WellFormed, EffectSafe, After, IsConditional;
    if a == [] {
      assert a + b == b;
    } else {
      assert (a + b)[1..] == a[1..] + b;
      UngatedAppend(a[1..], b, After(a[0], k), M.Effect(a[0], ms));
    }
  }

  // ---- Lines that neither move SP nor consume a carry nor leave the assumed modes ----

  predicate LeavesSp(insn: DecodedInstruction) {
    !insn.id.Stack? && !insn.id.Branch?
      && (insn.id.Arith? ==> !insn.id.arith.ADDB_SP_CONST7? && !insn.id.arith.SUBB_SP_CONST7?)
  }

  predicate OperandReaches(insn: DecodedInstruction, sp: nat) {
    insn.operands != [] ==>
      match insn.operands[0]
      case Loc16(loc) => loc.mode.SpRelative? ==> loc.offset <= sp
      case Loc32(loc) => loc.mode.SpRelative? ==> loc.offset <= sp
      case _ => true
  }

  /** SETC and CLRC masks that leave the assumed modes as they are. */
  predicate LeavesModes(insn: DecodedInstruction) {
    insn.id.System? && insn.operands != [] ==>
      var mask := LiftSystem.Mask(insn.operands);
      && (insn.id.system.SETC_MODE? ==> !Bits.Bit(mask, 1) && !Bits.Bit(mask, 6))
      && (insn.id.system.CLRC_MODE? ==> !Bits.Bit(mask, 0))
  }

  predicate Easy(insn: DecodedInstruction, sp: nat) {
    && WellFormed(insn) && Plainly(insn) && LeavesSp(insn) && LeavesModes(insn) && OperandReaches(insn, sp)
    && (insn.id.Arith? ==> !M.UsesCarry(insn.id.arith))
  }

  lemma StoreKeepsSp(op: Operand, size: nat, v: nat, ms: M.Machine)
    ensures M.StoreOperand(op, size, v, ms).sp == ms.sp
  {
    hide WriteReg, M.WriteWords, M.WordAddress;
  }

  lemma SpKept(insn: DecodedInstruction, ms: M.Machine)
    requires LeavesSp(insn)
    ensures M.Effect(insn, ms).sp == ms.sp
  {
    hide ReadReg, WriteReg, Wrap, M.Value, M.StoreOperand, M.SourceValue, M.AluStatus, M.Judge;
    var ops := insn.operands;
    if insn.id.Arith? {
      var id := insn.id.arith;
      var size := ArithWidth(id);
      var total := M.StoredTotal(id, M.Value(M.First(ops), size, ms), ReadReg(ms.regs, ACC));
      StoreKeepsSp(M.First(ops), size, Wrap(total, size), ms);
    } else if insn.id.Mov? && insn.id.mov.MOV_LOC_REG? {
      StoreKeepsSp(M.First(ops), insn.id.mov.reg.Size(), ReadReg(ms.regs, insn.id.mov.reg), ms);
    } else if insn.id.Mov? {
      MovKeepsSp(insn.id.mov, ops, ms);
    }
  }

  lemma MovKeepsSp(id: MovId, ops: seq<Operand>, ms: M.Machine)
    ensures M.MovEffect(id, ops, ms).sp == ms.sp
  {
    hide ReadReg, WriteReg, Wrap, M.Value, M.StoreOperand, M.Judge;
    var reg := if id.MOV_LOC_REG? || id.MOV_LOC16_AX_COND? then id.reg else ACC;
    StoreKeepsSp(M.First(ops), reg.Size(), ReadReg(ms.regs, reg), ms);
    StoreKeepsSp(M.First(ops), 2, ReadReg(ms.regs, reg), ms);
    if |ops| >= 2 { StoreKeepsSp(M.First(ops), 2, M.Value(ops[1], 2, ms), ms); }
  }

  lemma StoreKeepsStatus(op: Operand, size: nat, v: nat, ms: M.Machine)
    ensures M.StoreOperand(op, size, v, ms).status == ms.status
  {
    hide WriteReg, M.WriteWords, M.WordAddress;
  }

  lemma StoredModes(id: ArithId, op: Operand, ms: M.Machine)
    ensures M.ArithStored(id, op, ms).status.modes == ms.status.modes
  {
    hide ReadReg, WriteReg, Wrap, M.Value, M.StoreOperand, M.StoredTotal, M.IsSum, ArithWidth;
    var size := ArithWidth(id);
    StoreKeepsStatus(op, size, Wrap(M.StoredTotal(id, M.Value(op, size, ms), ReadReg(ms.regs, ACC)), size), ms);
  }

  lemma RegisterModes(id: ArithId, src: nat, ms: M.Machine)
    ensures M.ArithRegister(id, src, ms).status.modes == ms.status.modes
  {
    hide ReadReg, WriteReg, Wrap, M.CarryTotal, M.IsSum, M.UsesCarry;
  }

  lemma ArithModes(id: ArithId, op: Operand, ms: M.Machine)
    ensures M.ArithEffect(id, op, ms).status.modes == ms.status.modes
  {
    hide ReadReg, WriteReg, Wrap, M.Value, M.SourceValue, M.ArithStored, M.ArithRegister, M.IntoOperand;
    StoredModes(id, op, ms);
    RegisterModes(id, M.SourceValue(id, op, ms), ms);
  }

  lemma MovModes(id: MovId, ops: seq<Operand>, ms: M.Machine)
    ensures M.MovEffect(id, ops, ms).status.modes == ms.status.modes
  {
    hide ReadReg, WriteReg, Wrap, M.Value, M.StoreOperand;
    var reg := if id.MOV_LOC_REG? || id.MOV_LOC16_AX_COND? then id.reg else ACC;
    StoreKeepsStatus(M.First(ops), reg.Size(), ReadReg(ms.regs, reg), ms);
    StoreKeepsStatus(M.First(ops), 2, ReadReg(ms.regs, reg), ms);
    if |ops| >= 2 { StoreKeepsStatus(M.First(ops), 2, M.Value(ops[1], 2, ms), ms); }
  }

  lemma OtherModes(insn: DecodedInstruction, ms: M.Machine)
    requires insn.id.Misc? || insn.id.Multiply? || insn.id.Branch?
    ensures M.Effect(insn, ms).status.modes == ms.status.modes
  {
    hide ReadReg, WriteReg, Wrap, M.Value, M.ReadWords, Signed;
  }

  /** Only SETC, CLRC and the pops of ST0 and ST1 change the modes. */
  lemma ModesKept(insn: DecodedInstruction, ms: M.Machine)
    requires !insn.id.Stack? && !insn.id.System?
    ensures M.Effect(insn, ms).status.modes == ms.status.modes
  {
    hide M.ArithEffect, M.MovEffect, M.MiscEffect, M.MultiplyEffect;
    if insn.id.Arith? { ArithModes(insn.id.arith, M.First(insn.operands), ms); }
    else if insn.id.Mov? { MovModes(insn.id.mov, insn.operands, ms); }
    else { OtherModes(insn, ms); }
  }

  lemma {:induction false} LineKeepsModes(prog: seq<DecodedInstruction>, ms: M.Machine)
    requires forall insn :: insn in prog ==> !insn.id.Stack? && !insn.id.System?
    ensures Effects(prog, ms).status.modes == ms.status.modes
  {
    hide M.Effect;
    if prog != [] {
      ModesKept(prog[0], ms);
      LineKeepsModes(prog[1..], M.Effect(prog[0], ms));
    }
  }

  lemma SystemModes(id: SystemId, op: Operand, ms: M.Machine)
    ensures !id.SETC_MODE? && !id.CLRC_MODE? ==> M.SystemEffect(id, op, ms).status.modes == ms.status.modes
    ensures id.SETC_MODE? || id.CLRC_MODE? ==>
              M.SystemEffect(id, op, ms).status.modes == M.SetModes(ms.status.modes, M.Value(op, 1, ms), id.SETC_MODE?)
  {
    hide ReadReg, WriteReg, Wrap, M.Value, M.SetModes, Bits.Bit, Signed, Bits.Shl;
  }

  lemma EasyModes(insn: DecodedInstruction, ms: M.Machine)
    requires Easy(insn, ms.sp) && M.Assumed(ms.status.modes)
    ensures M.Assumed(M.Effect(insn, ms).status.modes)
  {
    hide M.SystemEffect, M.Effect, OperandReaches, Plain, Bits.Bit, M.UsesCarry, Loadable, Storable;
    if insn.id.System? {
      SystemModes(insn.id.system, M.First(insn.operands), ms);
      EffectOfSystem(insn, ms);
      if insn.id.system.SETC_MODE? || insn.id.system.CLRC_MODE? { MaskIs(insn, ms); }
    } else {
      ModesKept(insn, ms);
    }
  }

  lemma EffectOfSystem(insn: DecodedInstruction, ms: M.Machine)
    requires insn.id.System?
    ensures M.Effect(insn, ms) == M.SystemEffect(insn.id.system, M.First(insn.operands), ms)
  {
    hide M.SystemEffect;
  }

  lemma MaskIs(insn: DecodedInstruction, ms: M.Machine)
    requires WellFormed(insn) && insn.id.System? && (insn.id.system.SETC_MODE? || insn.id.system.CLRC_MODE?)
    ensures insn.operands != [] && M.Value(M.First(insn.operands), 1, ms) == LiftSystem.Mask(insn.operands)
  {}

  lemma EasyIsSafe(insn: DecodedInstruction, k: Known, ms: M.Machine)
    requires Easy(insn, ms.sp) && M.Assumed(ms.status.modes)
    ensures EffectSafe(insn, k, ms)
  {
    hide Plain, Loadable, Storable, M.ConditionOf, LeavesModes;
  }

  lemma {:induction false} EasyLine(prog: seq<DecodedInstruction>, k: Known, ms: M.Machine)
    requires M.Assumed(ms.status.modes) && forall insn :: insn in prog ==> Easy(insn, ms.sp)
    ensures SafeUngated(prog, k, ms) && Effects(prog, ms).sp == ms.sp
  {
    hide Easy, EffectSafe, After, M.Effect, M.Assumed;
    if prog != [] {
      EasyParts(prog[0], ms.sp);
      EasyIsSafe(prog[0], k, ms);
      EasyModes(prog[0], ms);
      SpKept(prog[0], ms);
      EasyLine(prog[1..], After(prog[0], k), M.Effect(prog[0], ms));
    }
  }

  lemma EasyParts(insn: DecodedInstruction, sp: nat)
    requires Easy(insn, sp)
    ensures WellFormed(insn) && Plainly(insn) && LeavesSp(insn)
  {}

  function Repeat(insn: DecodedInstruction, n: nat): seq<DecodedInstruction> {
    if n == 0 then [] else Repeat(insn, n - 1) + [insn]
  }

  lemma EffectsRepeat(insn: DecodedInstruction, n: nat, ms: M.Machine)
    ensures Effects(Repeat(insn, n + 1), ms) == M.Effect(insn, Effects(Repeat(insn, n), ms))
  {
    hide M.Effect;
    EffectsAppend(Repeat(insn, n), [insn], ms);
  }

  lemma {:induction false} InRepeat(x: DecodedInstruction, n: nat)
    ensures forall insn :: insn in Repeat(x, n) ==> insn == x
  {
    if n > 0 { InRepeat(x, n - 1); }
  }

  function Times(body: seq<DecodedInstruction>, n: nat): seq<DecodedInstruction> {
    if n == 0 then [] else Times(body, n - 1) + body
  }

  lemma {:induction false} InTimes(body: seq<DecodedInstruction>, n: nat)
    ensures forall insn :: insn in Times(body, n) ==> insn in body
  {
    if n > 0 { InTimes(body, n - 1); }
  }

  // ---- Short lines, unfolded ----

  lemma One(a: DecodedInstruction, ms: M.Machine)
    ensures Effects([a], ms) == M.Effect(a, ms)
  {
    hide M.Effect;
  }

  lemma Pairwise(a: DecodedInstruction, b: DecodedInstruction, ms: M.Machine)
    ensures Effects([a, b], ms) == M.Effect(b, M.Effect(a, ms))
  {
    hide M.Effect;
    assert [a, b][1..] == [b];
    One(b, M.Effect(a, ms));
  }

  lemma Three(a: DecodedInstruction, b: DecodedInstruction, c: DecodedInstruction, ms: M.Machine)
    ensures Effects([a, b, c], ms) == M.Effect(c, M.Effect(b, M.Effect(a, ms)))
  {
    hide M.Effect;
    assert [a, b, c][1..] == [b, c];
    Pairwise(b, c, M.Effect(a, ms));
  }

  lemma Four(a: DecodedInstruction, b: DecodedInstruction, c: DecodedInstruction, d: DecodedInstruction, ms: M.Machine)
    ensures Effects([a, b, c, d], ms) == M.Effect(d, M.Effect(c, M.Effect(b, M.Effect(a, ms))))
  {
    hide M.Effect;
    EffectsAppend([a, b], [c, d], ms);
    assert [a, b] + [c, d] == [a, b, c, d];
    Pairwise(a, b, ms);
    Pairwise(c, d, Effects([a, b], ms));
  }

  // ---- The machine an IL state stands for ----

  /** SP is the byte address of a word below 0x1_0000. */
  predicate ValidSp(st: State) {
    Full(st.regs, SP) % 2 == 0 && Full(st.regs, SP) < 0x2_0000
  }

  /** In the assumed modes. */
  ghost function Abstract(st: State): M.Machine {
    var f := st.flags;
    M.Machine(st.regs, Full(st.regs, SP) / 2, map w: nat | w < M.WORD_SPACE :: Half(st.mem, 2 * w),
              M.Status(f.n, f.z, f.c, f.tc, M.Modes(true, false, M.UNSHIFTED, false, false, false, false)),
              Full(st.regs, RB))
  }

  lemma AbstractRel(st: State)
    requires ValidSp(st)
    ensures Rel(Known(Direct, true, true), st, Abstract(st))
  {
    hide Half, Full, Wrap;
    var ms := Abstract(st);
    forall w: nat | w < M.WORD_SPACE ensures M.Word(ms.mem, w) == Half(st.mem, 2 * w) {
      assert w in ms.mem && ms.mem[w] == Half(st.mem, 2 * w);
    }
  }

  lemma RelMem(k: Known, st: State, ms: M.Machine)
    requires Rel(k, st, ms)
    ensures SameMem(st.mem, ms.mem)
  {
    hide SameMem, SameRegs;
  }

  /** The emitted code of a safe line does what the machine does. */
  lemma {:induction false} SafeLineRun(prog: seq<DecodedInstruction>, codes: seq<Code>, k: Known, st: State,
                                       ms: M.Machine, o: Oracle)
    requires LiftedInto(prog, codes) && SafeLine(prog, k, ms) && Rel(k, st, ms)
    ensures codes != []
    ensures var out := RunAll(codes, st, o); out.Falls? && Rel(AfterLine(prog, k), out.st, Steps(prog, ms))
  {
    hide Rel, Steps, AfterLine, SafeLine, IlLine, Run, Emits;
    LineSimulates(prog, k, st, ms, o);
    RunIsLine(prog, codes, 0, st, o);
    assert prog[0..] == prog;
  }

  lemma {:induction false} UngatedRun(prog: seq<DecodedInstruction>, codes: seq<Code>, k: Known, st: State,
                                      ms: M.Machine, o: Oracle)
    requires LiftedInto(prog, codes) && SafeUngated(prog, k, ms) && Rel(k, st, ms)
    ensures codes != []
    ensures var out := RunAll(codes, st, o); out.Falls? && Rel(AfterLine(prog, k), out.st, Effects(prog, ms))
  {
    hide Rel, Steps, Effects, AfterLine, SafeLine, SafeUngated, RunAll, LiftedInto;
    UngatedLine(prog, k, ms);
    SafeLineRun(prog, codes, k, st, ms, o);
  }

  /** The emitted code of an easy line does what the machine does. */
  lemma {:induction false} EasyRun(prog: seq<DecodedInstruction>, codes: seq<Code>, st: State, o: Oracle)
    requires ValidSp(st) && LiftedInto(prog, codes)
    requires forall insn :: insn in prog ==> Easy(insn, Full(st.regs, SP) / 2)
    ensures codes != []
    ensures var out, k := RunAll(codes, st, o), Known(Direct, true, true);
      && out.Falls? && Rel(k, st, Abstract(st))
      && Rel(AfterLine(prog, k), out.st, Effects(prog, Abstract(st)))
      && Effects(prog, Abstract(st)).sp == Full(st.regs, SP) / 2
  {
    hide Rel, Easy, Effects, AfterLine, SafeUngated, RunAll, LiftedInto, Full;
    AbstractRel(st);
    EasyLine(prog, Known(Direct, true, true), Abstract(st));
    UngatedRun(prog, codes, Known(Direct, true, true), st, Abstract(st), o);
  }
}
