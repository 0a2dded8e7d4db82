/** Multi-word sums and differences: the carry chain through ADDCL or SUBBL over arrays of 32-bit words. */
module MultiWord {
  import opened Wrappers
  import opened Registers
  import opened Operands
  import opened Instructions
  import opened Il
  import opened IlCode
  import opened Relation
  import opened SimArith
  import opened Simulation
  import opened StraightLine
  import opened Storage
  import opened Scratch
  import M = Machine
  import Bits

  // ---- The program ----

  function Pointer(n: Index): Operand { Loc32(Resolved(Indirect, None, Some(n), 0)) }

  function Advance(n: Index): DecodedInstruction { Row(Arith(ADDB_XARN_CONST7(n)), [Immediate(2)]) }

  function Chain(subtract: bool): ArithId {
    if subtract then SUBBL_ACC_LOC32 else ADDCL_ACC_LOC32
  }

  /** One word: add or subtract with carry, store, step the three pointers. */
  function Body(subtract: bool): seq<DecodedInstruction> {
    [Row(Mov(MOVL_ACC_LOC32), [Pointer(4)]),
     Row(Arith(Chain(subtract)), [Pointer(5)]),
     Row(Mov(MOV_LOC_REG(ACC)), [Pointer(6)]),
     Advance(4), Advance(5), Advance(6)]
  }

  // ---- Numbers in memory ----

  function Weight(n: nat): nat {
    if n == 0 then 1 else 0x1_0000_0000 * Weight(n - 1)
  }

  /** The number whose `n` 32-bit digits start at a word address, least significant first. */
  function Number(mem: M.Words, addr: nat, n: nat): nat {
    if n == 0 then 0 else Number(mem, addr, n - 1) + M.ReadWords(mem, addr + 2 * (n - 1), 4) * Weight(n - 1)
  }

  lemma {:induction false} NumberSame(a: M.Words, b: M.Words, low: nat, high: nat, addr: nat, n: nat)
    requires SameWords(a, b, low, high) && low <= addr && addr + 2 * n <= high <= M.WORD_SPACE
    ensures Number(a, addr, n) == Number(b, addr, n)
  {
    hide M.Word, M.ReadWords, SameWords;
    if n > 0 {
      NumberSame(a, b, low, high, addr, n - 1);
      ReadSameWords(a, b, low, high, addr + 2 * (n - 1));
    }
  }

  // ---- What the body works on ----

  /** The three pointers, the accumulator, and the carry or borrow. */
  datatype Loop = Loop(a: nat, b: nat, c: nat, acc: nat, carry: bool)

  function LoopOf(ms: M.Machine, subtract: bool): (l: Loop)
    ensures l.acc < 0x1_0000_0000
  {
    hide ReadReg, Modulus;
    Loop(ReadReg(ms.regs, XAR(4)), ReadReg(ms.regs, XAR(5)), ReadReg(ms.regs, XAR(6)), ReadReg(ms.regs, ACC),
         if subtract then !ms.status.c else ms.status.c)
  }

  lemma PutAcc(ms: M.Machine, v: nat, s: M.Status, sub: bool)
    requires v < 0x1_0000_0000
    ensures LoopOf(M.PutReg(ms, ACC, v).(status := s), sub) ==
            LoopOf(ms, sub).(acc := v, carry := if sub then !s.c else s.c)
  {
    hide ReadReg, WriteReg;
    ReadWritten(ms.regs, ACC, v);
    WriteOther(ms.regs, ACC, XAR(4), v);
    WriteOther(ms.regs, ACC, XAR(5), v);
    WriteOther(ms.regs, ACC, XAR(6), v);
  }

  lemma Step(ms: M.Machine, n: Index, sub: bool)
    requires 4 <= n <= 6
    requires ReadReg(ms.regs, XAR(n)) + 2 < 0x1_0000_0000
    ensures var l, ms' := LoopOf(ms, sub), M.Effect(Advance(n), ms);
      && LoopOf(ms', sub) == Loop(if n == 4 then l.a + 2 else l.a, if n == 5 then l.b + 2 else l.b,
                                  if n == 6 then l.c + 2 else l.c, l.acc, l.carry)
      && ms'.mem == ms.mem && ms'.sp == ms.sp
  {
    hide ReadReg, WriteReg, M.MovEffect, M.SystemEffect, M.MultiplyEffect, M.MiscEffect, M.StackEffect, M.ArithRegister,
      M.ArithStored, M.Subcu, M.Subcul;
    var v := ReadReg(ms.regs, XAR(n)) + 2;
    ReadWritten(ms.regs, XAR(n), v);
    WriteOther(ms.regs, XAR(n), ACC, v);
    if n != 4 { WriteOther(ms.regs, XAR(n), XAR(4), v); }
    if n != 5 { WriteOther(ms.regs, XAR(n), XAR(5), v); }
    if n != 6 { WriteOther(ms.regs, XAR(n), XAR(6), v); }
  }

  lemma PointerValue(ms: M.Machine, n: Index)
    requires ReadReg(ms.regs, XAR(n)) < M.WORD_SPACE
    ensures M.WordAddress(Pointer(n).loc, ms) == ReadReg(ms.regs, XAR(n))
    ensures M.Value(Pointer(n), 4, ms) == M.ReadWords(ms.mem, ReadReg(ms.regs, XAR(n)), 4) < 0x1_0000_0000
  {
    hide ReadReg, M.Word;
  }

  /** Exact sum or difference of two digits and the carry. */
  function Total(sub: bool, x: nat, y: nat, carry: bool): int {
    if sub then (x as int) - y - M.Bool(carry) else x + y + M.Bool(carry)
  }

  predicate CarryOut(sub: bool, total: int) {
    if sub then total < 0 else total >= 0x1_0000_0000
  }

  lemma LoadStep(ms: M.Machine, sub: bool)
    requires LoopOf(ms, sub).a < M.WORD_SPACE
    ensures var l, ms' := LoopOf(ms, sub), M.Effect(Body(sub)[0], ms);
      LoopOf(ms', sub) == l.(acc := M.ReadWords(ms.mem, l.a, 4)) && ms'.mem == ms.mem && ms'.sp == ms.sp
  {
    hide ReadReg, WriteReg, M.ReadWords, M.Value, M.WordAddress;
    PointerValue(ms, 4);
    var v := M.ReadWords(ms.mem, LoopOf(ms, sub).a, 4);
    PutAcc(ms, v, M.Judge(ms.status, v, 4), sub);
  }

  lemma AluStep(ms: M.Machine, sub: bool)
    requires LoopOf(ms, sub).b < M.WORD_SPACE
    ensures var l, ms' := LoopOf(ms, sub), M.Effect(Body(sub)[1], ms);
      var total := Total(sub, l.acc, M.ReadWords(ms.mem, l.b, 4), l.carry);
      && LoopOf(ms', sub) == l.(acc := Wrap(total, 4), carry := CarryOut(sub, total))
      && ms'.mem == ms.mem && ms'.sp == ms.sp
  {
    hide ReadReg, WriteReg, M.ReadWords, M.Value, M.WordAddress, Wrap, M.AluInto, M.MovEffect, M.SystemEffect,
      M.MultiplyEffect, M.MiscEffect, M.StackEffect, M.ArithStored, M.Subcu, M.Subcul;
    PointerValue(ms, 5);
    var l := LoopOf(ms, sub);
    var total := Total(sub, l.acc, M.ReadWords(ms.mem, l.b, 4), l.carry);
    var s := M.AluStatus(ms.status, total, 4, sub);
    assert M.Effect(Body(sub)[1], ms) == M.AluInto(ms, ACC, total, sub);
    AluIntoParts(ms, ACC, total, sub);
    PutAcc(ms, Wrap(total, 4), s, sub);
  }

  lemma StoreStep(ms: M.Machine, sub: bool)
    requires LoopOf(ms, sub).c < M.WORD_SPACE
    ensures var l, ms' := LoopOf(ms, sub), M.Effect(Body(sub)[2], ms);
      LoopOf(ms', sub) == l && ms'.mem == M.WriteWords(ms.mem, l.c, 4, l.acc) && ms'.sp == ms.sp
  {
    hide ReadReg, WriteReg, M.ReadWords, M.WriteWords, M.WordAddress;
    PointerValue(ms, 6);
  }

  /** One pass of the body. */
  lemma BodyStep(ms: M.Machine, sub: bool)
    requires var l := LoopOf(ms, sub); l.a < M.WORD_SPACE && l.b < M.WORD_SPACE && l.c < M.WORD_SPACE
    ensures var l, ms' := LoopOf(ms, sub), Effects(Body(sub), ms);
      var total := Total(sub, M.ReadWords(ms.mem, l.a, 4), M.ReadWords(ms.mem, l.b, 4), l.carry);
      && LoopOf(ms', sub) == Loop(l.a + 2, l.b + 2, l.c + 2, Wrap(total, 4), CarryOut(sub, total))
      && ms'.mem == M.WriteWords(ms.mem, l.c, 4, Wrap(total, 4))
      && ms'.sp == ms.sp
  {
    hide ReadReg, M.Effect, Effects, M.ReadWords, M.WriteWords, Wrap, Total, CarryOut;
    var b := Body(sub);
    var m1 := M.Effect(b[0], ms);
    var m2 := M.Effect(b[1], m1);
    var m3 := M.Effect(b[2], m2);
    var m4 := M.Effect(b[3], m3);
    var m5 := M.Effect(b[4], m4);
    LoadStep(ms, sub);
    AluStep(m1, sub);
    StoreStep(m2, sub);
    Step(m3, 4, sub);
    Step(m4, 5, sub);
    Step(m5, 6, sub);
    Six(b, ms);
  }

  lemma Six(b: seq<DecodedInstruction>, ms: M.Machine)
    requires |b| == 6
    ensures Effects(b, ms) == M.Effect(b[5],
            M.Effect(b[4], M.Effect(b[3], M.Effect(b[2], M.Effect(b[1], M.Effect(b[0], ms))))))
  {
    hide M.Effect, Effects;
    assert b == [b[0], b[1], b[2]] + [b[3], b[4], b[5]];
    EffectsAppend([b[0], b[1], b[2]], [b[3], b[4], b[5]], ms);
    Three(b[0], b[1], b[2], ms);
    Three(b[3], b[4], b[5], Effects([b[0], b[1], b[2]], ms));
  }

  // ---- n passes ----

  /** An array of `n` digits fits the address space, and no digit of it is overwritten before
      it is read: the destination starts at or before it, or past its end. */
  predicate ReadFirst(source: nat, dest: nat, n: nat) {
    source + 2 * n <= M.WORD_SPACE && (dest <= source || source + 2 * n <= dest)
  }

  predicate Arrays(l: Loop, n: nat) {
    ReadFirst(l.a, l.c, n) && ReadFirst(l.b, l.c, n) && l.c + 2 * n <= M.WORD_SPACE
  }

  /** A carry weighed at its place. */
  function Weighed(carry: bool, weight: nat): nat { if carry then weight else 0 }

  /** What the passes so far conserve: result and carry out are the sum of the numbers and the
      carry in; for a difference, result less borrow. */
  predicate Conserves(sub: bool, result: nat, carry: bool, weight: nat, x: nat, y: nat, first: bool) {
    if sub then result - Weighed(carry, weight) == x - y - Weighed(first, 1)
    else result + Weighed(carry, weight) == x + y + Weighed(first, 1)
  }

  lemma WeighedIs(carry: bool, w: nat)
    ensures M.Bool(carry) * w == Weighed(carry, w)
  {}

  /** One more digit keeps the balance. */
  lemma NextDigit(sub: bool, result: nat, carry: bool, w: nat, x: nat, y: nat, first: bool, dx: nat, dy: nat)
    requires Conserves(sub, result, carry, w, x, y, first) && dx < 0x1_0000_0000 && dy < 0x1_0000_0000
    ensures var total := Total(sub, dx, dy, carry);
      Conserves(sub, result + Wrap(total, 4) * w, CarryOut(sub, total), 0x1_0000_0000 * w, x + dx * w, y + dy * w,
        first)
  {
    hide Wrap, Weighed, CarryOut;
    var total := Total(sub, dx, dy, carry);
    var t: int, t': int := M.Bool(carry), M.Bool(CarryOut(sub, total));
    WeighedIs(carry, w);
    WeighedIs(CarryOut(sub, total), 0x1_0000_0000 * w);
    DigitSplit(sub, total);
    var digit: int := Wrap(total, 4);
    if sub {
      assert digit == dx - dy - t + t' * 0x1_0000_0000;
      Spread(dx, -(dy as int), -t, t', w);
    } else {
      assert digit == dx + dy + t - t' * 0x1_0000_0000;
      Spread(dx, dy, t, -t', w);
    }
  }

  lemma Spread(a: int, b: int, c: int, t: int, w: int)
    ensures (a + b + c + t * 0x1_0000_0000) * w == a * w + b * w + c * w + t * (0x1_0000_0000 * w)
    ensures (-b) * w == -(b * w) && (-c) * w == -(c * w) && (-t) * (0x1_0000_0000 * w) == -(t * (0x1_0000_0000 * w))
  {
    Bits.MulAssoc(t, 0x1_0000_0000, w);
  }

  lemma DigitSplit(sub: bool, total: int)
    requires if sub then -0x1_0000_0000 <= total < 0x1_0000_0000 else 0 <= total < 0x2_0000_0000
    ensures var t := M.Bool(CarryOut(sub, total));
      Wrap(total, 4) == if sub then total + t * 0x1_0000_0000 else total - t * 0x1_0000_0000
  {}

  /** The state after `i` passes, against the one before the first. */
  ghost predicate Passed(sub: bool, i: nat, ms: M.Machine, ms': M.Machine) {
    var l, l' := LoopOf(ms, sub), LoopOf(ms', sub);
    && l'.a == l.a + 2 * i && l'.b == l.b + 2 * i && l'.c == l.c + 2 * i && ms'.sp == ms.sp
    && SameWords(ms.mem, ms'.mem, 0, l.c) && SameWords(ms.mem, ms'.mem, l.c + 2 * i, M.WORD_SPACE)
    && Conserves(sub, Number(ms'.mem, l.c, i), l'.carry, Weight(i), Number(ms.mem, l.a, i), Number(ms.mem, l.b, i),
      l.carry)
  }

  lemma NoPass(sub: bool, ms: M.Machine)
    ensures Passed(sub, 0, ms, ms)
  {
    hide ReadReg;
  }

  lemma StillUnread(ms: M.Machine, ms': M.Machine, source: nat, dest: nat, i: nat, n: nat)
    requires i < n && ReadFirst(source, dest, n)
    requires SameWords(ms.mem, ms'.mem, 0, dest) && SameWords(ms.mem, ms'.mem, dest + 2 * i, M.WORD_SPACE)
    ensures M.ReadWords(ms'.mem, source + 2 * i, 4) == M.ReadWords(ms.mem, source + 2 * i, 4)
  {
    hide M.ReadWords, SameWords;
    if dest <= source {
      ReadSameWords(ms.mem, ms'.mem, dest + 2 * i, M.WORD_SPACE, source + 2 * i);
    } else {
      Below(ms.mem, ms'.mem, dest, source + 2 * i);
    }
  }

  lemma Below(a: M.Words, b: M.Words, high: nat, addr: nat)
    requires SameWords(a, b, 0, high) && addr + 2 <= high && addr + 2 <= M.WORD_SPACE
    ensures M.ReadWords(a, addr, 4) == M.ReadWords(b, addr, 4)
  {
    hide M.ReadWords, M.Word;
    assert SameWords(a, b, 0, addr + 2);
    ReadSameWords(a, b, 0, addr + 2, addr);
  }

  /** Storing digit `i` changes no other word. */
  lemma StoredApart(mem0: M.Words, mem: M.Words, dest: nat, i: nat, v: nat)
    requires dest + 2 * i + 2 <= M.WORD_SPACE
    requires SameWords(mem0, mem, 0, dest) && SameWords(mem0, mem, dest + 2 * i, M.WORD_SPACE)
    ensures var mem' := M.WriteWords(mem, dest + 2 * i, 4, v);
      && SameWords(mem0, mem', 0, dest) && SameWords(mem0, mem', dest + 2 * (i + 1), M.WORD_SPACE)
      && SameWords(mem, mem', dest, dest + 2 * i)
  {
    hide M.WriteWords, M.Word;
    var mem' := M.WriteWords(mem, dest + 2 * i, 4, v);
    forall w: nat | w !in Cells(dest + 2 * i, 4) ensures M.Word(mem', w) == M.Word(mem, w) {
      WordUntouched(mem, dest + 2 * i, 4, v, w);
    }
  }

  lemma NextNumber(mem: M.Words, mem': M.Words, dest: nat, i: nat, v: nat)
    requires dest + 2 * i + 2 <= M.WORD_SPACE && v < 0x1_0000_0000
    requires mem' == M.WriteWords(mem, dest + 2 * i, 4, v) && SameWords(mem, mem', dest, dest + 2 * i)
    ensures Number(mem', dest, i + 1) == Number(mem, dest, i) + v * Weight(i)
  {
    hide M.WriteWords, M.ReadWords, SameWords, Modulus;
    NumberSame(mem, mem', dest, dest + 2 * i, dest, i);
    ReadStored(mem, dest + 2 * i, 4, v);
  }

  lemma {:induction false} Passes(sub: bool, i: nat, n: nat, ms: M.Machine)
    requires i <= n && Arrays(LoopOf(ms, sub), n)
    ensures Passed(sub, i, ms, Effects(Times(Body(sub), i), ms))
  {
    hide Effects, LoopOf, SameWords, Conserves, Number, Weight, M.ReadWords, M.WriteWords, ReadFirst, Wrap, Total,
      CarryOut;
    if i == 0 {
      NoPass(sub, ms);
      NoBody(sub, ms);
    } else {
      Passes(sub, i - 1, n, ms);
      EffectsAppend(Times(Body(sub), i - 1), Body(sub), ms);
      OnePass(sub, i - 1, n, ms, Effects(Times(Body(sub), i - 1), ms));
    }
  }

  lemma NoBody(sub: bool, ms: M.Machine)
    ensures Effects(Times(Body(sub), 0), ms) == ms
  {}

  /** The digits the next pass adds, and the state it leaves. */
  lemma PassState(sub: bool, i: nat, n: nat, ms: M.Machine, m1: M.Machine)
    requires i < n && Arrays(LoopOf(ms, sub), n) && Passed(sub, i, ms, m1)
    ensures var l, l1, m2 := LoopOf(ms, sub), LoopOf(m1, sub), Effects(Body(sub), m1);
      var total := Total(sub, M.ReadWords(ms.mem, l.a + 2 * i, 4), M.ReadWords(ms.mem, l.b + 2 * i, 4), l1.carry);
      && LoopOf(m2, sub) == Loop(l.a + 2 * (i + 1), l.b + 2 * (i + 1), l.c + 2 * (i + 1), Wrap(total, 4),
        CarryOut(sub, total))
      && m2.mem == M.WriteWords(m1.mem, l.c + 2 * i, 4, Wrap(total, 4)) && m2.sp == ms.sp
      && l.c + 2 * i + 2 <= M.WORD_SPACE
  {
    hide Effects, LoopOf, SameWords, Conserves, Number, Weight, M.ReadWords, M.WriteWords, ReadFirst, Wrap, Total,
      CarryOut, Body;
    var l := LoopOf(ms, sub);
    ArraysFit(l, n);
    BodyStep(m1, sub);
    StillUnread(ms, m1, l.a, l.c, i, n);
    StillUnread(ms, m1, l.b, l.c, i, n);
  }

  lemma OnePass(sub: bool, i: nat, n: nat, ms: M.Machine, m1: M.Machine)
    requires i < n && Arrays(LoopOf(ms, sub), n) && Passed(sub, i, ms, m1)
    ensures Passed(sub, i + 1, ms, Effects(Body(sub), m1))
  {
    hide Effects, LoopOf, SameWords, Conserves, Number, Weight, M.ReadWords, M.WriteWords, Arrays, Wrap, Total,
      CarryOut, Body;
    var l, l1 := LoopOf(ms, sub), LoopOf(m1, sub);
    PassState(sub, i, n, ms, m1);
    var dx, dy := M.ReadWords(ms.mem, l.a + 2 * i, 4), M.ReadWords(ms.mem, l.b + 2 * i, 4);
    DigitBound(ms.mem, l.a + 2 * i);
    DigitBound(ms.mem, l.b + 2 * i);
    var v := Wrap(Total(sub, dx, dy, l1.carry), 4);
    StoredApart(ms.mem, m1.mem, l.c, i, v);
    WrapBound(Total(sub, dx, dy, l1.carry));
    NextNumber(m1.mem, Effects(Body(sub), m1).mem, l.c, i, v);
    NextDigit(sub, Number(m1.mem, l.c, i), l1.carry, Weight(i), Number(ms.mem, l.a, i), Number(ms.mem, l.b, i), l.carry,
      dx, dy);
    NumberNext(ms.mem, l.a, i);
    NumberNext(ms.mem, l.b, i);
  }

  lemma NumberNext(mem: M.Words, addr: nat, i: nat)
    ensures Number(mem, addr, i + 1) == Number(mem, addr, i) + M.ReadWords(mem, addr + 2 * i, 4) * Weight(i)
    ensures Weight(i + 1) == 0x1_0000_0000 * Weight(i)
  {
    hide M.ReadWords;
  }

  lemma ArraysFit(l: Loop, n: nat)
    requires Arrays(l, n)
    ensures ReadFirst(l.a, l.c, n) && ReadFirst(l.b, l.c, n)
    ensures l.a + 2 * n <= M.WORD_SPACE && l.b + 2 * n <= M.WORD_SPACE && l.c + 2 * n <= M.WORD_SPACE
  {}

  lemma DigitBound(mem: M.Words, addr: nat)
    ensures M.ReadWords(mem, addr, 4) < 0x1_0000_0000
  {
    hide M.ReadWords, Modulus;
  }

  lemma WrapBound(x: int)
    ensures Wrap(x, 4) < 0x1_0000_0000
  {
    hide Wrap, Modulus;
  }

  // ---- The lifted code ----

  predicate Polarity(sub: bool, k: Known) {
    if sub then k.c.Inverted? else k.c.Direct?
  }

  /** The carry survives the moves and the pointer steps, in the convention it was left in. */
  lemma BodySafe(sub: bool, k: Known, ms: M.Machine)
    requires Polarity(sub, k) && M.Assumed(ms.status.modes)
    ensures SafeUngated(Body(sub), k, ms) && Polarity(sub, AfterLine(Body(sub), k))
  {
    hide M.Effect, SafeUngated, AfterLine;
    var b := Body(sub);
    var k1 := Known(if sub then Inverted else Direct, true, true);
    assert b == b[..3] + b[3..] && b[..3] == [b[0], b[1], b[2]] && b[3..] == [b[3], b[4], b[5]];
    BodyRows(sub);
    var k0 := k.(n := true, z := true);
    ThreeSafe(b[0], b[1], b[2], k, k0, k1, k1, ms);
    KeepsModes(sub, ms);
    ThreeSafe(b[3], b[4], b[5], k1, k1, k1, k1, Effects(b[..3], ms));
    UngatedAppend(b[..3], b[3..], k, ms);
    AfterAppend(b[..3], b[3..], k);
  }

  /** A row that is safe in every machine state, and what is known after it. */
  ghost predicate AlwaysSafe(insn: DecodedInstruction, k: Known, k': Known) {
    WellFormed(insn) && Plainly(insn) && After(insn, k) == k'
    && forall ms: M.Machine :: M.Assumed(ms.status.modes) ==> EffectSafe(insn, k, ms)
  }

  predicate KeepModes(prog: seq<DecodedInstruction>) {
    forall insn :: insn in prog ==> !insn.id.Stack? && !insn.id.System?
  }

  lemma KeepsModes(sub: bool, ms: M.Machine)
    ensures KeepModes(Body(sub)) && Effects(Body(sub)[..3], ms).status.modes == ms.status.modes
  {
    hide Effects;
    LineKeepsModes(Body(sub)[..3], ms);
  }

  lemma TimesKeepsModes(sub: bool, n: nat)
    ensures KeepModes(Times(Body(sub), n))
  {
    hide Times;
    InTimes(Body(sub), n);
  }

  lemma BodyRows(sub: bool)
    ensures var b, k1 := Body(sub), Known(if sub then Inverted else Direct, true, true);
      && (forall k: Known | Polarity(sub, k) ::
            AlwaysSafe(b[0], k, k.(n := true, z := true)) && AlwaysSafe(b[1], k, k1))
      && AlwaysSafe(b[2], k1, k1) && AlwaysSafe(b[3], k1, k1) && AlwaysSafe(b[4], k1, k1) && AlwaysSafe(b[5], k1, k1)
  {
    hide AlwaysSafe;
    var k1 := Known(if sub then Inverted else Direct, true, true);
    forall k: Known | Polarity(sub, k)
      ensures AlwaysSafe(Body(sub)[0], k, k.(n := true, z := true)) && AlwaysSafe(Body(sub)[1], k, k1)
    {
      MoveRows(k);
      ChainRow(sub, k);
    }
    MoveRows(k1);
    AdvanceRow(4, k1);
    AdvanceRow(5, k1);
    AdvanceRow(6, k1);
  }

  lemma MoveRows(k: Known)
    ensures AlwaysSafe(Row(Mov(MOVL_ACC_LOC32), [Pointer(4)]), k, k.(n := true, z := true))
    ensures AlwaysSafe(Row(Mov(MOV_LOC_REG(ACC)), [Pointer(6)]), k, k)
  {}

  lemma ChainRow(sub: bool, k: Known)
    requires Polarity(sub, k)
    ensures AlwaysSafe(Row(Arith(Chain(sub)), [Pointer(5)]), k, Known(if sub then Inverted else Direct, true, true))
  {}

  lemma AdvanceRow(n: Index, k: Known)
    ensures AlwaysSafe(Advance(n), k, k)
  {}

  lemma ThreeSafe(a: DecodedInstruction, b: DecodedInstruction, c: DecodedInstruction, k: Known, k1: Known, k2: Known,
                  k3: Known, ms: M.Machine)
    requires AlwaysSafe(a, k, k1) && AlwaysSafe(b, k1, k2) && AlwaysSafe(c, k2, k3)
    requires M.Assumed(ms.status.modes) && KeepModes([a, b, c])
    ensures SafeUngated([a, b, c], k, ms) && AfterLine([a, b, c], k) == k3
  {
    hide M.Effect, WellFormed, Plainly, EffectSafe, After, M.Assumed;
    ModesKept(a, ms);
    ModesKept(b, M.Effect(a, ms));
    assert [a, b, c][1..] == [b, c] && [b, c][1..] == [c] && [c][1..] == [];
    EmptySafe(k3, M.Effect(c, M.Effect(b, M.Effect(a, ms))));
    assert SafeUngated([c], k2, M.Effect(b, M.Effect(a, ms))) && AfterLine([c], k2) == k3;
    assert SafeUngated([b, c], k1, M.Effect(a, ms)) && AfterLine([b, c], k1) == k3;
  }

  lemma {:induction false} PassesSafe(sub: bool, n: nat, k: Known, ms: M.Machine)
    requires Polarity(sub, k) && M.Assumed(ms.status.modes)
    ensures SafeUngated(Times(Body(sub), n), k, ms) && Polarity(sub, AfterLine(Times(Body(sub), n), k))
  {
    hide SafeUngated, AfterLine, Effects, Body, Polarity;
    if n == 0 {
      EmptySafe(k, ms);
    } else {
      PassesSafe(sub, n - 1, k, ms);
      var before := Times(Body(sub), n - 1);
      TimesKeepsModes(sub, n - 1);
      LineKeepsModes(before, ms);
      BodySafe(sub, AfterLine(before, k), Effects(before, ms));
      UngatedAppend(before, Body(sub), k, ms);
      AfterAppend(before, Body(sub), k);
    }
  }

  lemma EmptySafe(k: Known, ms: M.Machine)
    ensures SafeUngated([], k, ms) && AfterLine([], k) == k
  {}

  /** The number whose 32-bit digits start at a word address of the byte memory. */
  function Digits(mem: Memory, addr: nat, n: nat): nat {
    hide LoadBytes;
    if n == 0 then 0 else Digits(mem, addr, n - 1) + LoadBytes(mem, 2 * (addr + 2 * (n - 1)), 4) * Weight(n - 1)
  }

  lemma {:induction false} DigitsAre(bytes: Memory, words: M.Words, addr: nat, n: nat)
    requires SameMem(bytes, words) && addr + 2 * n <= M.WORD_SPACE
    ensures Digits(bytes, addr, n) == Number(words, addr, n)
  {
    hide SameMem, LoadBytes, M.ReadWords;
    if n > 0 {
      DigitsAre(bytes, words, addr, n - 1);
      LoadSame(bytes, words, addr + 2 * (n - 1), 4);
    }
  }

  /** The machine an IL state stands for when its carry flag holds the borrow. */
  ghost function Borrowing(sub: bool, st: State): M.Machine {
    var ms := Abstract(st);
    if sub then ms.(status := ms.status.(c := !st.flags.c)) else ms
  }

  lemma BorrowingRel(sub: bool, st: State)
    requires ValidSp(st)
    ensures Rel(Known(if sub then Inverted else Direct, true, true), st, Borrowing(sub, st))
    ensures M.Assumed(Borrowing(sub, st).status.modes)
    ensures LoopOf(Borrowing(sub, st), sub) == IlLoop(st)
  {
    hide SameMem, Full, ReadReg;
    AbstractRel(st);
  }

  /** The pointers, the accumulator and the carry flag of an IL state. */
  function IlLoop(st: State): Loop {
    Loop(ReadReg(st.regs, XAR(4)), ReadReg(st.regs, XAR(5)), ReadReg(st.regs, XAR(6)), ReadReg(st.regs, ACC),
      st.flags.c)
  }

  lemma LoopCarry(st: State)
    ensures IlLoop(st).carry == st.flags.c
  {}

  lemma CarryIs(sub: bool, k: Known, st: State, ms: M.Machine)
    requires Polarity(sub, k) && Rel(k, st, ms)
    ensures LoopOf(ms, sub).carry == st.flags.c
  {
    hide SameMem, SameRegs, ReadReg;
  }

  /** Running the IL emitted for `n` passes: the destination array is the sum, or the
      difference, of the two source arrays and the incoming carry, and `flag:C` the carry or
      borrow out of the last digit. */
  lemma {:induction false} MultiWordSum(sub: bool, n: nat, codes: seq<Code>, st: State, o: Oracle)
    requires ValidSp(st) && LiftedInto(Times(Body(sub), n), codes) && Arrays(IlLoop(st), n)
    ensures codes != [] && RunAll(codes, st, o).Falls?
    ensures var out, l := RunAll(codes, st, o).st, IlLoop(st);
      var result, x, y := Digits(out.mem, l.c, n), Digits(st.mem, l.a, n), Digits(st.mem, l.b, n);
      if sub then result - Weighed(out.flags.c, Weight(n)) == x - y - Weighed(st.flags.c, 1)
      else result + Weighed(out.flags.c, Weight(n)) == x + y + Weighed(st.flags.c, 1)
  {
    hide ValidSp, LiftedInto, Times, Body, RunAll, Rel, SafeUngated, AfterLine, Effects, SameMem, Digits, Number,
      Weight, LoopOf, IlLoop, SameWords, Borrowing, ReadFirst, Weighed;
    var prog, ms, k := Times(Body(sub), n), Borrowing(sub, st), Known(if sub then Inverted else Direct, true, true);
    BorrowingRel(sub, st);
    PassesSafe(sub, n, k, ms);
    UngatedRun(prog, codes, k, st, ms, o);
    Passes(sub, n, n, ms);
    var out, l := RunAll(codes, st, o).st, IlLoop(st);
    CarryIs(sub, AfterLine(prog, k), out, Effects(prog, ms));
    LoopCarry(st);
    ArraysFit(l, n);
    RelMem(k, st, ms);
    RelMem(AfterLine(prog, k), out, Effects(prog, ms));
    DigitsAre(st.mem, ms.mem, l.a, n);
    DigitsAre(st.mem, ms.mem, l.b, n);
    DigitsAre(out.mem, Effects(prog, ms).mem, l.c, n);
  }

  /** No word of memory outside the destination changes. */
  lemma {:induction false} MultiWordFrame(sub: bool, n: nat, codes: seq<Code>, st: State, o: Oracle, w: nat)
    requires ValidSp(st) && LiftedInto(Times(Body(sub), n), codes) && Arrays(IlLoop(st), n)
    requires w < M.WORD_SPACE && (w < IlLoop(st).c || w >= IlLoop(st).c + 2 * n)
    ensures codes != [] && RunAll(codes, st, o).Falls?
    ensures Half(RunAll(codes, st, o).st.mem, 2 * w) == Half(st.mem, 2 * w)
  {
    hide ValidSp, LiftedInto, Times, Body, RunAll, Rel, SafeUngated, AfterLine, Effects, Number, Weight, LoopOf, IlLoop,
      Borrowing, ReadFirst, Conserves, Half, M.Word;
    var prog, ms, k := Times(Body(sub), n), Borrowing(sub, st), Known(if sub then Inverted else Direct, true, true);
    BorrowingRel(sub, st);
    PassesSafe(sub, n, k, ms);
    UngatedRun(prog, codes, k, st, ms, o);
    Passes(sub, n, n, ms);
    RelMem(k, st, ms);
    RelMem(AfterLine(prog, k), RunAll(codes, st, o).st, Effects(prog, ms));
    assert M.Word(ms.mem, w) == M.Word(Effects(prog, ms).mem, w);
  }
}
