/** PUSH and POP around any code, loops and branches included, as a run of the whole program. */
module StackRuns {
  import opened Instructions
  import opened Il
  import opened IlCode
  import opened Relation
  import opened SimStack
  import opened StraightLine
  import opened StackNesting
  import opened WholeRun
  import M = Machine

  /** The instruction at an address. */
  predicate Stands(prog: seq<Placed>, pc: nat, insn: DecodedInstruction) {
    var i := IndexAt(prog, pc);
    i.Some? && prog[i.value].insn == insn
  }

  /** One step more of the machine. */
  lemma {:induction false} OneMore(prog: seq<Placed>, pc: nat, ms: M.Machine, n: nat)
    ensures var at := MachineRun(prog, pc, ms, n);
      MachineRun(prog, pc, ms, n + 1) == MachineRun(prog, at.pc, at.state, 1)
    decreases n
  {
    hide IndexAt, MachineStep;
    var i := IndexAt(prog, pc);
    if n > 0 && i.Some? {
      var next := MachineStep(prog[i.value], ms);
      OneMore(prog, next.pc, next.state, n - 1);
    }
  }

  lemma StepAt(prog: seq<Placed>, pc: nat, ms: M.Machine, insn: DecodedInstruction)
    requires Stands(prog, pc, insn) && M.Step(insn, ms) == M.Next(M.Effect(insn, ms))
    ensures MachineRun(prog, pc, ms, 1).state == M.Effect(insn, ms)
  {
    hide IndexAt, M.Step, M.Effect;
    var next := MachineStep(prog[IndexAt(prog, pc).value], ms);
    assert MachineRun(prog, next.pc, next.state, 0) == next;
  }

  /** The machine on its way: the PUSH first, then `n` steps of any kind that end at the matching
      POP with the stack as the PUSH left it, then the POP. */
  ghost predicate BracketRun(prog: seq<Placed>, pc: nat, s: Save, ms: M.Machine, n: nat) {
    var at := MachineRun(prog, pc, ms, n + 1);
    && Stands(prog, pc, PushRow(s)) && Stands(prog, at.pc, PopRow(s))
    && RoomUp(ms, Words(s)) && Intact(PushOf(s, ms), at.state)
  }

  lemma {:induction false} RunRestores(prog: seq<Placed>, pc: nat, s: Save, ms: M.Machine, n: nat)
    requires BracketRun(prog, pc, s, ms, n)
    ensures Restored(s, ms, MachineRun(prog, pc, ms, n + 2).state)
  {
    hide MachineRun, Intact, Restored, PushOf, PopOf, Stands, Words, PushRow, PopRow, M.Step, M.Effect;
    var at := MachineRun(prog, pc, ms, n + 1);
    OneMore(prog, pc, ms, n + 1);
    RowSteps(s, at.state);
    RowEffects(s, at.state);
    StepAt(prog, at.pc, at.state, PopRow(s));
    SaveRestored(s, ms, at.state);
  }

  /** The emitted IL of such a run reaches the machine's program counter with SP, every register
      the PUSH saved, and memory below SP as they were, whatever path the code in between takes. */
  lemma {:induction false} LiftedRunRestores(prog: seq<Placed>, codes: seq<Code>, pc: nat, s: Save, k: Known, st: State,
                                             ms: M.Machine, n: nat, o: Oracle)
    requires LiftedInto(InsnsOf(prog), codes) && Rel(k, st, ms) && SafeRun(prog, pc, k, ms, n + 2)
    requires SaveSafe(s, ms) && BracketRun(prog, pc, s, ms, n)
    ensures |codes| == |prog| + 1
    ensures var il, hw := IlRun(prog, codes, pc, st, n + 2, o), MachineRun(prog, pc, ms, n + 2);
      il.At? && il.pc == hw.pc && IlRestored(s, st, il.state)
  {
    hide Rel, LiftedInto, SafeRun, MachineRun, IlRun, KnownRun, BracketRun, Restored, IlRestored, SaveSafe, InsnsOf;
    Lengths(prog, codes);
    RunSimulates(prog, codes, pc, k, st, ms, n + 2, o);
    RunRestores(prog, pc, s, ms, n);
    RestoredInIl(s, k, KnownRun(prog, pc, k, ms, n + 2), st, IlRun(prog, codes, pc, st, n + 2, o).state, ms,
                 MachineRun(prog, pc, ms, n + 2).state);
  }
}
