/** Runs as the sequences of configurations they go through. */
module Traces {
  import opened Wrappers
  import opened Instructions
  import opened Il
  import opened IlCode
  import opened Relation
  import opened Simulation
  import opened StraightLine
  import opened WholeRun
  import M = Machine

  /** A trace of at most `n` steps: each leads on from the instruction at the program counter, and it
      stops early only where there is none. */
  predicate Ends<S(==)>(prog: seq<Placed>, trace: seq<Config<S>>, start: Config<S>, end: Config<S>, n: nat) {
    && 0 < |trace| <= n + 1
    && trace[0] == start && trace[|trace| - 1] == end
    && (forall i :: 0 <= i < |trace| ==> trace[i].At?)
    && (forall i :: 0 <= i < |trace| - 1 ==> IndexAt(prog, trace[i].pc).Some?)
    && (|trace| <= n ==> IndexAt(prog, end.pc).None?)
  }

  /** `b` is where the machine goes from `a`. */
  predicate MachineGoes(prog: seq<Placed>, a: Config<M.Machine>, b: Config<M.Machine>) {
    a.At? && IndexAt(prog, a.pc).Some? && b == MachineStep(prog[IndexAt(prog, a.pc).value], a.state)
  }

  predicate IlGoes(prog: seq<Placed>, codes: seq<Code>, a: Config<State>, b: Config<State>, o: Oracle)
    requires |codes| == |prog| + 1
  {
    a.At? && IndexAt(prog, a.pc).Some? && b == IlStep(prog, codes, IndexAt(prog, a.pc).value, a.state, o)
  }

  predicate MachineSteps(prog: seq<Placed>, trace: seq<Config<M.Machine>>) {
    forall i {:trigger trace[i]} :: 0 < i < |trace| ==> MachineGoes(prog, trace[i - 1], trace[i])
  }

  predicate IlSteps(prog: seq<Placed>, codes: seq<Code>, trace: seq<Config<State>>, o: Oracle)
    requires |codes| == |prog| + 1
  {
    forall i {:trigger trace[i]} :: 0 < i < |trace| ==> IlGoes(prog, codes, trace[i - 1], trace[i], o)
  }

  /** What is known of the flags before each step. */
  predicate KnownAlong(prog: seq<Placed>, hw: seq<Config<M.Machine>>, known: seq<Known>) {
    && |known| == |hw|
    && forall i {:trigger known[i]} :: 0 < i < |known| ==> KnownGoes(prog, hw[i - 1], known[i - 1], known[i])
  }

  predicate KnownGoes(prog: seq<Placed>, a: Config<M.Machine>, k: Known, k': Known) {
    a.At? && IndexAt(prog, a.pc).Some? && k' == After(prog[IndexAt(prog, a.pc).value].insn, k)
  }

  ghost predicate Abreast(il: seq<Config<State>>, hw: seq<Config<M.Machine>>, known: seq<Known>) {
    && |il| == |hw| == |known|
    && forall i :: 0 <= i < |il| ==>
         il[i].At? && hw[i].At? && il[i].pc == hw[i].pc && Rel(known[i], il[i].state, hw[i].state)
  }

  // ---- One more step at the front ----

  lemma EndsLonger<S>(prog: seq<Placed>, first: Config<S>, rest: seq<Config<S>>, end: Config<S>, n: nat)
    requires n > 0 && first.At? && IndexAt(prog, first.pc).Some?
    requires rest != [] && Ends(prog, rest, rest[0], end, n - 1)
    ensures Ends(prog, [first] + rest, first, end, n)
  {
    hide IndexAt;
    var trace := [first] + rest;
    assert trace[|trace| - 1] == rest[|rest| - 1];
  }

  lemma MachineLonger(prog: seq<Placed>, first: Config<M.Machine>, rest: seq<Config<M.Machine>>)
    requires first.At? && IndexAt(prog, first.pc).Some? && rest != [] && MachineSteps(prog, rest)
    requires rest[0] == MachineStep(prog[IndexAt(prog, first.pc).value], first.state)
    ensures MachineSteps(prog, [first] + rest)
  {
    var trace := [first] + rest;
    assert MachineGoes(prog, first, rest[0]);
    hide MachineGoes;
    forall i {:trigger trace[i]} | 0 < i < |trace| ensures MachineGoes(prog, trace[i - 1], trace[i]) {
      if i > 1 { assert trace[i] == rest[i - 1] && trace[i - 1] == rest[i - 2]; }
    }
  }

  lemma IlLonger(prog: seq<Placed>, codes: seq<Code>, first: Config<State>, rest: seq<Config<State>>, o: Oracle)
    requires |codes| == |prog| + 1 && IlSteps(prog, codes, rest, o)
    requires first.At? && IndexAt(prog, first.pc).Some? && rest != []
    requires rest[0] == IlStep(prog, codes, IndexAt(prog, first.pc).value, first.state, o)
    ensures IlSteps(prog, codes, [first] + rest, o)
  {
    var trace := [first] + rest;
    assert IlGoes(prog, codes, first, rest[0], o);
    hide IlGoes;
    forall i {:trigger trace[i]} | 0 < i < |trace| ensures IlGoes(prog, codes, trace[i - 1], trace[i], o) {
      if i > 1 { assert trace[i] == rest[i - 1] && trace[i - 1] == rest[i - 2]; }
    }
  }

  lemma KnownLonger(prog: seq<Placed>, first: Config<M.Machine>, rest: seq<Config<M.Machine>>, k: Known,
                    known: seq<Known>)
    requires first.At? && IndexAt(prog, first.pc).Some? && known != [] && KnownAlong(prog, rest, known)
    requires known[0] == After(prog[IndexAt(prog, first.pc).value].insn, k)
    ensures KnownAlong(prog, [first] + rest, [k] + known)
  {
    var trace, all := [first] + rest, [k] + known;
    assert KnownGoes(prog, first, k, known[0]);
    hide KnownGoes;
    forall i {:trigger all[i]} | 0 < i < |all| ensures KnownGoes(prog, trace[i - 1], all[i - 1], all[i]) {
      if i > 1 { assert all[i] == known[i - 1] && all[i - 1] == known[i - 2] && trace[i - 1] == rest[i - 2]; }
    }
  }

  /** Over a safe run the emitted IL and the machine go abreast: after every instruction they are at
      the same place, in states related by what is then known of the flags. */
  lemma {:induction false} Lockstep(prog: seq<Placed>, codes: seq<Code>, pc: nat, k: Known, st: State, ms: M.Machine,
                                    n: nat, o: Oracle)
    returns (il: seq<Config<State>>, hw: seq<Config<M.Machine>>, known: seq<Known>)
    requires LiftedInto(InsnsOf(prog), codes) && Rel(k, st, ms) && SafeRun(prog, pc, k, ms, n)
    ensures |codes| == |prog| + 1 && IlSteps(prog, codes, il, o) && MachineSteps(prog, hw)
    ensures KnownAlong(prog, hw, known)
    ensures Ends(prog, il, At(pc, st), IlRun(prog, codes, pc, st, n, o), n)
    ensures Ends(prog, hw, At(pc, ms), MachineRun(prog, pc, ms, n), n)
    ensures Abreast(il, hw, known) && known[0] == k
    decreases n
  {
    hide Rel, SafeRun, MachineStep, IlStep, IndexAt, LiftedInto, InsnsOf, After, WellFormed, Safe, IlRun, MachineRun,
      MachineSteps, IlSteps, KnownAlong;
    Lengths(prog, codes);
    il, hw, known := [At(pc, st)], [At(pc, ms)], [k];
    var i := IndexAt(prog, pc);
    if n == 0 || i.None? {
      RunEnds(prog, codes, pc, k, st, ms, n, o);
      Start(prog, codes, At(pc, st), At(pc, ms), k, o);
    } else {
      MachineGoesOn(prog, pc, k, ms, n);
      IlStepOk(prog, codes, i.value, k, st, ms, o);
      IlGoesOn(prog, codes, pc, st, n, o);
      var next, next' := IlStep(prog, codes, i.value, st, o), MachineStep(prog[i.value], ms);
      var more, more', known' :=
        Lockstep(prog, codes, next.pc, After(prog[i.value].insn, k), next.state, next'.state, n - 1, o);
      EndsLonger(prog, At(pc, st), more, IlRun(prog, codes, pc, st, n, o), n);
      EndsLonger(prog, At(pc, ms), more', MachineRun(prog, pc, ms, n), n);
      hide Ends;
      MachineLonger(prog, At(pc, ms), more');
      IlLonger(prog, codes, At(pc, st), more, o);
      KnownLonger(prog, At(pc, ms), more', k, known');
      il, hw, known := il + more, hw + more', known + known';
    }
  }

  lemma Start(prog: seq<Placed>, codes: seq<Code>, il: Config<State>, hw: Config<M.Machine>, k: Known, o: Oracle)
    requires |codes| == |prog| + 1
    ensures IlSteps(prog, codes, [il], o) && MachineSteps(prog, [hw]) && KnownAlong(prog, [hw], [k])
  {}
}
