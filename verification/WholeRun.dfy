/** The emitted code of a program, labels and jumps included, follows the machine step by step. */
module WholeRun {
  import opened Wrappers
  import opened Instructions
  import opened Il
  import opened IlCode
  import opened Lifter
  import opened Relation
  import opened Simulation
  import opened StraightLine
  import M = Machine

  /** A decoded instruction at its byte address. */
  datatype Placed = Placed(addr: nat, insn: DecodedInstruction)

  /** The first instruction at an address. */
  function IndexAt(prog: seq<Placed>, pc: nat): (i: Option<nat>)
    ensures i.Some? ==> i.value < |prog| && prog[i.value].addr == pc
    ensures i.None? ==> forall j | 0 <= j < |prog| :: prog[j].addr != pc
  {
    if prog == [] then None
    else if prog[0].addr == pc then Some(0)
    else
      var rest := IndexAt(prog[1..], pc);
      if rest.None? then None else Some(rest.value + 1)
  }

  function InsnsOf(prog: seq<Placed>): (insns: seq<DecodedInstruction>)
    ensures |insns| == |prog| && forall i | 0 <= i < |prog| :: insns[i] == prog[i].insn
  {
    seq(|prog|, i requires 0 <= i < |prog| => prog[i].insn)
  }

  // ---- Runs ----

  lemma Lengths(prog: seq<Placed>, codes: seq<Code>)
    requires LiftedInto(InsnsOf(prog), codes)
    ensures |codes| == |prog| + 1
  {
    hide Emits;
  }

  datatype Config<S> = At(pc: nat, state: S) | Failed

  /** One instruction of flat code: from its first IL instruction to the next one's. */
  function IlStep(prog: seq<Placed>, codes: seq<Code>, i: nat, st: State, o: Oracle): Config<State>
    requires |codes| == |prog| + 1 && i < |prog|
  {
    match Run(Last(codes), |codes[i].insns|, |codes[i + 1].insns|, st, o)
    case Falls(st') => At(prog[i].addr + prog[i].insn.size, st')
    case Jumps(target, st') => At(target, st')
    case Stuck => Failed
  }

  /** Up to `n` instructions; a run ends early where no instruction is. */
  function IlRun(prog: seq<Placed>, codes: seq<Code>, pc: nat, st: State, n: nat, o: Oracle): Config<State>
    requires |codes| == |prog| + 1
    decreases n
  {
    var i := IndexAt(prog, pc);
    if n == 0 || i.None? then At(pc, st)
    else
      match IlStep(prog, codes, i.value, st, o)
      case At(pc', st') => IlRun(prog, codes, pc', st', n - 1, o)
      case Failed => Failed
  }

  function MachineStep(p: Placed, ms: M.Machine): (c: Config<M.Machine>)
    ensures c.At?
  {
    match M.Step(p.insn, ms)
    case Next(ms') => At(p.addr + p.insn.size, ms')
    case Taken(target, ms') => At(target, ms')
  }

  function MachineRun(prog: seq<Placed>, pc: nat, ms: M.Machine, n: nat): (c: Config<M.Machine>)
    ensures c.At?
    decreases n
  {
    var i := IndexAt(prog, pc);
    if n == 0 || i.None? then At(pc, ms)
    else
      var next := MachineStep(prog[i.value], ms);
      MachineRun(prog, next.pc, next.state, n - 1)
  }

  /** What is known of the flags at the end of the machine's run. */
  function KnownRun(prog: seq<Placed>, pc: nat, k: Known, ms: M.Machine, n: nat): Known
    decreases n
  {
    var i := IndexAt(prog, pc);
    if n == 0 || i.None? then k
    else
      var next := MachineStep(prog[i.value], ms);
      KnownRun(prog, next.pc, After(prog[i.value].insn, k), next.state, n - 1)
  }

  /** Every instruction the machine meets on its way is well formed and safe where it is met. */
  predicate SafeRun(prog: seq<Placed>, pc: nat, k: Known, ms: M.Machine, n: nat)
    decreases n
  {
    var i := IndexAt(prog, pc);
    n == 0 || i.None? ||
    (var insn := prog[i.value].insn;
     var next := MachineStep(prog[i.value], ms);
     WellFormed(insn) && Safe(insn, k, ms) && SafeRun(prog, next.pc, After(insn, k), next.state, n - 1))
  }

  lemma IlStepOk(prog: seq<Placed>, codes: seq<Code>, i: nat, k: Known, st: State, ms: M.Machine, o: Oracle)
    requires LiftedInto(InsnsOf(prog), codes) && i < |prog|
    requires WellFormed(prog[i].insn) && Safe(prog[i].insn, k, ms) && Rel(k, st, ms)
    ensures var next, ms' := IlStep(prog, codes, i, st, o), MachineStep(prog[i], ms);
      next.At? && next.pc == ms'.pc && Rel(After(prog[i].insn, k), next.state, ms'.state)
  {
    hide Emitted, Len, Lifted, Rel, After, Safe, WellFormed, M.Step, Run, ExecBlock;
    var insn := prog[i].insn;
    StaysEmitted(InsnsOf(prog), codes, i);
    InsnOk(insn, k, st, ms, o);
    RunEmitted(Last(codes), |codes[i].insns|, |codes[i + 1].insns|, Lifted(insn), st, o);
    var out := ExecBlock(Lifted(insn), st, o);
    if out.Falls? { RunToEnd(Last(codes), |codes[i + 1].insns|, out.st, o); }
  }

  lemma RunToEnd(code: Code, end: nat, st: State, o: Oracle)
    ensures Run(code, end, end, st, o) == Falls(st)
  {}

  lemma RunEnds(prog: seq<Placed>, codes: seq<Code>, pc: nat, k: Known, st: State, ms: M.Machine, n: nat, o: Oracle)
    requires |codes| == |prog| + 1 && (n == 0 || IndexAt(prog, pc).None?)
    ensures IlRun(prog, codes, pc, st, n, o) == At(pc, st) && MachineRun(prog, pc, ms, n) == At(pc, ms)
    ensures KnownRun(prog, pc, k, ms, n) == k
  {}

  /** One step and the run from there. */
  lemma MachineGoesOn(prog: seq<Placed>, pc: nat, k: Known, ms: M.Machine, n: nat)
    requires n > 0 && IndexAt(prog, pc).Some? && SafeRun(prog, pc, k, ms, n)
    ensures var p := prog[IndexAt(prog, pc).value];
      var next, after := MachineStep(p, ms), After(p.insn, k);
      && WellFormed(p.insn) && Safe(p.insn, k, ms) && SafeRun(prog, next.pc, after, next.state, n - 1)
      && MachineRun(prog, pc, ms, n) == MachineRun(prog, next.pc, next.state, n - 1)
      && KnownRun(prog, pc, k, ms, n) == KnownRun(prog, next.pc, after, next.state, n - 1)
  {
    hide After, Safe, WellFormed, MachineStep, IndexAt;
  }

  lemma IlGoesOn(prog: seq<Placed>, codes: seq<Code>, pc: nat, st: State, n: nat, o: Oracle)
    requires n > 0 && IndexAt(prog, pc).Some? && |codes| == |prog| + 1
    requires IlStep(prog, codes, IndexAt(prog, pc).value, st, o).At?
    ensures var next := IlStep(prog, codes, IndexAt(prog, pc).value, st, o);
      IlRun(prog, codes, pc, st, n, o) == IlRun(prog, codes, next.pc, next.state, n - 1, o)
  {
    hide IlStep, IndexAt;
  }

  /** Lifting preserves meaning over whole runs: from related states, running the emitted IL
      reaches the machine's own program counter in a related state, for any number of steps. */
  lemma {:induction false} RunSimulates(prog: seq<Placed>, codes: seq<Code>, pc: nat, k: Known, st: State,
                                        ms: M.Machine, n: nat, o: Oracle)
    requires LiftedInto(InsnsOf(prog), codes) && Rel(k, st, ms) && SafeRun(prog, pc, k, ms, n)
    ensures var il, hw := IlRun(prog, codes, pc, st, n, o), MachineRun(prog, pc, ms, n);
      il.At? && il.pc == hw.pc && Rel(KnownRun(prog, pc, k, ms, n), il.state, hw.state)
    decreases n
  {
    hide Rel, After, Safe, WellFormed, MachineStep, IlStep, IndexAt, Emits, IlRun, MachineRun, KnownRun, SafeRun;
    Lengths(prog, codes);
    var i := IndexAt(prog, pc);
    if n == 0 || i.None? {
      RunEnds(prog, codes, pc, k, st, ms, n, o);
    } else {
      MachineGoesOn(prog, pc, k, ms, n);
      IlStepOk(prog, codes, i.value, k, st, ms, o);
      var next := IlStep(prog, codes, i.value, st, o);
      RunSimulates(prog, codes, next.pc, After(prog[i.value].insn, k), next.state, MachineStep(prog[i.value], ms).state,
        n - 1, o);
      IlGoesOn(prog, codes, pc, st, n, o);
    }
  }
}
