/**
 The pipeline beside a memory that is always ready: every run is sequential, and a program that is offered
 without a gap runs to its end in a bounded number of cycles.
 */
module PipelineReady {
  import opened Pipeline

  /** A load in MEM and a CSR access that it would take its data from. */
  predicate AtOdds(p: Regs) { p.csrRe && p.mem.re }

  /** With memory ready both words come from EX in the same cycle, where only one can be. */
  lemma ReadyEdge(u: Units, p: Regs, input: Input)
    requires |p.storage| == 32
    ensures !AtOdds(Next(u, p, input, true)) && |Next(u, p, input, true).storage| == 32
  {
  }

  lemma {:induction false} ReadyNeverWrong(u: Units, p: Regs, ticks: seq<Tick>)
    requires |p.storage| == 32 && !AtOdds(p) && forall i | 0 <= i < |ticks| :: ticks[i].ready
    ensures NoneWrong(u, p, ticks)
    decreases |ticks|
  {
    hide Next;
    if ticks != [] {
      ReadyEdge(u, p, ticks[0].input);
      ReadyNeverWrong(u, Next(u, p, ticks[0].input, true), ticks[1..]);
    }
  }

  /** From reset, with memory always ready, no bubble can do harm: the run is sequential. */
  lemma ReadyRunIsSequential(u: Units, prog: seq<Slot>, p: Regs, ticks: seq<Tick>)
    requires Empty(u, p) && Straight(prog) && |p.storage| == 32 && p.storage[0] == 0
    requires LegalRun(u, prog, p, 0, ticks) && forall i | 0 <= i < |ticks| :: ticks[i].ready
    ensures AlwaysInStep(u, Arch(p.storage, p.dmem), prog, p, 0, ticks)
  {
    ReadyNeverWrong(u, p, ticks);
    ResetRunExactly(u, prog, p, ticks);
  }

  /** Memory ready, ID never held back, and fetch offering one instruction after the other; once they are
      all on their way it offers nothing, and the wires carry `idle`. */
  function Unhindered(u: Units, prog: seq<Slot>, p: Regs, r: nat, n: nat, idle: Input): (ticks: seq<Tick>)
    requires |p.storage| == 32
    ensures |ticks| == n && forall i | 0 <= i < n :: ticks[i].ready && !ticks[i].input.hold
    decreases n
  {
    if n == 0 then []
    else
      var k := Fetches(p, r);
      var input := idle.(fetched := k < |prog|, slot := if k < |prog| then prog[k] else idle.slot, hold := false);
      ReadyEdge(u, p, input);
      [Tick(input, true)] + Unhindered(u, prog, Next(u, p, input, true), r + Count(Retires(p, true)), n - 1, idle)
  }

  lemma {:induction false} UnhinderedIsProductive(u: Units, prog: seq<Slot>, p: Regs, r: nat, n: nat, idle: Input)
    requires Steady(u, prog, p, r)
    ensures var ticks := Unhindered(u, prog, p, r, n, idle);
      LegalRun(u, prog, p, r, ticks) && Effort(u, prog, p, r, ticks) == n
    decreases n
  {
    hide Next, Network, Steady, Retires, DelayHolds;
    SteadySize(u, prog, p, r);
    if n > 0 {
      var t := Unhindered(u, prog, p, r, n, idle)[0];
      StepSteady(u, prog, p, r, t);
      UnhinderedIsProductive(u, prog, Next(u, p, t.input, true), r + Count(Retires(p, true)), n - 1, idle);
    }
  }

  /** Registers, and instructions retired, after `n` such cycles from reset. */
  function Ran(u: Units, prog: seq<Slot>, p: Regs, n: nat, idle: Input): (Regs, nat)
    requires |p.storage| == 32
  {
    Run(u, p, 0, Unhindered(u, prog, p, 0, n, idle))
  }

  /** From reset such a run ends with every instruction retired, and with the registers and memory of the
      sequential execution of the whole program. */
  lemma ProgramRuns(u: Units, prog: seq<Slot>, p: Regs, n: nat, idle: Input)
    requires Empty(u, p) && Straight(prog) && |p.storage| == 32 && p.storage[0] == 0
    requires n == |prog| * (4 + if u.mulLatency > u.divLatency then u.mulLatency else u.divLatency)
    ensures var (p', retired) := Ran(u, prog, p, n, idle);
      && retired == |prog| && !p'.id.valid && !p'.ex.valid && !p'.mem.valid
      && Arch(p'.storage, p'.dmem) == After(u, Arch(p.storage, p.dmem), prog, |prog|)
  {
    hide Inv, Steady, Run, LegalRun, NoneWrong, Effort, After, Straight, Unhindered, Next, Network, Execute, Legal;
    EmptyInv(u, prog, p);
    InvSteady(u, prog, p, 0, After(u, Arch(p.storage, p.dmem), prog, 0));
    UnhinderedIsProductive(u, prog, p, 0, n, idle);
    var ticks := Unhindered(u, prog, p, 0, n, idle);
    ReadyNeverWrong(u, p, ticks);
    ResetRunFinishes(u, prog, p, ticks);
  }

  /* ---- Exactly how long it takes ---- */

  /** Cycles an instruction waits in EX for its own result. */
  function Latency(u: Units, i: Insn): nat {
    if i.op == OP && i.bit25 then (if i.funct3 < 4 then u.mulLatency else u.divLatency) else 0
  }

  /** A load right in front of an instruction that needs its result in EX costs one cycle. */
  function Gap(prog: seq<Slot>, k: nat): (g: nat)
    requires k < |prog|
    ensures g <= 1 && (k + 1 == |prog| ==> g == 0)
  {
    if k + 1 < |prog| && prog[k].insn.op == LOAD && prog[k].insn.rd != 0 && Needs(prog[k + 1].insn, prog[k].insn.rd)
    then 1 else 0
  }

  /** All but a store's data is needed when the instruction enters EX. */
  predicate Needs(i: Insn, rd: Reg) {
    || (i.op in {OP, OP_IMM, LOAD, STORE} && i.rs1 == rd)
    || (i.op == OP && i.rs2 == rd)
  }

  /** Cycles EX spends on the instructions from `k` on. */
  function Work(u: Units, prog: seq<Slot>, k: nat): nat
    decreases |prog| - k
  {
    if k >= |prog| then 0 else 1 + Latency(u, prog[k].insn) + Gap(prog, k) + Work(u, prog, k + 1)
  }

  /** Cycles until the pipeline has drained. */
  function CyclesLeft(u: Units, prog: seq<Slot>, p: Regs, r: nat): nat
    requires Fetches(p, r) <= |prog|
  {
    var e := r + Count(p.mem.valid);
    if p.ex.valid then 2 + p.mul.timer + p.div.timer + Gap(prog, e) + Work(u, prog, e + 1)
    else if p.id.valid then 2 + Work(u, prog, e)
    else if e < |prog| then 3 + Work(u, prog, e)
    else Count(p.mem.valid)
  }

  /** In step, and with no gap in front of what has not been fetched. */
  ghost predicate Flowing(u: Units, prog: seq<Slot>, p: Regs, r: nat, done: Arch) {
    && Inv(u, prog, p, r, done) && !AtOdds(p)
    && (Fetches(p, r) < |prog| ==> p.id.valid || (!p.ex.valid && !p.mem.valid))
  }

  /** ID is held up by EX, or by a load in EX whose result it needs, and by nothing else. */
  lemma StallExactly(u: Units, prog: seq<Slot>, p: Regs, r: nat, done: Arch)
    requires Inv(u, prog, p, r, done)
    ensures var w, e := Network(u, p, true), r + Count(p.mem.valid);
      && w.stallEx == (p.mul.timer != 0 || p.div.timer != 0)
      && (w.stallId <==> w.stallEx || (p.ex.valid && p.id.valid && Gap(prog, e) == 1))
  {
    hide ExOut, MemHolds, WbHolds, DelayHolds, Plus;
    assert p.ex.valid ==> p.ex.slot == prog[r + Count(p.mem.valid)] && p.ex.useRd == p.ex.slot.insn.UsesRd();
  }

  /** A timer that runs counts down; an instruction that enters EX starts its own. */
  lemma TimersAfter(u: Units, p: Regs, input: Input)
    requires |p.storage| == 32 && DelayHolds(u, p.ex, p.mul, p.div)
    ensures var p', w := Next(u, p, input, true), Network(u, p, true);
      var before, after := p.mul.timer + p.div.timer, p'.mul.timer + p'.div.timer;
      && (before > 0 ==> p.ex.valid && after == before - 1)
      && (before == 0 ==> after == if EnterEx(p, w, input) then Latency(u, p.id.slot.insn) else 0)
  {
    StallReasons(u, p, true);
    StallOrder(u, p, true);
    hide Network;
  }

  /** The next input of an unhindered run. */
  predicate Offers(prog: seq<Slot>, p: Regs, r: nat, input: Input) {
    Legal(prog, p, r, input) && !input.hold && (input.fetched <==> Fetches(p, r) < |prog|)
  }

  /** What the invariant says about where the instructions are. */
  lemma Places(u: Units, prog: seq<Slot>, p: Regs, r: nat, done: Arch)
    requires Inv(u, prog, p, r, done)
    ensures |p.storage| == 32 && Fetches(p, r) <= |prog| && DelayHolds(u, p.ex, p.mul, p.div)
    ensures p.id.valid ==> p.id.slot == prog[r + Count(p.mem.valid) + Count(p.ex.valid)]
    ensures Retires(p, true) == p.mem.valid && (p.mul.timer + p.div.timer > 0 ==> p.ex.valid)
  {
    hide MemHolds, ExHolds, WbHolds, Plus;
  }

  lemma NeverWrong(u: Units, p: Regs)
    requires !AtOdds(p)
    ensures !Wrong(u, p, true)
  {
  }

  /** Each cycle of an unhindered run takes one off the count. */
  lemma FlowingStep(u: Units, prog: seq<Slot>, p: Regs, r: nat, done: Arch, input: Input)
    requires Flowing(u, prog, p, r, done) && Offers(prog, p, r, input)
    ensures var p', r' := Next(u, p, input, true), r + Count(Retires(p, true));
      && Flowing(u, prog, p', r', Plus(u, done, Retires(p, true), prog, r))
      && Fetches(p', r') <= |prog|
      && CyclesLeft(u, prog, p', r') == if CyclesLeft(u, prog, p, r) > 0 then CyclesLeft(u, prog, p, r) - 1 else 0
  {
    hide Next, Network, Inv, DelayHolds, CyclesLeft, Retires, Gap, Latency, Execute, Wrong;
    Places(u, prog, p, r, done);
    assert !Wrong(u, p, true) by { NeverWrong(u, p); }
    StepInv(u, prog, p, r, done, input, true);
    ReadyEdge(u, p, input);
    StallExactly(u, prog, p, r, done);
    TimersAfter(u, p, input);
    StepShape(u, p, input, true);
    Counted(u, prog, p, r, Next(u, p, input, true), Network(u, p, true).stallId, input);
  }

  lemma Counted(u: Units, prog: seq<Slot>, p: Regs, r: nat, p': Regs, stallId: bool, input: Input)
    requires Fetches(p, r) <= |prog| && Offers(prog, p, r, input)
    requires Fetches(p, r) < |prog| ==> p.id.valid || (!p.ex.valid && !p.mem.valid)
    requires p.id.valid ==> p.id.slot == prog[r + Count(p.mem.valid) + Count(p.ex.valid)]
    requires var before, after := p.mul.timer + p.div.timer, p'.mul.timer + p'.div.timer;
      && (stallId <==> before > 0 || (p.ex.valid && p.id.valid && Gap(prog, r + Count(p.mem.valid)) == 1))
      && (before > 0 ==> p.ex.valid && after == before - 1)
      && (before == 0 ==> after == if p.id.valid && !stallId then Latency(u, p.id.slot.insn) else 0)
      && p'.mem.valid == (p.ex.valid && before == 0)
      && p'.ex.valid == (if before > 0 then p.ex.valid else p.id.valid && !stallId)
      && p'.id.valid == if stallId then p.id.valid else input.fetched
    ensures var r' := r + Count(p.mem.valid);
      && Fetches(p', r') <= |prog|
      && (Fetches(p', r') < |prog| ==> p'.id.valid || (!p'.ex.valid && !p'.mem.valid))
      && CyclesLeft(u, prog, p', r') == if CyclesLeft(u, prog, p, r) > 0 then CyclesLeft(u, prog, p, r) - 1 else 0
  {
    hide Latency, Gap;
  }

  lemma {:induction false} CountsDown(u: Units, a0: Arch, prog: seq<Slot>, p: Regs, r: nat, n: nat, idle: Input)
    requires ArchOk(a0) && r <= |prog| && Flowing(u, prog, p, r, After(u, a0, prog, r))
    ensures Fetches(p, r) <= |prog|
    ensures var (p', r') := Run(u, p, r, Unhindered(u, prog, p, r, n, idle));
      && r' <= |prog| && Flowing(u, prog, p', r', After(u, a0, prog, r')) && Fetches(p', r') <= |prog|
      && CyclesLeft(u, prog, p', r') == if CyclesLeft(u, prog, p, r) >= n then CyclesLeft(u, prog, p, r) - n else 0
    decreases n
  {
    hide Inv, Next, Network, Execute, Retires, CyclesLeft, AtOdds;
    Places(u, prog, p, r, After(u, a0, prog, r));
    if n > 0 {
      var t := Unhindered(u, prog, p, r, n, idle)[0];
      FlowingStep(u, prog, p, r, After(u, a0, prog, r), t.input);
      var p1, r1 := Next(u, p, t.input, true), r + Count(Retires(p, true));
      CountsDown(u, a0, prog, p1, r1, n - 1, idle);
    }
  }

  lemma AtReset(u: Units, prog: seq<Slot>, p: Regs)
    requires Empty(u, p) && Straight(prog) && |p.storage| == 32 && p.storage[0] == 0 && prog != []
    ensures Flowing(u, prog, p, 0, After(u, Arch(p.storage, p.dmem), prog, 0))
    ensures CyclesLeft(u, prog, p, 0) == Work(u, prog, 0) + 3
  {
    EmptyInv(u, prog, p);
    hide Inv, Work, Execute;
  }

  lemma AtEnd(u: Units, prog: seq<Slot>, p: Regs, r: nat, done: Arch)
    requires Flowing(u, prog, p, r, done)
    ensures Fetches(p, r) <= |prog|
    ensures CyclesLeft(u, prog, p, r) == 0 <==> r == |prog| && !p.id.valid && !p.ex.valid && !p.mem.valid
    ensures CyclesLeft(u, prog, p, r) == 0 ==> Arch(p.storage, p.dmem) == done
  {
    hide MemHolds, ExHolds, WbHolds, DelayHolds, Work, Gap, Execute;
  }

  /** From reset, a program has retired and left the pipeline after exactly its work in EX and three cycles
      more, and not before; the state is then that of sequential execution. */
  lemma ExactCycles(u: Units, prog: seq<Slot>, p: Regs, n: nat, idle: Input)
    requires Empty(u, p) && Straight(prog) && |p.storage| == 32 && p.storage[0] == 0 && prog != []
    ensures var (p', retired) := Ran(u, prog, p, n, idle);
      && (n >= Work(u, prog, 0) + 3 <==> retired == |prog| && !p'.id.valid && !p'.ex.valid && !p'.mem.valid)
      && (n >= Work(u, prog, 0) + 3 ==> Arch(p'.storage, p'.dmem) == After(u, Arch(p.storage, p.dmem), prog, |prog|))
  {
    hide Execute, After, Next, Network, Work, Unhindered, Run, Flowing, CyclesLeft;
    AtReset(u, prog, p);
    CountsDown(u, Arch(p.storage, p.dmem), prog, p, 0, n, idle);
    var (p', retired) := Ran(u, prog, p, n, idle);
    AtEnd(u, prog, p', retired, After(u, Arch(p.storage, p.dmem), prog, retired));
  }

  /** One cycle an instruction, where none needs longer in EX and no load's result is needed at once. */
  lemma {:induction false} OneACycle(u: Units, prog: seq<Slot>, k: nat)
    requires k <= |prog| && forall i | k <= i < |prog| :: Latency(u, prog[i].insn) == 0 && Gap(prog, i) == 0
    ensures Work(u, prog, k) == |prog| - k
    decreases |prog| - k
  {
    if k < |prog| {
      OneACycle(u, prog, k + 1);
    }
  }
}
