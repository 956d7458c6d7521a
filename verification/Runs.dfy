/** Whole runs: the pipeline refines the sequential machine exactly when it never executes a load at
    the head of a losing window, and it always makes progress. */
module Runs {
  import opened Words
  import opened Datapath
  import opened Csr
  import opened Isa
  import opened Pipeline
  import opened Sequential
  import opened Refinement

  // ---- Runs of the pipeline ------------------------------------------------------------

  function StateAfter(gated: bool, prog: Program, s: State, ins: seq<In>): State {
    if ins == [] then s
    else
      var k := |ins| - 1;
      Next(gated, prog, StateAfter(gated, prog, s, ins[..k]), ins[k])
  }

  /** The step inputs at the boundaries the run has crossed, in order. */
  function SamplesOf(gated: bool, prog: Program, s: State, ins: seq<In>): seq<Sample> {
    if ins == [] then []
    else
      var k := |ins| - 1;
      var u := StateAfter(gated, prog, s, ins[..k]);
      SamplesOf(gated, prog, s, ins[..k]) + (if Leaves(u, ins[k]) then [SampleOf(u, ins[k])] else [])
  }

  /** What left MEM, in order. */
  function EventsOf(gated: bool, prog: Program, s: State, ins: seq<In>): seq<Event> {
    if ins == [] then []
    else
      var k := |ins| - 1;
      var u := StateAfter(gated, prog, s, ins[..k]);
      EventsOf(gated, prog, s, ins[..k]) + (if Leaves(u, ins[k]) then [EventOf(u, ins[k])] else [])
  }

  /** Every data-bus request, in order. */
  function TrafficOf(gated: bool, prog: Program, s: State, ins: seq<In>): seq<BusReq> {
    if ins == [] then []
    else
      var k := |ins| - 1;
      TrafficOf(gated, prog, s, ins[..k]) + Request(StateAfter(gated, prog, s, ins[..k]), ins[k])
  }

  predicate LosesAt(gated: bool, prog: Program, s: State, ins: seq<In>, k: nat)
    requires k < |ins|
  {
    Loses(gated, StateAfter(gated, prog, s, ins[..k]), ins[k])
  }

  predicate NeverLoses(gated: bool, prog: Program, s: State, ins: seq<In>) {
    forall k: nat | k < |ins| :: !LosesAt(gated, prog, s, ins, k)
  }

  lemma NeverLosesPrefix(gated: bool, prog: Program, s: State, ins: seq<In>, k: nat)
    requires NeverLoses(gated, prog, s, ins) && k <= |ins|
    ensures NeverLoses(gated, prog, s, ins[..k])
  {
    forall j: nat | j < k ensures !LosesAt(gated, prog, s, ins[..k], j) {
      assert ins[..k][..j] == ins[..j];
      assert !LosesAt(gated, prog, s, ins, j);
    }
  }

  /** The state, events and traffic of a run match those of a sequential run. */
  predicate Matches(prog: Program, a: Arch, t: State, ns: seq<Sample>, es: seq<Event>, reqs: seq<BusReq>) {
    && Inv(prog, t)
    && Abs(t) == IsaRun(prog, a, ns)
    && es == IsaEvents(prog, a, ns)
    && reqs == IsaTraffic(prog, a, ns) + Outstanding(t)
  }

  lemma OneMoreCycle(gated: bool, prog: Program, a: Arch, u: State, i: In,
                     ns: seq<Sample>, es: seq<Event>, reqs: seq<BusReq>)
    requires Matches(prog, a, u, ns, es, reqs) && !Loses(gated, u, i)
    ensures
      Matches(prog, a, Next(gated, prog, u, i),
              ns + (if Leaves(u, i) then [SampleOf(u, i)] else []),
              es + (if Leaves(u, i) then [EventOf(u, i)] else []),
              reqs + Request(u, i))
  {
    hide Inv, Abs, Leaves, SampleOf, EventOf, Next, IsaStep, IsaEvent, IsaRequests, Request, Loses, IsaRun, IsaEvents,
      IsaTraffic, Outstanding;
    StepSimulates(gated, prog, u, i);
    if Leaves(u, i) {
      RunSnoc(prog, a, ns, SampleOf(u, i));
    } else {
      assert ns + [] == ns;
      assert es + [] == es;
    }
    assert reqs + Request(u, i) == IsaTraffic(prog, a, ns) + (Outstanding(u) + Request(u, i));
  }

  /** Pipeline refinement. For every program, starting state satisfying the invariant and trace of
      interrupt lines and peripheral answers in which no instruction is dropped: the stream of events
      leaving MEM is the sequential machine's, the state reached stands for the sequential state
      reached, and the bus traffic is the sequential machine's plus at most the request of a load
      still waiting. */
  lemma {:induction false} PipelineRefines(gated: bool, prog: Program, s: State, ins: seq<In>)
    requires Inv(prog, s) && !s.waiting && NeverLoses(gated, prog, s, ins)
    ensures
      Matches(prog, Abs(s), StateAfter(gated, prog, s, ins), SamplesOf(gated, prog, s, ins),
              EventsOf(gated, prog, s, ins), TrafficOf(gated, prog, s, ins))
  {
    hide Inv, Abs, Leaves, SampleOf, EventOf, Next, Request, Loses, IsaRun, IsaEvents, IsaTraffic, NeverLoses;
    if ins == [] {
      EmptyRun(prog, Abs(s));
    } else {
      var k := |ins| - 1;
      var before := ins[..k];
      NeverLosesPrefix(gated, prog, s, ins, k);
      PipelineRefines(gated, prog, s, before);
      NotLostAt(gated, prog, s, ins, k);
      OneMoreCycle(gated, prog, Abs(s), StateAfter(gated, prog, s, before), ins[k],
                   SamplesOf(gated, prog, s, before), EventsOf(gated, prog, s, before),
                   TrafficOf(gated, prog, s, before));
    }
  }

  lemma EmptyRun(prog: Program, a: Arch)
    ensures IsaRun(prog, a, []) == a && IsaEvents(prog, a, []) == [] && IsaTraffic(prog, a, []) == []
  {
  }

  lemma NotLostAt(gated: bool, prog: Program, s: State, ins: seq<In>, k: nat)
    requires NeverLoses(gated, prog, s, ins) && k < |ins|
    ensures !Loses(gated, StateAfter(gated, prog, s, ins[..k]), ins[k])
  {
    hide StateAfter, Loses;
    assert !LosesAt(gated, prog, s, ins, k);
  }

  /** With the bubble withheld while MEM stalls, nothing is ever dropped. */
  lemma GatedNeverLoses(prog: Program, s: State, ins: seq<In>)
    ensures NeverLoses(true, prog, s, ins)
  {
    hide StateAfter, MemStall, LoadUse;
    forall k: nat | k < |ins| ensures !LosesAt(true, prog, s, ins, k) {
    }
  }

  /** So from reset that variant refines the sequential machine unconditionally: for every program, memory,
      register contents at power-up and trace of inputs. */
  lemma GatedRefines(prog: Program, rf: Regs, ram: Ram, fetched: Word, ins: seq<In>)
    ensures
      var s := AfterReset(rf, ram, fetched);
      Matches(prog, Arch(RESET_PC, rf, RESET_CSR, ram), StateAfter(true, prog, s, ins),
              SamplesOf(true, prog, s, ins), EventsOf(true, prog, s, ins), TrafficOf(true, prog, s, ins))
  {
    var s := AfterReset(rf, ram, fetched);
    ResetOk(prog, rf, ram, fetched);
    assert !s.waiting;
    hide Inv, Abs, AfterReset, StateAfter, SamplesOf, EventsOf, TrafficOf, Matches, NeverLoses;
    GatedNeverLoses(prog, s, ins);
    PipelineRefines(true, prog, s, ins);
  }

  // ---- Where instructions are lost -----------------------------------------------------

  predicate IsLoadWord(w: Word) { Opcode(w) == OP_LOAD }

  /** Register fields of `w` name `r`, and `r` is not x0. */
  predicate Names(w: Word, r: Word) {
    r != 0 && (Rs1(w) == r || Rs2(w) == r)
  }

  /** Two consecutive loads, the second naming nothing the first loads, and after them an instruction
      one of whose register fields names what the second loads. */
  predicate LosingWindow(prog: Program, p: Word) {
    var first := Fetch(prog, p);
    var second := Fetch(prog, Add(p, 4));
    var third := Fetch(prog, Add(Add(p, 4), 4));
    IsLoadWord(first) && IsLoadWord(second) && Names(third, Rd(second)) && !Names(second, Rd(first))
  }

  /** The sequential machine is about to complete a load, neither trapped nor interrupted. */
  predicate CommitsLoad(prog: Program, a: Arch, n: Sample) {
    !IrqPending(a.csr, n.live) && Act(prog, a).Continue? && Act(prog, a).effect.Load?
  }

  lemma LoadCtrl(w: Word)
    ensures ControlUnit(w).ctrl.memRead <==> IsLoadWord(w)
  {
  }

  lemma StallIsLoadCommit(prog: Program, s: State, i: In)
    requires Inv(prog, s) && s.exMem.valid
    ensures MemStall(s, i) || (s.waiting && Leaves(s, i)) <==> CommitsLoad(prog, Abs(s), SampleOf(s, i))
  {
    var a := Abs(s);
    var (v1, v2) := Operands(prog, a);
    DatapathMeetsIsa(Fetch(prog, a.pc), a.pc, v1, v2);
    PlainMem(prog, s);
    if !MemExc(s.exMem) { IrqSampling(s, i); }
    hide FrontOk, ExOk, Fetch, Decoded, ExStage, Meaning, IrqPending, Rs1, Rs2, Reg, LsMisaligned, SampleOf, LiveOf;
  }

  /** The design drops an instruction in exactly the cycles in which a load that will complete first
      enters MEM and stands at the head of a losing window. */
  lemma LosesExactlyInWindows(prog: Program, s: State, i: In)
    requires Inv(prog, s)
    ensures Loses(false, s, i) <==> MemStall(s, i) && LosingWindow(prog, Abs(s).pc)
  {
    if MemStall(s, i) {
      var a := Abs(s);
      InMemFacts(prog, a);
      LoadCtrl(Fetch(prog, a.pc));
      SeqNextOfLoad(prog, a);
      if s.idEx.valid {
        DecodedValid(Fetch(prog, s.idEx.pc), s.idEx.pc, s.idEx.data1, s.idEx.data2, 0, 0);
        DecodedFields(Fetch(prog, s.idEx.pc), s.idEx.pc, s.idEx.data1, s.idEx.data2);
        LoadCtrl(Fetch(prog, s.idEx.pc));
      }
      hide MemStall, ControlUnit, Fetch, Rs1, Rs2, Rd, Opcode, InMem, SeqNext, ExStage, Decoded, Add, Settled,
        WellAligned, MemPc, MemExc, Ready;
    }
  }

  lemma DecodedFields(w: Word, pc: Word, d1: Word, d2: Word)
    ensures
      var q := Decoded(w, pc, d1, d2);
      q.rs1 == Rs1(w) && q.rs2 == Rs2(w) && q.rd == Rd(w) && q.ctrl == ControlUnit(w).ctrl
  {
    hide ControlUnit, Rs1, Rs2, Rd;
  }

  lemma SeqNextOfLoad(prog: Program, a: Arch)
    requires IsLoadWord(Fetch(prog, a.pc))
    ensures SeqNext(prog, a) == Add(a.pc, 4)
  {
    hide Fetch, BranchCond, Rs1, Rs2, Reg, Alu, ImmGen, Add;
  }
}
