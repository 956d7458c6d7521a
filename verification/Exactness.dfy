/** The refinement holds exactly when no load at the head of a losing window is ever completed. */
module Exactness {
  import opened Words
  import opened Datapath
  import opened Csr
  import opened Isa
  import opened Pipeline
  import opened Sequential
  import opened Refinement
  import opened Runs

  // ---- A load takes exactly two cycles in MEM ---------------------------------------------

  /** Every request is answered in the next cycle: a load that stalls MEM leaves one cycle later,
      whatever happens meanwhile, and in the meantime MEM is untouched. */
  lemma LoadTakesTwoCycles(gated: bool, prog: Program, s: State, i: In, j: In)
    requires Inv(prog, s) && MemStall(s, i)
    ensures
      var t := Next(gated, prog, s, i);
      && t.exMem == s.exMem && t.waiting && Ready(t) && Leaves(t, j) && !CsrRedirect(t, j)
      && t.ifId == s.ifId
      && Request(s, i) == [BusReq(false, s.exMem.alu, 0, 0)] && Request(t, j) == []
  {
    StallIsLoad(prog, s, i);
    PlainMem(prog, s);
    hide FrontOk, ExOk, InMem, MemExc, IrqPending, NextIdEx, NextPc, NextMemWb, NextCsr, NextRam, WellAligned;
  }

  // ---- Aftermath of a dropped instruction ----------------------------------------------------

  /** The three cycles after a loss: the load in MEM leaves, the dropped instruction's place is empty,
      and the instruction behind it arrives in MEM. */
  lemma AfterLoss(prog: Program, s: State, i0: In, i1: In, i2: In)
    requires Inv(prog, s) && Loses(false, s, i0)
    ensures
      var t1 := Next(false, prog, s, i0);
      var t2 := Next(false, prog, t1, i1);
      var t3 := Next(false, prog, t2, i2);
      var p := Abs(s).pc;
      && Leaves(t1, i1) && EventOf(t1, i1).pc == p && EventOf(t1, i1).outcome.Retired?
      && !Leaves(t2, i2)
      && t3.exMem.valid && MemPc(t3.exMem) == Add(Add(p, 4), 4) && !t3.waiting
      && (t3.exMem.ctrl.memRead ==> !t3.exMem.isMret)
  {
    var t1 := Next(false, prog, s, i0);
    LoadTakesTwoCycles(false, prog, s, i0, i1);
    LossState(prog, s, i0);
    hide Loses, Inv;
    ResumeAfterLoss(prog, t1, i1, i2);
    hide Next, MemPc;
  }

  /** The cycle of a loss: EX is emptied while ID keeps the consumer. */
  lemma LossState(prog: Program, s: State, i: In)
    requires Inv(prog, s) && Loses(false, s, i)
    ensures
      var t := Next(false, prog, s, i);
      var p := Add(Add(Abs(s).pc, 4), 4);
      && t.idEx.ctrl == NO_CTRL && !t.idEx.valid
      && t.ifId == IfId(p, Add(p, 4), Fetch(prog, p), true)
      && MemPc(t.exMem) == Abs(s).pc
  {
    LoadTakesTwoCycles(false, prog, s, i, i);
    InMemFacts(prog, Abs(s));
    LoadCtrl(Fetch(prog, Abs(s).pc));
    SeqNextOfLoad(prog, Abs(s));
    hide FrontStall, NextPc, NextMemWb, NextCsr, NextRam, NextResponse, InMem, SeqNext, Add, Fetch, ExStage, Settled,
      WellAligned, MemStall, FetchKilled, ControlUnit, Opcode;
  }

  lemma ResumeAfterLoss(prog: Program, t1: State, i1: In, i2: In)
    requires t1.exMem.valid && t1.waiting && Leaves(t1, i1) && !CsrRedirect(t1, i1) && Ready(t1)
    requires t1.idEx.ctrl == NO_CTRL && !t1.idEx.valid && t1.ifId.valid && t1.ifId.pc4 == Add(t1.ifId.pc, 4)
    requires t1.ifId.instr == Fetch(prog, t1.ifId.pc)
    ensures
      var t2 := Next(false, prog, t1, i1);
      var t3 := Next(false, prog, t2, i2);
      && !Leaves(t2, i2)
      && t3.exMem.valid && MemPc(t3.exMem) == t1.ifId.pc && !t3.waiting
      && (t3.exMem.ctrl.memRead ==> !t3.exMem.isMret)
  {
    var t2 := Next(false, prog, t1, i1);
    ToEx(false, prog, t1, i1);
    ControlFacts(t1.ifId.instr);
    PcRoundTrip(t1.ifId.pc);
    hide MemExc, IrqPending, ImmGen, Rs1, Rs2, ControlUnit, AluOut, Redirects, Add, Sub, Target, ReadPort,
      NextPc, NextMemWb, NextCsr, NextRam, NextResponse, NextIfId, Fetch, BusWord, CsrData, Operand1, Operand2;
  }

  lemma ToEx(gated: bool, prog: Program, t1: State, i1: In)
    requires t1.exMem.valid && t1.waiting && Leaves(t1, i1) && !CsrRedirect(t1, i1) && Ready(t1)
    requires t1.idEx.ctrl == NO_CTRL && !t1.idEx.valid && t1.ifId.valid
    ensures
      var t2 := Next(gated, prog, t1, i1);
      var w := t1.ifId.instr;
      && !t2.exMem.valid && !t2.waiting
      && t2.idEx == DecodeStage(t1.ifId, ReadPort(t1.rf, t1.memWb, Rs1(w)), ReadPort(t1.rf, t1.memWb, Rs2(w)))
  {
    hide MemExc, IrqPending, DecodeStage, ReadPort, Rs1, Rs2, AluOut, Target, BusWord, CsrData, Operand1, Operand2,
      NextPc, NextMemWb, NextCsr, NextRam, NextResponse, NextIfId, BranchCond;
  }

  /** An instruction that is in MEM and not waiting leaves in this cycle or the next. */
  lemma LeavesSoon(prog: Program, t: State, i: In, j: In)
    requires t.exMem.valid && !t.waiting && (t.exMem.ctrl.memRead ==> !t.exMem.isMret)
    ensures
      Leaves(t, i) ||
      (Leaves(Next(false, prog, t, i), j) && EventOf(Next(false, prog, t, i), j).pc == MemPc(t.exMem))
  {
    hide MemExc, IrqPending, NextIdEx, NextPc, NextMemWb, NextCsr, NextRam, NextIfId, MemPc, BusWord, CsrData, WbData;
  }

  // ---- Unbounded runs of the design as written --------------------------------------------------

  function Prefix(env: nat -> In, n: nat): seq<In> {
    seq(n, k requires 0 <= k < n => env(k))
  }

  function At(prog: Program, s: State, env: nat -> In, n: nat): State {
    StateAfter(false, prog, s, Prefix(env, n))
  }

  /** After `n` cycles the events that left MEM are those of the sequential machine. */
  predicate Tracks(prog: Program, s: State, env: nat -> In, n: nat) {
    EventsOf(false, prog, s, Prefix(env, n)) ==
    IsaEvents(prog, Abs(s), SamplesOf(false, prog, s, Prefix(env, n)))
  }

  predicate LosesNow(prog: Program, s: State, env: nat -> In, n: nat) {
    Loses(false, At(prog, s, env, n), env(n))
  }

  /** The sequential run completes a load that stands at the head of a losing window. */
  predicate HitsWindow(prog: Program, a: Arch, ns: seq<Sample>) {
    ns != [] &&
    var k := |ns| - 1;
    HitsWindow(prog, a, ns[..k]) ||
    (CommitsLoad(prog, IsaRun(prog, a, ns[..k]), ns[k]) && LosingWindow(prog, IsaRun(prog, a, ns[..k]).pc))
  }

  function Ns(prog: Program, s: State, env: nat -> In, n: nat): seq<Sample> {
    SamplesOf(false, prog, s, Prefix(env, n))
  }

  function Es(prog: Program, s: State, env: nat -> In, n: nat): seq<Event> {
    EventsOf(false, prog, s, Prefix(env, n))
  }

  lemma Unroll(prog: Program, s: State, env: nat -> In, n: nat)
    ensures
      var u := At(prog, s, env, n);
      && At(prog, s, env, n + 1) == Next(false, prog, u, env(n))
      && Ns(prog, s, env, n + 1) == Ns(prog, s, env, n) + (if Leaves(u, env(n)) then [SampleOf(u, env(n))] else [])
      && Es(prog, s, env, n + 1) == Es(prog, s, env, n) + (if Leaves(u, env(n)) then [EventOf(u, env(n))] else [])
  {
    hide Leaves, Next, SampleOf, EventOf;
    assert Prefix(env, n + 1)[..n] == Prefix(env, n);
  }

  lemma NeverLosesUpTo(prog: Program, s: State, env: nat -> In, n: nat)
    requires forall k: nat | k < n :: !LosesNow(prog, s, env, k)
    ensures NeverLoses(false, prog, s, Prefix(env, n))
  {
    hide Loses, StateAfter;
    forall k: nat | k < n ensures !LosesAt(false, prog, s, Prefix(env, n), k) {
      assert Prefix(env, n)[..k] == Prefix(env, k);
      assert !LosesNow(prog, s, env, k);
    }
  }

  /** As long as nothing has been dropped the run tracks the sequential machine. */
  lemma TracksUntilLoss(prog: Program, s: State, env: nat -> In, n: nat)
    requires Inv(prog, s) && !s.waiting
    requires forall k: nat | k < n :: !LosesNow(prog, s, env, k)
    ensures Inv(prog, At(prog, s, env, n)) && Tracks(prog, s, env, n)
    ensures Abs(At(prog, s, env, n)) == IsaRun(prog, Abs(s), Ns(prog, s, env, n))
  {
    hide Inv, Abs, StateAfter, EventsOf, SamplesOf, IsaRun, IsaEvents, TrafficOf;
    NeverLosesUpTo(prog, s, env, n);
    PipelineRefines(false, prog, s, Prefix(env, n));
  }

  // ---- No sequential run explains the events ----------------------------------------------------

  /** Some sequential run from `a`, whatever it samples, has exactly these events. */
  ghost predicate Explained(prog: Program, a: Arch, es: seq<Event>) {
    exists ns: seq<Sample> :: IsaEvents(prog, a, ns) == es
  }

  /** A load that retires at `p`, and next an event two instructions on. */
  predicate Skips(prog: Program, e1: Event, e2: Event) {
    e1.outcome.Retired? && IsLoadWord(Fetch(prog, e1.pc)) && e2.pc == Add(Add(e1.pc, 4), 4)
  }

  /** A retired load goes on to the next instruction, whatever the state and the inputs. */
  lemma RetiredLoadGoesOn(prog: Program, a: Arch, n: Sample)
    requires IsaEvent(prog, a, n).outcome.Retired? && IsLoadWord(Fetch(prog, a.pc))
    ensures IsaStep(prog, a, n).pc == Add(a.pc, 4)
  {
    hide Fetch, Rs1, Rs2, Reg, IrqPending, Add, LoadExtract, BusRead, AlignOk, Arith, BranchCond, ImmI, ImmS, ImmB,
      ImmJ, ImmU, Imm12, Funct3, Rd, Bit, Opcode, ClearBit0, Aligned;
  }

  lemma EventHasPc(prog: Program, a: Arch, n: Sample)
    ensures IsaEvent(prog, a, n).pc == a.pc
  {
    hide Act, IrqPending, IrqCode, Observed;
  }

  lemma {:induction false} EventAt(prog: Program, a: Arch, ns: seq<Sample>, k: nat)
    requires k < |ns|
    ensures IsaEvents(prog, a, ns)[k] == IsaEvent(prog, IsaRun(prog, a, ns[..k]), ns[k])
  {
    hide IsaRun, IsaEvent;
    var m := |ns| - 1;
    if k < m {
      EventAt(prog, a, ns[..m], k);
      assert ns[..m][..k] == ns[..k];
    }
  }

  lemma DistinctSuccessors(p: Word)
    ensures Add(Add(p, 4), 4) != Add(p, 4)
  {
  }

  /** No sequential run, from whatever state and with whatever inputs, skips an instruction after a
      retired load. */
  lemma NoRunSkips(prog: Program, a: Arch, ns: seq<Sample>, k: nat)
    requires k + 1 < |ns|
    ensures !Skips(prog, IsaEvents(prog, a, ns)[k], IsaEvents(prog, a, ns)[k + 1])
  {
    EventAt(prog, a, ns, k);
    EventAt(prog, a, ns, k + 1);
    var u := IsaRun(prog, a, ns[..k]);
    assert ns[..k + 1][..k] == ns[..k];
    assert IsaRun(prog, a, ns[..k + 1]) == IsaStep(prog, u, ns[k]);
    hide IsaRun, IsaEvents, IsaStep, IsaEvent, IsLoadWord, Add, Fetch;
    EventHasPc(prog, u, ns[k]);
    EventHasPc(prog, IsaStep(prog, u, ns[k]), ns[k + 1]);
    DistinctSuccessors(u.pc);
    if Skips(prog, IsaEvents(prog, a, ns)[k], IsaEvents(prog, a, ns)[k + 1]) { RetiredLoadGoesOn(prog, u, ns[k]); }
  }

  lemma SkippedSuccessor(prog: Program, a: Arch, es: seq<Event>, k: nat)
    requires k + 1 < |es| && Skips(prog, es[k], es[k + 1])
    ensures !Explained(prog, a, es)
  {
    hide Skips, IsaEvents;
    forall ns: seq<Sample> | |ns| == |es| ensures IsaEvents(prog, a, ns) != es {
      NoRunSkips(prog, a, ns, k);
    }
  }

  /** The sample under which a stalled load finally leaves is a load commit of the same instruction. */
  lemma StalledLoadCommits(prog: Program, s: State, i: In, j: In)
    requires Inv(prog, s) && MemStall(s, i)
    ensures CommitsLoad(prog, Abs(s), SampleOf(Next(false, prog, s, i), j))
  {
    LoadTakesTwoCycles(false, prog, s, i, j);
    StallIsLoadCommit(prog, s, i);
    hide Inv, MemStall, Act, Next;
  }

  /** The three cycles from a loss on, seen in the streams. */
  lemma LossTrace(prog: Program, s: State, env: nat -> In, n: nat)
    requires Inv(prog, At(prog, s, env, n)) && LosesNow(prog, s, env, n)
    ensures
      var u := At(prog, s, env, n);
      var t1 := At(prog, s, env, n + 1);
      var t3 := At(prog, s, env, n + 3);
      var n1 := SampleOf(t1, env(n + 1));
      && LosingWindow(prog, Abs(u).pc)
      && CommitsLoad(prog, Abs(u), n1)
      && Ns(prog, s, env, n + 2) == Ns(prog, s, env, n) + [n1]
      && Ns(prog, s, env, n + 3) == Ns(prog, s, env, n + 2)
      && Es(prog, s, env, n + 3) == Es(prog, s, env, n) + [EventOf(t1, env(n + 1))]
      && EventOf(t1, env(n + 1)).pc == Abs(u).pc && EventOf(t1, env(n + 1)).outcome.Retired?
      && t3.exMem.valid && MemPc(t3.exMem) == Add(Add(Abs(u).pc, 4), 4) && !t3.waiting
      && (t3.exMem.ctrl.memRead ==> !t3.exMem.isMret)
  {
    hide Inv, Abs, Next, Leaves, SampleOf, EventOf, At, Ns, Es, CommitsLoad, LosingWindow, Loses, MemStall, MemPc, Add,
      TakeTrap;
    var u := At(prog, s, env, n);
    LosesIsStall(u, env(n));
    LosesExactlyInWindows(prog, u, env(n));
    AfterLoss(prog, u, env(n), env(n + 1), env(n + 2));
    StalledLoadCommits(prog, u, env(n), env(n + 1));
    Unroll(prog, s, env, n);
    Unroll(prog, s, env, n + 1);
    Unroll(prog, s, env, n + 2);
  }

  lemma LosesIsStall(s: State, i: In)
    requires Loses(false, s, i)
    ensures MemStall(s, i) && !Leaves(s, i)
  {
    hide MemStall;
  }

  /** The second event after a loss, at the latest five cycles on, belongs to the instruction behind the
      lost one. */
  lemma LossSkips(prog: Program, s: State, env: nat -> In, n: nat)
    requires Inv(prog, At(prog, s, env, n)) && LosesNow(prog, s, env, n)
    ensures
      var (k, es) := (|Es(prog, s, env, n)|, Es(prog, s, env, n + 5));
      k + 1 < |es| && es[k].pc == Abs(At(prog, s, env, n)).pc && Skips(prog, es[k], es[k + 1])
  {
    hide Inv, Abs, Next, Leaves, SampleOf, EventOf, At, Ns, Es, CommitsLoad, LosesNow, MemPc, Add, Fetch, IsLoadWord;
    LossTrace(prog, s, env, n);
    Unroll(prog, s, env, n + 3);
    Unroll(prog, s, env, n + 4);
    var t3 := At(prog, s, env, n + 3);
    LeavesSoon(prog, t3, env(n + 3), env(n + 4));
    EventPcOf(t3, env(n + 3));
  }

  lemma EventsGrow(prog: Program, s: State, env: nat -> In, n: nat, m: nat)
    requires n <= m
    ensures Es(prog, s, env, n) <= Es(prog, s, env, m)
  {
    hide Leaves, SampleOf, EventOf, At, Next, Es;
    if n < m {
      EventsGrow(prog, s, env, n, m - 1);
      Unroll(prog, s, env, m - 1);
    }
  }

  /** A dropped instruction shows in the event stream within five cycles and for good: whatever a
      sequential run samples and wherever it starts, it never has these events. It is the doing of a load
      commit at the head of a losing window. */
  lemma LossShows(prog: Program, s: State, env: nat -> In, n: nat, m: nat, a: Arch)
    requires Inv(prog, s) && !s.waiting
    requires forall k: nat | k < n :: !LosesNow(prog, s, env, k)
    requires LosesNow(prog, s, env, n) && m >= n + 5
    ensures !Explained(prog, a, Es(prog, s, env, m)) && !Tracks(prog, s, env, m)
    ensures HitsWindow(prog, Abs(s), Ns(prog, s, env, n + 2))
  {
    hide Inv, Abs, SampleOf, EventOf, At, Ns, Es, CommitsLoad, LosingWindow, IsaRun, IsaEvents, Tracks, LosesNow,
      HitsWindow, Skips;
    TracksUntilLoss(prog, s, env, n);
    LossTrace(prog, s, env, n);
    LossSkips(prog, s, env, n);
    EventsGrow(prog, s, env, n + 5, m);
    SkippedSuccessor(prog, a, Es(prog, s, env, m), |Es(prog, s, env, n)|);
    SkippedSuccessor(prog, Abs(s), Es(prog, s, env, m), |Es(prog, s, env, n)|);
    TracksIs(prog, s, env, m);
    WindowHit(prog, Abs(s), Ns(prog, s, env, n), SampleOf(At(prog, s, env, n + 1), env(n + 1)));
  }

  lemma SameLengths(prog: Program, s: State, env: nat -> In, n: nat)
    ensures |Ns(prog, s, env, n)| == |Es(prog, s, env, n)|
  {
    hide Leaves, SampleOf, EventOf, At, Abs, IsaRun, Next;
    if n > 0 {
      SameLengths(prog, s, env, n - 1);
      Unroll(prog, s, env, n - 1);
    }
  }

  lemma TracksIs(prog: Program, s: State, env: nat -> In, n: nat)
    ensures Tracks(prog, s, env, n) <==> Es(prog, s, env, n) == IsaEvents(prog, Abs(s), Ns(prog, s, env, n))
  {
    hide Abs, EventsOf, SamplesOf, IsaEvents;
  }

  lemma EventPcOf(t: State, i: In)
    ensures EventOf(t, i).pc == MemPc(t.exMem)
  {
    hide MemPc, TakeTrap, TakeMret, MemExc, BusWord, CsrData, IrqCode;
  }

  lemma WindowHit(prog: Program, a: Arch, ns: seq<Sample>, n: Sample)
    ensures
      HitsWindow(prog, a, ns + [n]) <==>
      || HitsWindow(prog, a, ns)
      || (CommitsLoad(prog, IsaRun(prog, a, ns), n) && LosingWindow(prog, IsaRun(prog, a, ns).pc))
  {
    hide CommitsLoad, LosingWindow, IsaRun;
    assert (ns + [n])[..|ns|] == ns;
  }

  // ---- The other direction: no loss, no window ------------------------------------------------

  /** A waiting load that lost nothing does not stand at the head of a losing window. */
  predicate Clean(prog: Program, s: State) {
    s.waiting ==> !LosingWindow(prog, Abs(s).pc)
  }

  lemma CleanStep(prog: Program, s: State, i: In)
    requires Inv(prog, s) && !Loses(false, s, i)
    ensures Clean(prog, Next(false, prog, s, i))
  {
    LosesExactlyInWindows(prog, s, i);
    StepSimulates(false, prog, s, i);
    if MemStall(s, i) {
      StallKeeps(false, prog, s, i);
    } else if CsrRedirect(s, i) {
      PlainMem(prog, s);
      hide FrontOk, ExOk, InMem, MemExc, IrqPending, NextIdEx, NextPc, NextMemWb, NextCsr, NextRam, NextResponse,
        NextIfId, LosingWindow, Abs, WellAligned;
    } else {
      MoveArch(false, prog, s, i);
    }
    hide Inv, LosingWindow, Abs, Loses, MemStall, CsrRedirect, Next;
  }

  lemma NoLossNoWindow(prog: Program, s: State, env: nat -> In, n: nat)
    requires Inv(prog, s) && !s.waiting
    requires forall k: nat | k < n :: !LosesNow(prog, s, env, k)
    ensures Clean(prog, At(prog, s, env, n)) && !HitsWindow(prog, Abs(s), Ns(prog, s, env, n))
  {
    hide Inv, Abs, Next, Leaves, SampleOf, EventOf, At, Ns, Es, CommitsLoad, LosingWindow, IsaRun, Loses, MemStall, Add,
      TakeTrap, IsaEvents, Tracks, HitsWindow, Clean;
    if n == 0 {
      StartsClean(prog, s, env);
    } else {
      NoLossNoWindow(prog, s, env, n - 1);
      TracksUntilLoss(prog, s, env, n - 1);
      var u := At(prog, s, env, n - 1);
      var i := env(n - 1);
      assert !LosesNow(prog, s, env, n - 1);
      Unroll(prog, s, env, n - 1);
      CleanStep(prog, u, i);
      if Leaves(u, i) {
        LeavesClean(prog, u, i);
        WindowHit(prog, Abs(s), Ns(prog, s, env, n - 1), SampleOf(u, i));
      } else {
        assert Ns(prog, s, env, n - 1) + [] == Ns(prog, s, env, n - 1);
      }
    }
  }

  lemma StartsClean(prog: Program, s: State, env: nat -> In)
    requires !s.waiting
    ensures Clean(prog, At(prog, s, env, 0)) && !HitsWindow(prog, Abs(s), Ns(prog, s, env, 0))
  {
    hide Abs, LosingWindow;
  }

  lemma LeavesClean(prog: Program, u: State, i: In)
    requires Inv(prog, u) && Clean(prog, u) && Leaves(u, i)
    ensures !(CommitsLoad(prog, Abs(u), SampleOf(u, i)) && LosingWindow(prog, Abs(u).pc))
  {
    StallIsLoadCommit(prog, u, i);
    hide Inv, Abs, MemStall, CommitsLoad, LosingWindow, SampleOf;
  }

  // ---- The exact condition ------------------------------------------------------------------------

  lemma FirstLoss(prog: Program, s: State, env: nat -> In, n: nat) returns (m: nat)
    requires LosesNow(prog, s, env, n)
    ensures m <= n && LosesNow(prog, s, env, m) && forall k: nat | k < m :: !LosesNow(prog, s, env, k)
  {
    hide LosesNow;
    m := 0;
    while !LosesNow(prog, s, env, m)
      invariant m <= n && forall k: nat | k < m :: !LosesNow(prog, s, env, k)
      decreases n - m
    {
      m := m + 1;
    }
  }

  /** The design as written refines the sequential machine over an unbounded run exactly when it never
      raises the load-use bubble in a cycle in which MEM stalls, exactly when some sequential run explains
      the events at every cycle, and exactly when the sequential run never completes a load at the head of
      a losing window. */
  lemma RefinesExactlyWithoutWindows(prog: Program, s: State, env: nat -> In)
    requires Inv(prog, s) && !s.waiting
    ensures (forall n: nat :: Tracks(prog, s, env, n)) <==> (forall n: nat :: !LosesNow(prog, s, env, n))
    ensures (forall n: nat :: Tracks(prog, s, env, n)) <==>
            (forall n: nat :: Explained(prog, Abs(s), Es(prog, s, env, n)))
    ensures (forall n: nat :: Tracks(prog, s, env, n)) <==>
            (forall n: nat :: !HitsWindow(prog, Abs(s), Ns(prog, s, env, n)))
  {
    hide Tracks, LosesNow, HitsWindow, Inv, Abs, Ns, Es, Explained;
    if n: nat :| LosesNow(prog, s, env, n) {
      var m := FirstLoss(prog, s, env, n);
      LossShows(prog, s, env, m, m + 5, Abs(s));
    } else {
      forall n: nat
        ensures Tracks(prog, s, env, n) && Explained(prog, Abs(s), Es(prog, s, env, n))
        ensures !HitsWindow(prog, Abs(s), Ns(prog, s, env, n))
      {
        TracksUntilLoss(prog, s, env, n);
        NoLossNoWindow(prog, s, env, n);
        TracksExplains(prog, s, env, n);
      }
    }
  }

  lemma TracksExplains(prog: Program, s: State, env: nat -> In, n: nat)
    requires Tracks(prog, s, env, n)
    ensures Explained(prog, Abs(s), Es(prog, s, env, n))
  {
    hide Abs, EventsOf, SamplesOf, IsaEvents, Tracks;
    TracksIs(prog, s, env, n);
    assert IsaEvents(prog, Abs(s), Ns(prog, s, env, n)) == Es(prog, s, env, n);
  }

  // ---- A condition on the program alone ---------------------------------------------------------------

  /** No losing window anywhere in the 1024-word image. */
  predicate WindowFree(prog: Program) {
    forall k: nat | k < 1024 :: !LosingWindow(prog, 4 * k)
  }

  lemma AlignedWindow(prog: Program, p: Word)
    requires WindowFree(prog) && Aligned(p)
    ensures !LosingWindow(prog, p)
  {
    hide Rs1, Rs2, Rd, Add;
    if p < 0x1000 {
      assert !LosingWindow(prog, 4 * (p / 4));
    }
  }

  /** A program without a losing window runs correctly whatever its inputs. */
  lemma WindowFreeProgramsAreSafe(prog: Program, s: State, env: nat -> In, n: nat)
    requires Inv(prog, s) && !s.waiting && WindowFree(prog)
    ensures Tracks(prog, s, env, n)
  {
    hide Tracks, LosesNow, Inv, LosingWindow, WindowFree, At;
    forall k: nat ensures !LosesNow(prog, s, env, k) {
      if LosesNow(prog, s, env, k) {
        var m := FirstLoss(prog, s, env, k);
        TracksUntilLoss(prog, s, env, m);
        WindowFreeNeverLoses(prog, At(prog, s, env, m), env(m));
        LosesNowIs(prog, s, env, m);
      }
    }
    TracksUntilLoss(prog, s, env, n);
  }

  lemma LosesNowIs(prog: Program, s: State, env: nat -> In, m: nat)
    ensures LosesNow(prog, s, env, m) <==> Loses(false, At(prog, s, env, m), env(m))
  {
    hide Loses, At;
  }

  lemma WindowFreeNeverLoses(prog: Program, s: State, i: In)
    requires Inv(prog, s) && WindowFree(prog)
    ensures !Loses(false, s, i)
  {
    LosesExactlyInWindows(prog, s, i);
    AlignedWindow(prog, Abs(s).pc) by { assert WellAligned(Abs(s)); }
    hide Loses, LosingWindow, MemStall, Abs, Inv;
  }
}
