/** Liveness of the pipeline, a concrete program the design as written runs wrongly, and interrupt
    masking over runs of the sequential machine. */
module Progress {
  import opened Words
  import opened Datapath
  import opened Csr
  import opened Isa
  import opened Pipeline
  import opened Sequential
  import opened Refinement
  import opened Runs
  import opened Exactness

  // ---- Progress ----------------------------------------------------------------------------

  /** Cycles until some instruction has left MEM, at most. */
  function Rank(s: State): (r: nat)
    ensures 1 <= r <= 6
  {
    if s.exMem.valid then (if IsLoad(s.exMem) && !s.waiting then 2 else 1)
    else if s.idEx.valid then 3
    else if s.ifId.valid then 4
    else if s.ifValid then 5
    else 6
  }

  /** What the wait state and the bubbles look like in every reachable state, losses or not: a waiting
      load has its answer ready, a bubble in EX does nothing, and no load is an MRET or a store. */
  predicate Shape(s: State) {
    && (s.waiting ==> IsLoad(s.exMem) && !MemExc(s.exMem) && Ready(s))
    && (!s.idEx.valid ==> Inert(s.idEx))
    && (s.idEx.ctrl.memRead ==> !s.idEx.isMret && !s.idEx.ctrl.memWrite)
    && (s.exMem.ctrl.memRead ==> !s.exMem.isMret && !s.exMem.ctrl.memWrite)
  }

  lemma ShapeAtReset(rf: Regs, ram: Ram, fetched: Word)
    ensures Shape(AfterReset(rf, ram, fetched))
  {
  }

  lemma StallAnswers(gated: bool, prog: Program, s: State, i: In)
    requires Shape(s) && MemStall(s, i)
    ensures
      var t := Next(gated, prog, s, i);
      && t.waiting && t.exMem == s.exMem && IsLoad(t.exMem) && !MemExc(t.exMem) && Ready(t) && !s.waiting
      && t.ifId == s.ifId && Request(s, i) == [BusReq(false, s.exMem.alu, 0, 0)]
  {
    hide MemExc, IrqPending, NextPc, NextMemWb, NextCsr, NextRam, NextIdEx, Inert, ExStage, ExRedirect;
  }

  lemma ExIsInert(gated: bool, s: State, i: In)
    requires Shape(s)
    ensures !NextIdEx(gated, s, i).valid ==> Inert(NextIdEx(gated, s, i))
    ensures NextIdEx(gated, s, i).ctrl.memRead ==> !NextIdEx(gated, s, i).isMret && !NextIdEx(gated, s, i).ctrl.memWrite
  {
    ControlFacts(s.ifId.instr);
    hide MemStall, FetchKilled, Bubble, ReadPort, ControlUnit, ImmGen, DecodeImmSel, DecodeAluOp;
  }

  /** Every clock keeps the shape, whatever the inputs and whether or not an instruction is lost. */
  lemma ShapeKept(gated: bool, prog: Program, s: State, i: In)
    requires Shape(s)
    ensures Shape(Next(gated, prog, s, i))
  {
    ExIsInert(gated, s, i);
    if MemStall(s, i) {
      StallAnswers(gated, prog, s, i);
    } else {
      assert NextExMem(s, i).ctrl.memRead ==> !NextExMem(s, i).isMret && !NextExMem(s, i).ctrl.memWrite by {
        hide Redirects, Target, AluOut, Operand1, Operand2, MemExc, IrqPending;
      }
    }
    hide MemExc, IrqPending, NextPc, NextMemWb, NextCsr, NextRam, NextIdEx, NextIfId, NextExMem, NextResponse, Inert,
      CsrRedirect;
  }

  lemma RankDrops(gated: bool, prog: Program, s: State, i: In)
    requires Shape(s) && !Leaves(s, i)
    ensures Rank(Next(gated, prog, s, i)) < Rank(s)
  {
    if MemStall(s, i) {
      StallAnswers(gated, prog, s, i);
    } else {
      hide MemExc, IrqPending, NextPc, NextMemWb, NextCsr, NextRam, NextResponse, Fetch,
        BranchCond, Add, Rs1, Rs2, Operand1, Operand2, AluOut, ControlUnit, ImmGen, Target;
    }
  }

  lemma {:induction false} SilentRunsAreShort(gated: bool, prog: Program, s: State, ins: seq<In>)
    requires Shape(s) && EventsOf(gated, prog, s, ins) == []
    ensures |ins| + Rank(StateAfter(gated, prog, s, ins)) <= Rank(s) && Shape(StateAfter(gated, prog, s, ins))
  {
    hide Shape, Leaves, SampleOf, EventOf, Next, Rank;
    if ins != [] {
      var k := |ins| - 1;
      SilentRunsAreShort(gated, prog, s, ins[..k]);
      var t := StateAfter(gated, prog, s, ins[..k]);
      RankDrops(gated, prog, t, ins[k]);
      ShapeKept(gated, prog, t, ins[k]);
    }
  }

  lemma {:induction false} ShapeOverRun(gated: bool, prog: Program, s: State, ins: seq<In>)
    requires Shape(s)
    ensures Shape(StateAfter(gated, prog, s, ins))
  {
    hide Shape, Next;
    if ins != [] {
      var k := |ins| - 1;
      ShapeOverRun(gated, prog, s, ins[..k]);
      ShapeKept(gated, prog, StateAfter(gated, prog, s, ins[..k]), ins[k]);
    }
  }

  /** Progress: from every state reachable from reset, lost instructions or not and whatever the inputs,
      an instruction commits or traps within six cycles. */
  lemma SomethingLeavesWithinSixCycles(gated: bool, prog: Program, rf: Regs, ram: Ram, fetched: Word,
                                       before: seq<In>, ins: seq<In>)
    requires |ins| >= 6
    ensures EventsOf(gated, prog, StateAfter(gated, prog, AfterReset(rf, ram, fetched), before), ins) != []
  {
    hide StateAfter, EventsOf, Shape, AfterReset;
    ShapeAtReset(rf, ram, fetched);
    ShapeOverRun(gated, prog, AfterReset(rf, ram, fetched), before);
    var s := StateAfter(gated, prog, AfterReset(rf, ram, fetched), before);
    if EventsOf(gated, prog, s, ins) == [] { SilentRunsAreShort(gated, prog, s, ins); }
  }

  lemma AnsweredLoadLeaves(s: State, j: In)
    requires s.waiting && IsLoad(s.exMem) && !MemExc(s.exMem) && Ready(s) && !s.exMem.isMret && !s.exMem.ctrl.memWrite
    ensures Leaves(s, j) && !CsrRedirect(s, j) && Request(s, j) == []
  {
    hide MemExc, IrqPending;
  }

  /** Every request is answered in the next cycle: in every state reachable from reset, lost instructions or
      not, a load that stalls MEM has made one request, MEM and ID are untouched meanwhile, and it leaves one
      cycle later, neither trapped nor interrupted, whatever the inputs. */
  lemma LoadHoldsTwoCycles(gated: bool, prog: Program, rf: Regs, ram: Ram, fetched: Word,
                           before: seq<In>, i: In, j: In)
    requires MemStall(StateAfter(gated, prog, AfterReset(rf, ram, fetched), before), i)
    ensures
      var s := StateAfter(gated, prog, AfterReset(rf, ram, fetched), before);
      var t := Next(gated, prog, s, i);
      && !s.waiting && t.waiting && t.exMem == s.exMem && t.ifId == s.ifId
      && Leaves(t, j) && !CsrRedirect(t, j)
      && Request(s, i) == [BusReq(false, s.exMem.alu, 0, 0)] && Request(t, j) == []
  {
    hide StateAfter, Shape, AfterReset, Next, MemStall, Leaves, CsrRedirect, Request, IsLoad, MemExc, Ready;
    ShapeAtReset(rf, ram, fetched);
    ShapeOverRun(gated, prog, AfterReset(rf, ram, fetched), before);
    var s := StateAfter(gated, prog, AfterReset(rf, ram, fetched), before);
    StallAnswers(gated, prog, s, i);
    LoadsArePlain(s) by { assert IsLoad(s.exMem); }
    AnsweredLoadLeaves(Next(gated, prog, s, i), j);
  }

  lemma LoadsArePlain(s: State)
    requires Shape(s) && IsLoad(s.exMem)
    ensures !s.exMem.isMret && !s.exMem.ctrl.memWrite
  {
    hide MemExc, Ready, Inert;
  }

  // ---- A program that loses an instruction -----------------------------------------------------

  /** lw x1, 0(x0);  lw x2, 0(x0);  add x3, x2, x0 */
  const WITNESS: Program := map[0 := 0x0000_2083, 1 := 0x0000_2103, 2 := 0x0001_01B3]

  lemma WitnessHasWindow()
    ensures LosingWindow(WITNESS, 0)
  {
  }

  lemma HitsWindowGrows(prog: Program, a: Arch, ns: seq<Sample>, k: nat)
    requires k <= |ns| && HitsWindow(prog, a, ns[..k])
    ensures HitsWindow(prog, a, ns)
  {
    hide CommitsLoad, LosingWindow, IsaRun;
    if k < |ns| {
      var m := |ns| - 1;
      assert ns[..m][..k] == ns[..k];
      HitsWindowGrows(prog, a, ns[..m], k);
    } else {
      assert ns[..k] == ns;
    }
  }

  lemma WitnessFirstStep(a: Arch, n: Sample)
    requires a.pc == 0 && a.csr == RESET_CSR
    ensures HitsWindow(WITNESS, a, [n])
  {
    WitnessHasWindow();
    assert [n][..0] == [];
    FirstWord(Reg(a.regs, Rs2(0x2083)));
    assert Fetch(WITNESS, 0) == 0x2083;
    assert Rs1(0x2083) == 0;
    hide LosingWindow, Meaning, Fetch, Rs1, Rs2;
  }

  lemma WitnessFields()
    ensures Opcode(0x2083) == OP_LOAD && Funct3(0x2083) == 2 && Rd(0x2083) == 1
  {
  }

  lemma WitnessOffset()
    ensures ImmI(0x2083) == 0
  {
    var w: nat := 0x2083;
    assert w / 0x10_0000 == 0;
    ZeroField(w / 0x10_0000);
  }

  lemma ZeroField(x: nat)
    requires x == 0
    ensures Sx(x, 0x800) == 0
  {
  }

  lemma ZeroSums()
    ensures Add(0, 0) == 0 && Add(0, 4) == 4
  {
  }

  lemma WordSize()
    ensures AlignOk(0, 2) && !Bit(2, 4)
  {
  }

  lemma FirstWord(b: Word)
    ensures Meaning(0x2083, 0, 0, b) == Continue(4, Load(1, 0, 2, false))
  {
    hide BranchCond, Arith, ImmI, ImmS, ImmB, ImmJ, ImmU, Opcode, Funct3, Rd, Rs1, Imm12, Add, ClearBit0, Aligned,
      AlignOk, Bit;
    WitnessFields();
    WitnessOffset();
    ZeroSums();
    WordSize();
  }

  /** As long as nothing is lost, nothing leaves MEM. */
  lemma NothingBeforeLoss(s: State, a: Arch, env: nat -> In, m: nat)
    requires Inv(WITNESS, s) && !s.waiting && Abs(s) == a && a.pc == 0 && a.csr == RESET_CSR
    requires forall k: nat | k < m :: !LosesNow(WITNESS, s, env, k)
    ensures Es(WITNESS, s, env, m) == [] && Ns(WITNESS, s, env, m) == []
  {
    hide Tracks, LosesNow, HitsWindow, Inv, Ns, Abs, Es, At, Clean;
    SameLengths(WITNESS, s, env, m);
    NoLossNoWindow(WITNESS, s, env, m);
    var ns := Ns(WITNESS, s, env, m);
    if ns != [] {
      assert ns[..1] == [ns[0]];
      WitnessFirstStep(a, ns[0]);
      HitsWindowGrows(WITNESS, a, ns, 1);
    }
  }

  /** The first loss comes within six cycles, with the first load in MEM. */
  lemma WitnessFirstLoss(rf: Regs, ram: Ram, fetched: Word, env: nat -> In) returns (m: nat)
    ensures
      var s := AfterReset(rf, ram, fetched);
      && m < 6 && LosesNow(WITNESS, s, env, m) && (forall k: nat | k < m :: !LosesNow(WITNESS, s, env, k))
      && Inv(WITNESS, At(WITNESS, s, env, m)) && Es(WITNESS, s, env, m) == [] && Abs(At(WITNESS, s, env, m)).pc == 0
  {
    var s := AfterReset(rf, ram, fetched);
    var a := Arch(RESET_PC, rf, RESET_CSR, ram);
    ResetOk(WITNESS, rf, ram, fetched);
    assert !s.waiting;
    hide Tracks, LosesNow, HitsWindow, Inv, Ns, Abs, AfterReset, Es, At, Clean;
    if forall k: nat | k < 6 :: !LosesNow(WITNESS, s, env, k) {
      SixCyclesIn(rf, ram, fetched, env);
      NothingBeforeLoss(s, a, env, 6);
    }
    var n: nat :| n < 6 && LosesNow(WITNESS, s, env, n);
    m := FirstLoss(WITNESS, s, env, n);
    TracksUntilLoss(WITNESS, s, env, m);
    NothingBeforeLoss(s, a, env, m);
    EmptyRun(WITNESS, a);
  }

  /** From reset, under every trace of inputs, the design as written runs these three instructions wrongly:
      after ten cycles the first load has retired at 0 and the next instruction to leave MEM was the one at
      8, so the load at 4 is never executed, and no sequential run, whatever it samples and wherever it
      starts, has these events. */
  lemma WitnessIsLost(rf: Regs, ram: Ram, fetched: Word, env: nat -> In, n: nat, a: Arch)
    requires n >= 10
    ensures
      var s := AfterReset(rf, ram, fetched);
      var es := Es(WITNESS, s, env, n);
      && |es| >= 2 && es[0].pc == 0 && es[0].outcome.Retired? && es[1].pc == 8
      && !Explained(WITNESS, a, es) && !Tracks(WITNESS, s, env, n)
  {
    hide Tracks, LosesNow, HitsWindow, Inv, Ns, Abs, AfterReset, Es, At, Explained, Skips;
    var s := AfterReset(rf, ram, fetched);
    ResetOk(WITNESS, rf, ram, fetched);
    assert !s.waiting by { ResetNotWaiting(rf, ram, fetched); }
    var m := WitnessFirstLoss(rf, ram, fetched, env);
    LossSkips(WITNESS, s, env, m);
    EventsGrow(WITNESS, s, env, m + 5, n);
    LossShows(WITNESS, s, env, m, n, a);
    SkipFromZero(WITNESS, Es(WITNESS, s, env, n)[0], Es(WITNESS, s, env, n)[1]);
  }

  lemma ResetNotWaiting(rf: Regs, ram: Ram, fetched: Word)
    ensures !AfterReset(rf, ram, fetched).waiting
  {
  }

  lemma SkipFromZero(prog: Program, e1: Event, e2: Event)
    requires Skips(prog, e1, e2) && e1.pc == 0
    ensures e1.outcome.Retired? && e2.pc == 8
  {
    hide Fetch, IsLoadWord;
  }

  lemma SixCyclesIn(rf: Regs, ram: Ram, fetched: Word, env: nat -> In)
    ensures Es(WITNESS, AfterReset(rf, ram, fetched), env, 6) != []
  {
    hide EventsOf, AfterReset;
    SomethingLeavesWithinSixCycles(false, WITNESS, rf, ram, fetched, [], Prefix(env, 6));
  }

  // ---- Interrupt masking over runs of the sequential machine --------------------------------------

  /** The step sets mstatus.MIE: an MRET with MPIE set, or a CSR instruction on mstatus that leaves
      the bit set. */
  predicate Enables(prog: Program, a: Arch, n: Sample) {
    !IrqPending(a.csr, n.live) &&
    var act := Act(prog, a);
    (act.Return? && a.csr.mpie) ||
    (act.Continue? && act.effect.CsrOp? && act.effect.csr == CSR_MSTATUS &&
     Apply(a, n, act.next, act.effect).csr.mie)
  }

  /** With interrupts disabled none is taken, and a step enables them exactly when it is one of those. */
  lemma MaskedStep(prog: Program, a: Arch, n: Sample)
    requires !a.csr.mie
    ensures IsaStep(prog, a, n).csr.mie <==> Enables(prog, a, n)
    ensures !(IsaEvent(prog, a, n).outcome.Trapped? && IsaEvent(prog, a, n).outcome.isIrq)
  {
    hide Act, NewValue, CsrRead, LoadExtract, BusRead, RamWrite, AlignDown, Bit, StoreLanes, ByteEnable;
  }

  predicate IsIrq(e: Event) { e.outcome.Trapped? && e.outcome.isIrq }

  /** While interrupts are disabled and no step enables them, none is taken. */
  lemma {:induction false} MaskedRun(prog: Program, a: Arch, ns: seq<Sample>)
    requires !a.csr.mie
    requires forall k: nat | k < |ns| :: !Enables(prog, IsaRun(prog, a, ns[..k]), ns[k])
    ensures !IsaRun(prog, a, ns).csr.mie
    ensures forall e | e in IsaEvents(prog, a, ns) :: !IsIrq(e)
  {
    hide Enables, IsaStep, IsaEvent;
    if ns != [] {
      var m := |ns| - 1;
      forall k: nat | k < m ensures !Enables(prog, IsaRun(prog, a, ns[..m][..k]), ns[..m][k]) {
        assert ns[..m][..k] == ns[..k];
      }
      MaskedRun(prog, a, ns[..m]);
      MaskedStep(prog, IsaRun(prog, a, ns[..m]), ns[m]);
    }
  }

  /** After any trap no interrupt is taken until a step enables them again. */
  lemma TrapMasksInterrupts(prog: Program, a: Arch, n: Sample, ns: seq<Sample>)
    requires IsaEvent(prog, a, n).outcome.Trapped?
    requires forall k: nat | k < |ns| :: !Enables(prog, IsaRun(prog, IsaStep(prog, a, n), ns[..k]), ns[k])
    ensures forall e | e in IsaEvents(prog, IsaStep(prog, a, n), ns) :: !IsIrq(e)
  {
    assert !IsaStep(prog, a, n).csr.mie by { hide Act, Apply, IrqPending, IrqCode; }
    hide Enables, IsaStep, IsaEvent, IsaRun, IsaEvents;
    MaskedRun(prog, IsaStep(prog, a, n), ns);
  }

  /** The step changes the interrupt-enable stack in mstatus. */
  predicate MovesStack(prog: Program, a: Arch, n: Sample) {
    IsaEvent(prog, a, n).outcome.Trapped? || IsaEvent(prog, a, n).outcome.Returned? ||
    (Act(prog, a).Continue? && Act(prog, a).effect.CsrOp? && Act(prog, a).effect.csr == CSR_MSTATUS)
  }

  lemma StackKept(prog: Program, a: Arch, n: Sample)
    requires !MovesStack(prog, a, n)
    ensures IsaStep(prog, a, n).csr.mie == a.csr.mie && IsaStep(prog, a, n).csr.mpie == a.csr.mpie
  {
    hide Act, NewValue, CsrRead, LoadExtract, BusRead, RamWrite, AlignDown, Bit, StoreLanes, ByteEnable, IrqPending;
  }

  lemma {:induction false} StackKeptOverRun(prog: Program, a: Arch, ns: seq<Sample>)
    requires forall k: nat | k < |ns| :: !MovesStack(prog, IsaRun(prog, a, ns[..k]), ns[k])
    ensures IsaRun(prog, a, ns).csr.mie == a.csr.mie && IsaRun(prog, a, ns).csr.mpie == a.csr.mpie
  {
    hide MovesStack, IsaStep;
    if ns != [] {
      var m := |ns| - 1;
      forall k: nat | k < m ensures !MovesStack(prog, IsaRun(prog, a, ns[..m][..k]), ns[..m][k]) {
        assert ns[..m][..k] == ns[..k];
      }
      StackKeptOverRun(prog, a, ns[..m]);
      StackKept(prog, IsaRun(prog, a, ns[..m]), ns[m]);
    }
  }

  lemma TrapSavesEnable(prog: Program, a: Arch, n: Sample)
    requires IsaEvent(prog, a, n).outcome.Trapped?
    ensures IsaStep(prog, a, n).csr.mpie == a.csr.mie
  {
    hide Act, Apply, IrqPending, IrqCode;
  }

  lemma ReturnTakesEnable(prog: Program, a: Arch, n: Sample)
    requires IsaEvent(prog, a, n).outcome.Returned?
    ensures IsaStep(prog, a, n).csr.mie == a.csr.mpie
  {
    hide Act, Apply, IrqPending, IrqCode;
  }

  /** A trap, a handler that leaves mstatus alone and neither traps nor returns, then MRET: the
      interrupt enable is what it was before the trap. */
  lemma TrapThenReturnRestores(prog: Program, a: Arch, n: Sample, ns: seq<Sample>, r: Sample)
    requires IsaEvent(prog, a, n).outcome.Trapped?
    requires forall k: nat | k < |ns| :: !MovesStack(prog, IsaRun(prog, IsaStep(prog, a, n), ns[..k]), ns[k])
    requires IsaEvent(prog, IsaRun(prog, IsaStep(prog, a, n), ns), r).outcome.Returned?
    ensures
      IsaStep(prog, IsaRun(prog, IsaStep(prog, a, n), ns), r).csr.mie == a.csr.mie
  {
    hide MovesStack, IsaRun, IsaStep, IsaEvent;
    TrapSavesEnable(prog, a, n);
    StackKeptOverRun(prog, IsaStep(prog, a, n), ns);
    ReturnTakesEnable(prog, IsaRun(prog, IsaStep(prog, a, n), ns), r);
  }

  /** The step changes mepc. */
  predicate MovesEpc(prog: Program, a: Arch, n: Sample) {
    IsaEvent(prog, a, n).outcome.Trapped? ||
    (Act(prog, a).Continue? && Act(prog, a).effect.CsrOp? && Act(prog, a).effect.csr == CSR_MEPC)
  }

  lemma EpcKept(prog: Program, a: Arch, n: Sample)
    requires !MovesEpc(prog, a, n)
    ensures IsaStep(prog, a, n).csr.mepc == a.csr.mepc
  {
    hide Act, NewValue, CsrRead, LoadExtract, BusRead, RamWrite, AlignDown, Bit, StoreLanes, ByteEnable, IrqPending;
  }

  lemma {:induction false} EpcKeptOverRun(prog: Program, a: Arch, ns: seq<Sample>)
    requires forall k: nat | k < |ns| :: !MovesEpc(prog, IsaRun(prog, a, ns[..k]), ns[k])
    ensures IsaRun(prog, a, ns).csr.mepc == a.csr.mepc
  {
    hide MovesEpc, IsaStep;
    if ns != [] {
      var m := |ns| - 1;
      forall k: nat | k < m ensures !MovesEpc(prog, IsaRun(prog, a, ns[..m][..k]), ns[..m][k]) {
        assert ns[..m][..k] == ns[..k];
      }
      EpcKeptOverRun(prog, a, ns[..m]);
      EpcKept(prog, IsaRun(prog, a, ns[..m]), ns[m]);
    }
  }

  lemma TrapSavesPc(prog: Program, a: Arch, n: Sample)
    requires IsaEvent(prog, a, n).outcome.Trapped?
    ensures IsaStep(prog, a, n).csr.mepc == a.pc && IsaStep(prog, a, n).pc == a.csr.mtvec
  {
    hide Act, Apply, IrqPending, IrqCode;
  }

  lemma ReturnGoesToEpc(prog: Program, a: Arch, n: Sample)
    requires IsaEvent(prog, a, n).outcome.Returned?
    ensures IsaStep(prog, a, n).pc == a.csr.mepc
  {
    hide Act, Apply, IrqPending, IrqCode;
  }

  /** A trap, a handler that leaves mepc alone and does not trap, then MRET: execution goes on at exactly the
      instruction that trapped. */
  lemma TrapThenReturnResumes(prog: Program, a: Arch, n: Sample, ns: seq<Sample>, r: Sample)
    requires IsaEvent(prog, a, n).outcome.Trapped?
    requires forall k: nat | k < |ns| :: !MovesEpc(prog, IsaRun(prog, IsaStep(prog, a, n), ns[..k]), ns[k])
    requires IsaEvent(prog, IsaRun(prog, IsaStep(prog, a, n), ns), r).outcome.Returned?
    ensures IsaStep(prog, IsaRun(prog, IsaStep(prog, a, n), ns), r).pc == a.pc
  {
    hide MovesEpc, IsaRun, IsaStep, IsaEvent;
    TrapSavesPc(prog, a, n);
    EpcKeptOverRun(prog, IsaStep(prog, a, n), ns);
    ReturnGoesToEpc(prog, IsaRun(prog, IsaStep(prog, a, n), ns), r);
  }
}
