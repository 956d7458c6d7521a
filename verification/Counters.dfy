/** The counters and the bus-error flag over whole runs, lost instructions or not. */
module Counters {
  import opened Words
  import opened Datapath
  import opened Csr
  import opened Isa
  import opened Pipeline
  import opened Refinement
  import opened Runs

  const W64: int := 0x1_0000_0000_0000_0000

  // ---- Cycles and instructions --------------------------------------------------------------------------------

  /** Events that are not traps. */
  function Retirements(es: seq<Event>): nat {
    if es == [] then 0 else Retirements(es[..|es| - 1]) + if es[|es| - 1].outcome.Trapped? then 0 else 1
  }

  /** Cycles in which MEM stalls while WB holds a finished instruction. */
  function HeldWriteBacks(gated: bool, prog: Program, s: State, ins: seq<In>): nat {
    if ins == [] then 0
    else
      var k := |ins| - 1;
      var u := StateAfter(gated, prog, s, ins[..k]);
      HeldWriteBacks(gated, prog, s, ins[..k]) + if MemStall(u, ins[k]) && u.memWb.valid then 1 else 0
  }

  function Finished(s: State): int { if s.memWb.valid then 1 else 0 }

  lemma CounterStep(gated: bool, prog: Program, s: State, i: In)
    requires s.instret < W64
    ensures
      var t := Next(gated, prog, s, i);
      && t.cycle == (s.cycle + 1) % W64 && t.instret == (s.instret + Finished(s)) % W64
      && Finished(t) == (if MemStall(s, i) then Finished(s) else if Leaves(s, i) && !TakeTrap(s, i) then 1 else 0)
  {
    hide MemExc, IrqPending, NextPc, NextCsr, NextRam, NextIdEx, NextIfId, NextExMem, NextResponse, CsrData, BusWord,
      LoadData, Fetch, WriteBack;
  }

  lemma TrapEvents(s: State, i: In)
    ensures EventOf(s, i).outcome.Trapped? <==> TakeTrap(s, i)
  {
    hide MemExc, MemCause, MemTval, IrqCode, MemPc, TakeTrap, TakeMret, BusWord, CsrData, WbWrites, WbData;
  }

  lemma AddMod(x: int, y: int, d: int)
    requires (x - y) % W64 == 0
    ensures (x % W64 + d - (y + d)) % W64 == 0
  {
  }

  lemma CycleMod(k: nat)
    ensures (k % W64 + 1) % W64 == (k + 1) % W64
  {
  }

  /** One clock keeps the balance. */
  lemma BalanceStep(gated: bool, prog: Program, s: State, i: In, n: nat, h: nat)
    requires s.instret < W64 && (s.instret + Finished(s) - (n + h)) % W64 == 0
    ensures
      var t := Next(gated, prog, s, i);
      var retired := if Leaves(s, i) && !EventOf(s, i).outcome.Trapped? then 1 else 0;
      var held := if MemStall(s, i) && s.memWb.valid then 1 else 0;
      t.instret < W64 && (t.instret + Finished(t) - ((n + retired) + (h + held))) % W64 == 0
  {
    hide Next, Leaves, MemStall, TakeTrap, EventOf;
    CounterStep(gated, prog, s, i);
    TrapEvents(s, i);
    StallsDoNotLeave(s, i);
    AddMod(s.instret + Finished(s), n + h, Finished(Next(gated, prog, s, i)));
  }

  lemma RetirementsGrow(es: seq<Event>, e: Event)
    ensures Retirements(es + [e]) == Retirements(es) + (if e.outcome.Trapped? then 0 else 1)
  {
    assert (es + [e])[..|es|] == es;
  }

  /** From reset, `cycle` counts the clocks. `instret` counts the retired instructions and, again, every cycle in
      which a stall holds one of them in WB; the instruction in WB is not counted yet. */
  lemma {:induction false} CountersAreExact(gated: bool, prog: Program, rf: Regs, ram: Ram, fetched: Word, ins: seq<In>)
    ensures
      var s := AfterReset(rf, ram, fetched);
      var f := StateAfter(gated, prog, s, ins);
      var (n, h) := (Retirements(EventsOf(gated, prog, s, ins)), HeldWriteBacks(gated, prog, s, ins));
      && f.cycle == |ins| % W64 && f.instret < W64
      && (f.instret + Finished(f) - (n + h)) % W64 == 0
  {
    hide Next, Leaves, MemStall, TakeTrap, EventOf, Finished;
    var s := AfterReset(rf, ram, fetched);
    if ins == [] {
      ResetCounts(rf, ram, fetched);
    } else {
      var k := |ins| - 1;
      CountersAreExact(gated, prog, rf, ram, fetched, ins[..k]);
      hide AfterReset;
      var u := StateAfter(gated, prog, s, ins[..k]);
      var es := EventsOf(gated, prog, s, ins[..k]);
      CounterStep(gated, prog, u, ins[k]);
      CycleMod(k);
      BalanceStep(gated, prog, u, ins[k], Retirements(es), HeldWriteBacks(gated, prog, s, ins[..k]));
      RetirementsGrow(es, EventOf(u, ins[k]));
      assert es + [] == es;
    }
  }

  lemma ResetCounts(rf: Regs, ram: Ram, fetched: Word)
    ensures
      var s := AfterReset(rf, ram, fetched);
      s.cycle == 0 && s.instret == 0 && Finished(s) == 0
  {
  }

  lemma StallsDoNotLeave(s: State, i: In)
    ensures MemStall(s, i) ==> !Leaves(s, i)
  {
    hide MemStall;
  }

  // ---- The bus-error flag ---------------------------------------------------------------------------------------

  predicate HitsNothing(reqs: seq<BusReq>) { exists r | r in reqs :: r.addr >= 0x7000 }

  /** What the pending response says about the last request. */
  predicate Answers(s: State, last: seq<BusReq>) {
    s.response.FromUnmapped? <==> HitsNothing(last)
  }

  lemma ErrorStep(gated: bool, prog: Program, s: State, i: In)
    ensures
      var t := Next(gated, prog, s, i);
      && t.busError == (s.busError || s.response.FromUnmapped?) && Answers(t, Request(s, i))
  {
    assert forall a: Word :: Mapped(a) <==> a < 0x7000;
    hide MemExc, IrqPending, NextPc, NextCsr, NextRam, NextIdEx, NextIfId, NextExMem, NextMemWb, Fetch, WriteBack,
      Mapped, LoadPulse, StorePulse, MemWdata, MemByteEn;
    var reqs := Request(s, i);
    assert reqs != [] ==> reqs[0].addr == s.exMem.alu && reqs == [reqs[0]];
  }

  lemma HitsConcat(a: seq<BusReq>, b: seq<BusReq>)
    ensures HitsNothing(a + b) <==> HitsNothing(a) || HitsNothing(b)
  {
    if HitsNothing(a) { var r :| r in a && r.addr >= 0x7000; assert r in a + b; }
    if HitsNothing(b) { var r :| r in b && r.addr >= 0x7000; assert r in a + b; }
  }

  /** From reset, the bus-error flag is set exactly when a request two clocks back or more went to an address at or
      above 0x7000, where there is no slave. */
  lemma {:induction false} BusErrorIsExact(gated: bool, prog: Program, rf: Regs, ram: Ram, fetched: Word,
                                           ins: seq<In>, i: In)
    ensures
      var s := AfterReset(rf, ram, fetched);
      && StateAfter(gated, prog, s, ins + [i]).busError == HitsNothing(TrafficOf(gated, prog, s, ins))
      && !s.busError
  {
    hide Next, Request, HitsNothing;
    var s := AfterReset(rf, ram, fetched);
    var all := ins + [i];
    assert all[..|ins|] == ins;
    var u := StateAfter(gated, prog, s, ins);
    ErrorStep(gated, prog, u, i);
    if ins == [] {
      assert !HitsNothing(TrafficOf(gated, prog, s, [])) by { NothingHit(); }
    } else {
      var k := |ins| - 1;
      BusErrorIsExact(gated, prog, rf, ram, fetched, ins[..k], ins[k]);
      assert ins[..k] + [ins[k]] == ins;
      ErrorStep(gated, prog, StateAfter(gated, prog, s, ins[..k]), ins[k]);
      HitsConcat(TrafficOf(gated, prog, s, ins[..k]), Request(StateAfter(gated, prog, s, ins[..k]), ins[k]));
    }
  }

  lemma NothingHit()
    ensures !HitsNothing([])
  {
  }
}
