/** The pipeline refines the sequential machine: a refinement mapping, a global invariant, and one
    simulation step for each kind of cycle. */
module Refinement {
  import opened Words
  import opened Datapath
  import opened Csr
  import opened Isa
  import opened Pipeline
  import opened Sequential

  // ---- Refinement mapping ------------------------------------------------------------

  /** The address of the oldest instruction that has not left MEM. */
  function OldestPc(s: State): Word {
    if s.exMem.valid then MemPc(s.exMem)
    else if s.idEx.valid then s.idEx.pc
    else if s.ifId.valid then s.ifId.pc
    else if s.ifValid then s.pcIf
    else s.pc
  }

  /** The sequential state a pipeline state stands for: MEM is the commit point, and the instruction
      in WB counts as having written. */
  function Abs(s: State): Arch {
    Arch(OldestPc(s), WriteBack(s.rf, s.memWb), s.csr, s.ram)
  }

  // ---- Invariant ---------------------------------------------------------------------

  /** The address each stage must hold if it is occupied, from the oldest stage down. */
  function ExPc(prog: Program, s: State): Word {
    if s.exMem.valid then SeqNext(prog, Abs(s)) else OldestPc(s)
  }
  function IdPc(prog: Program, s: State): Word {
    if s.idEx.valid then Add(s.idEx.pc, 4) else ExPc(prog, s)
  }
  function IfPc(prog: Program, s: State): Word {
    if s.ifId.valid then Add(s.ifId.pc, 4) else IdPc(prog, s)
  }
  function FetchPc(prog: Program, s: State): Word {
    if s.ifValid then Add(s.pcIf, 4) else IfPc(prog, s)
  }

  predicate Inert(q: IdEx) {
    var c := q.ctrl;
    !c.regWrite && !c.memRead && !c.memWrite && !c.branch && !c.jump && !c.csrWrite &&
    !q.hasExc && !q.isMret
  }

  /** Register `r` as the instruction in EX would read it if MEM did not produce it. */
  predicate Settled(s: State, r: Word, latched: Word) {
    Bypass(s.memWb, r, latched) == Reg(Abs(s).regs, r)
  }

  /** `m` is a load of a register that one of the register fields `r1`, `r2` names. */
  predicate Feeds(m: ExMem, r1: Word, r2: Word) {
    m.ctrl.memRead && m.rd != 0 && (m.rd == r1 || m.rd == r2)
  }

  predicate FrontOk(prog: Program, s: State) {
    && s.pc == FetchPc(prog, s)
    && (s.ifValid ==>
          s.pcIf == IfPc(prog, s) && s.pc4If == Add(s.pcIf, 4) && s.fetched == Fetch(prog, s.pcIf))
    && (s.ifId.valid ==>
          s.ifValid && s.ifId.pc == IdPc(prog, s) &&
          s.ifId == IfId(s.ifId.pc, Add(s.ifId.pc, 4), Fetch(prog, s.ifId.pc), true))
  }

  predicate ExOk(prog: Program, s: State) {
    var q := s.idEx;
    if q.valid then
      && s.ifId.valid
      && q.pc == ExPc(prog, s)
      && q == Decoded(Fetch(prog, q.pc), q.pc, q.data1, q.data2)
      && Settled(s, q.rs1, q.data1)
      && Settled(s, q.rs2, q.data2)
      && !(s.exMem.valid && Feeds(s.exMem, q.rs1, q.rs2))
    else Inert(q)
  }

  predicate MemOk(prog: Program, s: State) {
    && (s.exMem.valid ==> s.exMem == InMem(prog, Abs(s)))
    && (s.waiting ==>
          IsLoad(s.exMem) && !MemExc(s.exMem) && Ready(s) &&
          s.rdata == RamRead(s.ram, RamIndex(s.exMem.alu)))
    // A load with nothing behind it in EX is a load-use stall.
    && (IsLoad(s.exMem) && !s.idEx.valid ==>
          s.ifId.valid && Feeds(s.exMem, Rs1(s.ifId.instr), Rs2(s.ifId.instr)))
  }

  predicate Inv(prog: Program, s: State) {
    WellAligned(Abs(s)) && FrontOk(prog, s) && ExOk(prog, s) && MemOk(prog, s)
  }

  /** The two signals whose coincidence drops an instruction. */
  predicate Loses(gated: bool, s: State, i: In) {
    MemStall(s, i) && Bubble(gated, s, i)
  }

  lemma ResetOk(prog: Program, rf: Regs, ram: Ram, fetched: Word)
    ensures Inv(prog, AfterReset(rf, ram, fetched))
    ensures Abs(AfterReset(rf, ram, fetched)) == Arch(RESET_PC, rf, RESET_CSR, ram)
  {
  }

  // ---- Small facts ---------------------------------------------------------------------

  lemma PcRoundTrip(w: Word)
    ensures Sub(Add(w, 4), 4) == w
  {
  }

  lemma InMemFacts(prog: Program, a: Arch)
    ensures
      var m := InMem(prog, a);
      var w := Fetch(prog, a.pc);
      && m.valid && m.pc4 == Add(a.pc, 4) && m.rd == Rd(w)
      && m.ctrl == ControlUnit(w).ctrl
      && m.isMret == ControlUnit(w).mret
  {
    hide ControlUnit, Rd;
  }

  lemma ControlFacts(w: Word)
    ensures
      var c := ControlUnit(w);
      && (c.ctrl.memRead ==> c.ctrl.regWrite && c.ctrl.resultSrc == RES_MEM)
      && (c.ctrl.memRead ==> !c.mret && !c.ctrl.branch && !c.ctrl.jump)
      && (c.ctrl.memRead ==> !c.ctrl.memWrite && !c.ctrl.csrWrite)
      && (c.ctrl.resultSrc == RES_MEM ==> c.ctrl.memRead)
      && (c.mret ==> !c.ctrl.regWrite && !c.ctrl.csrWrite && !c.ctrl.memWrite)
  {
  }

  /** A stalling MEM stage holds a load that neither traps nor returns. */
  lemma StallIsLoad(prog: Program, s: State, i: In)
    requires Inv(prog, s) && MemStall(s, i)
    ensures !CsrRedirect(s, i) && !s.waiting && !MemExc(s.exMem) && !StorePulse(s, i) && !CsrEnable(s, i)
    ensures !IrqPending(s.csr, SampleOf(s, i).live)
  {
    hide Fetch, ExStage, Add, Sub, Aligned, ControlUnit, InMem, SeqNext, Decoded, LsMisaligned, FrontOk, ExOk;
    InMemFacts(prog, Abs(s));
    ControlFacts(Fetch(prog, Abs(s).pc));
  }

  // ---- Cycles in which MEM stalls ---------------------------------------------------------

  lemma StallKeeps(gated: bool, prog: Program, s: State, i: In)
    requires Inv(prog, s) && MemStall(s, i) && !Loses(gated, s, i)
    ensures Inv(prog, Next(gated, prog, s, i)) && Abs(Next(gated, prog, s, i)) == Abs(s)
    ensures Next(gated, prog, s, i).waiting && !s.waiting
    ensures Next(gated, prog, s, i).exMem == s.exMem
  {
    hide Fetch, DecodeStage, ExStage, CsrRead, Add, Sub, Aligned, IrqPending, ControlUnit, InMem, SeqNext,
      Rs1, Rs2, LsMisaligned, Decoded;
    var t := Next(gated, prog, s, i);
    StallIsLoad(prog, s, i);
    assert t.ifId == s.ifId && t.idEx == s.idEx && t.exMem == s.exMem && t.memWb == s.memWb;
    assert WriteBack(t.rf, t.memWb) == WriteBack(s.rf, s.memWb);
    assert Ready(t);
  }

  // ---- What happens at the commit point ------------------------------------------------------

  function Here(prog: Program, s: State): ExMem { InMem(prog, Abs(s)) }

  /** The sequential state once the instruction leaving MEM, if any, has been executed. */
  function After(prog: Program, s: State, i: In): Arch {
    if Leaves(s, i) then SeqStep(Here(prog, s), SeqNext(prog, Abs(s)), Abs(s), SampleOf(s, i)) else Abs(s)
  }

  lemma IrqSampling(s: State, i: In)
    requires s.exMem.valid && !MemExc(s.exMem)
    ensures TakeIrq(s, i) <==> IrqPending(s.csr, SampleOf(s, i).live)
    ensures TakeIrq(s, i) ==> IrqCode(s.csr, LiveOf(s, i)) == IrqCode(s.csr, SampleOf(s, i).live)
  {
  }

  /** A load leaves with the word its RAM or peripheral returned. */
  lemma LoadedWord(prog: Program, s: State, i: In)
    requires Inv(prog, s) && IsLoad(s.exMem) && Leaves(s, i) && !CsrRedirect(s, i)
    ensures BusWord(s, i) == BusRead(s.ram, i.mmio, s.exMem.alu)
  {
    hide FrontOk, ExOk, InMem, MemExc, IrqPending;
  }

  lemma CsrSeesLiveLines(prog: Program, s: State, i: In)
    requires Inv(prog, s) && s.exMem.valid && !s.exMem.ctrl.memRead
    ensures !s.waiting && LiveOf(s, i) == SampleOf(s, i).live
  {
    hide FrontOk, ExOk, InMem, MemExc;
  }

  lemma PlainMem(prog: Program, s: State)
    requires Inv(prog, s) && s.exMem.valid
    ensures
      var c := s.exMem.ctrl;
      && (c.memRead ==> c.regWrite && c.resultSrc == RES_MEM && !s.exMem.isMret && !c.memWrite && !c.csrWrite)
      && (c.resultSrc == RES_MEM ==> c.memRead)
      && (s.exMem.isMret ==> !c.regWrite && !c.csrWrite && !c.memWrite)
  {
    hide FrontOk, ExOk, InMem, ControlUnit, MemExc;
    InMemFacts(prog, Abs(s));
    ControlFacts(Fetch(prog, Abs(s).pc));
  }

  /** What the instruction leaving MEM writes to its register is what the sequential datapath writes. */
  lemma CommittedValue(prog: Program, s: State, i: In)
    requires Inv(prog, s) && Leaves(s, i) && !CsrRedirect(s, i)
    ensures
      var l := Latch(s.exMem, BusWord(s, i), CsrData(s, i));
      var q := SeqLatch(Here(prog, s), Abs(s), SampleOf(s, i));
      WbWrites(l) == WbWrites(q) && l.rd == q.rd && (WbWrites(l) ==> WbData(l) == WbData(q))
  {
    PlainMem(prog, s);
    if s.exMem.ctrl.memRead {
      LoadedWord(prog, s, i);
    } else {
      CsrSeesLiveLines(prog, s, i);
    }
    hide InMem, LoadExtract, CsrRead, BusRead, FrontOk, ExOk, MemExc, BusWord, CsrRedirect, MemStall;
  }

  /** The event read off the MEM wires is the sequential one. */
  lemma EventAgrees(prog: Program, s: State, i: In)
    requires Inv(prog, s) && Leaves(s, i)
    ensures EventOf(s, i) == SeqEvent(Here(prog, s), Abs(s), SampleOf(s, i))
  {
    assert s.exMem == Here(prog, s);
    if !CsrRedirect(s, i) { CommittedValue(prog, s, i); }
    if !MemExc(s.exMem) { IrqSampling(s, i); }
    hide InMem, Latch, BusWord, CsrData, SeqLatch, FrontOk, ExOk, MemExc, MemCause, MemTval, MemStall, IrqPending,
      IrqCode, LiveOf, SampleOf, WbData;
  }

  // ---- Cycles in which a trap or MRET redirects --------------------------------------------

  lemma RedirectSteps(gated: bool, prog: Program, s: State, i: In)
    requires Inv(prog, s) && CsrRedirect(s, i)
    ensures Leaves(s, i)
    ensures Abs(Next(gated, prog, s, i)) == After(prog, s, i)
    ensures WellAligned(After(prog, s, i)) ==> Inv(prog, Next(gated, prog, s, i))
  {
    var t := Next(gated, prog, s, i);
    PlainMem(prog, s);
    if !MemExc(s.exMem) { IrqSampling(s, i); }
    assert s.exMem == Here(prog, s);
    hide InMem, FrontOk, MemExc, MemCause, MemTval, IrqPending, IrqCode, DecodeStage, ExStage,
      LiveOf, SampleOf, Latch, Decoded, Fetch, CsrRead, Aligned, CsrModify, RamWrite, Add, Sub, SeqNext;
  }

  // ---- Cycles in which the pipeline moves ------------------------------------------------------

  predicate Moves(s: State, i: In) { !MemStall(s, i) && !CsrRedirect(s, i) }

  lemma MoveArch(gated: bool, prog: Program, s: State, i: In)
    requires Inv(prog, s) && Moves(s, i)
    ensures
      var t := Next(gated, prog, s, i);
      Abs(t).regs == After(prog, s, i).regs && t.csr == After(prog, s, i).csr && t.ram == After(prog, s, i).ram
    ensures After(prog, s, i).pc == ExPc(prog, s)
    ensures !Next(gated, prog, s, i).waiting
  {
    MoveState(gated, prog, s, i);
    MovePc(prog, s, i);
    hide Moves, Inv, After, Abs, ExPc, NextPc, NextIdEx, NextIfId, NextExMem, NextMemWb, NextCsr, NextRam, WriteBack;
    assert !Next(gated, prog, s, i).waiting by { MoveNotWaiting(gated, prog, s, i); }
  }

  lemma MoveRegs(gated: bool, prog: Program, s: State, i: In)
    requires Inv(prog, s) && Moves(s, i)
    ensures Abs(Next(gated, prog, s, i)).regs == After(prog, s, i).regs
  {
    if s.exMem.valid {
      PlainMem(prog, s);
      CommittedValue(prog, s, i);
      IrqSampling(s, i);
    }
    hide InMem, FrontOk, ExOk, MemExc, MemCause, MemTval, IrqPending, IrqCode, DecodeStage, ExStage, LiveOf, SampleOf,
      Latch, Fetch, CsrRead, CsrModify, RamWrite, Add, Sub, SeqNext, BusWord, SeqLatch, WbData, Ready, WellAligned,
      NextPc, NextIdEx, NextIfId, OldestPc, MemPc, NextCsr, NextRam, CsrData, NextExMem, NextResponse, FetchKilled,
      FrontStall, SeqNext, Aligned;
  }

  lemma MoveCsr(gated: bool, prog: Program, s: State, i: In)
    requires Inv(prog, s) && Moves(s, i)
    ensures Next(gated, prog, s, i).csr == After(prog, s, i).csr
  {
    if s.exMem.valid {
      PlainMem(prog, s);
      if !s.exMem.ctrl.memRead { CsrSeesLiveLines(prog, s, i); }
      IrqSampling(s, i);
    }
    hide InMem, FrontOk, ExOk, MemExc, MemCause, MemTval, IrqPending, IrqCode, DecodeStage, ExStage, LiveOf, SampleOf,
      Latch, Fetch, CsrRead, CsrModify, RamWrite, Add, Sub, SeqNext, BusWord, SeqLatch, WbData, Ready, WellAligned,
      NextPc, NextIdEx, NextIfId, OldestPc, MemPc, NextMemWb, NextRam;
  }

  lemma MoveRam(gated: bool, prog: Program, s: State, i: In)
    requires Inv(prog, s) && Moves(s, i)
    ensures Next(gated, prog, s, i).ram == After(prog, s, i).ram
  {
    if s.exMem.valid {
      PlainMem(prog, s);
      assert s.exMem == Here(prog, s);
      IrqSampling(s, i);
    }
    hide InMem, FrontOk, ExOk, MemExc, MemCause, MemTval, IrqPending, IrqCode, DecodeStage, ExStage, LiveOf, SampleOf,
      Latch, Fetch, CsrRead, CsrModify, RamWrite, Add, Sub, SeqNext, BusWord, SeqLatch, WbData, Ready, WellAligned,
      NextPc, NextIdEx, NextIfId, OldestPc, MemPc, NextMemWb, NextCsr;
  }

  lemma MoveState(gated: bool, prog: Program, s: State, i: In)
    requires Inv(prog, s) && Moves(s, i)
    ensures
      var t := Next(gated, prog, s, i);
      Abs(t).regs == After(prog, s, i).regs && t.csr == After(prog, s, i).csr && t.ram == After(prog, s, i).ram
  {
    hide Inv, Moves, Abs, After, Next;
    MoveRegs(gated, prog, s, i);
    MoveCsr(gated, prog, s, i);
    MoveRam(gated, prog, s, i);
  }

  lemma MovePc(prog: Program, s: State, i: In)
    requires Inv(prog, s) && Moves(s, i)
    ensures After(prog, s, i).pc == ExPc(prog, s)
  {
    if s.exMem.valid {
      PlainMem(prog, s);
      IrqSampling(s, i);
    }
    hide InMem, FrontOk, ExOk, MemExc, MemCause, MemTval, IrqPending, IrqCode, DecodeStage, ExStage,
      LiveOf, SampleOf, Latch, Fetch, CsrRead, CsrModify, RamWrite, Add, Sub, BusWord, SeqLatch,
      WbData, Ready, WellAligned, NextPc, NextIdEx, NextIfId, OldestPc, MemPc;
  }

  lemma MoveNotWaiting(gated: bool, prog: Program, s: State, i: In)
    requires Inv(prog, s) && Moves(s, i)
    ensures !Next(gated, prog, s, i).waiting
  {
    hide InMem, FrontOk, ExOk, MemExc, DecodeStage, ExStage, Latch, Fetch, CsrRead, CsrModify, RamWrite, WbData,
      WellAligned, NextPc, NextIdEx, NextIfId, OldestPc, MemPc, NextExMem, NextMemWb, NextCsr, NextRam, WriteBack;
  }

  /** Each operand the instruction in EX computes with is what the sequential machine would read
      just before it. */
  lemma OperandSound(gated: bool, prog: Program, s: State, i: In)
    requires Inv(prog, s) && s.idEx.valid && Moves(s, i)
    ensures
      var t := Next(gated, prog, s, i);
      Operand1(s, i) == Reg(Abs(t).regs, s.idEx.rs1) && Operand2(s, i) == Reg(Abs(t).regs, s.idEx.rs2)
  {
    if s.exMem.valid { PlainMem(prog, s); }
    ForwardSound(prog, s, i, s.idEx.rs1, s.idEx.data1);
    ForwardSound(prog, s, i, s.idEx.rs2, s.idEx.data2);
    hide InMem, FrontOk, MemExc, DecodeStage, ExStage, Latch, Fetch, CsrRead, Add, Sub, SeqNext, Forward,
      NextPc, NextIdEx, NextIfId, NextExMem, NextCsr, NextRam, WriteBack, WellAligned;
  }

  lemma ForwardSound(prog: Program, s: State, i: In, r: Word, latched: Word)
    requires Settled(s, r, latched) && Moves(s, i)
    requires s.exMem.valid && s.exMem.ctrl.resultSrc == RES_MEM ==> s.exMem.ctrl.memRead
    requires !(s.exMem.valid && Feeds(s.exMem, r, r))
    ensures
      Forward(s, i, r, latched) ==
      Reg(WriteBack(WriteBack(s.rf, s.memWb), Latch(s.exMem, BusWord(s, i), CsrData(s, i))), r)
  {
    hide BusWord, CsrData, Bypass, LoadData;
    var regs := WriteBack(s.rf, s.memWb);
    assert Bypass(s.memWb, r, latched) == Reg(regs, r);
  }

  /** EX computes the same EX/MEM contents whatever stale values ID latched. */
  lemma LatchedDataUnused(w: Word, pc: Word, d1: Word, d2: Word, v1: Word, v2: Word)
    ensures ExStage(Decoded(w, pc, d1, d2), v1, v2) == ExStage(Decoded(w, pc, v1, v2), v1, v2)
    ensures Redirects(Decoded(w, pc, d1, d2), v1, v2) == Redirects(Decoded(w, pc, v1, v2), v1, v2)
    ensures Target(Decoded(w, pc, d1, d2), v1) == Target(Decoded(w, pc, v1, v2), v1)
  {
    hide ControlUnit, ImmGen, DecodeImmSel, DecodeAluOp, Rs1, Rs2, Rd, Funct3, Imm12, Alu, BranchCond, Aligned,
      Add, ClearBit0, Bit, Gate;
  }

  /** The instruction moving from EX to MEM arrives as the sequential machine would have it. */
  lemma MoveMem(gated: bool, prog: Program, s: State, i: In)
    requires Inv(prog, s) && s.idEx.valid && Moves(s, i)
    ensures
      var t := Next(gated, prog, s, i);
      && t.exMem.valid && MemPc(t.exMem) == s.idEx.pc
      && Abs(t).pc == s.idEx.pc
      && t.exMem == InMem(prog, Abs(t))
      && SeqNext(prog, Abs(t)) ==
         (if ExRedirect(s, i) then Target(s.idEx, Operand1(s, i)) else Add(s.idEx.pc, 4))
  {
    var t := Next(gated, prog, s, i);
    OperandSound(gated, prog, s, i);
    var (v1, v2) := (Operand1(s, i), Operand2(s, i));
    var q := s.idEx;
    LatchedDataUnused(Fetch(prog, q.pc), q.pc, q.data1, q.data2, v1, v2);
    assert t.exMem == ExStage(q, v1, v2);
    PcRoundTrip(q.pc);
    hide FrontOk, MemExc, Fetch, Add, Sub, ExStage, Redirects, Target, Settled, Forward, WriteBack, MemOk,
      ControlUnit, ImmGen, DecodeImmSel, DecodeAluOp, Rs1, Rs2, Rd, Funct3, Imm12, Bit, Gate, WellAligned;
    assert q.rs1 == Rs1(Fetch(prog, q.pc)) && q.rs2 == Rs2(Fetch(prog, q.pc));
    assert t.exMem.valid && t.exMem.pc4 == Add(q.pc, 4) by {
      DecodedValid(Fetch(prog, q.pc), q.pc, q.data1, q.data2, v1, v2);
    }
  }

  lemma DecodedValid(w: Word, pc: Word, d1: Word, d2: Word, v1: Word, v2: Word)
    ensures
      var m := ExStage(Decoded(w, pc, d1, d2), v1, v2);
      m.valid && m.pc4 == Add(pc, 4) && m.rd == Rd(w) && m.ctrl == ControlUnit(w).ctrl
  {
    hide ControlUnit, Rd;
  }

  lemma ReadSound(rf: Regs, w: MemWb, l: MemWb, r: Word)
    ensures Bypass(l, r, ReadPort(rf, w, r)) == Reg(WriteBack(WriteBack(rf, w), l), r)
  {
    hide WbData, WbWrites;
  }

  lemma LoadsStayOnPath(prog: Program, s: State, i: In)
    requires Inv(prog, s) && s.idEx.valid && s.idEx.ctrl.memRead
    ensures !ExRedirect(s, i)
  {
    hide FrontOk, MemOk, ControlUnit, Operand1, Operand2, BranchCond;
    ControlFacts(Fetch(prog, s.idEx.pc));
  }

  /** A taken branch or jump: everything younger is squashed and fetch goes to its target. */
  lemma MoveTaken(gated: bool, prog: Program, s: State, i: In)
    requires Inv(prog, s) && Moves(s, i) && ExRedirect(s, i)
    ensures
      var t := Next(gated, prog, s, i);
      && s.idEx.valid && Abs(t).pc == s.idEx.pc
      && (WellAligned(Abs(t)) ==> Inv(prog, t))
  {
    hide Fetch, DecodeStage, CsrRead, Add, Sub, Aligned, InMem, SeqNext, Rs1, Rs2, Decoded, Target, Operand1,
      Operand2, NextMemWb, NextCsr, NextRam, NextResponse, Settled, WellAligned, WriteBack, MemStall, TakeTrap,
      TakeMret, BranchCond;
    MoveMem(gated, prog, s, i);
    MoveArch(gated, prog, s, i);
    if s.idEx.ctrl.memRead { LoadsStayOnPath(prog, s, i); }
  }

  /** A load-use stall: the load moves on alone and its consumer waits in ID. */
  lemma MoveLoadUse(gated: bool, prog: Program, s: State, i: In)
    requires Inv(prog, s) && Moves(s, i) && LoadUse(s)
    ensures
      var t := Next(gated, prog, s, i);
      && Abs(t).pc == s.idEx.pc
      && (WellAligned(Abs(t)) ==> Inv(prog, t))
  {
    hide Fetch, DecodeStage, CsrRead, Add, Sub, Aligned, InMem, SeqNext, Rs1, Rs2, Decoded, Target, Operand1,
      Operand2, NextMemWb, NextCsr, NextRam, NextResponse, Settled, WellAligned, WriteBack, MemStall, TakeTrap,
      TakeMret, BranchCond;
    MoveMem(gated, prog, s, i);
    MoveArch(gated, prog, s, i);
    LoadsStayOnPath(prog, s, i);
  }

  lemma StraightEx(gated: bool, prog: Program, s: State, i: In)
    requires Inv(prog, s) && Moves(s, i) && !ExRedirect(s, i) && !LoadUse(s) && s.ifId.valid
    ensures
      var t := Next(gated, prog, s, i);
      var q := t.idEx;
      && q.valid && q.pc == s.ifId.pc
      && q == Decoded(Fetch(prog, q.pc), q.pc, q.data1, q.data2)
      && Settled(t, q.rs1, q.data1) && Settled(t, q.rs2, q.data2)
      && !(t.exMem.valid && Feeds(t.exMem, q.rs1, q.rs2))
  {
    var w := s.ifId.instr;
    var l := Latch(s.exMem, BusWord(s, i), CsrData(s, i));
    ReadSound(s.rf, s.memWb, l, Rs1(w));
    ReadSound(s.rf, s.memWb, l, Rs2(w));
    hide Fetch, CsrRead, Add, Sub, InMem, SeqNext, Rs1, Rs2, Target, Operand1, Operand2, Latch, NextPc,
      NextCsr, NextRam, NextResponse, WellAligned, WriteBack, MemStall, TakeTrap, TakeMret, ControlUnit, ImmGen,
      DecodeAluOp, DecodeImmSel, ReadPort, Bypass, AluOut, Redirects, MemOk;
  }

  /** The ordinary cycle: every stage hands its instruction to the next. */
  lemma MoveStraight(gated: bool, prog: Program, s: State, i: In)
    requires Inv(prog, s) && Moves(s, i) && !ExRedirect(s, i) && !LoadUse(s)
    ensures
      var t := Next(gated, prog, s, i);
      && Abs(t).pc == ExPc(prog, s)
      && (WellAligned(Abs(t)) ==> Inv(prog, t))
  {
    hide Fetch, CsrRead, Add, Sub, Aligned, InMem, SeqNext, Rs1, Rs2, Target, Operand1, Operand2, ImmGen,
      NextMemWb, NextCsr, NextRam, NextResponse, Settled, WellAligned, WriteBack, MemStall, TakeTrap, TakeMret,
      BranchCond, ControlUnit, DecodeAluOp, DecodeImmSel, ReadPort, Decoded, AluOut;
    MoveArch(gated, prog, s, i);
    if s.idEx.valid { MoveMem(gated, prog, s, i); }
    if s.ifId.valid { StraightEx(gated, prog, s, i); }
  }

  // ---- One step of the simulation ---------------------------------------------------------------

  /** The request a waiting load has issued but not yet completed. */
  function Outstanding(s: State): seq<BusReq> {
    if s.waiting then [BusReq(false, s.exMem.alu, 0, 0)] else []
  }

  lemma TrafficStep(gated: bool, prog: Program, s: State, i: In)
    requires Inv(prog, s)
    ensures
      Outstanding(s) + Request(s, i) ==
      (if Leaves(s, i) then SeqRequests(Here(prog, s), Abs(s), SampleOf(s, i)) else []) +
      Outstanding(Next(gated, prog, s, i))
  {
    hide InMem, FrontOk, ExOk, MemExc, IrqPending, StoreLanes, ByteEnable, NextIdEx, NextIfId, NextPc, NextMemWb,
      NextCsr, NextRam, WellAligned, NextResponse;
    if s.exMem.valid {
      PlainMem(prog, s);
      if !MemExc(s.exMem) { IrqSampling(s, i); }
      assert s.exMem == Here(prog, s);
    }
  }

  /** Every cycle that does not drop an instruction either executes exactly one sequential
      instruction, with the same event, or leaves the sequential state alone. */
  lemma StepSimulates(gated: bool, prog: Program, s: State, i: In)
    requires Inv(prog, s) && !Loses(gated, s, i)
    ensures
      var t := Next(gated, prog, s, i);
      && Inv(prog, t)
      && (Leaves(s, i) ==>
            Abs(t) == IsaStep(prog, Abs(s), SampleOf(s, i)) &&
            EventOf(s, i) == IsaEvent(prog, Abs(s), SampleOf(s, i)))
      && (!Leaves(s, i) ==> Abs(t) == Abs(s))
      && Outstanding(s) + Request(s, i) ==
         (if Leaves(s, i) then IsaRequests(prog, Abs(s), SampleOf(s, i)) else []) + Outstanding(t)
  {
    TrafficStep(gated, prog, s, i);
    SequentialIsIsa(prog, Abs(s), SampleOf(s, i));
    StepKeepsAligned(prog, Abs(s), SampleOf(s, i));
    if Leaves(s, i) { EventAgrees(prog, s, i); }
    if MemStall(s, i) {
      StallKeeps(gated, prog, s, i);
    } else if CsrRedirect(s, i) {
      RedirectSteps(gated, prog, s, i);
    } else {
      MoveArch(gated, prog, s, i);
      if ExRedirect(s, i) {
        MoveTaken(gated, prog, s, i);
      } else if LoadUse(s) {
        MoveLoadUse(gated, prog, s, i);
      } else {
        MoveStraight(gated, prog, s, i);
      }
    }
    hide IsaStep, IsaEvent, IsaRequests, SeqStep, SeqEvent, SeqRequests, FrontOk, ExOk, MemOk, Next, MemStall,
      CsrRedirect, LoadUse, ExRedirect, WellAligned, EventOf, InMem, SeqNext;
  }
}
