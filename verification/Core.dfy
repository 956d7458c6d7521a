/** The clocked modules as objects: each updates its registers in place on a clock edge, and is
    proved to reach the state the next-state functions describe. */
module Core {
  import opened Words
  import opened Datapath
  import opened Csr
  import opened Isa
  import opened Pipeline
  import opened Refinement

  class IfIdReg {
    var q: IfId

    constructor ()
      ensures q == NO_IFID
    {
      q := NO_IFID;
    }

    method Clock(stall: bool, flush: bool, d: IfId)
      modifies this
      ensures q == IfIdNext(old(q), stall, flush, d)
    {
      if flush {
        q := q.(instr := NOP_INSTR);
        q := q.(valid := false);
      } else if !stall {
        q := d;
      }
    }
  }

  class IdExReg {
    var q: IdEx

    constructor ()
      ensures q == NO_IDEX
    {
      q := NO_IDEX;
    }

    method Clock(stall: bool, flush: bool, d: IdEx)
      modifies this
      ensures q == IdExNext(old(q), stall, flush, d)
    {
      if flush {
        q := q.(ctrl := NO_CTRL);
        q := q.(valid := false);
        q := q.(hasExc := false);
        q := q.(isMret := false);
      } else if !stall {
        q := d;
      }
    }
  }

  class ExMemReg {
    var q: ExMem

    constructor ()
      ensures q == NO_EXMEM
    {
      q := NO_EXMEM;
    }

    method Clock(stall: bool, flush: bool, d: ExMem)
      modifies this
      ensures q == ExMemNext(old(q), stall, flush, d)
    {
      if flush {
        q := NO_EXMEM;
      } else if !stall {
        q := d;
      }
    }
  }

  class MemWbReg {
    var q: MemWb

    constructor ()
      ensures q == NO_MEMWB
    {
      q := NO_MEMWB;
    }

    method Clock(stall: bool, flush: bool, d: MemWb)
      modifies this
      ensures q == MemWbNext(old(q), stall, flush, d)
    {
      if flush {
        q := NO_MEMWB;
      } else if !stall {
        q := d;
      }
    }
  }

  class RegFile {
    var regs: Regs

    constructor (powerUp: Regs)
      ensures regs == powerUp
    {
      regs := powerUp;
    }

    /** Read port with the write-first bypass. */
    function Read(w: MemWb, r: Word): (v: Word)
      reads this
      ensures v == Reg(WriteBack(regs, w), r)
    {
      ReadPort(regs, w, r)
    }

    method Clock(w: MemWb)
      modifies this
      ensures regs == WriteBack(old(regs), w)
    {
      if WbWrites(w) && w.rd != 0 {
        regs := regs[w.rd := WbData(w)];
      }
    }
  }

  class CsrFile {
    var mie: bool
    var mpie: bool
    var mtie: bool
    var meie: bool
    var mtvec: Word
    var mepc: Word
    var mcause: Word
    var mtval: Word
    var mscratch: Word
    var cycle: nat
    var instret: nat

    function View(): CsrState
      reads this
    {
      CsrState(mie, mpie, mtie, meie, mtvec, mepc, mcause, mtval, mscratch)
    }

    constructor ()
      ensures View() == RESET_CSR && cycle == 0 && instret == 0
    {
      mie, mpie, mtie, meie := false, false, false, false;
      mtvec, mepc, mcause, mtval, mscratch := 0, 0, 0, 0, 0;
      cycle, instret := 0, 0;
    }

    method EnterTrap(isIrq: bool, cause: Word, epc: Word, tval: Word)
      modifies this
      ensures View() == TrapEntry(old(View()), isIrq, cause, epc, tval)
      ensures cycle == old(cycle) && instret == old(instret)
    {
      mepc := AlignDown(epc);
      mcause := if isIrq then Add(0x8000_0000, cause) else cause;
      mtval := if isIrq then 0 else tval;
      mpie := mie;
      mie := false;
    }

    method Write(addr: Word, v: Word)
      modifies this
      ensures View() == CsrWrite(old(View()), addr, v)
      ensures cycle == old(cycle) && instret == old(instret)
    {
      if addr == CSR_MSTATUS {
        mie := Bit(v, 8);
        mpie := Bit(v, 0x80);
      } else if addr == CSR_MIE {
        mtie := Bit(v, 0x80);
        meie := Bit(v, 0x800);
      } else if addr == CSR_MTVEC {
        mtvec := AlignDown(v);
      } else if addr == CSR_MEPC {
        mepc := AlignDown(v);
      } else if addr == CSR_MCAUSE {
        mcause := v;
      } else if addr == CSR_MTVAL {
        mtval := v;
      } else if addr == CSR_MSCRATCH {
        mscratch := v;
      }
    }

    method Modify(live: Live, addr: Word, op: Word, src: Word)
      modifies this
      ensures View() == CsrModify(old(View()), live, addr, op, src)
      ensures cycle == old(cycle) && instret == old(instret)
    {
      hide CsrRead, NewValue, CsrWrite, DoesWrite;
      if DoesWrite(op, src) {
        Write(addr, NewValue(op, CsrRead(View(), live, addr), src));
      }
    }

    method ClockCounters(retire: bool)
      modifies `cycle, `instret
      ensures cycle == (old(cycle) + 1) % (W32 * W32)
      ensures instret == if retire then (old(instret) + 1) % (W32 * W32) else old(instret)
    {
      cycle := (cycle + 1) % (W32 * W32);
      if retire { instret := (instret + 1) % (W32 * W32); }
    }

    /** One clock edge: trap entry, else MRET, else the CSR write; the counters always run. */
    method Clock(trap: bool, isIrq: bool, cause: Word, epc: Word, tval: Word, mret: bool,
                 csrEn: bool, live: Live, addr: Word, op: Word, src: Word, retire: bool)
      modifies this
      ensures View() ==
              if trap then TrapEntry(old(View()), isIrq, cause, epc, tval)
              else if mret then TrapReturn(old(View()))
              else if csrEn then CsrModify(old(View()), live, addr, op, src)
              else old(View())
      ensures cycle == (old(cycle) + 1) % (W32 * W32)
      ensures instret == if retire then (old(instret) + 1) % (W32 * W32) else old(instret)
    {
      hide CsrModify, TrapEntry;
      ClockCounters(retire);
      if trap {
        EnterTrap(isIrq, cause, epc, tval);
      } else if mret {
        mie := mpie;
        mpie := true;
      } else if csrEn {
        Modify(live, addr, op, src);
      }
    }
  }

  class PipelinedCore {
    var pc: Word
    var waiting: bool
    var pcIf: Word
    var pc4If: Word
    var ifValid: bool
    var fetched: Word
    var busError: bool
    var ram: Ram
    var rdata: Word
    var response: Response
    const ifId: IfIdReg
    const idEx: IdExReg
    const exMem: ExMemReg
    const memWb: MemWbReg
    const regFile: RegFile
    const csr: CsrFile

    function View(): State
      reads this, ifId, idEx, exMem, memWb, regFile, csr
    {
      State(pc, waiting, pcIf, pc4If, ifValid, fetched, busError,
            ifId.q, idEx.q, exMem.q, memWb.q, regFile.regs, csr.View(), csr.cycle, csr.instret,
            ram, rdata, response)
    }

    constructor (rf: Regs, memory: Ram, word: Word)
      ensures View() == AfterReset(rf, memory, word)
      ensures fresh(ifId) && fresh(idEx) && fresh(exMem) && fresh(memWb) && fresh(regFile) && fresh(csr)
    {
      pc, waiting := RESET_PC, false;
      pcIf, pc4If, ifValid, fetched := RESET_PC, Add(RESET_PC, 4), false, word;
      busError, ram, rdata, response := false, memory, 0, NoResponse;
      ifId := new IfIdReg();
      idEx := new IdExReg();
      exMem := new ExMemReg();
      memWb := new MemWbReg();
      regFile := new RegFile(rf);
      csr := new CsrFile();
    }

    /** The fetch stage: PC, instruction memory output register and the IF buffer. */
    method ClockFetch(prog: Program, s: State, i: In)
      requires s.pc == pc && s.pcIf == pcIf && s.pc4If == pc4If && s.ifValid == ifValid && s.fetched == fetched
      modifies this
      ensures pc == NextPc(s, i)
      ensures
        var (held, killed) := (FrontStall(s, i), FetchKilled(s, i));
        && pcIf == (if killed || held then s.pcIf else s.pc)
        && pc4If == (if killed || held then s.pc4If else Add(s.pc, 4))
        && ifValid == (!killed && (held ==> s.ifValid))
        && fetched == (if held then s.fetched else Fetch(prog, s.pc))
      ensures unchanged(`waiting) && unchanged(`busError) && unchanged(`ram) && unchanged(`rdata)
      ensures unchanged(`response)
    {
      hide MemStall, CsrRedirect, LoadUse, ExRedirect, Fetch, Add, Operand1, TakeTrap, TakeMret, Target;
      if !FrontStall(s, i) { fetched := Fetch(prog, pc); }
      if FetchKilled(s, i) {
        ifValid := false;
      } else if !FrontStall(s, i) {
        pcIf, pc4If, ifValid := pc, Add(pc, 4), true;
      }
      if !FrontStall(s, i) {
        if TakeTrap(s, i) {
          pc := s.csr.mtvec;
        } else if TakeMret(s, i) {
          pc := s.csr.mepc;
        } else if ExRedirect(s, i) {
          pc := Target(s.idEx, Operand1(s, i));
        } else {
          pc := Add(pc, 4);
        }
      }
    }

    /** The data bus: wait state and sticky error. */
    method ClockWait(s: State, i: In)
      requires s.waiting == waiting && s.busError == busError
      modifies `waiting, `busError
      ensures waiting == NextWaiting(s, i) && busError == (s.busError || (Ready(s) && s.response.FromUnmapped?))
    {
      hide Ready, Access;
      if Access(s, i) && !s.waiting {
        waiting := true;
      } else if s.waiting && Ready(s) {
        waiting := false;
      }
      if Ready(s) && s.response.FromUnmapped? { busError := true; }
    }

    /** The slaves' side of the bus: the response of the next cycle, and the data RAM. */
    method ClockSlaves(s: State, i: In)
      requires s.ram == ram
      modifies `rdata, `ram, `response
      ensures ram == NextRam(s, i) && response == NextResponse(s, i)
      ensures rdata == RamRead(s.ram, RamIndex(s.exMem.alu))
    {
      hide Ready, RamRead, RamWrite, Request, Access, StorePulse, Mapped, Slave, MemWdata, MemByteEn, RamIndex;
      rdata := RamRead(ram, RamIndex(s.exMem.alu));
      if StorePulse(s, i) {
        ram := RamWrite(ram, s.exMem.alu, MemWdata(s.exMem), MemByteEn(s.exMem));
      }
      if Request(s, i) == [] {
        response := NoResponse;
      } else if Mapped(s.exMem.alu) {
        response := FromSlave(Slave(s.exMem.alu));
      } else {
        response := FromUnmapped;
      }
    }

    method ClockBus(s: State, i: In)
      requires s.waiting == waiting && s.busError == busError && s.ram == ram
      modifies this
      ensures waiting == NextWaiting(s, i) && ram == NextRam(s, i) && response == NextResponse(s, i)
      ensures rdata == RamRead(s.ram, RamIndex(s.exMem.alu))
      ensures busError == (s.busError || (Ready(s) && s.response.FromUnmapped?))
      ensures unchanged(`pc) && unchanged(`pcIf) && unchanged(`pc4If) && unchanged(`ifValid) && unchanged(`fetched)
    {
      hide NextWaiting, NextRam, NextResponse, Ready, RamRead, RamIndex;
      ClockWait(s, i);
      ClockSlaves(s, i);
    }

    /** The four pipeline registers, the register file and the CSR file. */
    method ClockBanks(gated: bool, s: State, i: In)
      requires s == View()
      modifies ifId, idEx, exMem, memWb, regFile, csr
      ensures ifId.q == NextIfId(s, i) && idEx.q == NextIdEx(gated, s, i) && exMem.q == NextExMem(s, i)
      ensures memWb.q == NextMemWb(s, i) && regFile.regs == WriteBack(s.rf, s.memWb)
      ensures csr.View() == NextCsr(s, i) && csr.cycle == (s.cycle + 1) % (W32 * W32)
      ensures csr.instret == if s.memWb.valid then (s.instret + 1) % (W32 * W32) else s.instret
    {
      hide MemStall, CsrRedirect, LoadUse, ExRedirect, DecodeStage, ExStage, Latch, WriteBack, BusWord, CsrData,
        Operand1, Operand2, TakeTrap, TakeMret, IfIdNext, IdExNext, ExMemNext, MemWbNext, FetchKilled, CsrEnable,
        MemExc, TakeIrq, MemCause, MemTval, MemPc, IrqCode, TrapEntry, CsrModify, TrapReturn, Rs1, Rs2, ReadPort,
        Bubble;
      var sync := s.exMem.valid && MemExc(s.exMem);
      var r1, r2 := regFile.Read(s.memWb, Rs1(s.ifId.instr)), regFile.Read(s.memWb, Rs2(s.ifId.instr));
      assert r1 == ReadPort(s.rf, s.memWb, Rs1(s.ifId.instr));
      ifId.Clock(LoadUse(s) || MemStall(s, i), FetchKilled(s, i), IfId(s.pcIf, s.pc4If, s.fetched, s.ifValid));
      idEx.Clock(MemStall(s, i), FetchKilled(s, i) || Bubble(gated, s, i), DecodeStage(s.ifId, r1, r2));
      exMem.Clock(MemStall(s, i), CsrRedirect(s, i), ExStage(s.idEx, Operand1(s, i), Operand2(s, i)));
      memWb.Clock(MemStall(s, i), TakeTrap(s, i), Latch(s.exMem, BusWord(s, i), CsrData(s, i)));
      regFile.Clock(s.memWb);
      csr.Clock(TakeTrap(s, i), TakeIrq(s, i),
                if sync then MemCause(s.exMem) else IrqCode(s.csr, LiveOf(s, i)),
                MemPc(s.exMem), if sync then MemTval(s.exMem) else 0,
                TakeMret(s, i), CsrEnable(s, i), LiveOf(s, i),
                s.exMem.csrAddr, s.exMem.funct3, s.exMem.csrSrc, s.memWb.valid);
    }

    /** One clock edge. All wires are evaluated on the old registers before any register changes. */
    method Edge(gated: bool, prog: Program, i: In)
      modifies this, ifId, idEx, exMem, memWb, regFile, csr
      ensures View() == Next(gated, prog, old(View()), i)
    {
      hide MemStall, CsrRedirect, LoadUse, ExRedirect, NextPc, NextIfId, NextIdEx, NextExMem, NextMemWb, NextCsr,
        NextRam, NextResponse, WriteBack, NextWaiting, Ready, RamRead, Fetch, Add, FrontStall, FetchKilled;
      var s := View();
      ClockBanks(gated, s, i);
      ClockFetch(prog, s, i);
      ClockBus(s, i);
    }

    /** A clock edge, and what the instruction leaving MEM in that cycle did, if one leaves. */
    method Clock(gated: bool, prog: Program, i: In) returns (left: Option<Event>)
      modifies this, ifId, idEx, exMem, memWb, regFile, csr
      ensures View() == Next(gated, prog, old(View()), i)
      ensures left == if Leaves(old(View()), i) then Some(EventOf(old(View()), i)) else None
      ensures Inv(prog, old(View())) && !Loses(gated, old(View()), i) ==>
                var (a, n) := (Abs(old(View())), SampleOf(old(View()), i));
                && Inv(prog, View())
                && (left == None ==> Abs(View()) == a)
                && (left != None ==> Abs(View()) == IsaStep(prog, a, n) && left == Some(IsaEvent(prog, a, n)))
    {
      hide Inv, Abs, Loses, SampleOf, IsaStep, IsaEvent, Leaves, EventOf, Next;
      var s := View();
      left := if Leaves(s, i) then Some(EventOf(s, i)) else None;
      Edge(gated, prog, i);
      if Inv(prog, s) && !Loses(gated, s, i) { StepSimulates(gated, prog, s, i); }
    }
  }
}
