/** The five-stage pipeline as a state machine: its registers, the wires computed from them in one
    cycle, and the state after the next clock edge. */
module Pipeline {
  import opened Words
  import opened Datapath
  import opened Csr
  import opened Isa

  // ---- Pipeline registers --------------------------------------------------------

  datatype IfId = IfId(pc: Word, pc4: Word, instr: Word, valid: bool)

  datatype IdEx = IdEx(
    pc: Word, pc4: Word, data1: Word, data2: Word, imm: Word,
    rs1: Word, rs2: Word, rd: Word, funct3: Word, aluOp: AluOp, ctrl: Ctrl, valid: bool,
    hasExc: bool, cause: Word, tval: Word, isMret: bool, csrAddr: Word)

  datatype ExMem = ExMem(
    alu: Word, storeData: Word, pc4: Word, rd: Word, funct3: Word, ctrl: Ctrl, valid: bool,
    hasExc: bool, cause: Word, tval: Word, isMret: bool, csrAddr: Word, csrSrc: Word)

  datatype MemWb = MemWb(
    alu: Word, loadData: Word, pc4: Word, csrData: Word, rd: Word, ctrl: Ctrl, valid: bool)

  const NO_IFID := IfId(0, 0, NOP_INSTR, false)
  const NO_IDEX := IdEx(0, 0, 0, 0, 0, 0, 0, 0, 0, ADD, NO_CTRL, false, false, 0, 0, false, 0)
  const NO_EXMEM := ExMem(0, 0, 0, 0, 0, NO_CTRL, false, false, 0, 0, false, 0, 0)
  const NO_MEMWB := MemWb(0, 0, 0, 0, 0, NO_CTRL, false)

  /** A flush turns IF/ID into a NOP and leaves its addresses; flush beats stall. */
  function IfIdNext(q: IfId, stall: bool, flush: bool, d: IfId): IfId {
    if flush then q.(instr := NOP_INSTR, valid := false) else if stall then q else d
  }

  /** A flush clears the control word, the valid bit and the two trap triggers; flush beats stall. */
  function IdExNext(q: IdEx, stall: bool, flush: bool, d: IdEx): IdEx {
    if flush then q.(ctrl := NO_CTRL, valid := false, hasExc := false, isMret := false)
    else if stall then q else d
  }

  function ExMemNext(q: ExMem, stall: bool, flush: bool, d: ExMem): ExMem {
    if flush then NO_EXMEM else if stall then q else d
  }

  function MemWbNext(q: MemWb, stall: bool, flush: bool, d: MemWb): MemWb {
    if flush then NO_MEMWB else if stall then q else d
  }

  // ---- ID: decode ------------------------------------------------------------------

  function DecodeStage(f: IfId, data1: Word, data2: Word): IdEx {
    var w := f.instr;
    var c := ControlUnit(w);
    IdEx(f.pc, f.pc4, data1, data2, ImmGen(w, DecodeImmSel(w)),
         Rs1(w), Rs2(w), Rd(w), Funct3(w), DecodeAluOp(w), Gate(c.ctrl, f.valid), f.valid,
         (c.illegal || c.ecall || c.ebreak) && f.valid,
         if c.illegal then EXC_ILLEGAL else if c.ecall then EXC_ECALL_M
         else if c.ebreak then EXC_BREAKPOINT else 0,
         if c.illegal then w else 0,
         c.mret && f.valid, Imm12(w))
  }

  // ---- EX: operands in, EX/MEM contents out ------------------------------------------

  function AluOut(q: IdEx, v1: Word, v2: Word): Word {
    Alu(q.aluOp, if q.ctrl.srcA then q.pc else v1, if q.ctrl.srcB then q.imm else v2)
  }

  predicate Redirects(q: IdEx, v1: Word, v2: Word) {
    (q.ctrl.branch && BranchCond(q.funct3, v1, v2)) || q.ctrl.jump
  }

  function Target(q: IdEx, v1: Word): Word {
    if q.ctrl.jump && q.ctrl.srcB then ClearBit0(Add(v1, q.imm)) else Add(q.pc, q.imm)
  }

  function ExStage(q: IdEx, v1: Word, v2: Word): ExMem {
    var misaligned := Redirects(q, v1, v2) && !Aligned(Target(q, v1)) && q.valid;
    ExMem(AluOut(q, v1, v2), v2, q.pc4, q.rd, q.funct3, q.ctrl, q.valid,
          q.hasExc || misaligned,
          if q.hasExc then q.cause else EXC_INSTR_MISALIGN,
          if q.hasExc then q.tval else Target(q, v1),
          q.isMret, q.csrAddr,
          if Bit(q.funct3, 4) then q.rs1 else v1)
  }

  // ---- MEM: exception resolution and the values it produces ---------------------------

  predicate IsLoad(m: ExMem) { m.ctrl.memRead && m.valid }
  predicate IsStore(m: ExMem) { m.ctrl.memWrite && m.valid }

  predicate LsMisaligned(m: ExMem) {
    (m.ctrl.memRead || m.ctrl.memWrite) && !AlignOk(m.alu, m.ctrl.memSize) &&
    (IsLoad(m) || IsStore(m))
  }

  predicate MemExc(m: ExMem) { m.hasExc || LsMisaligned(m) }

  function MemCause(m: ExMem): Word {
    if m.hasExc then m.cause
    else if m.ctrl.memRead then EXC_LOAD_MISALIGN else EXC_STORE_MISALIGN
  }

  function MemTval(m: ExMem): Word { if m.hasExc then m.tval else m.alu }
  function MemPc(m: ExMem): Word { Sub(m.pc4, 4) }

  function MemByteEn(m: ExMem): Word {
    if m.ctrl.memWrite then ByteEnable(m.alu, m.ctrl.memSize) else 0
  }

  function MemWdata(m: ExMem): Word {
    if m.ctrl.memWrite then StoreLanes(m.alu, m.ctrl.memSize, m.storeData) else 0
  }

  function LoadData(m: ExMem, busWord: Word): Word {
    LoadExtract(m.alu, m.ctrl.memSize, m.ctrl.memUnsigned, busWord)
  }

  /** What MEM/WB latches for the instruction in MEM. */
  function Latch(m: ExMem, busWord: Word, csrData: Word): MemWb {
    MemWb(m.alu, LoadData(m, busWord), m.pc4, csrData, m.rd, m.ctrl, m.valid)
  }

  /** The writeback multiplexer. */
  function WbData(w: MemWb): Word {
    match w.ctrl.resultSrc
    case RES_ALU => w.alu
    case RES_MEM => w.loadData
    case RES_PC4 => w.pc4
    case RES_CSR => w.csrData
  }

  predicate WbWrites(w: MemWb) { w.ctrl.regWrite && w.valid }

  /** Register file contents once the instruction in WB has written. */
  function WriteBack(rf: Regs, w: MemWb): Regs {
    if WbWrites(w) && w.rd != 0 then rf[w.rd := WbData(w)] else rf
  }

  /** Register file read port with its write-first bypass. */
  function ReadPort(rf: Regs, w: MemWb, r: Word): Word {
    if r == 0 then 0
    else if WbWrites(w) && w.rd != 0 && r == w.rd then WbData(w)
    else Reg(rf, r)
  }

  // ---- Whole state --------------------------------------------------------------------

  /** Which bus slave answers in this cycle. */
  datatype Response = NoResponse | FromSlave(index: Word) | FromUnmapped

  datatype State = State(
    pc: Word, waiting: bool, pcIf: Word, pc4If: Word, ifValid: bool, fetched: Word,
    busError: bool,
    ifId: IfId, idEx: IdEx, exMem: ExMem, memWb: MemWb,
    rf: Regs, csr: CsrState, cycle: nat, instret: nat,
    ram: Ram, rdata: Word, response: Response)

  /** Inputs of one cycle: interrupt lines and what a peripheral would answer with. */
  datatype In = In(timer: bool, accel: bool, mmio: Word)

  /** The state while reset is held; memories, register file and fetch register keep what they had. */
  function AfterReset(rf: Regs, ram: Ram, fetched: Word): State {
    State(RESET_PC, false, RESET_PC, Add(RESET_PC, 4), false, fetched, false,
          NO_IFID, NO_IDEX, NO_EXMEM, NO_MEMWB, rf, RESET_CSR, 0, 0, ram, 0, NoResponse)
  }

  // ---- Wires ----------------------------------------------------------------------------

  function LiveOf(s: State, i: In): Live { Live(i.timer, i.accel, s.cycle, s.instret) }

  predicate Ready(s: State) {
    s.response.FromUnmapped? ||
    (Mapped(s.exMem.alu) && s.response == FromSlave(Slave(s.exMem.alu)))
  }

  function BusWord(s: State, i: In): Word {
    if InRam(s.exMem.alu) then s.rdata else if Mapped(s.exMem.alu) then i.mmio else 0
  }

  predicate TakeIrq(s: State, i: In) {
    IrqPending(s.csr, LiveOf(s, i)) && s.exMem.valid && !s.waiting && !MemExc(s.exMem)
  }

  predicate TakeTrap(s: State, i: In) {
    (s.exMem.valid && MemExc(s.exMem)) || TakeIrq(s, i)
  }

  predicate TakeMret(s: State, i: In) {
    s.exMem.isMret && s.exMem.valid && !MemExc(s.exMem) && !TakeIrq(s, i)
  }

  predicate CsrRedirect(s: State, i: In) { TakeTrap(s, i) || TakeMret(s, i) }
  predicate Access(s: State, i: In) { IsLoad(s.exMem) && !TakeTrap(s, i) }
  predicate MemStall(s: State, i: In) { Access(s, i) && !(s.waiting && Ready(s)) }

  predicate CsrEnable(s: State, i: In) {
    s.exMem.ctrl.csrWrite && s.exMem.valid && !TakeTrap(s, i) && !TakeMret(s, i)
  }

  function CsrData(s: State, i: In): Word { CsrRead(s.csr, LiveOf(s, i), s.exMem.csrAddr) }

  function MemForward(s: State, i: In): Word {
    match s.exMem.ctrl.resultSrc
    case RES_PC4 => s.exMem.pc4
    case RES_CSR => CsrData(s, i)
    case _ => s.exMem.alu
  }

  /** Forwarding: MEM before WB before the value latched in ID/EX; never from x0. */
  function Forward(s: State, i: In, r: Word, latched: Word): Word {
    if s.exMem.ctrl.regWrite && s.exMem.valid && s.exMem.rd != 0 && s.exMem.rd == r
    then MemForward(s, i)
    else Bypass(s.memWb, r, latched)
  }

  function Bypass(w: MemWb, r: Word, latched: Word): Word {
    if WbWrites(w) && w.rd != 0 && w.rd == r then WbData(w) else latched
  }

  function Operand1(s: State, i: In): Word { Forward(s, i, s.idEx.rs1, s.idEx.data1) }
  function Operand2(s: State, i: In): Word { Forward(s, i, s.idEx.rs2, s.idEx.data2) }

  predicate ExRedirect(s: State, i: In) { Redirects(s.idEx, Operand1(s, i), Operand2(s, i)) }

  /** Load-use: EX is a load whose destination one of the register fields in ID names. */
  predicate LoadUse(s: State) {
    s.idEx.ctrl.memRead && s.idEx.valid && s.idEx.rd != 0 &&
    (s.idEx.rd == Rs1(s.ifId.instr) || s.idEx.rd == Rs2(s.ifId.instr))
  }

  /** The bubble of a load-use stall. The design raises it whether or not MEM stalls;
      `gated` is the variant that withholds it while MEM stalls. */
  predicate Bubble(gated: bool, s: State, i: In) {
    LoadUse(s) && !(gated && MemStall(s, i))
  }

  predicate FrontStall(s: State, i: In) { (LoadUse(s) || MemStall(s, i)) && !CsrRedirect(s, i) }

  predicate LoadPulse(s: State, i: In) { Access(s, i) && !s.waiting }
  predicate StorePulse(s: State, i: In) { IsStore(s.exMem) && !TakeTrap(s, i) }

  function Request(s: State, i: In): seq<BusReq> {
    if LoadPulse(s, i) || StorePulse(s, i)
    then [BusReq(StorePulse(s, i), s.exMem.alu, MemWdata(s.exMem), MemByteEn(s.exMem))]
    else []
  }

  // ---- Next state -----------------------------------------------------------------------

  function NextPc(s: State, i: In): Word {
    if FrontStall(s, i) then s.pc
    else if TakeTrap(s, i) then s.csr.mtvec
    else if TakeMret(s, i) then s.csr.mepc
    else if ExRedirect(s, i) then Target(s.idEx, Operand1(s, i))
    else Add(s.pc, 4)
  }

  function NextWaiting(s: State, i: In): bool {
    if Access(s, i) && !s.waiting then true
    else if s.waiting && Ready(s) then false
    else s.waiting
  }

  predicate FetchKilled(s: State, i: In) {
    (ExRedirect(s, i) && !MemStall(s, i)) || CsrRedirect(s, i)
  }

  function NextIfId(s: State, i: In): IfId {
    IfIdNext(s.ifId, LoadUse(s) || MemStall(s, i), FetchKilled(s, i),
             IfId(s.pcIf, s.pc4If, s.fetched, s.ifValid))
  }

  function NextIdEx(gated: bool, s: State, i: In): IdEx {
    IdExNext(s.idEx, MemStall(s, i), FetchKilled(s, i) || Bubble(gated, s, i),
             DecodeStage(s.ifId, ReadPort(s.rf, s.memWb, Rs1(s.ifId.instr)),
                         ReadPort(s.rf, s.memWb, Rs2(s.ifId.instr))))
  }

  function NextExMem(s: State, i: In): ExMem {
    ExMemNext(s.exMem, MemStall(s, i), CsrRedirect(s, i),
              ExStage(s.idEx, Operand1(s, i), Operand2(s, i)))
  }

  function NextMemWb(s: State, i: In): MemWb {
    MemWbNext(s.memWb, MemStall(s, i), TakeTrap(s, i),
              Latch(s.exMem, BusWord(s, i), CsrData(s, i)))
  }

  function NextCsr(s: State, i: In): CsrState {
    if TakeTrap(s, i) then
      TrapEntry(s.csr, TakeIrq(s, i),
                if s.exMem.valid && MemExc(s.exMem) then MemCause(s.exMem)
                else IrqCode(s.csr, LiveOf(s, i)),
                MemPc(s.exMem),
                if s.exMem.valid && MemExc(s.exMem) then MemTval(s.exMem) else 0)
    else if TakeMret(s, i) then TrapReturn(s.csr)
    else if CsrEnable(s, i) then
      CsrModify(s.csr, LiveOf(s, i), s.exMem.csrAddr, s.exMem.funct3, s.exMem.csrSrc)
    else s.csr
  }

  function NextRam(s: State, i: In): Ram {
    if StorePulse(s, i) then RamWrite(s.ram, s.exMem.alu, MemWdata(s.exMem), MemByteEn(s.exMem))
    else s.ram
  }

  function NextResponse(s: State, i: In): Response {
    if Request(s, i) == [] then NoResponse
    else if Mapped(s.exMem.alu) then FromSlave(Slave(s.exMem.alu)) else FromUnmapped
  }

  function Next(gated: bool, prog: Program, s: State, i: In): State {
    var frontStall := FrontStall(s, i);
    var killed := FetchKilled(s, i);
    State(
      NextPc(s, i),
      NextWaiting(s, i),
      if killed || frontStall then s.pcIf else s.pc,
      if killed || frontStall then s.pc4If else Add(s.pc, 4),
      if killed then false else if frontStall then s.ifValid else true,
      if frontStall then s.fetched else Fetch(prog, s.pc),
      s.busError || (Ready(s) && s.response.FromUnmapped?),
      NextIfId(s, i),
      NextIdEx(gated, s, i),
      NextExMem(s, i),
      NextMemWb(s, i),
      WriteBack(s.rf, s.memWb),
      NextCsr(s, i),
      (s.cycle + 1) % (W32 * W32),
      if s.memWb.valid then (s.instret + 1) % (W32 * W32) else s.instret,
      NextRam(s, i),
      RamRead(s.ram, RamIndex(s.exMem.alu)),
      NextResponse(s, i))
  }

  // ---- What leaves MEM --------------------------------------------------------------------

  predicate Leaves(s: State, i: In) { s.exMem.valid && !MemStall(s, i) }

  /** The step input at this boundary. Interrupt lines are not sampled while a load waits. */
  function SampleOf(s: State, i: In): Sample {
    Sample(Live(i.timer && !s.waiting, i.accel && !s.waiting, s.cycle, s.instret), i.mmio)
  }

  /** What the instruction leaving MEM does, read off the wires of that cycle. */
  function EventOf(s: State, i: In): Event {
    if TakeTrap(s, i) then
      Event(MemPc(s.exMem),
            if MemExc(s.exMem) then Trapped(false, MemCause(s.exMem), MemTval(s.exMem))
            else Trapped(true, IrqCode(s.csr, LiveOf(s, i)), 0))
    else if TakeMret(s, i) then Event(MemPc(s.exMem), Returned)
    else
      var w := Latch(s.exMem, BusWord(s, i), CsrData(s, i));
      Event(MemPc(s.exMem), Retired(if WbWrites(w) then Written(w.rd, WbData(w)) else None))
  }
}
