/** The sequential machine: RV32I with machine-mode traps, one instruction per step.
    Instructions are given their meaning opcode by opcode, without the control-line encoding of the
    hardware; interrupts are sampled between instructions. */
module Isa {
  import opened Words
  import opened Datapath
  import opened Csr

  datatype Arch = Arch(pc: Word, regs: Regs, csr: CsrState, ram: Ram)

  /** What one step takes from outside: the live CSR inputs (interrupt lines as sampled at the
      instruction boundary) and the word a memory-mapped peripheral answers with. */
  datatype Sample = Sample(live: Live, mmio: Word)

  datatype Outcome =
    | Trapped(isIrq: bool, cause: Word, tval: Word)
    | Returned
    | Retired(write: Option<(Word, Word)>)

  /** One instruction leaving the machine: its address and what it did to the registers. */
  datatype Event = Event(pc: Word, outcome: Outcome)

  datatype BusReq = BusReq(we: bool, addr: Word, wdata: Word, byteEn: Word)

  // ---- Data-side address map ---------------------------------------------------

  function Slave(addr: Word): Word { addr / 0x1000 % 16 }
  predicate Mapped(addr: Word) { addr < 0x1_0000 && Slave(addr) < 7 }
  predicate InRam(addr: Word) { Mapped(addr) && Slave(addr) == 1 }
  function RamIndex(addr: Word): Word { addr / 4 % 0x400 }

  /** The word the data bus returns: RAM contents, a peripheral's answer, or 0 when unmapped. */
  function BusRead(ram: Ram, mmio: Word, addr: Word): Word {
    if InRam(addr) then RamRead(ram, RamIndex(addr)) else if Mapped(addr) then mmio else 0
  }

  function RamWrite(ram: Ram, addr: Word, data: Word, be: Word): Ram {
    if InRam(addr)
    then ram[RamIndex(addr) := WriteLanes(RamRead(ram, RamIndex(addr)), data, be)]
    else ram
  }

  // ---- Instruction meaning -------------------------------------------------------

  datatype Effect =
    | NoEffect
    | SetReg(rd: Word, v: Word)
    | Load(rd: Word, addr: Word, size: Word, unsigned: bool)
    | Store(addr: Word, size: Word, data: Word)
    | CsrOp(rd: Word, csr: Word, op: Word, src: Word)

  datatype Action =
    | Raise(cause: Word, tval: Word)
    | Return
    | Continue(next: Word, effect: Effect)

  /** The number below bit weight `m`, sign-extended from that bit. */
  function Sx(x: int, m: int): Word
    requires m > 0
  {
    Wrap(x % m - x / m % 2 * m)
  }

  function ImmI(w: Word): Word { Sx(w / 0x10_0000, 0x800) }
  function ImmS(w: Word): Word { Sx(w / 0x200_0000 * 0x20 + w / 0x80 % 0x20, 0x800) }
  function ImmB(w: Word): Word {
    Sx(w / 0x8000_0000 * 0x1000 + w / 0x80 % 2 * 0x800 + w / 0x200_0000 % 0x40 * 0x20 +
       w / 0x100 % 0x10 * 2, 0x1000)
  }
  function ImmU(w: Word): Word { w - w % 0x1000 }
  function ImmJ(w: Word): Word {
    Sx(w / 0x8000_0000 * 0x10_0000 + w / 0x1000 % 0x100 * 0x1000 + w / 0x10_0000 % 2 * 0x800 +
       w / 0x20_0000 % 0x400 * 2, 0x10_0000)
  }

  /** Register-register and register-immediate arithmetic. Only bit 30 is looked at where the
      standard asks for all of funct7. */
  function Arith(f3: Word, alt: bool, a: Word, b: Word): Word {
    if f3 == 0 then (if alt then Sub(a, b) else Add(a, b))
    else if f3 == 1 then ShiftLeft(a, b % 32)
    else if f3 == 2 then (if SignedLess(a, b) then 1 else 0)
    else if f3 == 3 then (if a < b then 1 else 0)
    else if f3 == 4 then Xor(a, b)
    else if f3 == 5 then (if alt then ShiftRightArith(a, b % 32) else ShiftRight(a, b % 32))
    else if f3 == 6 then Or(a, b)
    else And(a, b)
  }

  /** A control transfer to a target that is not word aligned raises instead. */
  function Jump(target: Word, effect: Effect): Action {
    if Aligned(target) then Continue(target, effect) else Raise(EXC_INSTR_MISALIGN, target)
  }

  /** The meaning of instruction `w` at `pc` when its source registers hold `a` and `b`. */
  function Meaning(w: Word, pc: Word, a: Word, b: Word): Action {
    var op := Opcode(w);
    var f3 := Funct3(w);
    var rd := Rd(w);
    if op == OP_OP then Continue(Add(pc, 4), SetReg(rd, Arith(f3, Bit(w, 0x4000_0000), a, b)))
    else if op == OP_OPIMM then
      Continue(Add(pc, 4), SetReg(rd, Arith(f3, f3 == 5 && Bit(w, 0x4000_0000), a, ImmI(w))))
    else if op == OP_LOAD then
      var addr := Add(a, ImmI(w));
      if AlignOk(addr, f3 % 4) then Continue(Add(pc, 4), Load(rd, addr, f3 % 4, Bit(f3, 4)))
      else Raise(EXC_LOAD_MISALIGN, addr)
    else if op == OP_STORE then
      var addr := Add(a, ImmS(w));
      if AlignOk(addr, f3 % 4) then Continue(Add(pc, 4), Store(addr, f3 % 4, b))
      else Raise(EXC_STORE_MISALIGN, addr)
    else if op == OP_BRANCH then
      if BranchCond(f3, a, b) then Jump(Add(pc, ImmB(w)), NoEffect) else Continue(Add(pc, 4), NoEffect)
    else if op == OP_JAL then Jump(Add(pc, ImmJ(w)), SetReg(rd, Add(pc, 4)))
    else if op == OP_JALR then Jump(ClearBit0(Add(a, ImmI(w))), SetReg(rd, Add(pc, 4)))
    else if op == OP_LUI then Continue(Add(pc, 4), SetReg(rd, ImmU(w)))
    else if op == OP_AUIPC then Continue(Add(pc, 4), SetReg(rd, Add(pc, ImmU(w))))
    else if op == OP_SYSTEM && f3 == 0 then
      if Imm12(w) == 0x000 then Raise(EXC_ECALL_M, 0)
      else if Imm12(w) == 0x001 then Raise(EXC_BREAKPOINT, 0)
      else if Imm12(w) == 0x302 then Return
      else Raise(EXC_ILLEGAL, w)
    else if op == OP_SYSTEM && f3 != 4 then
      Continue(Add(pc, 4), CsrOp(rd, Imm12(w), f3, if Bit(f3, 4) then Rs1(w) else a))
    else Raise(EXC_ILLEGAL, w)
  }

  function Act(prog: Program, a: Arch): Action {
    var w := Fetch(prog, a.pc);
    Meaning(w, a.pc, Reg(a.regs, Rs1(w)), Reg(a.regs, Rs2(w)))
  }

  // ---- One step --------------------------------------------------------------------

  /** Save the context exactly and go to the trap vector. */
  function Trap(a: Arch, isIrq: bool, cause: Word, tval: Word): Arch {
    a.(pc := a.csr.mtvec, csr := TrapEntry(a.csr, isIrq, cause, a.pc, tval).(mepc := a.pc))
  }

  function SetRd(regs: Regs, rd: Word, v: Word): Regs {
    if rd != 0 then regs[rd := v] else regs
  }

  function Written(rd: Word, v: Word): Option<(Word, Word)> {
    if rd != 0 then Some((rd, v)) else None
  }

  function Loaded(a: Arch, n: Sample, e: Effect): Word
    requires e.Load?
  {
    LoadExtract(e.addr, e.size, e.unsigned, BusRead(a.ram, n.mmio, e.addr))
  }

  function Apply(a: Arch, n: Sample, next: Word, e: Effect): Arch {
    var b := a.(pc := next);
    match e
    case NoEffect => b
    case SetReg(rd, v) => b.(regs := SetRd(a.regs, rd, v))
    case Load(rd, _, _, _) => b.(regs := SetRd(a.regs, rd, Loaded(a, n, e)))
    case Store(addr, size, data) =>
      b.(ram := RamWrite(a.ram, addr, StoreLanes(addr, size, data), ByteEnable(addr, size)))
    case CsrOp(rd, csr, op, src) =>
      b.(regs := SetRd(a.regs, rd, CsrRead(a.csr, n.live, csr)),
         csr := CsrModify(a.csr, n.live, csr, op, src))
  }

  function Observed(a: Arch, n: Sample, e: Effect): Option<(Word, Word)> {
    match e
    case SetReg(rd, v) => Written(rd, v)
    case Load(rd, _, _, _) => Written(rd, Loaded(a, n, e))
    case CsrOp(rd, csr, _, _) => Written(rd, CsrRead(a.csr, n.live, csr))
    case _ => None
  }

  /** Synchronous exceptions first, then interrupts, then the instruction itself. */
  function IsaStep(prog: Program, a: Arch, n: Sample): Arch {
    match Act(prog, a)
    case Raise(cause, tval) => Trap(a, false, cause, tval)
    case Return =>
      if IrqPending(a.csr, n.live) then Trap(a, true, IrqCode(a.csr, n.live), 0)
      else a.(pc := a.csr.mepc, csr := TrapReturn(a.csr))
    case Continue(next, effect) =>
      if IrqPending(a.csr, n.live) then Trap(a, true, IrqCode(a.csr, n.live), 0)
      else Apply(a, n, next, effect)
  }

  function IsaEvent(prog: Program, a: Arch, n: Sample): Event {
    match Act(prog, a)
    case Raise(cause, tval) => Event(a.pc, Trapped(false, cause, tval))
    case Return =>
      if IrqPending(a.csr, n.live) then Event(a.pc, Trapped(true, IrqCode(a.csr, n.live), 0))
      else Event(a.pc, Returned)
    case Continue(_, effect) =>
      if IrqPending(a.csr, n.live) then Event(a.pc, Trapped(true, IrqCode(a.csr, n.live), 0))
      else Event(a.pc, Retired(Observed(a, n, effect)))
  }

  /** The bus requests of one step: one for a load or store that is not trapped, else none. */
  function IsaRequests(prog: Program, a: Arch, n: Sample): seq<BusReq> {
    var act := Act(prog, a);
    if !act.Continue? || IrqPending(a.csr, n.live) then []
    else match act.effect
      case Load(_, addr, _, _) => [BusReq(false, addr, 0, 0)]
      case Store(addr, size, data) =>
        [BusReq(true, addr, StoreLanes(addr, size, data), ByteEnable(addr, size))]
      case _ => []
  }

  // ---- Runs --------------------------------------------------------------------------

  function IsaRun(prog: Program, a: Arch, ns: seq<Sample>): Arch {
    if ns == [] then a
    else IsaStep(prog, IsaRun(prog, a, ns[..|ns| - 1]), ns[|ns| - 1])
  }

  function IsaEvents(prog: Program, a: Arch, ns: seq<Sample>): (es: seq<Event>)
    ensures |es| == |ns|
  {
    if ns == [] then []
    else
      var k := |ns| - 1;
      IsaEvents(prog, a, ns[..k]) + [IsaEvent(prog, IsaRun(prog, a, ns[..k]), ns[k])]
  }

  function IsaTraffic(prog: Program, a: Arch, ns: seq<Sample>): seq<BusReq> {
    if ns == [] then []
    else
      var k := |ns| - 1;
      IsaTraffic(prog, a, ns[..k]) + IsaRequests(prog, IsaRun(prog, a, ns[..k]), ns[k])
  }

  lemma RunSnoc(prog: Program, a: Arch, ns: seq<Sample>, n: Sample)
    ensures IsaRun(prog, a, ns + [n]) == IsaStep(prog, IsaRun(prog, a, ns), n)
    ensures IsaEvents(prog, a, ns + [n]) == IsaEvents(prog, a, ns) + [IsaEvent(prog, IsaRun(prog, a, ns), n)]
    ensures IsaTraffic(prog, a, ns + [n]) == IsaTraffic(prog, a, ns) + IsaRequests(prog, IsaRun(prog, a, ns), n)
  {
    hide IsaStep, IsaEvent, IsaRequests;
    assert (ns + [n])[..|ns|] == ns;
  }

  predicate WellAligned(a: Arch) {
    Aligned(a.pc) && Aligned(a.csr.mtvec) && Aligned(a.csr.mepc)
  }

  lemma AlignedArithmetic(w: Word)
    ensures Aligned(w) ==> Aligned(Add(w, 4)) && AlignDown(w) == w
    ensures Aligned(AlignDown(w))
  {
  }

  lemma MeaningAligned(w: Word, pc: Word, a: Word, b: Word)
    requires Aligned(pc)
    ensures Meaning(w, pc, a, b).Continue? ==> Aligned(Meaning(w, pc, a, b).next)
  {
    hide Arith, ImmI, ImmB, ImmJ, ImmS, ImmU, BranchCond, AlignOk, Aligned, Opcode, Funct3, Rd, Rs1, Imm12;
    AlignedArithmetic(pc);
  }

  lemma CsrWriteAligned(c: CsrState, addr: Word, v: Word)
    requires Aligned(c.mtvec) && Aligned(c.mepc)
    ensures Aligned(CsrWrite(c, addr, v).mtvec) && Aligned(CsrWrite(c, addr, v).mepc)
  {
    hide Aligned, Bit;
    AlignedArithmetic(v);
  }

  lemma ApplyAligned(a: Arch, n: Sample, next: Word, e: Effect)
    requires WellAligned(a) && Aligned(next)
    ensures WellAligned(Apply(a, n, next, e))
  {
    hide Aligned, CsrRead, NewValue, CsrWrite, LoadExtract, BusRead, RamWrite, StoreLanes, ByteEnable;
    match e
    case CsrOp(_, csr, op, src) =>
      CsrWriteAligned(a.csr, csr, NewValue(op, CsrRead(a.csr, n.live, csr), src));
    case _ =>
  }

  lemma ActAligned(prog: Program, a: Arch)
    requires Aligned(a.pc)
    ensures Act(prog, a).Continue? ==> Aligned(Act(prog, a).next)
  {
    hide Aligned, Fetch, Meaning, Rs1, Rs2, Reg;
    var w := Fetch(prog, a.pc);
    MeaningAligned(w, a.pc, Reg(a.regs, Rs1(w)), Reg(a.regs, Rs2(w)));
  }

  lemma TrapAligned(a: Arch, isIrq: bool, cause: Word, tval: Word)
    requires WellAligned(a)
    ensures WellAligned(Trap(a, isIrq, cause, tval))
  {
    hide Aligned;
  }

  /** Committed addresses, the trap vector and the return address stay word aligned. */
  lemma StepKeepsAligned(prog: Program, a: Arch, n: Sample)
    requires WellAligned(a)
    ensures WellAligned(IsaStep(prog, a, n))
  {
    hide Aligned, Act, Apply, IrqPending, IrqCode, Trap;
    var act := Act(prog, a);
    TrapAligned(a, true, IrqCode(a.csr, n.live), 0);
    if act.Raise? {
      TrapAligned(a, false, act.cause, act.tval);
    } else if act.Continue? {
      ActAligned(prog, a);
      ApplyAligned(a, n, act.next, act.effect);
    }
  }
}
