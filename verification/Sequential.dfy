/** The datapath run one instruction at a time, and its agreement with the opcode-by-opcode machine. */
module Sequential {
  import opened Words
  import opened Arithmetic
  import opened Datapath
  import opened Csr
  import opened Isa
  import opened Pipeline

  /** ID/EX contents for the instruction word `w` at `pc`. */
  function Decoded(w: Word, pc: Word, v1: Word, v2: Word): IdEx {
    DecodeStage(IfId(pc, Add(pc, 4), w, true), v1, v2)
  }

  /** Where the instruction sends the fetch unit, traps aside. */
  function Successor(q: IdEx, v1: Word, v2: Word): Word {
    if Redirects(q, v1, v2) then Target(q, v1) else Add(q.pc, 4)
  }

  // ---- Immediates ----------------------------------------------------------------

  lemma ImmIAgrees(w: Word)
    ensures ImmGen(w, IMM_I) == ImmI(w)
  {
    DivDiv(w, 0x10_0000, 0x800);
    SignField(w / 0x10_0000);
  }

  /** A 12-bit field sign-extended. */
  lemma SignField(x: nat)
    requires x < 0x1000
    ensures Sx(x, 0x800) == x + (if x / 0x800 == 1 then 0xFFFF_F000 else 0)
  {
  }

  lemma ImmSAgrees(w: Word)
    ensures ImmGen(w, IMM_S) == ImmS(w)
  {
    var (hi, lo) := (w / 0x200_0000, w / 0x80 % 0x20);
    DivDiv(w, 0x200_0000, 0x40);
    DivDiv(hi * 0x20 + lo, 0x20, 0x40);
    DivModOf(hi, lo, 0x20);
    SignField(hi * 0x20 + lo);
    hide Sx;
  }

  lemma SignBranchField(h: int, rest: int)
    requires 0 <= h <= 1 && 0 <= rest < 0x1000
    ensures Sx(h * 0x1000 + rest, 0x1000) == rest + (if h == 1 then 0xFFFF_F000 else 0)
  {
  }

  lemma ImmBAgrees(w: Word)
    ensures ImmGen(w, IMM_B) == ImmB(w)
  {
    var h := w / 0x8000_0000;
    var rest := w / 0x80 % 2 * 0x800 + w / 0x200_0000 % 0x40 * 0x20 + w / 0x100 % 0x10 * 2;
    SignBranchField(h, rest);
  }

  lemma SignJumpField(h: int, rest: int)
    requires 0 <= h <= 1 && 0 <= rest < 0x10_0000
    ensures Sx(h * 0x10_0000 + rest, 0x10_0000) == rest + (if h == 1 then 0xFFF0_0000 else 0)
  {
  }

  lemma ImmJAgrees(w: Word)
    ensures ImmGen(w, IMM_J) == ImmJ(w)
  {
    var h := w / 0x8000_0000;
    var rest := w / 0x1000 % 0x100 * 0x1000 + w / 0x10_0000 % 2 * 0x800 + w / 0x20_0000 % 0x400 * 2;
    SignJumpField(h, rest);
    hide Sx;
  }

  // ---- Comparisons and shifts ------------------------------------------------------------------------

  lemma SubIsZero(a: Word, b: Word)
    ensures Sub(a, b) == 0 <==> a == b
  {
  }

  /** Branch conditions are the ALU's comparisons, and the odd ones are the negations of the even. */
  lemma BranchesAreComparisons(a: Word, b: Word)
    ensures BranchCond(0, a, b) <==> Alu(SUB, a, b) == 0
    ensures BranchCond(4, a, b) <==> Alu(SLT, a, b) == 1
    ensures BranchCond(6, a, b) <==> Alu(SLTU, a, b) == 1
    ensures BranchCond(1, a, b) == !BranchCond(0, a, b)
    ensures BranchCond(5, a, b) == !BranchCond(4, a, b) && BranchCond(7, a, b) == !BranchCond(6, a, b)
    ensures a != b ==> (BranchCond(4, a, b) <==> BranchCond(6, a, b)) == (a / 0x8000_0000 == b / 0x8000_0000)
  {
    SubIsZero(a, b);
  }

  /** Right shifts are exact floor divisions of the unsigned and of the signed value. */
  lemma ShiftsDivide(a: Word, n: Word)
    requires n < 32
    ensures Alu(SRL, a, n) == a / Pow2(n)
    ensures Signed(Alu(SRA, a, n)) == Signed(a) / Pow2(n)
  {
    SmallMod(n, 32);
    UnsignedQuotient(a, Pow2(n));
    SignedQuotient(a, Pow2(n));
    hide Pow2, Signed, Wrap;
  }

  lemma UnsignedQuotient(a: Word, p: nat)
    requires p >= 1
    ensures Wrap(a / p) == a / p
  {
    QuotientRange(a, p);
    SmallMod(a / p, W32);
  }

  lemma SignedQuotient(a: Word, p: nat)
    requires p >= 1
    ensures Signed(Wrap(Signed(a) / p)) == Signed(a) / p
  {
    QuotientRange(Signed(a), p);
    SignedWrap(Signed(a) / p);
  }

  lemma QuotientRange(x: int, p: int)
    requires p >= 1
    ensures x >= 0 ==> 0 <= x / p <= x
    ensures x < 0 ==> x <= x / p < 0
  {
    var (q, r) := (x / p, x % p);
    if x >= 0 { FloorAtLeastZero(q, r, p); } else { FloorBelowZero(q, r, p); }
  }

  lemma FloorAtLeastZero(q: int, r: int, p: int)
    requires p >= 1 && 0 <= r < p && q * p + r >= 0
    ensures 0 <= q <= q * p + r
  {
    if q < 0 { MonotoneProduct(q, -1, p); }
    MonotoneProduct(1, p, q);
  }

  lemma FloorBelowZero(q: int, r: int, p: int)
    requires p >= 1 && 0 <= r < p && q * p + r < 0
    ensures q * p + r <= q < 0
  {
    if q >= 0 { MonotoneProduct(0, q, p); }
    MonotoneProduct(1, p, q + 1);
    assert (q + 1) * p == q * p + p;
  }

  lemma SignedWrap(x: int)
    requires -0x8000_0000 <= x < 0x8000_0000
    ensures Signed(Wrap(x)) == x
  {
  }

  // ---- Control lines against instruction meaning -----------------------------------

  predicate Inactive(c: Ctrl) {
    !c.memRead && !c.memWrite && !c.csrWrite
  }

  /** The control lines and EX/MEM fields of an instruction that does not trap carry out `e`. */
  predicate Realises(e: Effect, m: ExMem) {
    var c := m.ctrl;
    match e
    case NoEffect => Inactive(c) && !c.regWrite
    case SetReg(rd, v) =>
      Inactive(c) && c.regWrite && m.rd == rd &&
      ((c.resultSrc == RES_ALU && m.alu == v) || (c.resultSrc == RES_PC4 && m.pc4 == v))
    case Load(rd, addr, size, unsigned) =>
      c.memRead && !c.memWrite && !c.csrWrite && c.regWrite && c.resultSrc == RES_MEM && m.rd == rd &&
      m.alu == addr && c.memSize == size && c.memUnsigned == unsigned
    case Store(addr, size, data) =>
      !c.memRead && c.memWrite && !c.csrWrite && !c.regWrite &&
      m.alu == addr && c.memSize == size && m.storeData == data
    case CsrOp(rd, csr, op, src) =>
      !c.memRead && !c.memWrite && c.csrWrite && c.regWrite && c.resultSrc == RES_CSR && m.rd == rd &&
      m.csrAddr == csr && m.funct3 == op && m.csrSrc == src
  }

  predicate Agrees(act: Action, q: IdEx, m: ExMem, v1: Word, v2: Word) {
    match act
    case Raise(cause, tval) => MemExc(m) && MemCause(m) == cause && MemTval(m) == tval
    case Return => m.isMret && !MemExc(m)
    case Continue(next, e) =>
      !MemExc(m) && !m.isMret && next == Successor(q, v1, v2) && Realises(e, m)
  }

  lemma ArithAgrees(w: Word, a: Word, b: Word)
    ensures Opcode(w) == OP_OP ==> Alu(DecodeAluOp(w), a, b) == Arith(Funct3(w), Bit(w, 0x4000_0000), a, b)
    ensures Opcode(w) == OP_OPIMM ==>
              Alu(DecodeAluOp(w), a, b) == Arith(Funct3(w), Funct3(w) == 5 && Bit(w, 0x4000_0000), a, b)
  {
    hide ShiftRightArith, SignedLess, Bit;
    assert Funct3(w) <= 7;
  }

  predicate Meets(w: Word, pc: Word, v1: Word, v2: Word) {
    var q := Decoded(w, pc, v1, v2);
    var m := ExStage(q, v1, v2);
    m.valid && m.pc4 == Add(pc, 4) && Agrees(Meaning(w, pc, v1, v2), q, m, v1, v2)
  }

  lemma Meets_OP(w: Word, pc: Word, v1: Word, v2: Word)
    requires Opcode(w) == OP_OP
    ensures Meets(w, pc, v1, v2)
  {
    ArithAgrees(w, v1, v2);
    hide ImmGen, ImmU, ImmI, ImmS, ImmB, ImmJ, Arith, Bit, BranchCond, AlignOk, Funct3, Rd, Rs1, Rs2, Imm12,
      Opcode, Aligned, Add, ClearBit0, DecodeAluOp, Alu;
  }

  lemma Meets_OPIMM(w: Word, pc: Word, v1: Word, v2: Word)
    requires Opcode(w) == OP_OPIMM
    ensures Meets(w, pc, v1, v2)
  {
    ImmIAgrees(w);
    ArithAgrees(w, v1, ImmI(w));
    hide ImmGen, ImmU, ImmI, ImmS, ImmB, ImmJ, Arith, Bit, BranchCond, AlignOk, Funct3, Rd, Rs1, Rs2, Imm12,
      Opcode, Aligned, Add, ClearBit0, DecodeAluOp, Alu;
  }

  lemma Meets_LOAD(w: Word, pc: Word, v1: Word, v2: Word)
    requires Opcode(w) == OP_LOAD
    ensures Meets(w, pc, v1, v2)
  {
    ImmIAgrees(w);
    hide ImmGen, ImmU, ImmI, ImmS, ImmB, ImmJ, Arith, Bit, BranchCond, AlignOk, Funct3, Rd, Rs1, Rs2, Imm12,
      Opcode, Aligned, Add, ClearBit0;
  }

  lemma Meets_STORE(w: Word, pc: Word, v1: Word, v2: Word)
    requires Opcode(w) == OP_STORE
    ensures Meets(w, pc, v1, v2)
  {
    ImmSAgrees(w);
    hide ImmGen, ImmU, ImmI, ImmS, ImmB, ImmJ, Arith, Bit, BranchCond, AlignOk, Funct3, Rd, Rs1, Rs2, Imm12,
      Opcode, Aligned, Add, ClearBit0;
  }

  lemma Meets_BRANCH(w: Word, pc: Word, v1: Word, v2: Word)
    requires Opcode(w) == OP_BRANCH
    ensures Meets(w, pc, v1, v2)
  {
    ImmBAgrees(w);
    hide ImmGen, ImmU, ImmI, ImmS, ImmB, ImmJ, Arith, Bit, BranchCond, AlignOk, Funct3, Rd, Rs1, Rs2, Imm12,
      Opcode, Aligned, Add, ClearBit0;
  }

  lemma Meets_JAL(w: Word, pc: Word, v1: Word, v2: Word)
    requires Opcode(w) == OP_JAL
    ensures Meets(w, pc, v1, v2)
  {
    ImmJAgrees(w);
    hide ImmGen, ImmU, ImmI, ImmS, ImmB, ImmJ, Arith, Bit, BranchCond, AlignOk, Funct3, Rd, Rs1, Rs2, Imm12,
      Opcode, Aligned, Add, ClearBit0;
  }

  lemma Meets_JALR(w: Word, pc: Word, v1: Word, v2: Word)
    requires Opcode(w) == OP_JALR
    ensures Meets(w, pc, v1, v2)
  {
    ImmIAgrees(w);
    hide ImmGen, ImmU, ImmI, ImmS, ImmB, ImmJ, Arith, Bit, BranchCond, AlignOk, Funct3, Rd, Rs1, Rs2, Imm12,
      Opcode, Aligned, Add, ClearBit0;
  }

  lemma Meets_LUI(w: Word, pc: Word, v1: Word, v2: Word)
    requires Opcode(w) == OP_LUI
    ensures Meets(w, pc, v1, v2)
  {

    hide ImmI, ImmS, ImmB, ImmJ, Arith, Bit, BranchCond, AlignOk, Funct3, Rd, Rs1, Rs2, Imm12, Opcode, Aligned,
      Add, ClearBit0;
  }

  lemma Meets_AUIPC(w: Word, pc: Word, v1: Word, v2: Word)
    requires Opcode(w) == OP_AUIPC
    ensures Meets(w, pc, v1, v2)
  {

    hide ImmI, ImmS, ImmB, ImmJ, Arith, Bit, BranchCond, AlignOk, Funct3, Rd, Rs1, Rs2, Imm12, Opcode, Aligned,
      Add, ClearBit0;
  }

  lemma Meets_SYSTEM(w: Word, pc: Word, v1: Word, v2: Word)
    requires Opcode(w) == OP_SYSTEM
    ensures Meets(w, pc, v1, v2)
  {

    hide ImmGen, ImmU, ImmI, ImmS, ImmB, ImmJ, Arith, Bit, BranchCond, AlignOk, Funct3, Rd, Rs1, Rs2, Imm12,
      Opcode, Aligned, Add, ClearBit0;
  }

  /** For every instruction word the control unit, decoder, immediate generator, ALU and branch unit
      together do what the instruction means. */
  lemma DatapathMeetsIsa(w: Word, pc: Word, v1: Word, v2: Word)
    ensures Meets(w, pc, v1, v2)
  {
    hide ImmI, ImmS, ImmB, ImmJ, ImmU, ImmGen, Arith, Bit, BranchCond, AlignOk, Funct3, Rd, Rs1, Rs2, Imm12,
      Opcode, Aligned, Add, ClearBit0, Alu;
    var op := Opcode(w);
    if op == OP_OP { Meets_OP(w, pc, v1, v2); }
    else if op == OP_OPIMM { Meets_OPIMM(w, pc, v1, v2); }
    else if op == OP_LOAD { Meets_LOAD(w, pc, v1, v2); }
    else if op == OP_STORE { Meets_STORE(w, pc, v1, v2); }
    else if op == OP_BRANCH { Meets_BRANCH(w, pc, v1, v2); }
    else if op == OP_JAL { Meets_JAL(w, pc, v1, v2); }
    else if op == OP_JALR { Meets_JALR(w, pc, v1, v2); }
    else if op == OP_LUI { Meets_LUI(w, pc, v1, v2); }
    else if op == OP_AUIPC { Meets_AUIPC(w, pc, v1, v2); }
    else if op == OP_SYSTEM { Meets_SYSTEM(w, pc, v1, v2); }
  }

  // ---- One instruction through the datapath -----------------------------------------

  function Operands(prog: Program, a: Arch): (Word, Word) {
    var w := Fetch(prog, a.pc);
    (Reg(a.regs, Rs1(w)), Reg(a.regs, Rs2(w)))
  }

  /** EX/MEM contents for the instruction the sequential machine is about to execute. */
  function InMem(prog: Program, a: Arch): ExMem {
    var (v1, v2) := Operands(prog, a);
    ExStage(Decoded(Fetch(prog, a.pc), a.pc, v1, v2), v1, v2)
  }

  /** Its successor address when it neither traps nor returns. */
  function SeqNext(prog: Program, a: Arch): Word {
    var (v1, v2) := Operands(prog, a);
    Successor(Decoded(Fetch(prog, a.pc), a.pc, v1, v2), v1, v2)
  }

  function SeqTrap(a: Arch, isIrq: bool, cause: Word, tval: Word): Arch {
    a.(pc := a.csr.mtvec, csr := TrapEntry(a.csr, isIrq, cause, a.pc, tval))
  }

  function SeqLatch(m: ExMem, a: Arch, n: Sample): MemWb {
    Latch(m, BusRead(a.ram, n.mmio, m.alu), CsrRead(a.csr, n.live, m.csrAddr))
  }

  /** One instruction through the datapath with nothing else in flight. */
  function SeqStep(m: ExMem, next: Word, a: Arch, n: Sample): Arch {
    if MemExc(m) then SeqTrap(a, false, MemCause(m), MemTval(m))
    else if IrqPending(a.csr, n.live) then SeqTrap(a, true, IrqCode(a.csr, n.live), 0)
    else if m.isMret then a.(pc := a.csr.mepc, csr := TrapReturn(a.csr))
    else
      Arch(next,
           WriteBack(a.regs, SeqLatch(m, a, n)),
           if m.ctrl.csrWrite then CsrModify(a.csr, n.live, m.csrAddr, m.funct3, m.csrSrc) else a.csr,
           if m.ctrl.memWrite then RamWrite(a.ram, m.alu, MemWdata(m), MemByteEn(m)) else a.ram)
  }

  function SeqEvent(m: ExMem, a: Arch, n: Sample): Event {
    Event(a.pc,
          if MemExc(m) then Trapped(false, MemCause(m), MemTval(m))
          else if IrqPending(a.csr, n.live) then Trapped(true, IrqCode(a.csr, n.live), 0)
          else if m.isMret then Returned
          else
            var w := SeqLatch(m, a, n);
            Retired(if WbWrites(w) then Written(w.rd, WbData(w)) else None))
  }

  function SeqRequests(m: ExMem, a: Arch, n: Sample): seq<BusReq> {
    if MemExc(m) || IrqPending(a.csr, n.live) || m.isMret then []
    else if m.ctrl.memRead || m.ctrl.memWrite then
      [BusReq(m.ctrl.memWrite, m.alu, MemWdata(m), MemByteEn(m))]
    else []
  }

  /** The datapath, one instruction at a time, is the instruction-set machine: same next state, same
      observed event, same bus requests. Saving the trapped address is exact because it is aligned. */
  lemma SequentialIsIsa(prog: Program, a: Arch, n: Sample)
    requires WellAligned(a)
    ensures SeqStep(InMem(prog, a), SeqNext(prog, a), a, n) == IsaStep(prog, a, n)
    ensures SeqEvent(InMem(prog, a), a, n) == IsaEvent(prog, a, n)
    ensures SeqRequests(InMem(prog, a), a, n) == IsaRequests(prog, a, n)
  {
    hide Fetch, ControlUnit, DecodeStage, ExStage, Meaning, Rs1, Rs2, Reg, CsrRead, CsrModify, Aligned, Add,
      RamWrite, BusRead, LoadExtract, StoreLanes, ByteEnable, IrqPending, IrqCode, AlignDown, Redirects, Target;
    var (v1, v2) := Operands(prog, a);
    DatapathMeetsIsa(Fetch(prog, a.pc), a.pc, v1, v2);
    AlignedArithmetic(a.pc);
  }
}
