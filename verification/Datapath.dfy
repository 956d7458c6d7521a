/** The combinational modules shared by every stage: decoder, control unit, immediate generator,
    ALU, branch unit and load/store unit. */
module Datapath {
  import opened Words

  const OP_LUI: Word := 0x37
  const OP_AUIPC: Word := 0x17
  const OP_JAL: Word := 0x6F
  const OP_JALR: Word := 0x67
  const OP_BRANCH: Word := 0x63
  const OP_LOAD: Word := 0x03
  const OP_STORE: Word := 0x23
  const OP_OPIMM: Word := 0x13
  const OP_OP: Word := 0x33
  const OP_SYSTEM: Word := 0x73

  const EXC_INSTR_MISALIGN: Word := 0
  const EXC_ILLEGAL: Word := 2
  const EXC_BREAKPOINT: Word := 3
  const EXC_LOAD_MISALIGN: Word := 4
  const EXC_STORE_MISALIGN: Word := 6
  const EXC_ECALL_M: Word := 11

  datatype AluOp = ADD | SUB | AND | OR | XOR | SLL | SRL | SRA | SLT | SLTU | PASSB
  datatype ImmSel = IMM_I | IMM_S | IMM_B | IMM_U | IMM_J
  datatype ResultSrc = RES_ALU | RES_MEM | RES_PC4 | RES_CSR

  // ---- decoder ---------------------------------------------------------------

  function Opcode(w: Word): Word { w % 0x80 }
  function Rd(w: Word): Word { w / 0x80 % 32 }
  function Funct3(w: Word): Word { w / 0x1000 % 8 }
  function Rs1(w: Word): Word { w / 0x8000 % 32 }
  function Rs2(w: Word): Word { w / 0x10_0000 % 32 }
  function Imm12(w: Word): Word { w / 0x10_0000 }

  function ArithOp(funct3: Word, sub: bool, alt: bool): AluOp {
    if funct3 == 0 then (if sub then SUB else ADD)
    else if funct3 == 1 then SLL
    else if funct3 == 2 then SLT
    else if funct3 == 3 then SLTU
    else if funct3 == 4 then XOR
    else if funct3 == 5 then (if alt then SRA else SRL)
    else if funct3 == 6 then OR
    else AND
  }

  function DecodeAluOp(w: Word): AluOp {
    var op := Opcode(w);
    var alt := Bit(w, 0x4000_0000);
    if op == OP_OP then ArithOp(Funct3(w), alt, alt)
    else if op == OP_OPIMM then ArithOp(Funct3(w), false, alt)
    else if op == OP_LUI then PASSB
    else if op == OP_BRANCH then SUB
    else ADD
  }

  function DecodeImmSel(w: Word): ImmSel {
    var op := Opcode(w);
    if op == OP_STORE then IMM_S
    else if op == OP_BRANCH then IMM_B
    else if op == OP_LUI || op == OP_AUIPC then IMM_U
    else if op == OP_JAL then IMM_J
    else IMM_I
  }

  // ---- imm_gen ---------------------------------------------------------------

  function ImmGen(w: Word, sel: ImmSel): Word {
    var high := if Bit(w, 0x8000_0000) then 0xFFFF_F000 else 0;
    match sel
    case IMM_I => high + w / 0x10_0000 % 0x1000
    case IMM_S => high + w / 0x200_0000 % 0x80 * 0x20 + w / 0x80 % 0x20
    case IMM_B =>
      high + w / 0x80 % 2 * 0x800 + w / 0x200_0000 % 0x40 * 0x20 + w / 0x100 % 0x10 * 2
    case IMM_U => w - w % 0x1000
    case IMM_J =>
      (if Bit(w, 0x8000_0000) then 0xFFF0_0000 else 0) + w / 0x1000 % 0x100 * 0x1000 +
      w / 0x10_0000 % 2 * 0x800 + w / 0x20_0000 % 0x400 * 2
  }

  // ---- control_unit ----------------------------------------------------------

  datatype Ctrl = Ctrl(
    regWrite: bool, srcA: bool, srcB: bool, memRead: bool, memWrite: bool,
    memSize: Word, memUnsigned: bool, resultSrc: ResultSrc,
    branch: bool, jump: bool, csrWrite: bool)

  const NO_CTRL := Ctrl(false, false, false, false, false, 0, false, RES_ALU, false, false, false)

  /** The default control lines of the case statement (mem_size defaults to MEM_W). */
  const IDLE_CTRL := NO_CTRL.(memSize := 2)

  datatype Control = Control(ctrl: Ctrl, ecall: bool, ebreak: bool, mret: bool, illegal: bool)

  function ControlUnit(w: Word): Control {
    var op := Opcode(w);
    var f3 := Funct3(w);
    var imm12 := Imm12(w);
    var idle := Control(IDLE_CTRL, false, false, false, false);
    if op == OP_OP then idle.(ctrl := IDLE_CTRL.(regWrite := true))
    else if op == OP_OPIMM then idle.(ctrl := IDLE_CTRL.(regWrite := true, srcB := true))
    else if op == OP_LOAD then
      idle.(ctrl := IDLE_CTRL.(regWrite := true, srcB := true, memRead := true, resultSrc := RES_MEM,
                               memSize := f3 % 4, memUnsigned := Bit(f3, 4)))
    else if op == OP_STORE then
      idle.(ctrl := IDLE_CTRL.(srcB := true, memWrite := true, memSize := f3 % 4))
    else if op == OP_BRANCH then idle.(ctrl := IDLE_CTRL.(branch := true))
    else if op == OP_JAL then
      idle.(ctrl := IDLE_CTRL.(regWrite := true, jump := true, resultSrc := RES_PC4))
    else if op == OP_JALR then
      idle.(ctrl := IDLE_CTRL.(regWrite := true, jump := true, srcB := true, resultSrc := RES_PC4))
    else if op == OP_LUI then idle.(ctrl := IDLE_CTRL.(regWrite := true, srcB := true))
    else if op == OP_AUIPC then
      idle.(ctrl := IDLE_CTRL.(regWrite := true, srcA := true, srcB := true))
    else if op == OP_SYSTEM then
      if f3 == 0 then
        if imm12 == 0x000 then idle.(ecall := true)
        else if imm12 == 0x001 then idle.(ebreak := true)
        else if imm12 == 0x302 then idle.(mret := true)
        else idle.(illegal := true)
      else if f3 == 4 then idle.(illegal := true)
      else idle.(ctrl := IDLE_CTRL.(regWrite := true, csrWrite := true, resultSrc := RES_CSR))
    else idle.(illegal := true)
  }

  /** Gate off what could commit or redirect when the slot holds no instruction. */
  function Gate(c: Ctrl, active: bool): Ctrl {
    if active then c
    else c.(regWrite := false, memRead := false, memWrite := false,
            branch := false, jump := false, csrWrite := false)
  }

  // ---- alu, branch_unit ------------------------------------------------------

  predicate SignedLess(a: Word, b: Word) { Signed(a) < Signed(b) }

  function ShiftLeft(a: Word, n: Word): Word { Wrap(a * Pow2(n)) }
  function ShiftRight(a: Word, n: Word): Word { Wrap(a / Pow2(n)) }
  function ShiftRightArith(a: Word, n: Word): Word { Wrap(Signed(a) / Pow2(n)) }

  /** Shift amounts are the low five bits of operand b. */
  function Alu(op: AluOp, a: Word, b: Word): Word {
    match op
    case ADD => Add(a, b)
    case SUB => Sub(a, b)
    case AND => And(a, b)
    case OR => Or(a, b)
    case XOR => Xor(a, b)
    case SLL => ShiftLeft(a, b % 32)
    case SRL => ShiftRight(a, b % 32)
    case SRA => ShiftRightArith(a, b % 32)
    case SLT => if SignedLess(a, b) then 1 else 0
    case SLTU => if a < b then 1 else 0
    case PASSB => b
  }

  /** Branch condition; the two reserved funct3 values are never taken. */
  predicate BranchCond(funct3: Word, a: Word, b: Word) {
    if funct3 == 0 then a == b
    else if funct3 == 1 then a != b
    else if funct3 == 4 then SignedLess(a, b)
    else if funct3 == 5 then !SignedLess(a, b)
    else if funct3 == 6 then a < b
    else if funct3 == 7 then !(a < b)
    else false
  }

  // ---- load_store_unit -------------------------------------------------------

  /** Size 0 byte, 1 halfword, 2 word; size 3 is never aligned. */
  predicate AlignOk(addr: Word, size: Word) {
    if size == 0 then true
    else if size == 1 then addr % 2 == 0
    else if size == 2 then addr % 4 == 0
    else false
  }

  /** 256 to the power of a byte offset within the word. */
  function LaneWeight(off: int): (p: int)
    ensures p > 0
  {
    if off == 0 then 1 else if off == 1 then 0x100 else if off == 2 then 0x1_0000 else 0x100_0000
  }

  function ByteEnable(addr: Word, size: Word): Word {
    if !AlignOk(addr, size) then 0
    else if size == 0 then Pow2(addr % 4) % 16
    else if size == 1 then 3 * Pow2(addr % 4) % 16
    else 0xF
  }

  function StoreLanes(addr: Word, size: Word, data: Word): Word {
    if !AlignOk(addr, size) then 0
    else if size == 0 then Wrap(data % 0x100 * LaneWeight(addr % 4))
    else if size == 1 then Wrap(data % 0x1_0000 * LaneWeight(addr % 4))
    else data
  }

  function LoadExtract(addr: Word, size: Word, unsigned: bool, word: Word): Word {
    if size == 0 then
      var b := word / LaneWeight(addr % 4) % 0x100;
      if !unsigned && b >= 0x80 then b + 0xFFFF_FF00 else b
    else if size == 1 then
      var h := if addr / 2 % 2 == 1 then word / 0x1_0000 % 0x1_0000 else word % 0x1_0000;
      if !unsigned && h >= 0x8000 then h + 0xFFFF_0000 else h
    else word
  }

  /** Byte `k` of a word. */
  function Lane(w: Word, k: int): int { w / LaneWeight(k) % 0x100 }

  /** A RAM word after a write with per-byte enables: enabled lanes take the new byte. */
  function WriteLanes(was: Word, data: Word, be: Word): Word {
    (if Bit(be, 1) then Lane(data, 0) else Lane(was, 0)) +
    (if Bit(be, 2) then Lane(data, 1) else Lane(was, 1)) * 0x100 +
    (if Bit(be, 4) then Lane(data, 2) else Lane(was, 2)) * 0x1_0000 +
    (if Bit(be, 8) then Lane(data, 3) else Lane(was, 3)) * 0x100_0000
  }
}
