/** Traps, interrupts and CSR instructions as software sees them: through CSR reads, by address and bit. */
module Traps {
  import opened Words
  import opened Arithmetic
  import opened Bitwise
  import opened Datapath
  import opened Csr
  import opened Isa

  predicate Masks(w: Word, weight: nat)
    requires weight > 0
  {
    w / weight % 2 == 1
  }

  // ---- Reads ------------------------------------------------------------------------------------------------

  /** The two halves of a counter are its 64 bits; misa is fixed; what is not there reads as zero. */
  lemma FixedReads(c: CsrState, l: Live, k: Word)
    ensures CsrRead(c, l, 0xC00) + 0x1_0000_0000 * CsrRead(c, l, 0xC80) == l.cycle % 0x1_0000_0000_0000_0000
    ensures CsrRead(c, l, 0xC02) + 0x1_0000_0000 * CsrRead(c, l, 0xC82) == l.instret % 0x1_0000_0000_0000_0000
    ensures CsrRead(c, l, 0x301) == 0x4000_0100
    ensures k !in {0x300, 0x301, 0x304, 0x305, 0x340, 0x341, 0x342, 0x343, 0x344, 0xC00, 0xC02, 0xC80, 0xC82} ==>
              CsrRead(c, l, k) == 0
  {
    SixtyFour(l.cycle);
    SixtyFour(l.instret);
  }

  lemma SixtyFour(x: nat)
    ensures x % 0x1_0000_0000 + 0x1_0000_0000 * (x / 0x1_0000_0000 % 0x1_0000_0000) == x % 0x1_0000_0000_0000_0000
  {
    TwoDigits(x, 0x1_0000_0000, 0x1_0000_0000);
  }

  /** After reset interrupts are off everywhere and every other register reads zero. */
  lemma ResetReads(l: Live, k: Word)
    ensures CsrRead(RESET_CSR, l, 0x300) == 0x1800
    ensures k in {0x304, 0x305, 0x340, 0x341, 0x342, 0x343} ==> CsrRead(RESET_CSR, l, k) == 0
  {
  }

  /** mip shows the interrupt lines: the timer in bit 7, the accelerator in bit 11. */
  lemma PendingReads(c: CsrState, l: Live)
    ensures CsrRead(c, l, 0x344) == (if l.timer then 0x80 else 0) + (if l.accel then 0x800 else 0)
  {
  }

  // ---- Traps ------------------------------------------------------------------------------------------------

  /** What a trap leaves for its handler: mcause is the event's cause with bit 31 for interrupts, mtval its value,
      mepc the trapped instruction, mstatus the old enable with interrupts off; it goes on at mtvec, and registers,
      memory and the other CSRs are as before. */
  lemma TrapIsRecorded(prog: Program, a: Arch, n: Sample, l: Live)
    requires IsaEvent(prog, a, n).outcome.Trapped?
    ensures
      var (t, e) := (IsaStep(prog, a, n), IsaEvent(prog, a, n).outcome);
      && e.cause < 16
      && CsrRead(t.csr, l, 0x342) == e.cause + (if e.isIrq then 0x8000_0000 else 0)
      && CsrRead(t.csr, l, 0x343) == e.tval && (e.isIrq ==> e.tval == 0)
      && CsrRead(t.csr, l, 0x341) == a.pc && t.pc == CsrRead(a.csr, l, 0x305)
      && CsrRead(t.csr, l, 0x300) == 0x1800 + (if Masks(CsrRead(a.csr, l, 0x300), 8) then 0x80 else 0)
      && CsrRead(t.csr, l, 0x304) == CsrRead(a.csr, l, 0x304) && CsrRead(t.csr, l, 0x305) == CsrRead(a.csr, l, 0x305)
      && CsrRead(t.csr, l, 0x340) == CsrRead(a.csr, l, 0x340) && t.regs == a.regs && t.ram == a.ram
  {
    hide Act, IrqPending, IrqCode, Apply, Observed;
    SmallCause(prog, a, n);
    EnableBit(a.csr, l);
    TrapState(a, IsaEvent(prog, a, n).outcome.isIrq, IsaEvent(prog, a, n).outcome.cause,
              IsaEvent(prog, a, n).outcome.tval, l);
  }

  lemma TrapState(a: Arch, isIrq: bool, cause: Word, tval: Word, l: Live)
    requires cause < 16
    ensures
      var t := Trap(a, isIrq, cause, tval);
      && CsrRead(t.csr, l, 0x342) == cause + (if isIrq then 0x8000_0000 else 0)
      && CsrRead(t.csr, l, 0x343) == (if isIrq then 0 else tval)
      && CsrRead(t.csr, l, 0x341) == a.pc && t.pc == CsrRead(a.csr, l, 0x305)
      && CsrRead(t.csr, l, 0x300) == 0x1800 + (if a.csr.mie then 0x80 else 0)
      && CsrRead(t.csr, l, 0x304) == CsrRead(a.csr, l, 0x304) && CsrRead(t.csr, l, 0x305) == CsrRead(a.csr, l, 0x305)
      && CsrRead(t.csr, l, 0x340) == CsrRead(a.csr, l, 0x340) && t.regs == a.regs && t.ram == a.ram
  {
  }

  lemma SmallCause(prog: Program, a: Arch, n: Sample)
    ensures Act(prog, a).Raise? ==> Act(prog, a).cause in {0, 2, 3, 4, 6, 11}
    ensures IrqCode(a.csr, n.live) in {7, 11}
  {
    hide Fetch, Arith, ImmI, ImmS, ImmB, ImmJ, ImmU, Reg, BranchCond, AlignOk, Bit, Add, Rs1, Rs2, Rd, Funct3, Imm12,
      Opcode, ClearBit0, Aligned;
  }

  lemma EnableBit(c: CsrState, l: Live)
    ensures Masks(CsrRead(c, l, 0x300), 8) == c.mie && Masks(CsrRead(c, l, 0x300), 0x80) == c.mpie
    ensures Masks(CsrRead(c, l, 0x304), 0x80) == c.mtie && Masks(CsrRead(c, l, 0x304), 0x800) == c.meie
    ensures Masks(CsrRead(c, l, 0x344), 0x80) == l.timer && Masks(CsrRead(c, l, 0x344), 0x800) == l.accel
  {
  }

  // ---- Interrupts ---------------------------------------------------------------------------------------------

  /** Interrupts enabled in mstatus, and enabled in mie and pending in mip in the same bit. */
  predicate Wanted(c: CsrState, l: Live, weight: nat)
    requires weight > 0
  {
    Masks(CsrRead(c, l, 0x300), 8) && Masks(CsrRead(c, l, 0x304), weight) && Masks(CsrRead(c, l, 0x344), weight)
  }

  /** An instruction that raises no exception is interrupted exactly when one of the two interrupts is wanted; the
      timer, bit 7, goes before the accelerator, bit 11. An exception goes before both. */
  lemma InterruptsAre(prog: Program, a: Arch, n: Sample)
    ensures
      var e := IsaEvent(prog, a, n).outcome;
      var (timer, accel) := (Wanted(a.csr, n.live, 0x80), Wanted(a.csr, n.live, 0x800));
      && (Act(prog, a).Raise? ==> e == Trapped(false, Act(prog, a).cause, Act(prog, a).tval))
      && (!Act(prog, a).Raise? && timer ==> e == Trapped(true, 7, 0))
      && (!Act(prog, a).Raise? && !timer && accel ==> e == Trapped(true, 11, 0))
      && (!Act(prog, a).Raise? && !timer && !accel ==> !e.Trapped?)
  {
    hide Act, CsrRead, Masks, Observed;
    EnableBit(a.csr, n.live);
  }

  /** MRET goes to mepc and takes the enable from MPIE, which it sets. */
  lemma ReturnIs(prog: Program, a: Arch, n: Sample, l: Live)
    requires IsaEvent(prog, a, n).outcome.Returned?
    ensures
      var t := IsaStep(prog, a, n);
      && t.pc == CsrRead(a.csr, l, 0x341)
      && CsrRead(t.csr, l, 0x300) == 0x1880 + (if Masks(CsrRead(a.csr, l, 0x300), 0x80) then 8 else 0)
      && t.regs == a.regs && t.ram == a.ram
  {
    hide Act, IrqPending, IrqCode, Apply, Observed;
    EnableBit(a.csr, l);
  }

  // ---- CSR instructions ---------------------------------------------------------------------------------------

  /** A CSR instruction puts the old value into its register and writes a value whose every bit is the source's
      (funct3 1 and 5), the old one with the source's set (2 and 6), or with the source's cleared (3 and 7); setting
      or clearing with a zero source writes nothing. What a write leaves is said by Csr.ReadBack. */
  lemma CsrInstruction(prog: Program, a: Arch, n: Sample) returns (v: Word)
    requires !IrqPending(a.csr, n.live) && Act(prog, a).Continue? && Act(prog, a).effect.CsrOp?
    ensures
      var (t, e) := (IsaStep(prog, a, n), Act(prog, a).effect);
      var was := CsrRead(a.csr, n.live, e.csr);
      && IsaEvent(prog, a, n) == Event(a.pc, Retired(if e.rd != 0 then Some((e.rd, was)) else None))
      && t.regs == SetRd(a.regs, e.rd, was) && t.ram == a.ram
      && t.csr == (if e.src == 0 && e.op in {2, 3, 6, 7} then a.csr else CsrWrite(a.csr, e.csr, v))
      && (e.op == 1 || e.op == 5 ==> v == e.src)
      && (e.op == 2 || e.op == 6 ==>
            forall i: nat | i < 32 :: BitAt(v, i) == (BitAt(was, i) || BitAt(e.src, i)))
      && (e.op == 3 || e.op == 7 ==>
            forall i: nat | i < 32 :: BitAt(v, i) == (BitAt(was, i) && !BitAt(e.src, i)))
  {
    hide Act, IrqPending, BitAt, Or, And, Not, CsrRead, CsrWrite, SetRd;
    var e := Act(prog, a).effect;
    var was := CsrRead(a.csr, n.live, e.csr);
    v := NewValue(e.op, was, e.src);
    forall i: nat | i < 32
      ensures (e.op == 2 || e.op == 6 ==> (BitAt(v, i) == (BitAt(was, i) || BitAt(e.src, i))))
      ensures (e.op == 3 || e.op == 7 ==> (BitAt(v, i) == (BitAt(was, i) && !BitAt(e.src, i))))
    {
      SetsAndClears(e.op, was, e.src, i);
    }
  }
}
