/** The machine-mode CSR file: views, read/modify/write, trap entry, MRET and interrupt selection. */
module Csr {
  import opened Words
  import opened Bitwise

  const CSR_MSTATUS: Word := 0x300
  const CSR_MISA: Word := 0x301
  const CSR_MIE: Word := 0x304
  const CSR_MTVEC: Word := 0x305
  const CSR_MSCRATCH: Word := 0x340
  const CSR_MEPC: Word := 0x341
  const CSR_MCAUSE: Word := 0x342
  const CSR_MTVAL: Word := 0x343
  const CSR_MIP: Word := 0x344
  const CSR_CYCLE: Word := 0xC00
  const CSR_CYCLEH: Word := 0xC80
  const CSR_INSTRET: Word := 0xC02
  const CSR_INSTRETH: Word := 0xC82

  const CAUSE_MTI: Word := 7
  const CAUSE_MEI: Word := 11

  datatype CsrState = CsrState(
    mie: bool, mpie: bool, mtie: bool, meie: bool,
    mtvec: Word, mepc: Word, mcause: Word, mtval: Word, mscratch: Word)

  const RESET_CSR := CsrState(false, false, false, false, 0, 0, 0, 0, 0)

  /** What a CSR access sees that is not CSR state: the interrupt lines and the two counters. */
  datatype Live = Live(timer: bool, accel: bool, cycle: nat, instret: nat)

  function Low(x: nat): Word { x % W32 }
  function High(x: nat): Word { x / W32 % W32 }

  function CsrRead(c: CsrState, l: Live, addr: Word): Word {
    if addr == CSR_MSTATUS then
      0x1800 + (if c.mpie then 0x80 else 0) + (if c.mie then 8 else 0)
    else if addr == CSR_MISA then 0x4000_0100
    else if addr == CSR_MIE then (if c.mtie then 0x80 else 0) + (if c.meie then 0x800 else 0)
    else if addr == CSR_MTVEC then c.mtvec
    else if addr == CSR_MSCRATCH then c.mscratch
    else if addr == CSR_MEPC then c.mepc
    else if addr == CSR_MCAUSE then c.mcause
    else if addr == CSR_MTVAL then c.mtval
    else if addr == CSR_MIP then (if l.timer then 0x80 else 0) + (if l.accel then 0x800 else 0)
    else if addr == CSR_CYCLE then Low(l.cycle)
    else if addr == CSR_CYCLEH then High(l.cycle)
    else if addr == CSR_INSTRET then Low(l.instret)
    else if addr == CSR_INSTRETH then High(l.instret)
    else 0
  }

  /** funct3 1/5 write, 2/6 set, 3/7 clear. */
  function NewValue(op: Word, was: Word, src: Word): Word {
    if op == 1 || op == 5 then src
    else if op == 2 || op == 6 then Or(was, src)
    else if op == 3 || op == 7 then And(was, Not(src))
    else was
  }

  /** Set and clear with a zero source write nothing. */
  predicate DoesWrite(op: Word, src: Word) {
    !((op == 2 || op == 3 || op == 6 || op == 7) && src == 0)
  }

  function CsrWrite(c: CsrState, addr: Word, v: Word): CsrState {
    if addr == CSR_MSTATUS then c.(mie := Bit(v, 8), mpie := Bit(v, 0x80))
    else if addr == CSR_MIE then c.(mtie := Bit(v, 0x80), meie := Bit(v, 0x800))
    else if addr == CSR_MTVEC then c.(mtvec := AlignDown(v))
    else if addr == CSR_MEPC then c.(mepc := AlignDown(v))
    else if addr == CSR_MCAUSE then c.(mcause := v)
    else if addr == CSR_MTVAL then c.(mtval := v)
    else if addr == CSR_MSCRATCH then c.(mscratch := v)
    else c
  }

  function CsrModify(c: CsrState, l: Live, addr: Word, op: Word, src: Word): CsrState {
    if DoesWrite(op, src) then CsrWrite(c, addr, NewValue(op, CsrRead(c, l, addr), src)) else c
  }

  function TrapEntry(c: CsrState, isIrq: bool, cause: Word, epc: Word, tval: Word): CsrState {
    c.(mepc := AlignDown(epc),
       mcause := if isIrq then Add(0x8000_0000, cause) else cause,
       mtval := if isIrq then 0 else tval,
       mpie := c.mie, mie := false)
  }

  function TrapReturn(c: CsrState): CsrState {
    c.(mie := c.mpie, mpie := true)
  }

  predicate TimerTake(c: CsrState, l: Live) { c.mie && c.mtie && l.timer }
  predicate AccelTake(c: CsrState, l: Live) { c.mie && c.meie && l.accel }
  predicate IrqPending(c: CsrState, l: Live) { TimerTake(c, l) || AccelTake(c, l) }

  /** The timer wins over the accelerator's external interrupt. */
  function IrqCode(c: CsrState, l: Live): Word {
    if TimerTake(c, l) then CAUSE_MTI else CAUSE_MEI
  }

  // ---- What software sees of a write ---------------------------------------------------------------

  /** A CSR set leaves exactly the source's bits set and a CSR clear leaves exactly those clear; all other
      bits stay. */
  lemma SetsAndClears(op: Word, was: Word, src: Word, i: nat)
    requires i < 32
    ensures op == 2 || op == 6 ==> (BitAt(NewValue(op, was, src), i) <==> BitAt(was, i) || BitAt(src, i))
    ensures op == 3 || op == 7 ==> (BitAt(NewValue(op, was, src), i) <==> BitAt(was, i) && !BitAt(src, i))
  {
    GateBits(OrGate, was, src, i);
    GateBits(AndGate, was, Not(src), i);
    NotBits(src, i);
    hide BitAt, Not, BitwiseOf;
  }

  /** CSRs that hold state software can write. */
  predicate Writable(addr: Word) {
    addr == CSR_MSTATUS || addr == CSR_MIE || addr == CSR_MTVEC || addr == CSR_MSCRATCH ||
    addr == CSR_MEPC || addr == CSR_MCAUSE || addr == CSR_MTVAL
  }

  /** A written CSR reads back as what it can hold of the value; a write to any other address - counters,
      mip, misa, ID registers, missing CSRs - changes nothing. */
  lemma ReadBack(c: CsrState, l: Live, addr: Word, v: Word)
    ensures
      var r := CsrRead(CsrWrite(c, addr, v), l, addr);
      && (addr == CSR_MSCRATCH || addr == CSR_MCAUSE || addr == CSR_MTVAL ==> r == v)
      && (addr == CSR_MTVEC || addr == CSR_MEPC ==> r % 4 == 0 && r <= v < r + 4)
      && (addr == CSR_MSTATUS ==> r == 0x1800 + v / 0x80 % 2 * 0x80 + v / 8 % 2 * 8)
      && (addr == CSR_MIE ==> r == v / 0x800 % 2 * 0x800 + v / 0x80 % 2 * 0x80)
      && (!Writable(addr) ==> CsrWrite(c, addr, v) == c)
  {
  }

  /** A write to one CSR shows in no other. */
  lemma WritesStayApart(c: CsrState, l: Live, addr: Word, v: Word, other: Word)
    requires other != addr
    ensures CsrRead(CsrWrite(c, addr, v), l, other) == CsrRead(c, l, other)
  {
    hide Bit, AlignDown, Low, High;
  }
}
