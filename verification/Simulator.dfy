/** The repository's instruction-set simulator, as the object it is, against the sequential machine: an
    independent second description of every instruction. */
module Simulator {
  import opened Words
  import opened Arithmetic
  import opened Bitwise
  import opened Datapath
  import opened Csr
  import opened Isa
  import opened DataMemory
  import opened Encodings
  import L = Lanes

  // ---- What is compared ---------------------------------------------------------------------------------

  const CSR_NUMBERS: set<Word> := {0x300, 0x304, 0x305, 0x340, 0x341, 0x342, 0x343, 0x344}

  /** CSRs that hold the same number in the simulator and in the hardware. */
  const SHARED: set<Word> := {0x305, 0x340, 0x341, 0x342, 0x343}

  /** A CSR instruction on a shared register that leaves mtvec and mepc aligned. */
  predicate CsrCovered(a: Arch, n: Sample, act: Action) {
    && act.Continue? && act.effect.CsrOp? && act.effect.csr in SHARED
    && (act.effect.csr == 0x305 || act.effect.csr == 0x341 ==>
          NewValue(act.effect.op, CsrRead(a.csr, n.live, act.effect.csr), act.effect.src) % 4 == 0)
  }

  /** Steps the simulator and the machine agree on: no interrupt; an encoding the simulator's tables have; loads
      and stores aligned and in the data RAM; jumps to aligned targets; no EBREAK; CSR instructions on the
      shared registers, keeping mtvec and mepc aligned. */
  predicate Covered(prog: Program, a: Arch, n: Sample) {
    var w := Fetch(prog, a.pc);
    var (op, f3, f7, act) := (w % 0x80, F3(w), w / 0x200_0000, Act(prog, a));
    !IrqPending(a.csr, n.live) &&
    if op == 0x33 then f7 == 0 || (f7 == 0x20 && (f3 == 0 || f3 == 5))
    else if op == 0x03 then
      f3 != 3 && f3 < 6 && act.Continue? && act.effect.Load? && 0x1000 <= act.effect.addr < 0x2000
    else if op == 0x23 then f3 < 3 && act.Continue? && act.effect.Store? && 0x1000 <= act.effect.addr < 0x2000
    else if op == 0x63 then f3 != 2 && f3 != 3 && act.Continue?
    else if op == 0x6F || op == 0x67 then act.Continue?
    else if op == 0x73 then (if f3 == 0 then w / 0x10_0000 != 1 else f3 != 4 && CsrCovered(a, n, act))
    else true
  }

  // ---- The machine's steps, by effect -----------------------------------------------------------------------

  /** The step of an instruction that sets a register and goes on at `next`. */
  function Goes(a: Arch, next: Word, rd: Word, v: Word): Arch {
    a.(pc := next, regs := SetRd(a.regs, rd, v))
  }

  lemma SetStep(prog: Program, a: Arch, n: Sample, next: Word, e: Effect)
    requires !IrqPending(a.csr, n.live) && Act(prog, a) == Continue(next, e)
    ensures e.NoEffect? ==> IsaStep(prog, a, n) == a.(pc := next)
    ensures e.SetReg? ==> IsaStep(prog, a, n) == Goes(a, next, e.rd, e.v)
  {
    hide Act, IrqPending, SetRd;
  }

  lemma LoadStep(prog: Program, a: Arch, n: Sample, next: Word, e: Effect)
    requires !IrqPending(a.csr, n.live) && Act(prog, a) == Continue(next, e) && e.Load?
    requires 0x1000 <= e.addr < 0x2000
    ensures AlignOk(e.addr, e.size) && e.addr - 0x1000 + L.Width(e.size) <= 0x1000
    ensures
      IsaStep(prog, a, n) ==
      Goes(a, next, e.rd, L.FlatRead(RamBytes(a.ram), L.Load(e.addr - 0x1000, e.size, e.unsigned)))
  {
    hide Act, IrqPending, SetRd, L.FlatRead, RamBytes, AlignOk, BusRead, LoadExtract, L.Width;
    EffectIsAligned(prog, a, n);
    LoadOnBytes(a.ram, n.mmio, e.addr, e.size, e.unsigned);
  }

  lemma StoreStep(prog: Program, a: Arch, n: Sample, next: Word, e: Effect)
    requires !IrqPending(a.csr, n.live) && Act(prog, a) == Continue(next, e) && e.Store?
    requires 0x1000 <= e.addr < 0x2000
    ensures AlignOk(e.addr, e.size)
    ensures
      var t := IsaStep(prog, a, n);
      && t == a.(pc := next, ram := t.ram)
      && RamBytes(t.ram) == L.FlatAfter(RamBytes(a.ram), L.Store(e.addr - 0x1000, e.size, e.data))
  {
    hide Act, IrqPending, L.FlatAfter, RamBytes, AlignOk, RamWrite, StoreLanes, ByteEnable, L.Width;
    EffectIsAligned(prog, a, n);
    StoreOnBytes(a.ram, e.addr, e.size, e.data);
  }

  lemma TrapStep(prog: Program, a: Arch, n: Sample, cause: Word, tval: Word)
    requires Act(prog, a) == Raise(cause, tval) && cause < 0x8000_0000
    ensures
      var t := IsaStep(prog, a, n);
      && t.pc == a.csr.mtvec && t.regs == a.regs && t.ram == a.ram
      && t.csr.mepc == a.pc && t.csr.mcause == cause && t.csr.mtval == tval
      && t.csr.mtvec == a.csr.mtvec && t.csr.mscratch == a.csr.mscratch
  {
    hide Act;
  }

  /** The number a shared CSR holds. */
  function SharedValue(c: CsrState, k: Word): Word
    requires k in SHARED
  {
    if k == 0x305 then c.mtvec else if k == 0x340 then c.mscratch else if k == 0x341 then c.mepc
    else if k == 0x342 then c.mcause else c.mtval
  }

  lemma SharedRead(c: CsrState, l: Live, k: Word)
    requires k in SHARED
    ensures CsrRead(c, l, k) == SharedValue(c, k)
  {
  }

  lemma SharedWrite(c: CsrState, k: Word, v: Word, other: Word)
    requires k in SHARED && other in SHARED && (k == 0x305 || k == 0x341 ==> v % 4 == 0)
    ensures SharedValue(CsrWrite(c, k, v), other) == if other == k then v else SharedValue(c, other)
  {
  }

  /** Setting or clearing no bits changes nothing. */
  lemma NoBits(x: Word)
    ensures Or(x, 0) == x && And(x, Not(0)) == x
  {
    Pow2Of32();
    forall i: nat | i < 32 ensures BitAt(Or(x, 0), i) == BitAt(x, i) && BitAt(And(x, Not(0)), i) == BitAt(x, i) {
      GateBits(OrGate, x, 0, i);
      GateBits(AndGate, x, Not(0), i);
      NotBits(0, i);
      ZeroBits(i);
      hide BitAt, BitwiseOf, Not;
    }
    SameBits(Or(x, 0), x, 32);
    SameBits(And(x, Not(0)), x, 32);
  }

  lemma ZeroBits(i: nat)
    ensures !BitAt(0, i)
  {
    DivModOf(0, 0, Pow2(i));
  }

  /** The value a CSR instruction computes. */
  function CsrResult(op: Word, was: Word, src: Word): Word {
    if op == 1 || op == 5 then src else if op == 2 || op == 6 then Or(was, src) else And(was, Not(src))
  }

  lemma CsrStep(prog: Program, a: Arch, n: Sample, next: Word, e: Effect, other: Word)
    requires !IrqPending(a.csr, n.live) && Act(prog, a) == Continue(next, e) && CsrCovered(a, n, Act(prog, a))
    requires other in SHARED && 1 <= e.op <= 7 && e.op != 4
    ensures
      var t := IsaStep(prog, a, n);
      var was := SharedValue(a.csr, e.csr);
      && t.pc == next && t.regs == SetRd(a.regs, e.rd, was) && t.ram == a.ram
      && SharedValue(t.csr, other) == if other == e.csr then CsrResult(e.op, was, e.src) else SharedValue(a.csr, other)
  {
    hide Act, IrqPending, CsrWrite, CsrRead, SetRd, Or, And, Not, SharedValue;
    SharedRead(a.csr, n.live, e.csr);
    var v := NewValue(e.op, SharedValue(a.csr, e.csr), e.src);
    SharedWrite(a.csr, e.csr, v, other);
    NoBits(SharedValue(a.csr, e.csr));
  }

  lemma ReturnStep(prog: Program, a: Arch, n: Sample, other: Word)
    requires !IrqPending(a.csr, n.live) && Act(prog, a) == Return && other in SHARED
    ensures
      var t := IsaStep(prog, a, n);
      t.pc == a.csr.mepc && t.regs == a.regs && t.ram == a.ram && SharedValue(t.csr, other) == SharedValue(a.csr, other)
  {
    hide Act, IrqPending;
  }

  // ---- Python's integers --------------------------------------------------------------------------------------

  function Bool(b: bool): int { if b then 1 else 0 }

  /** `to_bytes(n, "little")`. */
  function ToBytes(v: nat, n: nat): (b: seq<int>)
    ensures |b| == n
  {
    if n == 0 then [] else [v % 0x100] + ToBytes(v / 0x100, n - 1)
  }

  /** 256^n. */
  function Span(n: nat): (p: nat)
    ensures p > 0
  {
    if n == 0 then 1 else 0x100 * Span(n - 1)
  }

  lemma WordFits(w: Word)
    ensures U32(w) == w
  {
  }

  lemma U32Twice(v: int)
    ensures U32(U32(v)) == U32(v)
  {
  }

  // ---- Bytes --------------------------------------------------------------------------------------------------

  lemma {:induction false} SliceBytes(m: seq<int>, lo: nat, hi: nat, at: nat, n: nat)
    requires lo <= at && at + n <= hi <= |m|
    ensures L.FromBytes(m, at, n) == L.FromBytes(m[lo..hi], at - lo, n)
    decreases n
  {
    if n > 0 { SliceBytes(m, lo, hi, at + 1, n - 1); }
  }

  lemma {:induction false} BytesBound(b: seq<int>, at: nat, n: nat)
    requires at + n <= |b| && forall i | 0 <= i < |b| :: 0 <= b[i] < 0x100
    ensures 0 <= L.FromBytes(b, at, n) < Span(n)
    decreases n
  {
    if n > 0 { BytesBound(b, at + 1, n - 1); }
  }

  lemma RamBytesAreBytes(ram: Ram)
    ensures forall i | 0 <= i < |RamBytes(ram)| :: 0 <= RamBytes(ram)[i] < 0x100
  {
    hide Lane;
    forall i | 0 <= i < |RamBytes(ram)| ensures 0 <= RamBytes(ram)[i] < 0x100 {
      L.LaneRange(RamWords(ram)[i / 4], i % 4);
    }
  }

  /** The number `ld` returns for `n` bytes holding `v`. */
  function Extended(v: int, n: nat, signed: bool): int {
    if !signed then v
    else if n == 1 then Sxm(v, 0x80) else if n == 2 then Sxm(v, 0x8000) else Sxm(v, 0x8000_0000)
  }

  lemma ByteExtended(v: nat)
    requires v < 0x100
    ensures U32(v) == Wrap(v) && U32(Sxm(v, 0x80)) == if v >= 0x80 then Wrap(v - 0x100) else Wrap(v)
  {
  }

  lemma HalfExtended(v: nat)
    requires v < 0x1_0000
    ensures U32(v) == Wrap(v) && U32(Sxm(v, 0x8000)) == if v >= 0x8000 then Wrap(v - 0x1_0000) else Wrap(v)
  {
  }

  lemma WordExtended(v: nat)
    requires v < 0x1_0000_0000
    ensures U32(v) == Wrap(v) && U32(Sxm(v, 0x8000_0000)) == Wrap(v)
  {
  }

  lemma ExtendedIs(v: nat, size: Word, signed: bool)
    requires size < 3 && v < Span(L.Width(size))
    ensures U32(Extended(v, L.Width(size), signed)) == if signed then L.SignExtend(v, L.Width(size)) else Wrap(v)
  {
    assert Span(2) == 0x1_0000 && Span(4) == 0x1_0000_0000 by { assert Span(3) == 0x100_0000; }
    hide U32, Sxm, Wrap, Span;
    if size == 0 { ByteExtended(v); } else if size == 1 { HalfExtended(v); } else { WordExtended(v); }
  }

  /** The bytes of a stored number are its lanes. */
  lemma {:induction false} BytesOf(v: nat, n: nat, i: nat)
    requires i < n
    ensures ToBytes(v % Span(n), n)[i] == v / Span(i) % 0x100
    decreases n
  {
    TwoDigits(v, 0x100, Span(n - 1));
    var h := v / 0x100 % Span(n - 1);
    assert v % Span(n) == v % 0x100 + 0x100 * h;
    DivModOf(h, v % 0x100, 0x100);
    if i > 0 {
      BytesOf(v / 0x100, n - 1, i - 1);
      DivDiv(v, 0x100, Span(i - 1));
    }
  }

  lemma BytesAreLanes(v: Word, n: nat, i: nat)
    requires i < n <= 4
    ensures ToBytes(v % Span(n), n)[i] == Lane(v, i)
  {
    BytesOf(v, n, i);
    assert Span(1) == 0x100 && Span(2) == 0x1_0000 && Span(3) == 0x100_0000;
  }

  /** Replacing bytes in the whole memory replaces them in the RAM's part of it. */
  lemma SpliceIsStore(m: seq<int>, addr: nat, size: Word, v: Word)
    requires |m| >= 0x2000 && 0x1000 <= addr && addr + L.Width(size) <= 0x2000
    ensures
      var n := L.Width(size);
      (m[..addr] + ToBytes(v % Span(n), n) + m[addr + n..])[0x1000..0x2000] ==
      L.FlatAfter(m[0x1000..0x2000], L.Store(addr - 0x1000, size, v))
  {
    var n := L.Width(size);
    var b := ToBytes(v % Span(n), n);
    hide ToBytes, Lane, Span;
    forall i: nat | i < n ensures b[i] == Lane(v, i) { BytesAreLanes(v, n, i); }
  }

  // ---- The simulator ------------------------------------------------------------------------------------------

  class Cpu {
    const x: array<Word>
    const imem: map<Word, Word>
    var pc: Word
    var mem: seq<int>
    var csr: map<Word, Word>
    var retired: nat

    /** The registers are the machine's. */
    ghost predicate Registers(regs: Regs)
      reads x
    {
      x.Length == 32 && forall r: Word | r < 32 :: x[r] == Reg(regs, r)
    }

    ghost predicate Memory(ram: Ram)
      reads `mem
    {
      |mem| >= 0x2000 && mem[0x1000..0x2000] == RamBytes(ram)
    }

    ghost predicate Csrs(c: CsrState)
      reads `csr
    {
      csr.Keys == CSR_NUMBERS && forall k | k in SHARED :: csr[k] == SharedValue(c, k)
    }

    ghost predicate Image(prog: Program) {
      forall p: Word | p % 4 == 0 :: (if p in imem then imem[p] else 0x13) == Fetch(prog, p)
    }

    /** The state of the simulator is the machine's, on what they share. */
    ghost predicate Shows(prog: Program, a: Arch)
      reads `pc, `mem, `csr, x
    {
      Image(prog) && WellAligned(a) && pc == a.pc && Registers(a.regs) && Memory(a.ram) && Csrs(a.csr)
    }

    method Wr(d: Word, v: int)
      requires x.Length == 32 && d < 32
      modifies x
      ensures forall r: Word | r < 32 :: x[r] == if r == d && d != 0 then U32(v) else old(x[r])
    {
      if d != 0 { x[d] := U32(v); }
    }

    /** A write to register `d` is the machine's. */
    method WrReg(d: Word, v: int, ghost regs: Regs)
      requires Registers(regs) && d < 32
      modifies x
      ensures Registers(SetRd(regs, d, U32(v)))
    {
      hide U32;
      Wr(d, v);
    }

    /** Register-register arithmetic. */
    method ExecOp(f7: Word, f3: Word, rd: Word, a: Word, b: Word, ghost regs: Regs)
      requires Registers(regs) && rd < 32 && f3 < 8 && (f7 == 0 || (f7 == 0x20 && (f3 == 0 || f3 == 5)))
      modifies x
      ensures Registers(SetRd(regs, rd, Arith(f3, f7 == 0x20, a, b)))
    {
      hide Sxm, Pow2, Xor, Or, And, U32, Arith, Alu, SetRd, Reg;
      var asx, bsx := Sxm(a, 0x8000_0000), Sxm(b, 0x8000_0000);
      var r: int;
      if f7 == 0 && f3 == 0 { r := a + b; }
      else if f7 == 0x20 && f3 == 0 { r := a - b; }
      else if f3 == 1 { r := a * Pow2(b % 32); }
      else if f3 == 2 { r := Bool(asx < bsx); }
      else if f3 == 3 { r := Bool(a < b); }
      else if f3 == 4 { r := Xor(a, b); }
      else if f7 == 0 && f3 == 5 { r := a / Pow2(b % 32); }
      else if f3 == 5 { r := U32(asx / Pow2(b % 32)); }
      else if f3 == 6 { r := Or(a, b); }
      else { r := And(a, b); }
      ArithByFunct3(f7 == 0x20, a, b);
      LogicIs(a, b);
      U32Twice(asx / Pow2(b % 32));
      WordFits(Bool(asx < bsx));
      WordFits(Bool(a < b));
      WrReg(rd, r, regs);
    }

    /** Register-immediate arithmetic. */
    method ExecOpImm(f7: Word, f3: Word, rd: Word, a: Word, immI: int, ghost regs: Regs)
      requires Registers(regs) && rd < 32 && f3 < 8 && -0x800 <= immI < 0x800
      modifies x
      ensures Registers(SetRd(regs, rd, Arith(f3, f3 == 5 && f7 / 0x20 % 2 == 1, a, U32(immI))))
    {
      hide Sxm, Pow2, Xor, Or, And, U32, Arith, Alu, SetRd, Reg;
      var asx := Sxm(a, 0x8000_0000);
      var r: int;
      if f3 == 1 { r := a * Pow2(immI % 32); }
      else if f3 == 5 { r := if f7 / 0x20 % 2 == 1 then U32(asx / Pow2(immI % 32)) else a / Pow2(immI % 32); }
      else if f3 == 0 { r := a + immI; }
      else if f3 == 2 { r := Bool(asx < immI); }
      else if f3 == 3 { r := Bool(a < U32(immI)); }
      else if f3 == 4 { r := Xor(a, U32(immI)); }
      else if f3 == 6 { r := Or(a, U32(immI)); }
      else { r := And(a, U32(immI)); }
      ArithByFunct3(f3 == 5 && f7 / 0x20 % 2 == 1, a, U32(immI));
      LogicIs(a, U32(immI));
      ImmediateIs(a, immI);
      U32Twice(asx / Pow2(immI % 32));
      WordFits(Bool(asx < immI));
      WordFits(Bool(a < U32(immI)));
      WrReg(rd, r, regs);
    }

    /** `ld`: `n` bytes, least significant first, sign-extended on request. */
    method Ld(addr: Word, size: Word, signed: bool, ghost ram: Ram) returns (v: int)
      requires Memory(ram) && size < 3 && 0x1000 <= addr && addr + L.Width(size) <= 0x2000
      ensures U32(v) == L.FlatRead(RamBytes(ram), L.Load(addr - 0x1000, size, !signed))
    {
      hide U32, RamBytes, Sxm, L.SignExtend, L.FromBytes, L.Width, Span, Wrap;
      var n := L.Width(size);
      v := Extended(L.FromBytes(mem, addr, n), n, signed);
      SliceBytes(mem, 0x1000, 0x2000, addr, n);
      RamBytesAreBytes(ram);
      BytesBound(RamBytes(ram), addr - 0x1000, n);
      ExtendedIs(L.FromBytes(RamBytes(ram), addr - 0x1000, n), size, signed);
    }

    /** `st`: the slice of `n` bytes is replaced. */
    method St(addr: Word, size: Word, val: Word)
      requires |mem| >= 0x2000 && size < 3 && 0x1000 <= addr && addr + L.Width(size) <= 0x2000
      modifies `mem
      ensures |mem| == |old(mem)|
      ensures mem[0x1000..0x2000] == L.FlatAfter(old(mem)[0x1000..0x2000], L.Store(addr - 0x1000, size, val))
    {
      var n := L.Width(size);
      SpliceIsStore(mem, addr, size, val);
      mem := mem[..addr] + ToBytes(val % Span(n), n) + mem[addr + n..];
    }

    /** `trap`: cause and address recorded, on to the handler. */
    method Trap(cause: Word, tval: Word)
      requires csr.Keys == CSR_NUMBERS
      modifies `pc, `csr
      ensures csr == old(csr)[0x341 := old(pc)][0x342 := cause][0x343 := tval] && csr.Keys == CSR_NUMBERS
      ensures pc == old(csr)[0x305]
    {
      csr := csr[0x341 := pc];
      csr := csr[0x342 := cause];
      csr := csr[0x343 := tval];
      pc := csr[0x305];
    }

    /** Everything `Shows` says but the PC. */
    ghost predicate ShowsRest(prog: Program, a: Arch)
      reads `mem, `csr, x
    {
      Image(prog) && WellAligned(a) && Registers(a.regs) && Memory(a.ram) && Csrs(a.csr)
    }

    method StepOp(w: Word, ghost prog: Program, ghost a: Arch, ghost n: Sample) returns (npc: Word)
      requires Shows(prog, a) && Covered(prog, a, n) && w == Fetch(prog, a.pc) && w % 0x80 == 0x33
      modifies x
      ensures ShowsRest(prog, IsaStep(prog, a, n)) && npc == IsaStep(prog, a, n).pc
    {
      hide U32, Arith, IsaStep, SetRd, WellAligned, Image, Memory, Csrs, Act, IrqPending, Reg;
      npc := U32(pc + 4);
      OpAct(prog, a);
      SetStep(prog, a, n, npc, Act(prog, a).effect);
      StepKeepsAligned(prog, a, n);
      AltBit(w);
      RegistersAre(a.regs);
      ExecOp(w / 0x200_0000, w / 0x1000 % 8, w / 0x80 % 32, x[w / 0x8000 % 32], x[w / 0x10_0000 % 32], a.regs);
    }

    method StepOpImm(w: Word, ghost prog: Program, ghost a: Arch, ghost n: Sample) returns (npc: Word)
      requires Shows(prog, a) && Covered(prog, a, n) && w == Fetch(prog, a.pc) && w % 0x80 == 0x13
      modifies x
      ensures ShowsRest(prog, IsaStep(prog, a, n)) && npc == IsaStep(prog, a, n).pc
    {
      hide U32, Arith, IsaStep, SetRd, WellAligned, Image, Memory, Csrs, Act, IrqPending, Reg, Sxm, Covered;
      npc := U32(pc + 4);
      OpImmAct(prog, a);
      assert !IrqPending(a.csr, n.live) by { NotInterrupted(prog, a, n); }
      SetStep(prog, a, n, npc, Act(prog, a).effect);
      StepKeepsAligned(prog, a, n);
      AltBit(w);
      RegistersAre(a.regs);
      I12Range(w);
      ExecOpImm(w / 0x200_0000, w / 0x1000 % 8, w / 0x80 % 32, x[w / 0x8000 % 32], Sxm(w / 0x10_0000, 0x800), a.regs);
    }

    lemma RegistersAre(regs: Regs)
      requires Registers(regs)
      ensures forall r: Word | r < 32 :: x[r] == Reg(regs, r)
    {
    }

    method StepLoad(w: Word, ghost prog: Program, ghost a: Arch, ghost n: Sample) returns (npc: Word)
      requires Shows(prog, a) && Covered(prog, a, n) && w == Fetch(prog, a.pc) && w % 0x80 == 0x03
      modifies x
      ensures ShowsRest(prog, IsaStep(prog, a, n)) && npc == IsaStep(prog, a, n).pc
    {
      hide U32, IsaStep, SetRd, WellAligned, Image, Memory, Csrs, Act, IrqPending, Reg, Sxm, L.FlatRead, AlignOk,
        L.Width;
      npc := U32(pc + 4);
      RegistersAre(a.regs);
      var f3 := w / 0x1000 % 8;
      var addr := U32(x[w / 0x8000 % 32] + Sxm(w / 0x10_0000, 0x800));
      LoadAct(prog, a);
      LoadStep(prog, a, n, npc, Act(prog, a).effect);
      StepKeepsAligned(prog, a, n);
      var v := Ld(addr, f3 % 4, f3 < 4, a.ram);
      WrReg(w / 0x80 % 32, v, a.regs);
    }

    method StepStore(w: Word, ghost prog: Program, ghost a: Arch, ghost n: Sample) returns (npc: Word)
      requires Shows(prog, a) && Covered(prog, a, n) && w == Fetch(prog, a.pc) && w % 0x80 == 0x23
      modifies `mem
      ensures ShowsRest(prog, IsaStep(prog, a, n)) && npc == IsaStep(prog, a, n).pc
    {
      hide U32, IsaStep, WellAligned, Image, Csrs, Act, IrqPending, Reg, Sxm, L.FlatAfter, AlignOk, L.Width, RamBytes;
      npc := U32(pc + 4);
      RegistersAre(a.regs);
      var f3 := w / 0x1000 % 8;
      var addr := U32(x[w / 0x8000 % 32] + Sxm(w / 0x200_0000 * 0x20 + w / 0x80 % 0x20, 0x800));
      StoreAct(prog, a);
      StoreStep(prog, a, n, npc, Act(prog, a).effect);
      StepKeepsAligned(prog, a, n);
      AlignedFits(addr, f3);
      St(addr, f3, x[w / 0x10_0000 % 32]);
    }

    method StepBranch(w: Word, ghost prog: Program, ghost a: Arch, ghost n: Sample) returns (npc: Word)
      requires Shows(prog, a) && Covered(prog, a, n) && w == Fetch(prog, a.pc) && w % 0x80 == 0x63
      ensures ShowsRest(prog, IsaStep(prog, a, n)) && npc == IsaStep(prog, a, n).pc
    {
      hide U32, IsaStep, WellAligned, Image, Csrs, Act, IrqPending, Reg, Memory, Sxm;
      RegistersAre(a.regs);
      BranchAct(prog, a);
      var (f3, v1, v2) := (w / 0x1000 % 8, x[w / 0x8000 % 32], x[w / 0x10_0000 % 32]);
      var asx, bsx := Sxm(v1, 0x8000_0000), Sxm(v2, 0x8000_0000);
      var immB := Sxm(w / 0x8000_0000 * 0x1000 + w / 0x80 % 2 * 0x800 + w / 0x200_0000 % 0x40 * 0x20 +
                      w / 0x100 % 0x10 * 2, 0x1000);
      var take :=
        if f3 == 0 then v1 == v2 else if f3 == 1 then v1 != v2 else if f3 == 4 then asx < bsx
        else if f3 == 5 then asx >= bsx else if f3 == 6 then v1 < v2 else v1 >= v2;
      npc := if take then U32(pc + immB) else U32(pc + 4);
      SetStep(prog, a, n, npc, NoEffect);
      StepKeepsAligned(prog, a, n);
    }

    method StepJump(w: Word, ghost prog: Program, ghost a: Arch, ghost n: Sample) returns (npc: Word)
      requires Shows(prog, a) && Covered(prog, a, n) && w == Fetch(prog, a.pc)
      requires w % 0x80 == 0x6F || w % 0x80 == 0x67
      modifies x
      ensures ShowsRest(prog, IsaStep(prog, a, n)) && npc == IsaStep(prog, a, n).pc
    {
      hide U32, IsaStep, SetRd, WellAligned, Image, Csrs, Act, IrqPending, Reg, Memory, Sxm;
      RegistersAre(a.regs);
      var link := pc + 4;
      if w % 0x80 == 0x6F {
        JalAct(prog, a);
        npc := U32(pc + Sxm(w / 0x8000_0000 * 0x10_0000 + w / 0x1000 % 0x100 * 0x1000 + w / 0x10_0000 % 2 * 0x800 +
                            w / 0x20_0000 % 0x400 * 2, 0x10_0000));
      } else {
        JalrAct(prog, a);
        npc := U32(x[w / 0x8000 % 32] + Sxm(w / 0x10_0000, 0x800)) / 2 * 2;
      }
      SetStep(prog, a, n, npc, Act(prog, a).effect);
      StepKeepsAligned(prog, a, n);
      WrReg(w / 0x80 % 32, link, a.regs);
    }

    method StepUpper(w: Word, ghost prog: Program, ghost a: Arch, ghost n: Sample) returns (npc: Word)
      requires Shows(prog, a) && Covered(prog, a, n) && w == Fetch(prog, a.pc)
      requires w % 0x80 == 0x37 || w % 0x80 == 0x17
      modifies x
      ensures ShowsRest(prog, IsaStep(prog, a, n)) && npc == IsaStep(prog, a, n).pc
    {
      hide U32, IsaStep, SetRd, WellAligned, Image, Csrs, Act, IrqPending, Reg, Memory, Covered, CsrCovered, Fetch;
      assert !IrqPending(a.csr, n.live) by { NotInterrupted(prog, a, n); }
      npc := U32(pc + 4);
      var immU := w / 0x1000 * 0x1000;
      var v := if w % 0x80 == 0x37 then immU else U32(pc + immU);
      UpperAct(prog, a);
      UpperFits(w, pc);
      SetStep(prog, a, n, npc, Act(prog, a).effect);
      StepKeepsAligned(prog, a, n);
      WrReg(w / 0x80 % 32, v, a.regs);
    }

    /** A trap: ECALL, or an instruction the simulator does not know. */
    method StepTrap(cause: Word, tval: Word, ghost prog: Program, ghost a: Arch, ghost n: Sample)
      requires Shows(prog, a) && Act(prog, a) == Raise(cause, tval) && cause < 0x8000_0000
      modifies `pc, `csr
      ensures Shows(prog, IsaStep(prog, a, n))
    {
      hide IsaStep, WellAligned, Image, Act, IrqPending, Memory, Registers;
      TrapStep(prog, a, n, cause, tval);
      StepKeepsAligned(prog, a, n);
      Trap(cause, tval);
    }

    /** A CSR instruction. */
    method StepCsr(w: Word, ghost prog: Program, ghost a: Arch, ghost n: Sample) returns (npc: Word)
      requires Shows(prog, a) && Covered(prog, a, n) && w == Fetch(prog, a.pc)
      requires w % 0x80 == 0x73 && w / 0x1000 % 8 != 0
      modifies x, `csr
      ensures ShowsRest(prog, IsaStep(prog, a, n)) && npc == IsaStep(prog, a, n).pc
    {
      hide U32, IsaStep, WellAligned, Image, Act, IrqPending, Memory, Reg, SharedValue, Or, And, Not, SetRd;
      npc := U32(pc + 4);
      RegistersAre(a.regs);
      SystemAct(prog, a);
      var f3, rs1, number := w / 0x1000 % 8, w / 0x8000 % 32, w / 0x10_0000;
      var was := if number in csr then csr[number] else 0;
      var src := if f3 < 4 then x[rs1] else rs1;
      var newv :=
        if f3 == 1 || f3 == 5 then src else if f3 == 2 || f3 == 6 then Or(was, src) else And(was, Not(src));
      ghost var e := Act(prog, a).effect;
      forall k | k in SHARED
        ensures
          var t := IsaStep(prog, a, n);
          && t.pc == npc && t.regs == SetRd(a.regs, e.rd, was) && t.ram == a.ram
          && SharedValue(t.csr, k) == if k == number then newv else SharedValue(a.csr, k)
      {
        CsrStep(prog, a, n, npc, e, k);
      }
      assert 0x305 in SHARED;
      NoBits(was);
      ZeroRegister(a.regs);
      StepKeepsAligned(prog, a, n);
      WordFits(was);
      WordFits(newv);
      WrReg(w / 0x80 % 32, was, a.regs);
      if number in csr && !((f3 == 2 || f3 == 3 || f3 == 6 || f3 == 7) && rs1 == 0) {
        csr := csr[number := U32(newv)];
      }
    }

    lemma ZeroRegister(regs: Regs)
      ensures Reg(regs, 0) == 0
    {
    }

    /** `step`. */
    method Step(ghost prog: Program, ghost a: Arch, ghost n: Sample)
      requires Shows(prog, a) && Covered(prog, a, n)
      modifies x, `pc, `mem, `csr, `retired
      ensures Shows(prog, IsaStep(prog, a, n)) && retired == old(retired) + 1
    {
      hide IsaStep, Act, IrqPending, Memory, Registers, Csrs, CsrCovered;
      retired := retired + 1;
      var w := if pc in imem then imem[pc] else 0x13;
      assert w == Fetch(prog, a.pc);
      hide Fetch, Image;
      var op := w % 0x80;
      if op == 0x33 { pc := StepOp(w, prog, a, n); }
      else if op == 0x13 { pc := StepOpImm(w, prog, a, n); }
      else if op == 0x03 { pc := StepLoad(w, prog, a, n); }
      else if op == 0x23 { pc := StepStore(w, prog, a, n); }
      else if op == 0x63 { pc := StepBranch(w, prog, a, n); }
      else if op == 0x6F || op == 0x67 { pc := StepJump(w, prog, a, n); }
      else if op == 0x37 || op == 0x17 { pc := StepUpper(w, prog, a, n); }
      else if op == 0x73 {
        SystemAct(prog, a);
        if w / 0x1000 % 8 == 0 {
          var code := w / 0x10_0000;
          if code == 0 {
            StepTrap(11, 0, prog, a, n);
          } else if code == 0x302 {
            StepMret(prog, a, n);
          } else {
            StepTrap(2, w, prog, a, n);
          }
        } else {
          pc := StepCsr(w, prog, a, n);
        }
      } else {
        OtherAct(prog, a);
        StepTrap(2, w, prog, a, n);
      }
    }

    method StepMret(ghost prog: Program, ghost a: Arch, ghost n: Sample)
      requires Shows(prog, a) && Act(prog, a) == Return && !IrqPending(a.csr, n.live)
      modifies `pc
      ensures Shows(prog, IsaStep(prog, a, n))
    {
      hide IsaStep, WellAligned, Image, Act, IrqPending, Memory, Registers, SharedValue;
      forall k | k in SHARED
        ensures
          var t := IsaStep(prog, a, n);
          t.pc == a.csr.mepc && t.regs == a.regs && t.ram == a.ram && SharedValue(t.csr, k) == SharedValue(a.csr, k)
      {
        ReturnStep(prog, a, n, k);
      }
      assert 0x341 in SHARED && csr[0x341] == a.csr.mepc by {
        assert SharedValue(a.csr, 0x341) == a.csr.mepc by { MepcIs(a.csr); }
      }
      StepKeepsAligned(prog, a, n);
      pc := csr[0x341];
    }

    lemma MepcIs(c: CsrState)
      ensures SharedValue(c, 0x341) == c.mepc
    {
    }

    /** `run`: up to `maxSteps` steps, stopping at `stopPc` or at a branch to itself. The state it stops in is
        the machine's after as many steps. */
    method Run(maxSteps: nat, stopPc: Option<Word>, ghost prog: Program, ghost a: Arch, ghost ns: seq<Sample>)
      returns (steps: nat)
      requires Shows(prog, a) && |ns| == maxSteps
      requires forall k: nat | k < maxSteps :: Covered(prog, IsaRun(prog, a, ns[..k]), ns[k])
      modifies x, `pc, `mem, `csr, `retired
      ensures steps <= maxSteps && Shows(prog, IsaRun(prog, a, ns[..steps])) && retired == old(retired) + steps
      ensures steps < maxSteps ==>
                stopPc == Some(pc) ||
                (steps > 0 && IsaRun(prog, a, ns[..steps - 1]).pc == pc && Fetch(prog, pc) % 0x80 == 0x63)
    {
      hide Covered, IsaStep, Registers, Memory, Csrs;
      steps := 0;
      assert IsaRun(prog, a, ns[..0]) == a;
      while steps < maxSteps
        invariant steps <= maxSteps && Shows(prog, IsaRun(prog, a, ns[..steps])) && retired == old(retired) + steps
        decreases maxSteps - steps
      {
        if stopPc == Some(pc) { return; }
        var prev := pc;
        assert ns[..steps + 1][..steps] == ns[..steps];
        Step(prog, IsaRun(prog, a, ns[..steps]), ns[steps]);
        steps := steps + 1;
        if pc == prev && (if prev in imem then imem[prev] else 0x13) % 0x80 == 0x63 { return; }
      }
    }
  }

  lemma AltBit(w: Word)
    ensures w / 0x200_0000 < 0x80
    ensures w / 0x200_0000 == 0 || w / 0x200_0000 == 0x20 ==> (w / 0x200_0000 == 0x20 <==> w / 0x4000_0000 % 2 == 1)
    ensures w / 0x200_0000 / 0x20 % 2 == w / 0x4000_0000 % 2
  {
    DivDiv(w, 0x200_0000, 0x20);
  }

  /** An aligned access inside the RAM ends inside it. */
  lemma AlignedFits(addr: Word, size: Word)
    requires 0x1000 <= addr < 0x2000 && AlignOk(addr, size) && size < 3
    ensures addr + L.Width(size) <= 0x2000
  {
  }

  lemma UpperFits(w: Word, pc: Word)
    ensures U32(w / 0x1000 * 0x1000) == w / 0x1000 * 0x1000
    ensures U32(U32(pc + w / 0x1000 * 0x1000)) == U32(pc + w / 0x1000 * 0x1000)
  {
    U32Twice(pc + w / 0x1000 * 0x1000);
  }

  lemma I12Range(w: Word)
    ensures -0x800 <= Sxm(w / 0x10_0000, 0x800) < 0x800
  {
  }

  lemma NotInterrupted(prog: Program, a: Arch, n: Sample)
    requires Covered(prog, a, n)
    ensures !IrqPending(a.csr, n.live)
  {
    hide Act, IrqPending, CsrCovered, Fetch;
  }

  lemma ImmediateIs(a: Word, immI: int)
    requires -0x800 <= immI < 0x800
    ensures U32(immI) % 32 == immI % 32 && U32(a + U32(immI)) == U32(a + immI) && Sxm(U32(immI), 0x8000_0000) == immI
  {
  }

  lemma LogicIs(a: Word, b: Word)
    ensures U32(Xor(a, b)) == Alu(XOR, a, b) && U32(Or(a, b)) == Alu(OR, a, b) && U32(And(a, b)) == Alu(AND, a, b)
  {
    hide Xor, Or, And;
  }
}
