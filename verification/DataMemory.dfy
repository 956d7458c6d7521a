/** The data RAM of the sequential machine is 4096 bytes at 0x1000: loads and stores of any run read and
    write a flat little-endian byte array. */
module DataMemory {
  import opened Words
  import opened Arithmetic
  import opened Datapath
  import opened Csr
  import opened Isa
  import L = Lanes

  const RAM_BASE: nat := 0x1000
  const RAM_WORDS: nat := 1024

  // ---- Address map ----------------------------------------------------------------------------------

  /** Which addresses have a slave, and which are the data RAM's. */
  lemma AddressMap(addr: Word)
    ensures Mapped(addr) <==> addr < 0x7000
    ensures InRam(addr) <==> 0x1000 <= addr < 0x2000
    ensures InRam(addr) ==> RamIndex(addr) == (addr - 0x1000) / 4 < 1024
  {
  }

  // ---- The RAM as bytes -----------------------------------------------------------------------------

  function RamWords(ram: Ram): (m: seq<Word>)
    ensures |m| == RAM_WORDS
  {
    seq(RAM_WORDS, i requires 0 <= i < RAM_WORDS => RamRead(ram, i))
  }

  /** Byte `i` of the RAM is the byte at address 0x1000 + i. */
  function RamBytes(ram: Ram): (b: seq<int>)
    ensures |b| == 4 * RAM_WORDS
  {
    L.Flat(RamWords(ram))
  }

  /** Alignment, enables, lanes and extraction look at the address within its word only. */
  lemma Rebased(addr: Word, size: Word, unsigned: bool, data: Word)
    requires InRam(addr)
    ensures
      var at := addr - RAM_BASE;
      && AlignOk(at, size) == AlignOk(addr, size) && ByteEnable(at, size) == ByteEnable(addr, size)
      && StoreLanes(at, size, data) == StoreLanes(addr, size, data)
      && LoadExtract(at, size, unsigned, data) == LoadExtract(addr, size, unsigned, data)
  {
    assert (addr - 0x1000) % 4 == addr % 4 && (addr - 0x1000) % 2 == addr % 2;
    assert (addr - 0x1000) / 2 % 2 == addr / 2 % 2;
    hide LaneWeight, Pow2;
  }

  /** A write outside the RAM leaves it alone. */
  lemma WriteElsewhere(ram: Ram, addr: Word, data: Word, be: Word)
    requires !(0x1000 <= addr < 0x2000)
    ensures RamWrite(ram, addr, data, be) == ram
  {
    AddressMap(addr);
  }

  /** A write to one word shows in no other, and a full write reads back. */
  lemma WordsStayApart(ram: Ram, a: Word, data: Word, be: Word, mmio: Word, b: Word)
    requires 0x1000 <= a < 0x2000 && 0x1000 <= b < 0x2000
    ensures a / 4 != b / 4 ==> BusRead(RamWrite(ram, a, data, be), mmio, b) == BusRead(ram, mmio, b)
    ensures a / 4 == b / 4 && be == 15 ==> BusRead(RamWrite(ram, a, data, be), mmio, b) == data
  {
    AddressMap(a);
    AddressMap(b);
    L.AllEnabled(RamRead(ram, RamIndex(a)), data);
    hide WriteLanes, Mapped, InRam;
  }

  /** A store is the slice assignment at its address. */
  lemma StoreOnBytes(ram: Ram, addr: Word, size: Word, data: Word)
    requires 0x1000 <= addr < 0x2000 && AlignOk(addr, size)
    ensures
      RamBytes(RamWrite(ram, addr, StoreLanes(addr, size, data), ByteEnable(addr, size))) ==
      L.FlatAfter(RamBytes(ram), L.Store(addr - 0x1000, size, data))
  {
    AddressMap(addr);
    Rebased(addr, size, false, data);
    var acc := L.Store(addr - 0x1000, size, data);
    hide WriteLanes, StoreLanes, ByteEnable, AlignOk, Mapped, InRam, RamIndex;
    assert RamWords(RamWrite(ram, addr, StoreLanes(addr, size, data), ByteEnable(addr, size))) ==
           L.WordAfter(RamWords(ram), acc);
    L.StoreIsFlat(RamWords(ram), acc);
  }

  /** A load returns the bytes at its address, extended as asked. */
  lemma LoadOnBytes(ram: Ram, mmio: Word, addr: Word, size: Word, unsigned: bool)
    requires 0x1000 <= addr < 0x2000 && AlignOk(addr, size)
    ensures addr - 0x1000 + L.Width(size) <= |RamBytes(ram)|
    ensures
      LoadExtract(addr, size, unsigned, BusRead(ram, mmio, addr)) ==
      L.FlatRead(RamBytes(ram), L.Load(addr - 0x1000, size, unsigned))
  {
    AddressMap(addr);
    Rebased(addr, size, unsigned, BusRead(ram, mmio, addr));
    var acc := L.Load(addr - 0x1000, size, unsigned);
    hide LoadExtract, AlignOk, Mapped, InRam, RamIndex, L.FlatRead, L.Flat;
    L.LoadIsFlat(RamWords(ram), acc);
    assert RamWords(ram)[(addr - 0x1000) / 4] == BusRead(ram, mmio, addr);
  }

  // ---- Steps and runs on the byte array ---------------------------------------------------------------

  /** The effect the next step carries out, if it is neither trapped nor interrupted nor a return. */
  function Performed(prog: Program, a: Arch, n: Sample): Option<Effect> {
    var act := Act(prog, a);
    if act.Continue? && !IrqPending(a.csr, n.live) then Some(act.effect) else None
  }

  /** What that does to the bytes of the RAM. */
  function BytesStep(bytes: seq<int>, e: Option<Effect>): (b: seq<int>)
    ensures |b| == |bytes|
  {
    match e
    case Some(Store(addr, size, data)) =>
      if 0x1000 <= addr < 0x2000 then L.FlatAfter(bytes, L.Store(addr - 0x1000, size, data)) else bytes
    case _ => bytes
  }

  lemma MeaningIsAligned(w: Word, pc: Word, x: Word, y: Word)
    ensures
      var act := Meaning(w, pc, x, y);
      act.Continue? ==>
        && (act.effect.Load? ==> AlignOk(act.effect.addr, act.effect.size))
        && (act.effect.Store? ==> AlignOk(act.effect.addr, act.effect.size))
  {
    hide Arith, ImmI, ImmB, ImmJ, ImmS, ImmU, BranchCond, AlignOk, Aligned, Opcode, Funct3, Rd, Rs1, Imm12, Add;
  }

  lemma EffectIsAligned(prog: Program, a: Arch, n: Sample)
    ensures
      var e := Performed(prog, a, n);
      && (e.Some? && e.value.Load? ==> AlignOk(e.value.addr, e.value.size))
      && (e.Some? && e.value.Store? ==> AlignOk(e.value.addr, e.value.size))
  {
    var w := Fetch(prog, a.pc);
    MeaningIsAligned(w, a.pc, Reg(a.regs, Rs1(w)), Reg(a.regs, Rs2(w)));
    hide Meaning, AlignOk, Fetch, Rs1, Rs2, Reg, IrqPending;
  }

  /** One step: stores to the RAM are byte stores, everything else leaves it alone, and a load from it puts
      the bytes at its address into the register. */
  lemma StepOnBytes(prog: Program, a: Arch, n: Sample)
    ensures RamBytes(IsaStep(prog, a, n).ram) == BytesStep(RamBytes(a.ram), Performed(prog, a, n))
    ensures
      var e := Performed(prog, a, n);
      e.Some? && e.value.Load? && 0x1000 <= e.value.addr < 0x2000 ==>
        && e.value.addr - 0x1000 + L.Width(e.value.size) <= |RamBytes(a.ram)|
        && IsaEvent(prog, a, n) ==
           Event(a.pc, Retired(Written(e.value.rd, L.FlatRead(RamBytes(a.ram),
                                 L.Load(e.value.addr - 0x1000, e.value.size, e.value.unsigned)))))
  {
    EffectIsAligned(prog, a, n);
    var e := Performed(prog, a, n);
    hide Act, IrqPending, IrqCode, L.FlatRead, L.FlatAfter, RamBytes, AlignOk, CsrRead, CsrModify, RamWrite, BusRead,
      LoadExtract, StoreLanes, ByteEnable, L.Width;
    if e.Some? && e.value.Store? {
      if 0x1000 <= e.value.addr < 0x2000 {
        StoreOnBytes(a.ram, e.value.addr, e.value.size, e.value.data);
      } else {
        WriteElsewhere(a.ram, e.value.addr, StoreLanes(e.value.addr, e.value.size, e.value.data),
                       ByteEnable(e.value.addr, e.value.size));
      }
    }
    if e.Some? && e.value.Load? && 0x1000 <= e.value.addr < 0x2000 {
      LoadOnBytes(a.ram, n.mmio, e.value.addr, e.value.size, e.value.unsigned);
    }
  }

  /** The byte array after a run: the stores it performs, in order. */
  function BytesAfter(bytes: seq<int>, prog: Program, a: Arch, ns: seq<Sample>): (b: seq<int>)
    ensures |b| == |bytes|
  {
    if ns == [] then bytes
    else
      var k := |ns| - 1;
      BytesStep(BytesAfter(bytes, prog, a, ns[..k]), Performed(prog, IsaRun(prog, a, ns[..k]), ns[k]))
  }

  /** Over every sequential run the data RAM is the byte array its stores leave. */
  lemma {:induction false} RunOnBytes(prog: Program, a: Arch, ns: seq<Sample>)
    ensures RamBytes(IsaRun(prog, a, ns).ram) == BytesAfter(RamBytes(a.ram), prog, a, ns)
  {
    hide RamBytes, IsaStep, BytesStep, Performed;
    if ns != [] {
      var k := |ns| - 1;
      RunOnBytes(prog, a, ns[..k]);
      StepOnBytes(prog, IsaRun(prog, a, ns[..k]), ns[k]);
    }
  }
}
