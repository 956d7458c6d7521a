/** The accelerator's register block as software uses it: where each number goes, what reads back, and when the
    interrupt line rises and falls. */
module AccelRegisters {
  import opened Words
  import opened Arithmetic
  import opened Conv
  import opened DirAccel
  import opened DirJob
  import M = AccelModel

  /** A register write at byte offset `at` of the block at 0x5000. */
  function Put(at: nat, v: Word): Bus
    requires at < 0x100
  {
    Bus(true, true, 0x5000 + at, v)
  }

  // ---- Writes -----------------------------------------------------------------------------------------------

  /** Each register takes its fields from where software puts them, whatever the unused bits, and nothing else
      moves. */
  lemma RegisterWrites(c: Config, v: Word, w: nat, h: nat, irq: bool, start: bool)
    requires w < 0x1_0000 && h < 0x1_0000
    ensures ConfigNext(c, Put(0x00, ControlWord(v, irq, start))) == c.(irqEn := irq)
    ensures ConfigNext(c, Put(0x08, v)) == c.(inputBase := v)
    ensures ConfigNext(c, Put(0x0C, v)) == c.(outputBase := v)
    ensures ConfigNext(c, Put(0x10, h * 0x1_0000 + w)) == c.(imgW := w, imgH := h)
  {
    hide ControlWord;
    ControlBits(v, irq, start);
    DivModOf(h, w, 0x1_0000);
  }

  /** IRQ_EN is bit 1 of the control register and START bit 0; the others are ignored. */
  function ControlWord(v: Word, irq: bool, start: bool): Word {
    v - v % 4 + (if irq then 2 else 0) + (if start then 1 else 0)
  }

  lemma ControlBits(v: Word, irq: bool, start: bool)
    ensures ControlWord(v, irq, start) / 2 % 2 == if irq then 1 else 0
  {
  }

  /** The kernel register: size in bits 0 to 3, shift in 8 to 11, coefficient base in 16 to 27; the bits between
      are ignored. */
  lemma KernelWrites(c: Config, k: nat, shift: nat, co: nat, low: nat, middle: nat, high: nat)
    requires k < 16 && shift < 16 && co < 0x1000 && low < 16 && middle < 16 && high < 16
    ensures
      ConfigNext(c, Put(0x14, KernelWord(k, shift, co, low, middle, high))) ==
      c.(kdim := k, rshift := shift, coeffBase := co)
  {
    KernelFields(k, shift, co, low, middle, high);
  }

  function KernelWord(k: nat, shift: nat, co: nat, low: nat, middle: nat, high: nat): (v: Word)
    requires k < 16 && shift < 16 && co < 0x1000 && low < 16 && middle < 16 && high < 16
  {
    high * 0x1000_0000 + co * 0x1_0000 + middle * 0x1000 + shift * 0x100 + low * 0x10 + k
  }

  lemma KernelFields(k: nat, shift: nat, co: nat, low: nat, middle: nat, high: nat)
    requires k < 16 && shift < 16 && co < 0x1000 && low < 16 && middle < 16 && high < 16
    ensures
      var v := KernelWord(k, shift, co, low, middle, high);
      v % 16 == k && v / 0x100 % 16 == shift && v / 0x1_0000 % 0x1000 == co
  {
    DivModOf(high * 0x100_0000 + co * 0x1000 + middle * 0x100 + shift * 0x10 + low, k, 0x10);
    DivModOf(high * 0x10_0000 + co * 0x100 + middle * 0x10 + shift, low * 0x10 + k, 0x100);
    DivModOf(high * 0x1_0000 + co * 0x10 + middle, shift, 0x10);
    DivModOf(high * 0x1000 + co, middle * 0x1000 + shift * 0x100 + low * 0x10 + k, 0x1_0000);
    DivModOf(high, co, 0x1000);
  }

  /** What starts a job and what acknowledges one, and that reads, other registers and other addresses configure
      nothing. */
  lemma StrobesAre(c: Config, b: Bus)
    ensures StartPulse(b) <==> b.req && b.we && b.addr % 0x100 / 4 == 0 && b.wdata % 2 == 1
    ensures IntAck(b) <==> b.req && b.we && b.addr % 0x100 / 4 == 7 && b.wdata % 2 == 1
    ensures !b.req || !b.we || b.addr % 0x100 / 4 !in {0, 2, 3, 4, 5} ==> ConfigNext(c, b) == c
  {
    WordOffset(b.addr);
  }

  lemma WordOffset(addr: Word)
    ensures addr / 4 % 64 == addr % 0x100 / 4
  {
    RemainderDigit(addr, 4, 64);
  }

  // ---- Reads ------------------------------------------------------------------------------------------------

  lemma FieldReads(a: Accel)
    requires ConfigOk(a.cfg)
    ensures ReadReg(a, 0x5010) % 0x1_0000 == a.cfg.imgW && ReadReg(a, 0x5010) / 0x1_0000 == a.cfg.imgH
    ensures
      var v := ReadReg(a, 0x5014);
      v % 16 == a.cfg.kdim && v / 0x100 % 16 == a.cfg.rshift && v / 0x1_0000 == a.cfg.coeffBase
  {
    DivModOf(a.cfg.imgH, a.cfg.imgW, 0x1_0000);
    KernelFields(a.cfg.kdim, a.cfg.rshift, a.cfg.coeffBase, 0, 0, 0);
  }

  lemma StatusReads(a: Accel)
    requires ConfigOk(a.cfg)
    ensures
      var s := ReadReg(a, 0x5004);
      && (s % 2 == 1 <==> a.status.busy) && (s / 2 % 2 == 1 <==> a.status.done) && (s / 4 % 2 == 1 <==> a.status.error)
      && s < 8
  {
  }

  lemma OtherReads(a: Accel)
    requires ConfigOk(a.cfg)
    ensures ReadReg(a, 0x5008) == a.cfg.inputBase && ReadReg(a, 0x500C) == a.cfg.outputBase
    ensures ReadReg(a, 0x5000) == (if a.cfg.irqEn then 2 else 0) && ReadReg(a, 0x5018) == a.status.result
  {
  }

  /** Every register reads back what was written to it, fields where they were, and STATUS shows the flags. */
  lemma RegisterReads(a: Accel)
    requires ConfigOk(a.cfg)
    ensures ReadReg(a, 0x5008) == a.cfg.inputBase && ReadReg(a, 0x500C) == a.cfg.outputBase
    ensures ReadReg(a, 0x5010) % 0x1_0000 == a.cfg.imgW && ReadReg(a, 0x5010) / 0x1_0000 == a.cfg.imgH
    ensures
      var v := ReadReg(a, 0x5014);
      v % 16 == a.cfg.kdim && v / 0x100 % 16 == a.cfg.rshift && v / 0x1_0000 == a.cfg.coeffBase
    ensures ReadReg(a, 0x5000) / 2 == (if a.cfg.irqEn then 1 else 0) && ReadReg(a, 0x5000) % 2 == 0
    ensures
      var s := ReadReg(a, 0x5004);
      && (s % 2 == 1 <==> a.status.busy) && (s / 2 % 2 == 1 <==> a.status.done) && (s / 4 % 2 == 1 <==> a.status.error)
      && s < 8
    ensures ReadReg(a, 0x5018) == a.status.result
  {
    FieldReads(a);
    StatusReads(a);
    OtherReads(a);
    hide ReadReg;
  }

  /** Only the word offset in the block matters, and what is not there reads zero. */
  lemma ReadsByOffset(a: Accel, addr: Word)
    requires ConfigOk(a.cfg)
    ensures ReadReg(a, addr) == ReadReg(a, 0x5000 + addr % 0x100)
    ensures addr % 0x100 / 4 > 6 ==> ReadReg(a, addr) == 0
  {
    SameOffset(addr);
    WordOffset(addr);
  }

  lemma SameOffset(addr: Word)
    ensures (0x5000 + addr % 0x100) / 4 % 64 == addr / 4 % 64
  {
    WordOffset(addr);
    WordOffset(0x5000 + addr % 0x100);
  }

  /** Out of reset every register reads zero and the interrupt line is low. */
  lemma ResetReads(mem: Scratch, addr: Word)
    requires |mem| == SCRATCH_WORDS
    ensures
      var a := AtRest(Config(0, 0, 0, 0, 0, 0, 0, false), mem);
      ReadReg(a, addr) == 0 && !IrqLine(a) && Idle(a)
  {
  }

  // ---- Setting up a job -------------------------------------------------------------------------------------

  /** The four writes that describe a job. */
  function Configure(a: Accel, inBase: Word, outBase: Word, w: nat, h: nat, k: nat, shift: nat, co: nat): (n: Accel)
    requires Shaped(a) && w < 0x1_0000 && h < 0x1_0000 && k < 16 && shift < 16 && co < 0x1000
    ensures Shaped(n)
  {
    var a1 := AccelNext(a, Put(0x08, inBase));
    var a2 := AccelNext(a1, Put(0x0C, outBase));
    var a3 := AccelNext(a2, Put(0x10, h * 0x1_0000 + w));
    AccelNext(a3, Put(0x14, co * 0x1_0000 + shift * 0x100 + k))
  }

  /** An idle accelerator that is not started stays idle and not BUSY, and keeps scratchpad, result and error;
      DONE goes only by INT_ACK. */
  lemma IdleWrite(a: Accel, b: Bus)
    requires Idle(a) && !StartPulse(b)
    ensures
      var n := AccelNext(a, b);
      && Idle(n) && n.cfg == ConfigNext(a.cfg, b) && n.scratch == a.scratch && n.status.error == a.status.error
      && n.status.result == a.status.result && n.status.done == (a.status.done && !IntAck(b)) && !n.status.busy
  {
    hide MacAcc, PortIndex, IntAck, StartPulse;
  }

  /** After the writes, from any idle state, the configuration is exactly the job's; scratchpad, result and error
      are untouched. */
  lemma Configured(a: Accel, inBase: Word, outBase: Word, w: nat, h: nat, k: nat, shift: nat, co: nat)
    requires Idle(a) && w < 0x1_0000 && h < 0x1_0000 && k < 16 && shift < 16 && co < 0x1000
    ensures
      var s := Configure(a, inBase, outBase, w, h, k, shift, co);
      && Idle(s) && s.scratch == a.scratch && s.status.result == a.status.result && s.status.error == a.status.error
      && s.cfg == Config(inBase, outBase, w, h, k, shift, co, a.cfg.irqEn)
      && ConfigJob(s.cfg) == Job(inBase, outBase, co, w, h, k, shift)
  {
    hide AccelNext, ConfigNext, IntAck, StartPulse;
    RegisterWrites(a.cfg, inBase, w, h, false, false);
    var (b1, b2) := (Put(0x08, inBase), Put(0x0C, outBase));
    var (b3, b4) := (Put(0x10, h * 0x1_0000 + w), Put(0x14, co * 0x1_0000 + shift * 0x100 + k));
    NoStart(b1);
    NoStart(b2);
    NoStart(b3);
    NoStart(b4);
    IdleWrite(a, b1);
    var a1 := AccelNext(a, b1);
    RegisterWrites(a1.cfg, outBase, w, h, false, false);
    IdleWrite(a1, b2);
    var a2 := AccelNext(a1, b2);
    RegisterWrites(a2.cfg, 0, w, h, false, false);
    IdleWrite(a2, b3);
    var a3 := AccelNext(a2, b3);
    KernelWrites(a3.cfg, k, shift, co, 0, 0, 0);
    IdleWrite(a3, b4);
  }

  lemma NoStart(b: Bus)
    requires b.addr % 0x100 in {0x08, 0x0C, 0x10, 0x14}
    ensures !StartPulse(b)
  {
    StrobesAre(Config(0, 0, 0, 0, 0, 0, 0, false), b);
  }

  // ---- The interrupt ------------------------------------------------------------------------------------------

  lemma EnableKept(a: Accel, b: Bus)
    requires Shaped(a) && !Writes(b, 0)
    ensures AccelNext(a, b).cfg.irqEn == a.cfg.irqEn
  {
    hide FsmNext;
  }

  lemma {:induction false} EnableKeptOverRun(a: Accel, bs: seq<Bus>)
    requires Shaped(a) && forall b | b in bs :: !Writes(b, 0)
    ensures AccelAfter(a, bs).cfg.irqEn == a.cfg.irqEn
    decreases |bs|
  {
    hide AccelNext, Writes;
    if bs != [] {
      EnableKept(a, bs[0]);
      EnableKeptOverRun(AccelNext(a, bs[0]), bs[1..]);
    }
  }

  /** A job started with the interrupt enabled raises the line exactly when it is done; started without, never. */
  lemma JobRaisesIrq(a: Accel, start: Bus, bs: seq<Bus>)
    requires Idle(a) && StartPulse(start) && Accepts(a.cfg) && |bs| == M.JobCycles(ConfigJob(a.cfg))
    requires forall b | b in bs :: !Writes(b, 0)
    ensures
      var s := AccelNext(a, start);
      && BusyFor(s, bs) && (IrqLine(AccelAfter(s, bs)) <==> start.wdata / 2 % 2 == 1)
  {
    hide AccelNext, M.JobCycles, M.LastSample, BusyFor, Writes;
    var s := AccelNext(a, start);
    JobFromStart(a, start, bs);
    EnableKeptOverRun(s, bs);
    EnableSet(a, start);
  }

  lemma EnableSet(a: Accel, start: Bus)
    requires Shaped(a) && StartPulse(start)
    ensures AccelNext(a, start).cfg.irqEn == (start.wdata / 2 % 2 == 1)
  {
    hide FsmNext;
  }

  /** While BUSY and not DONE the line is low. */
  lemma NoIrqWhileBusy(a: Accel, bs: seq<Bus>)
    requires Shaped(a) && BusyFor(a, bs) && bs != []
    ensures !IrqLine(a)
  {
  }

  /** An idle accelerator keeps the line as it is until DONE is acknowledged, which lowers it, or a job is started
      or the enable written. */
  lemma IrqHolds(a: Accel, b: Bus)
    requires Idle(a) && !Writes(b, 0)
    ensures IrqLine(AccelNext(a, b)) <==> IrqLine(a) && !IntAck(b)
  {
    hide ConfigNext, IntAck;
    assert !StartPulse(b);
    IdleWrite(a, b);
    EnableKept(a, b);
  }
}
