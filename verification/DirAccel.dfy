/** The DIR accelerator as a state machine: configuration registers, streaming FSM with incremental
    address pointers, scratchpad port B and the multiply-accumulate unit. */
module DirAccel {
  import opened Arithmetic
  import opened Words
  import opened Conv
  import M = AccelModel

  const SCRATCH_WORDS: nat := 1024
  const MAXK: nat := 7
  const TAPS: nat := 49

  datatype Fsm = S_IDLE | S_LC | S_PINIT | S_STREAM | S_WRITE | S_DONE

  datatype Config = Config(
    inputBase: Word, outputBase: Word, imgW: nat, imgH: nat,
    kdim: nat, rshift: nat, coeffBase: nat, irqEn: bool)

  /** Control state and what software sees of it. */
  datatype Status = Status(state: Fsm, busy: bool, done: bool, error: bool, result: Word)

  /** Configuration latched for the running job. */
  datatype Latched = Latched(inBase: Word, outBase: Word, k: nat, shift: nat, coeffBase: nat, outW: nat, outH: nat)

  /** Scan position, load and stream pipeline, and the three address pointers. */
  datatype Scan = Scan(
    ox: nat, oy: nat, kx: nat, ky: nat, tap: nat, ci: nat, sciD: nat, lcValidD: bool, stValidD: bool,
    winBase: Word, pixPtr: Word, outPtr: Word)

  /** The coefficient aligned to the pixel in flight. */
  datatype Operand = Operand(coeffD: int, firstD: bool)

  datatype Accel = Accel(
    cfg: Config, status: Status, job: Latched, scan: Scan, operand: Operand,
    bData: Word, acc: int, coeffBuf: seq<int>, scratch: Scratch)

  /** One cycle of the register-block bus port. */
  datatype Bus = Bus(req: bool, we: bool, addr: Word, wdata: Word)

  predicate Writes(b: Bus, reg: nat) { b.req && b.we && b.addr / 4 % 64 == reg }
  predicate StartPulse(b: Bus) { Writes(b, 0) && b.wdata % 2 == 1 }
  predicate IntAck(b: Bus) { Writes(b, 7) && b.wdata % 2 == 1 }

  function ConfigNext(c: Config, b: Bus): Config {
    if Writes(b, 0) then c.(irqEn := b.wdata / 2 % 2 == 1)
    else if Writes(b, 2) then c.(inputBase := b.wdata)
    else if Writes(b, 3) then c.(outputBase := b.wdata)
    else if Writes(b, 4) then c.(imgW := b.wdata % 0x1_0000, imgH := b.wdata / 0x1_0000)
    else if Writes(b, 5) then
      c.(kdim := b.wdata % 16, rshift := b.wdata / 0x100 % 16, coeffBase := b.wdata / 0x1_0000 % 0x1000)
    else c
  }

  /** The widths of the configuration registers. */
  predicate ConfigOk(c: Config) {
    c.imgW < 0x1_0000 && c.imgH < 0x1_0000 && c.kdim < 16 && c.rshift < 16 && c.coeffBase < 0x1000
  }

  /** The interrupt line to the core. */
  predicate IrqLine(a: Accel) { a.status.done && a.cfg.irqEn }

  /** What the register block answers at an address. */
  function ReadReg(a: Accel, addr: Word): Word
    requires ConfigOk(a.cfg)
  {
    var (c, s, reg) := (a.cfg, a.status, addr / 4 % 64);
    if reg == 0 then (if c.irqEn then 2 else 0)
    else if reg == 1 then (if s.busy then 1 else 0) + (if s.done then 2 else 0) + (if s.error then 4 else 0)
    else if reg == 2 then c.inputBase
    else if reg == 3 then c.outputBase
    else if reg == 4 then c.imgH * 0x1_0000 + c.imgW
    else if reg == 5 then c.coeffBase * 0x1_0000 + c.rshift * 0x100 + c.kdim
    else if reg == 6 then s.result
    else 0
  }

  predicate Accepts(c: Config) {
    !(c.kdim == 0 || c.kdim > MAXK || c.imgW < c.kdim || c.imgH < c.kdim)
  }

  // ---- Counter widths ------------------------------------------------------------------------

  function Low16(x: int): nat { x % 0x1_0000 }
  function Low7(x: int): nat { x % 0x80 }
  function Low5(x: int): nat { x % 0x20 }

  // ---- Wires ---------------------------------------------------------------------------------

  function Kk(a: Accel): nat { a.job.k * a.job.k % 0x100 }

  predicate Present(a: Accel) {
    (a.status.state == S_LC && a.scan.ci < Kk(a)) || (a.status.state == S_STREAM && a.scan.tap < Kk(a))
  }

  /** Word index on scratchpad port B. */
  function PortIndex(a: Accel): (i: nat)
    ensures i < SCRATCH_WORDS
  {
    if a.status.state == S_LC && Present(a) then (a.job.coeffBase + a.scan.ci) % SCRATCH_WORDS
    else if a.status.state == S_STREAM && Present(a) then a.scan.pixPtr % SCRATCH_WORDS
    else if a.status.state == S_WRITE then a.scan.outPtr % SCRATCH_WORDS
    else 0
  }

  function MacAcc(a: Accel): int {
    if a.status.state == S_STREAM && a.scan.stValidD then
      var product := Sx16(a.bData) * a.operand.coeffD;
      if a.operand.firstD then product else Wrap48(a.acc + product)
    else a.acc
  }

  function OutWord(a: Accel): Word { Scale(a.acc, a.job.shift) }

  predicate LastPix(a: Accel) {
    a.scan.ox == Low16(a.job.outW - 1) && a.scan.oy == Low16(a.job.outH - 1)
  }

  predicate Shaped(a: Accel) { |a.coeffBuf| == TAPS && |a.scratch| == SCRATCH_WORDS }

  /** At rest with the given configuration and scratchpad, and zeros everywhere else. */
  function AtRest(c: Config, mem: Scratch): (a: Accel)
    requires |mem| == SCRATCH_WORDS
    ensures Shaped(a) && a.status.state == S_IDLE && a.cfg == c && a.scratch == mem
  {
    Accel(c, Status(S_IDLE, false, false, false, 0), Latched(0, 0, 0, 0, 0, 0, 0),
          Scan(0, 0, 0, 0, 0, 0, 0, false, false, 0, 0, 0), Operand(0, false), 0, 0, seq(TAPS, _ => 0), mem)
  }

  // ---- Next state ------------------------------------------------------------------------------

  /** Registers every cycle updates whatever the state: done acknowledge, port B data, accumulator. */
  function Always(a: Accel, b: Bus): (n: Accel)
    requires Shaped(a)
    ensures Shaped(n) && n.cfg == a.cfg && n.bData == a.scratch[PortIndex(a)] && n.acc == MacAcc(a)
  {
    a.(status := a.status.(done := a.status.done && !IntAck(b)), bData := a.scratch[PortIndex(a)], acc := MacAcc(a))
  }

  function IdleNext(a: Accel, b: Bus): (n: Accel)
    requires Shaped(a)
    ensures Shaped(n) && n.cfg == a.cfg && n.bData == a.scratch[PortIndex(a)] && n.acc == MacAcc(a)
  {
    var n := Always(a, b);
    var c := a.cfg;
    if !StartPulse(b) then n.(status := n.status.(busy := false))
    else
      var l := n.(job := Latched(c.inputBase, c.outputBase, c.kdim, c.rshift, c.coeffBase,
                                 Low16(c.imgW - c.kdim + 1), Low16(c.imgH - c.kdim + 1)));
      if !Accepts(c) then l.(status := n.status.(busy := false, error := true, done := true))
      else l.(status := n.status.(error := false, done := false, busy := true, state := S_LC),
              scan := a.scan.(ci := 0, lcValidD := false, winBase := c.inputBase, outPtr := c.outputBase))
  }

  function LoadNext(a: Accel, b: Bus): (n: Accel)
    requires Shaped(a)
    ensures Shaped(n) && n.cfg == a.cfg && n.bData == a.scratch[PortIndex(a)] && n.acc == MacAcc(a)
  {
    var (n, s, present) := (Always(a, b), a.scan, Present(a));
    var l := n.(
      coeffBuf := if s.lcValidD && s.sciD < TAPS then a.coeffBuf[s.sciD := Sx16(a.bData)] else a.coeffBuf,
      scan := s.(sciD := s.ci, lcValidD := present, ci := if present then Low7(s.ci + 1) else s.ci));
    if !present && s.lcValidD then l.(scan := l.scan.(ox := 0, oy := 0), status := n.status.(state := S_PINIT)) else l
  }

  function PixelNext(a: Accel, b: Bus): (n: Accel)
    requires Shaped(a)
    ensures Shaped(n) && n.cfg == a.cfg && n.bData == a.scratch[PortIndex(a)] && n.acc == MacAcc(a)
  {
    var n := Always(a, b);
    n.(status := n.status.(state := S_STREAM),
       scan := a.scan.(kx := 0, ky := 0, tap := 0, pixPtr := a.scan.winBase, stValidD := false))
  }

  function StreamNext(a: Accel, b: Bus): (n: Accel)
    requires Shaped(a)
    ensures Shaped(n) && n.cfg == a.cfg && n.bData == a.scratch[PortIndex(a)] && n.acc == MacAcc(a)
  {
    var (n, s, present) := (Always(a, b), a.scan, Present(a));
    var l :=
      if !present then n.(scan := s.(stValidD := false))
      else
        var t := s.(stValidD := true, tap := Low7(s.tap + 1));
        n.(operand := Operand(if s.tap < TAPS then a.coeffBuf[s.tap] else a.operand.coeffD, s.tap == 0),
           scan := if s.kx == Low5(a.job.k - 1)
             then t.(kx := 0, ky := Low5(s.ky + 1), pixPtr := Wrap(s.pixPtr + a.job.outW))
             else t.(kx := Low5(s.kx + 1), pixPtr := Wrap(s.pixPtr + 1)));
    if !present && s.stValidD then l.(status := n.status.(state := S_WRITE)) else l
  }

  function WriteNext(a: Accel, b: Bus): (n: Accel)
    requires Shaped(a)
    ensures Shaped(n) && n.cfg == a.cfg && n.bData == a.scratch[PortIndex(a)] && n.acc == MacAcc(a)
  {
    var (n, s) := (Always(a, b), a.scan);
    var l := n.(status := n.status.(result := OutWord(a), state := if LastPix(a) then S_DONE else S_PINIT),
                scratch := a.scratch[PortIndex(a) := OutWord(a)]);
    if LastPix(a) then l
    else
      var t := s.(outPtr := Wrap(s.outPtr + 1));
      l.(scan := if s.ox == Low16(a.job.outW - 1)
           then t.(ox := 0, oy := Low16(s.oy + 1), winBase := Wrap(s.winBase + a.job.k))
           else t.(ox := Low16(s.ox + 1), winBase := Wrap(s.winBase + 1)))
  }

  function FsmNext(a: Accel, b: Bus): (n: Accel)
    requires Shaped(a)
    ensures Shaped(n) && n.cfg == a.cfg && n.bData == a.scratch[PortIndex(a)] && n.acc == MacAcc(a)
  {
    match a.status.state
    case S_IDLE => IdleNext(a, b)
    case S_LC => LoadNext(a, b)
    case S_PINIT => PixelNext(a, b)
    case S_STREAM => StreamNext(a, b)
    case S_WRITE => WriteNext(a, b)
    case S_DONE => var n := Always(a, b); n.(status := n.status.(busy := false, done := true, state := S_IDLE))
  }

  function AccelNext(a: Accel, b: Bus): (n: Accel)
    requires Shaped(a)
    ensures Shaped(n)
  {
    FsmNext(a, b).(cfg := ConfigNext(a.cfg, b))
  }

  // ---- Lockstep with the multiplied-address model -------------------------------------------------

  /** The job the latched configuration describes. */
  function JobOf(a: Accel): Job
    requires a.job.outW >= 1 && a.job.outH >= 1
  {
    Job(a.job.inBase, a.job.outBase, a.job.coeffBase,
        a.job.outW + a.job.k - 1, a.job.outH + a.job.k - 1, a.job.k, a.job.shift)
  }

  function PhaseOf(s: Fsm): M.Phase {
    match s
    case S_LC => M.LoadCoeffs
    case S_PINIT => M.PixelInit
    case S_STREAM => M.Stream
    case S_WRITE => M.Write
    case _ => M.Done
  }

  function ToModel(a: Accel): M.Model {
    M.Model(PhaseOf(a.status.state), a.scan.ci, a.scan.sciD, a.scan.lcValidD, a.scan.kx, a.scan.ky, a.scan.tap,
            a.operand.coeffD, a.operand.firstD, a.scan.stValidD,
            a.scan.ox, a.scan.oy, a.acc, a.bData, a.status.result, a.coeffBuf, a.scratch)
  }

  /** The incremental pointers are the multiplied addresses they replace, modulo 2^32. */
  predicate Pointers(a: Accel)
    requires a.job.outW >= 1 && a.job.outH >= 1
  {
    var j := JobOf(a);
    && (a.status.state == S_LC ==> a.scan.winBase == j.inBase && a.scan.outPtr == j.outBase)
    && (a.status.state == S_PINIT || a.status.state == S_STREAM || a.status.state == S_WRITE ==>
          a.scan.winBase == Wrap(M.WindowAddr(j, a.scan.oy, a.scan.ox)) &&
          a.scan.outPtr == Wrap(M.WriteAddr(j, ToModel(a))))
    && (a.status.state == S_STREAM ==> a.scan.pixPtr == Wrap(M.ReadAddr(j, ToModel(a))))
  }

  predicate Running(mem0: Scratch, a: Accel) {
    && Shaped(a) && a.status.state != S_IDLE && a.status.busy && !a.status.done
    && 1 <= a.job.k <= MAXK && 1 <= a.job.outW <= 0xFFFF && 1 <= a.job.outH <= 0xFFFF
    && M.JobInv(JobOf(a), mem0, ToModel(a))
    && Pointers(a)
  }

  /** The model consumes the operand register in this state. */
  predicate Consumes(m: M.Model) {
    (m.phase == M.LoadCoeffs && m.loadValid) || (m.phase == M.Stream && m.pixValid)
  }

  /** Equal apart from operand data that is never used. */
  predicate Same(m: M.Model, n: M.Model) {
    m.(data := 0) == n.(data := 0) && (Consumes(n) ==> m.data == n.data)
  }

  lemma SameKeepsInv(j: Job, mem0: Scratch, m: M.Model, n: M.Model)
    requires Same(m, n) && M.JobInv(j, mem0, n)
    ensures M.JobInv(j, mem0, m)
  {
    hide WrittenBack, Dot, PixAddr, Taps, Pixels, OutSample, M.LastSample;
  }

  lemma ModMod(x: int)
    ensures Wrap(x) % SCRATCH_WORDS == x % SCRATCH_WORDS
  {
    var q := x / W32;
    assert x == q * W32 + Wrap(x);
    assert x == Wrap(x) + 1024 * (q * 0x40_0000);
  }

  lemma WrapAdd(x: int, d: int)
    ensures Wrap(Wrap(x) + d) == Wrap(x + d)
  {
  }

  lemma KkIs(a: Accel)
    requires 1 <= a.job.k <= MAXK && a.job.outW >= 1 && a.job.outH >= 1
    ensures Kk(a) == Taps(JobOf(a)) <= TAPS && Valid(JobOf(a))
    ensures OutW(JobOf(a)) == a.job.outW && OutH(JobOf(a)) == a.job.outH
  {
    TapsBound(JobOf(a));
  }

  /** The job, its size and the status flags are as they were. */
  predicate SameJob(a: Accel, n: Accel) {
    n.job.inBase == a.job.inBase && n.job.outBase == a.job.outBase && n.job.coeffBase == a.job.coeffBase &&
    n.job.k == a.job.k && n.job.shift == a.job.shift && n.job.outW == a.job.outW && n.job.outH == a.job.outH &&
    n.status.busy && !n.status.done && n.status.state != S_IDLE && Shaped(n)
  }

  /** What one clock of a running job does, seen through the mapping. */
  predicate StepsLikeModel(mem0: Scratch, a: Accel, n: Accel)
    requires Running(mem0, a)
  {
    SameJob(a, n) && Same(ToModel(n), M.ModelNext(JobOf(a), ToModel(a))) && Pointers(n)
  }

  lemma FlagsKept(mem0: Scratch, a: Accel, b: Bus)
    requires Running(mem0, a) && a.status.state != S_DONE
    ensures SameJob(a, AccelNext(a, b))
  {
    hide Kk, MacAcc, Sx16, Wrap, PortIndex, Present, M.JobInv, Pointers, OutWord, LastPix;
  }

  lemma LoadSame(mem0: Scratch, a: Accel, b: Bus)
    requires Running(mem0, a) && a.status.state == S_LC
    ensures Same(ToModel(AccelNext(a, b)), M.ModelNext(JobOf(a), ToModel(a)))
  {
    KkIs(a);
    assert M.ReadAddr(JobOf(a), ToModel(a)) == a.job.coeffBase + a.scan.ci;
    hide WrittenBack, Dot, PixAddr, Taps, Pixels, ConfigNext, Kk, Sx16, M.CoeffsLoaded, M.WindowAddr, M.WriteAddr,
      M.ReadAddr, OutW, OutH, M.Finished, Pointers, IntAck;
  }

  /** Where a load cycle leaves the scan position and the pointers. */
  lemma LoadFields(a: Accel, b: Bus)
    requires Shaped(a) && a.status.state == S_LC
    ensures
      var n := AccelNext(a, b);
      && n.scan.winBase == a.scan.winBase && n.scan.outPtr == a.scan.outPtr
      && (n.status.state == S_LC || (n.status.state == S_PINIT && n.scan.ox == 0 && n.scan.oy == 0))
  {
    hide Kk, Sx16, MacAcc, PortIndex, ConfigNext, IntAck, Low7, Present;
  }

  lemma LoadPointers(mem0: Scratch, a: Accel, b: Bus)
    requires Running(mem0, a) && a.status.state == S_LC && SameJob(a, AccelNext(a, b))
    ensures Pointers(AccelNext(a, b))
  {
    LoadFields(a, b);
    var (j, n) := (JobOf(a), AccelNext(a, b));
    hide AccelNext, M.JobInv, Kk;
    FirstAddresses(j, ToModel(n));
    SmallMod(a.scan.winBase, W32);
    SmallMod(a.scan.outPtr, W32);
    hide M.WindowAddr, M.WriteAddr;
  }

  lemma FirstAddresses(j: Job, m: M.Model)
    ensures M.WindowAddr(j, 0, 0) == j.inBase
    ensures m.ox == 0 && m.oy == 0 ==> M.WriteAddr(j, m) == j.outBase
  {
  }

  lemma LoadLockstep(mem0: Scratch, a: Accel, b: Bus)
    requires Running(mem0, a) && a.status.state == S_LC
    ensures StepsLikeModel(mem0, a, AccelNext(a, b))
  {
    hide Running, AccelNext, Same, SameJob, Pointers, M.ModelNext;
    FlagsKept(mem0, a, b);
    LoadSame(mem0, a, b);
    LoadPointers(mem0, a, b);
  }

  lemma PixelSame(mem0: Scratch, a: Accel, b: Bus)
    requires Running(mem0, a) && a.status.state == S_PINIT
    ensures Same(ToModel(AccelNext(a, b)), M.ModelNext(JobOf(a), ToModel(a)))
  {
    hide WrittenBack, Dot, PixAddr, Taps, Pixels, ConfigNext, Kk, Sx16, M.CoeffsLoaded, M.Finished, Pointers, Wrap48,
      PortIndex, IntAck, OutW, OutH, Peek, Valid;
  }

  lemma PixelPointers(mem0: Scratch, a: Accel, b: Bus)
    requires Running(mem0, a) && a.status.state == S_PINIT && SameJob(a, AccelNext(a, b))
    ensures Pointers(AccelNext(a, b))
  {
    KkIs(a);
    var n := AccelNext(a, b);
    assert n.status.state == S_STREAM && n.scan.pixPtr == a.scan.winBase && n.scan.kx == 0 && n.scan.ky == 0;
    assert n.scan.winBase == a.scan.winBase && n.scan.outPtr == a.scan.outPtr;
    assert n.scan.ox == a.scan.ox && n.scan.oy == a.scan.oy;
    hide AccelNext, M.JobInv, Kk, OutW, OutH, Wrap;
  }

  lemma PixelLockstep(mem0: Scratch, a: Accel, b: Bus)
    requires Running(mem0, a) && a.status.state == S_PINIT
    ensures StepsLikeModel(mem0, a, AccelNext(a, b))
  {
    hide Running, AccelNext, Same, SameJob, Pointers, M.ModelNext;
    FlagsKept(mem0, a, b);
    PixelSame(mem0, a, b);
    PixelPointers(mem0, a, b);
  }

  /** The registers a streaming cycle leaves behind, one by one. */
  lemma StreamFields(a: Accel, b: Bus)
    requires Shaped(a) && a.status.state == S_STREAM && 1 <= a.job.k <= MAXK && a.scan.kx < a.job.k
    requires a.scan.ky <= MAXK && a.scan.tap <= TAPS
    ensures
      var n := AccelNext(a, b);
      var present := Present(a);
      var rowEnd := a.scan.kx == a.job.k - 1;
      && n.status.state == (if !present && a.scan.stValidD then S_WRITE else S_STREAM)
      && n.scan.ci == a.scan.ci && n.scan.sciD == a.scan.sciD && n.scan.lcValidD == a.scan.lcValidD
      && n.scan.ox == a.scan.ox && n.scan.oy == a.scan.oy && n.status.result == a.status.result
      && n.coeffBuf == a.coeffBuf && n.scratch == a.scratch
      && n.acc == MacAcc(a) && n.bData == a.scratch[PortIndex(a)] && n.scan.stValidD == present
      && n.scan.winBase == a.scan.winBase && n.scan.outPtr == a.scan.outPtr
      && (present ==>
            && n.operand.coeffD == (if a.scan.tap < TAPS then a.coeffBuf[a.scan.tap] else a.operand.coeffD)
            && n.operand.firstD == (a.scan.tap == 0) && n.scan.tap == a.scan.tap + 1
            && n.scan.kx == (if rowEnd then 0 else a.scan.kx + 1)
            && n.scan.ky == (if rowEnd then a.scan.ky + 1 else a.scan.ky)
            && n.scan.pixPtr == (if rowEnd then Wrap(a.scan.pixPtr + a.job.outW) else Wrap(a.scan.pixPtr + 1)))
      && (!present ==>
            && n.operand.coeffD == a.operand.coeffD && n.operand.firstD == a.operand.firstD && n.scan.tap == a.scan.tap
            && n.scan.kx == a.scan.kx && n.scan.ky == a.scan.ky && n.scan.pixPtr == a.scan.pixPtr)
  {
    hide Present, MacAcc, PortIndex, Wrap, ConfigNext, IntAck;
  }

  /** The registers a write cycle leaves behind, one by one. */
  lemma WriteFields(a: Accel, b: Bus)
    requires Shaped(a) && a.status.state == S_WRITE && a.scan.ox < a.job.outW <= 0xFFFF
    requires a.scan.oy < a.job.outH <= 0xFFFF
    ensures
      var n := AccelNext(a, b);
      var rowEnd := a.scan.ox == a.job.outW - 1;
      && n.status.state == (if LastPix(a) then S_DONE else S_PINIT)
      && n.scan.ci == a.scan.ci && n.scan.sciD == a.scan.sciD && n.scan.lcValidD == a.scan.lcValidD
      && n.scan.kx == a.scan.kx && n.scan.ky == a.scan.ky && n.scan.tap == a.scan.tap
      && n.operand.coeffD == a.operand.coeffD && n.operand.firstD == a.operand.firstD
      && n.scan.stValidD == a.scan.stValidD && n.coeffBuf == a.coeffBuf && n.acc == MacAcc(a)
      && n.status.result == OutWord(a) && n.scratch == a.scratch[PortIndex(a) := OutWord(a)]
      && (LastPix(a) ==> n.scan.ox == a.scan.ox && n.scan.oy == a.scan.oy)
      && (!LastPix(a) ==>
            && n.scan.outPtr == Wrap(a.scan.outPtr + 1)
            && n.scan.ox == (if rowEnd then 0 else a.scan.ox + 1)
            && n.scan.oy == (if rowEnd then a.scan.oy + 1 else a.scan.oy)
            && n.scan.winBase == (if rowEnd then Wrap(a.scan.winBase + a.job.k) else Wrap(a.scan.winBase + 1)))
  {
    hide LastPix, MacAcc, PortIndex, Wrap, ConfigNext, IntAck, OutWord;
  }

  lemma GridBound(mem0: Scratch, a: Accel)
    requires Running(mem0, a)
    ensures M.InRange(JobOf(a), ToModel(a))
    ensures a.status.state != S_LC ==> a.scan.ox < a.job.outW && a.scan.oy < a.job.outH
  {
    hide WrittenBack, Dot, PixAddr, M.LoadOk, M.StreamOk, Pointers, M.CoeffsLoaded, M.Finished, M.LastSample,
      M.PixelOf, Taps;
  }

  lemma TapPosition(mem0: Scratch, a: Accel)
    requires Running(mem0, a) && a.status.state == S_STREAM
    ensures a.scan.kx < a.job.k && a.scan.tap == a.scan.ky * a.job.k + a.scan.kx && a.scan.tap <= Taps(JobOf(a))
    ensures a.scan.stValidD ==> a.scan.tap >= 1
  {
    hide WrittenBack, Dot, PixAddr, M.LoadOk, Pointers, M.CoeffsLoaded, M.Finished, M.LastSample, M.PixelOf, Peek,
      Coeff, Taps, Valid;
  }

  lemma RowCount(ky: nat, kx: nat, k: nat, tap: nat)
    requires k >= 1 && tap == ky * k + kx && tap <= k * k
    ensures ky <= k
  {
    if ky > k { MonotoneProduct(k + 1, ky, k); }
  }

  lemma RowBound(mem0: Scratch, a: Accel)
    requires Running(mem0, a) && a.status.state == S_STREAM && 1 <= a.job.k <= MAXK && Taps(JobOf(a)) <= TAPS
    ensures a.scan.kx < a.job.k && a.scan.tap <= TAPS && a.scan.ky <= MAXK
    ensures a.scan.stValidD ==> a.scan.tap >= 1
  {
    hide Running;
    TapPosition(mem0, a);
    RowCount(a.scan.ky, a.scan.kx, a.job.k, a.scan.tap);
  }

  lemma LoadCount(mem0: Scratch, a: Accel)
    requires Running(mem0, a) && a.status.state == S_LC && Taps(JobOf(a)) <= TAPS
    ensures a.scan.ci <= TAPS && (a.scan.lcValidD ==> a.scan.sciD < TAPS) && M.JobInv(JobOf(a), mem0, ToModel(a))
  {
    hide M.CoeffsLoaded, WrittenBack, Dot, PixAddr, M.LastSample, M.PixelOf, Pointers, Taps, M.Finished, Peek;
  }

  lemma CornerAgrees(a: Accel)
    requires 1 <= a.job.outW <= 0xFFFF && 1 <= a.job.outH <= 0xFFFF
    ensures LastPix(a) <==> M.LastPixel(JobOf(a), ToModel(a))
  {
  }

  /** Bounds of the registers while a job runs. */
  lemma RunningFacts(mem0: Scratch, a: Accel)
    requires Running(mem0, a)
    ensures Shaped(a) && 1 <= a.job.k <= MAXK && 1 <= a.job.outW <= 0xFFFF && 1 <= a.job.outH <= 0xFFFF
    ensures Kk(a) == Taps(JobOf(a)) <= TAPS && Valid(JobOf(a))
    ensures OutW(JobOf(a)) == a.job.outW && OutH(JobOf(a)) == a.job.outH
    ensures M.InRange(JobOf(a), ToModel(a)) && Pointers(a)
    ensures a.status.state == S_STREAM ==>
              a.scan.kx < a.job.k && a.scan.tap <= TAPS && a.scan.ky <= MAXK && (a.scan.stValidD ==> a.scan.tap >= 1)
    ensures a.status.state != S_LC ==> a.scan.ox < a.job.outW && a.scan.oy < a.job.outH
    ensures LastPix(a) <==> M.LastPixel(JobOf(a), ToModel(a))
    ensures
      a.status.state == S_LC ==>
        a.scan.ci <= TAPS && (a.scan.lcValidD ==> a.scan.sciD < TAPS) && M.JobInv(JobOf(a), mem0, ToModel(a))
  {
    hide M.JobInv, Pointers, Taps, Kk, Valid, M.InRange, OutW, OutH, LastPix, M.LastPixel, M.Finished;
    KkIs(a);
    GridBound(mem0, a);
    CornerAgrees(a);
    if a.status.state == S_STREAM { RowBound(mem0, a); }
    if a.status.state == S_LC { LoadCount(mem0, a); }
  }

  /** The pointer presents the word at the multiplied address. */
  lemma StreamIndex(mem0: Scratch, a: Accel)
    requires Running(mem0, a) && a.status.state == S_STREAM && Present(a)
    ensures a.scratch[PortIndex(a)] == Peek(a.scratch, M.ReadAddr(JobOf(a), ToModel(a)))
  {
    ModMod(M.ReadAddr(JobOf(a), ToModel(a)));
    hide M.ReadAddr, Wrap, M.JobInv, Present;
  }

  lemma StreamSame(mem0: Scratch, a: Accel, b: Bus)
    requires Running(mem0, a) && a.status.state == S_STREAM
    ensures M.InRange(JobOf(a), ToModel(a))
    ensures Same(ToModel(AccelNext(a, b)), M.ModelNext(JobOf(a), ToModel(a)))
  {
    hide Running;
    RunningFacts(mem0, a);
    assert Present(a) <==> M.StreamsNow(JobOf(a), ToModel(a));
    if Present(a) { StreamIndex(mem0, a); }
    StreamFields(a, b);
    JobFields(a);
    assert M.Mac(ToModel(a)) == MacAcc(a);
    hide AccelNext, Taps, Kk, M.ReadAddr, M.InRange, OutW, OutH, Pointers, LastPix, M.LastPixel, PortIndex, Peek,
      M.Mac, MacAcc, JobOf, Shaped;
  }

  lemma StreamPointers(mem0: Scratch, a: Accel, b: Bus)
    requires Running(mem0, a) && a.status.state == S_STREAM && SameJob(a, AccelNext(a, b))
    ensures Pointers(AccelNext(a, b))
  {
    hide Running;
    RunningFacts(mem0, a);
    StreamFields(a, b);
    var n := AccelNext(a, b);
    JobKept(a, n);
    hide LastPix, M.LastPixel, AccelNext, Kk, OutH, M.InRange, MacAcc, PortIndex, SameJob, Present;
    var j := JobOf(a);
    var m := ToModel(a);
    var addr := M.ReadAddr(j, m);
    WrapAdd(addr, 1);
    WrapAdd(addr, a.job.outW);
    M.ReadAddrSteps(j, m);
    SameRead(j, m, ToModel(n));
    SameRead(j, m.(kx := m.kx + 1), ToModel(n));
    SameRead(j, m.(kx := 0, ky := m.ky + 1), ToModel(n));
    SameWrite(j, m, ToModel(n));
    JobFields(a);
    hide M.WindowAddr, OutW, Wrap, M.ReadAddr, M.WriteAddr, JobOf;
  }

  lemma JobKept(a: Accel, n: Accel)
    requires a.job.outW >= 1 && a.job.outH >= 1 && SameJob(a, n)
    ensures n.job.outW == a.job.outW && n.job.outH == a.job.outH && JobOf(n) == JobOf(a)
  {
  }

  lemma SameRead(j: Job, m: M.Model, n: M.Model)
    requires m.phase == M.Stream
    ensures m.ox == n.ox && m.oy == n.oy && m.kx == n.kx && m.ky == n.ky && n.phase == M.Stream ==>
              M.ReadAddr(j, m) == M.ReadAddr(j, n)
  {
  }

  lemma StreamLockstep(mem0: Scratch, a: Accel, b: Bus)
    requires Running(mem0, a) && a.status.state == S_STREAM
    ensures StepsLikeModel(mem0, a, AccelNext(a, b))
  {
    hide Running, AccelNext, Same, SameJob, Pointers, M.ModelNext;
    FlagsKept(mem0, a, b);
    StreamSame(mem0, a, b);
    StreamPointers(mem0, a, b);
  }

  lemma WriteIndex(mem0: Scratch, a: Accel)
    requires Running(mem0, a) && a.status.state == S_WRITE
    ensures a.scan.outPtr % SCRATCH_WORDS == M.WriteAddr(JobOf(a), ToModel(a)) % SCRATCH_WORDS
    ensures M.WriteAddr(JobOf(a), ToModel(a)) >= 0
  {
    ModMod(M.WriteAddr(JobOf(a), ToModel(a)));
    hide Wrap, M.JobInv;
  }

  lemma WriteSame(mem0: Scratch, a: Accel, b: Bus)
    requires Running(mem0, a) && a.status.state == S_WRITE
    ensures M.InRange(JobOf(a), ToModel(a))
    ensures Same(ToModel(AccelNext(a, b)), M.ModelNext(JobOf(a), ToModel(a)))
  {
    hide Running;
    RunningFacts(mem0, a);
    WriteIndex(mem0, a);
    WriteFields(a, b);
    hide AccelNext, Running, Taps, Kk, M.WriteAddr, Scale, M.InRange, OutW, OutH, LastPix, M.LastPixel, Pointers;
    JobFields(a);
  }

  /** In and out of a write, the pointers are the model's addresses. */
  lemma WriteFacts(mem0: Scratch, a: Accel)
    requires Running(mem0, a) && a.status.state == S_WRITE
    ensures
      var j := JobOf(a);
      var s := a.scan;
      && Shaped(a) && s.ox < a.job.outW <= 0xFFFF && s.oy < a.job.outH <= 0xFFFF
      && M.InRange(j, ToModel(a)) && OutW(j) == a.job.outW && j.k == a.job.k
      && s.winBase == Wrap(M.WindowAddr(j, s.oy, s.ox)) && s.outPtr == Wrap(M.WriteAddr(j, ToModel(a)))
  {
    hide Running;
    RunningFacts(mem0, a);
    hide M.InRange, Wrap, M.WindowAddr, M.WriteAddr, Kk, LastPix, M.LastPixel, Taps;
  }

  lemma WritePointers(mem0: Scratch, a: Accel, b: Bus)
    requires Running(mem0, a) && a.status.state == S_WRITE && SameJob(a, AccelNext(a, b))
    ensures Pointers(AccelNext(a, b))
  {
    hide Running, AccelNext, SameJob, OutWord, MacAcc, PortIndex, LastPix;
    WriteFacts(mem0, a);
    WriteFields(a, b);
    var j := JobOf(a);
    var (m, win, out) := (ToModel(a), M.WindowAddr(j, a.scan.oy, a.scan.ox), M.WriteAddr(j, ToModel(a)));
    var n := AccelNext(a, b);
    JobKept(a, n);
    WrapAdd(out, 1);
    WrapAdd(win, 1);
    WrapAdd(win, a.job.k);
    M.PixelAddrSteps(j, m);
    SameWrite(j, m.(ox := m.ox + 1), ToModel(n));
    SameWrite(j, m.(ox := 0, oy := m.oy + 1), ToModel(n));
    hide Wrap, M.WindowAddr, M.WriteAddr, M.ReadAddr, OutW, OutH, M.InRange, JobOf;
  }

  lemma JobFields(a: Accel)
    requires a.job.outW >= 1 && a.job.outH >= 1
    ensures JobOf(a).shift == a.job.shift && JobOf(a).k == a.job.k
  {
  }

  lemma SameWrite(j: Job, m: M.Model, n: M.Model)
    ensures m.ox == n.ox && m.oy == n.oy ==> M.WriteAddr(j, m) == M.WriteAddr(j, n)
  {
  }

  lemma WriteLockstep(mem0: Scratch, a: Accel, b: Bus)
    requires Running(mem0, a) && a.status.state == S_WRITE
    ensures StepsLikeModel(mem0, a, AccelNext(a, b))
  {
    hide Running, AccelNext, Same, SameJob, Pointers, M.ModelNext;
    FlagsKept(mem0, a, b);
    WriteSame(mem0, a, b);
    WritePointers(mem0, a, b);
  }

  // ---- A whole job ------------------------------------------------------------------------------------

  /** One clock of a running job keeps the invariant and uses up exactly one cycle; nothing on the
      register bus makes a difference. */
  lemma RunningStep(mem0: Scratch, a: Accel, b: Bus)
    requires Running(mem0, a) && a.status.state != S_DONE
    ensures
      var n := AccelNext(a, b);
      && Running(mem0, n) && SameJob(a, n) && JobOf(n) == JobOf(a)
      && CyclesLeft(n) == CyclesLeft(a) - 1 && CyclesLeft(a) >= 2
  {
    var n := AccelNext(a, b);
    if a.status.state == S_LC { LoadLockstep(mem0, a, b); }
    else if a.status.state == S_PINIT { PixelLockstep(mem0, a, b); }
    else if a.status.state == S_STREAM { StreamLockstep(mem0, a, b); }
    else { WriteLockstep(mem0, a, b); }
    RunningFacts(mem0, a);
    JobKept(a, n);
    var (j, m) := (JobOf(a), ToModel(a));
    assert M.JobInv(j, mem0, m);
    hide AccelNext, M.JobInv, M.ModelNext, Taps, OutW, OutH, Kk, M.InRange, M.Remaining, LastPix, M.LastPixel, Same;
    M.StepTakesOneCycle(j, mem0, m);
    SameKeepsInv(j, mem0, ToModel(n), M.ModelNext(j, m));
    SameRemaining(j, mem0, ToModel(n), M.ModelNext(j, m));
  }

  /** Cycles until the accelerator is idle again. */
  function CyclesLeft(a: Accel): int {
    if a.status.state != S_IDLE && a.job.outW >= 1 && a.job.outH >= 1 && M.InRange(JobOf(a), ToModel(a))
    then M.Remaining(JobOf(a), ToModel(a)) else 0
  }

  lemma SameRemaining(j: Job, mem0: Scratch, m: M.Model, n: M.Model)
    requires Same(m, n) && M.JobInv(j, mem0, m) && M.JobInv(j, mem0, n)
    ensures M.Remaining(j, m) == M.Remaining(j, n)
  {
    hide WrittenBack, Dot, PixAddr, Taps, Pixels, OutSample, M.LastSample, M.Later, M.LoadOk, M.StreamOk,
      M.CoeffsLoaded, M.Finished;
  }
}
