/** Whole accelerator jobs, from START to DONE. */
module DirJob {
  import opened Arithmetic
  import opened Words
  import opened Conv
  import opened ConvMeaning
  import opened DirAccel
  import opened Overlap
  import M = AccelModel

  /** The job a configuration describes. */
  function ConfigJob(c: Config): Job {
    Job(c.inputBase, c.outputBase, c.coeffBase, c.imgW, c.imgH, c.kdim, c.rshift)
  }

  predicate Idle(a: Accel) { Shaped(a) && a.status.state == S_IDLE && ConfigOk(a.cfg) }

  function AccelAfter(a: Accel, bs: seq<Bus>): (n: Accel)
    requires Shaped(a)
    ensures Shaped(n)
    decreases |bs|
  {
    if bs == [] then a else AccelAfter(AccelNext(a, bs[0]), bs[1..])
  }

  /** START on a valid configuration sets up the job on the scratchpad as it stands. */
  lemma StartBegins(a: Accel, b: Bus)
    requires Idle(a) && StartPulse(b) && Accepts(a.cfg)
    ensures
      var n := AccelNext(a, b);
      && Running(a.scratch, n) && JobOf(n) == ConfigJob(a.cfg)
      && CyclesLeft(n) == M.JobCycles(ConfigJob(a.cfg))
  {
    var (n, j) := (AccelNext(a, b), ConfigJob(a.cfg));
    TapsBound(j);
    StartFields(a, b);
    assert WrittenBack(j, a.scratch, 0) == a.scratch;
    hide AccelNext, Taps, Pixels, Dot, PixAddr, M.PixelCycles, M.LastSample, WrittenBack, StartPulse;
  }

  lemma StartFields(a: Accel, b: Bus)
    requires Idle(a) && StartPulse(b) && Accepts(a.cfg)
    ensures
      var n := AccelNext(a, b);
      var c := a.cfg;
      && n.status.state == S_LC && n.status.busy && !n.status.done && !n.status.error && n.scan.ci == 0
      && !n.scan.lcValidD
      && n.job.inBase == c.inputBase && n.job.outBase == c.outputBase && n.job.coeffBase == c.coeffBase
      && n.job.k == c.kdim && n.job.shift == c.rshift
      && n.job.outW == c.imgW - c.kdim + 1 && n.job.outH == c.imgH - c.kdim + 1
      && n.scan.winBase == c.inputBase && n.scan.outPtr == c.outputBase
      && n.scratch == a.scratch && n.coeffBuf == a.coeffBuf
  {
    hide MacAcc, PortIndex, ConfigNext;
  }

  /** START on an invalid configuration reports an error and touches nothing. */
  lemma StartRejected(a: Accel, b: Bus)
    requires Idle(a) && StartPulse(b) && !Accepts(a.cfg)
    ensures
      var n := AccelNext(a, b);
      && n.status.state == S_IDLE && n.status.error && n.status.done && !n.status.busy
      && n.scratch == a.scratch && n.status.result == a.status.result
    ensures Accepts(a.cfg) <==> Valid(ConfigJob(a.cfg))
  {
    hide MacAcc, PortIndex;
  }

  lemma LastClock(mem0: Scratch, a: Accel, b: Bus)
    requires Running(mem0, a) && a.status.state == S_DONE
    ensures CyclesLeft(a) == 1
    ensures
      var n := AccelNext(a, b);
      var j := JobOf(a);
      && n.status.state == S_IDLE && !n.status.busy && n.status.done
      && n.scratch == WrittenBack(j, mem0, Pixels(j)) && n.status.result == M.LastSample(j, mem0)
  {
    hide WrittenBack, Dot, PixAddr, Taps, Pixels, OutSample, M.LastSample, Pointers, M.CoeffsLoaded, MacAcc,
      PortIndex, Always;
    assert a.scratch == WrittenBack(JobOf(a), mem0, Pixels(JobOf(a)));
    DoneFields(a, b);
  }

  lemma DoneFields(a: Accel, b: Bus)
    requires Shaped(a) && a.status.state == S_DONE
    ensures
      var n := AccelNext(a, b);
      && n.status.state == S_IDLE && !n.status.busy && n.status.done
      && n.scratch == a.scratch && n.status.result == a.status.result
  {
    hide MacAcc, PortIndex;
  }

  lemma CyclesPositive(mem0: Scratch, a: Accel)
    requires Running(mem0, a)
    ensures CyclesLeft(a) >= 1
  {
    hide AccelNext, Running, CyclesLeft;
    var b := Bus(false, false, 0, 0);
    if a.status.state == S_DONE { LastClock(mem0, a, b); } else { RunningStep(mem0, a, b); }
  }

  /** BUSY and not DONE before every one of the first `n` clocks. */
  predicate BusyFor(a: Accel, bs: seq<Bus>)
    requires Shaped(a)
    decreases |bs|
  {
    bs != [] ==> a.status.busy && !a.status.done && BusyFor(AccelNext(a, bs[0]), bs[1..])
  }

  /** A running job keeps BUSY for exactly the cycles it has left, whatever is written to the
      registers meanwhile, and then holds the written-back scratchpad. */
  lemma {:induction false} JobRuns(mem0: Scratch, a: Accel, bs: seq<Bus>)
    requires Running(mem0, a) && |bs| == CyclesLeft(a)
    ensures
      var f := AccelAfter(a, bs);
      var j := JobOf(a);
      && BusyFor(a, bs) && f.status.state == S_IDLE && !f.status.busy && f.status.done
      && f.scratch == WrittenBack(j, mem0, Pixels(j)) && f.status.result == M.LastSample(j, mem0)
    decreases |bs|
  {
    hide AccelNext, WrittenBack, CyclesLeft, Pixels, JobOf, M.LastSample, M.JobInv, Pointers;
    CyclesPositive(mem0, a);
    if a.status.state == S_DONE {
      LastClock(mem0, a, bs[0]);
      assert bs[1..] == [];
    } else {
      RunningStep(mem0, a, bs[0]);
      JobRuns(mem0, AccelNext(a, bs[0]), bs[1..]);
    }
  }

  /** Exact latency and exact effect of a job, overlapping or wrapping tiles included: BUSY lasts
      JobCycles cycles, then DONE is set and the scratchpad is the initial one with the outputs
      written back in raster order, each computed from the words as they then are. */
  lemma JobFromStart(a: Accel, start: Bus, bs: seq<Bus>)
    requires Idle(a) && StartPulse(start) && Accepts(a.cfg)
    requires |bs| == M.JobCycles(ConfigJob(a.cfg))
    ensures
      var j := ConfigJob(a.cfg);
      var s := AccelNext(a, start);
      var f := AccelAfter(s, bs);
      && BusyFor(s, bs) && f.status.state == S_IDLE && !f.status.busy && f.status.done
      && f.scratch == WrittenBack(j, a.scratch, Pixels(j)) && f.status.result == M.LastSample(j, a.scratch)
  {
    StartBegins(a, start);
    hide AccelNext, WrittenBack, CyclesLeft, Pixels, M.LastSample, Running, M.JobCycles;
    JobRuns(a.scratch, AccelNext(a, start), bs);
  }

  lemma LastSampleOfOriginal(j: Job, mem0: Scratch)
    requires Tile(j) && NoClobber(j, |mem0|)
    ensures M.LastSample(j, mem0) == OutSample(j, mem0, mem0, M.FinalPixel(j))
  {
    DotOfOriginal(j, mem0, M.FinalPixel(j), Taps(j));
    hide NoClobber, Dot, WrittenBack, PixAddr, Taps, Pixels;
  }

  /** Accelerator correctness: for every valid job none of whose outputs lands on a word that a later one
      reads, tiles that wrap around the scratchpad included, the output tile becomes the convolution of the
      original tile with the original kernel, every other word is kept, and ACC_RESULT is the last sample. The
      kernel may be overwritten by the output. */
  lemma JobConvolves(a: Accel, start: Bus, bs: seq<Bus>)
    requires Idle(a) && StartPulse(start) && Accepts(a.cfg)
    requires |bs| == M.JobCycles(ConfigJob(a.cfg))
    requires Pixels(ConfigJob(a.cfg)) <= SCRATCH_WORDS && NoClobber(ConfigJob(a.cfg), SCRATCH_WORDS)
    ensures
      var j := ConfigJob(a.cfg);
      var f := AccelAfter(AccelNext(a, start), bs);
      IsConvolved(j, a.scratch, f.scratch) && f.status.result == OutSample(j, a.scratch, a.scratch, M.FinalPixel(j))
  {
    hide AccelNext, NoClobber, IsConvolved, Pixels, M.LastSample, M.JobCycles, OutSample, WrittenBack, M.FinalPixel,
      BusyFor;
    var j := ConfigJob(a.cfg);
    JobFromStart(a, start, bs);
    LastSampleOfOriginal(j, a.scratch);
    WrittenBackIsConvolved(j, a.scratch);
  }

  /** Tiles inside the scratchpad, and the output where no write lands on a word still to be read. */
  predicate SafeTiles(j: Job, depth: nat)
    requires Tile(j)
  {
    TilesFit(j, depth) && Unclobbered(j)
  }

  lemma SafeTilesDoNotClobber(j: Job, depth: nat)
    requires Tile(j) && depth > 0 && SafeTiles(j, depth)
    ensures NoClobber(j, depth) && Pixels(j) <= depth
  {
    hide NoClobber, Pixels, Unclobbered;
    NoClobberExactly(j, depth);
  }

  // ---- The safe jobs are exactly the ones that work ----------------------------------------------------

  /** Every job run with configuration `c` leaves the convolution, whatever the scratchpad held and
      whatever is written to the registers meanwhile. */
  ghost predicate AlwaysConvolves(c: Config)
    requires Accepts(c)
  {
    forall a: Accel, start: Bus, bs: seq<Bus> |
      Idle(a) && a.cfg == c && StartPulse(start) && |bs| == M.JobCycles(ConfigJob(c)) ::
      IsConvolved(ConfigJob(c), a.scratch, AccelAfter(AccelNext(a, start), bs).scratch)
  }

  lemma ClobberingJobFails(c: Config, start: Bus, bs: seq<Bus>) returns (a: Accel)
    requires ConfigOk(c) && Accepts(c) && StartPulse(start) && |bs| == M.JobCycles(ConfigJob(c))
    requires Pixels(ConfigJob(c)) <= SCRATCH_WORDS && !NoClobber(ConfigJob(c), SCRATCH_WORDS)
    ensures Idle(a) && a.cfg == c
    ensures !IsConvolved(ConfigJob(c), a.scratch, AccelAfter(AccelNext(a, start), bs).scratch)
  {
    hide AccelNext, AccelAfter, IsConvolved, Pixels, M.LastSample, M.JobCycles, WrittenBack, Taps, BusyFor, NoClobber,
      StartPulse;
    TapsBound(ConfigJob(c));
    var mem := ClobberShows(ConfigJob(c), SCRATCH_WORDS);
    a := AtRest(c, mem);
    JobFromStart(a, start, bs);
  }

  /** An output tile that fits the scratchpad always holds the convolution if and only if no output lands on a
      word that a later one reads; for tiles that do not wrap around, if and only if the output starts in one
      of the safe places. */
  lemma SafeJobsExactly(c: Config)
    requires ConfigOk(c) && Accepts(c) && Pixels(ConfigJob(c)) <= SCRATCH_WORDS
    ensures AlwaysConvolves(c) <==> NoClobber(ConfigJob(c), SCRATCH_WORDS)
    ensures TilesFit(ConfigJob(c), SCRATCH_WORDS) ==> (AlwaysConvolves(c) <==> Unclobbered(ConfigJob(c)))
  {
    hide AccelNext, AccelAfter, IsConvolved, Pixels, M.LastSample, Unclobbered, TilesFit, NoClobber, OutSample,
      M.PixelCycles, Taps;
    var j := ConfigJob(c);
    if TilesFit(j, SCRATCH_WORDS) { NoClobberExactly(j, SCRATCH_WORDS); }
    if NoClobber(j, SCRATCH_WORDS) {
      forall a: Accel, start: Bus, bs: seq<Bus> |
        Idle(a) && a.cfg == c && StartPulse(start) && |bs| == M.JobCycles(j)
        ensures IsConvolved(j, a.scratch, AccelAfter(AccelNext(a, start), bs).scratch)
      {
        JobConvolves(a, start, bs);
      }
    } else {
      var a := ClobberingJobFails(c, Bus(true, true, 0, 1), seq(M.JobCycles(j), _ => Bus(false, false, 0, 0)));
    }
  }

  // ---- One such job in numbers -------------------------------------------------------------------------

  /** A 1x1 identity kernel at word 8 over the two words at 0, output one word further on. */
  const AHEAD: Job := Job(0, 1, 8, 2, 1, 1, 0)

  lemma OneTapSample(j: Job, mem: Scratch, cmem: Scratch, p: nat)
    requires Tile(j) && j.k == 1 && j.shift == 0
    ensures OutSample(j, mem, cmem, p) == Wrap(Sx16(Peek(mem, PixAddr(j, p, 0))) * Coeff(j, cmem, 0))
  {
    hide Sx16, PixAddr, Peek, Coeff;
    var s := Dot(j, mem, cmem, p, 1);
    assert s == Dot(j, mem, cmem, p, 0) + Sx16(Peek(mem, PixAddr(j, p, 0))) * Coeff(j, cmem, 0);
    assert s / Pow2(0) == s;
  }

  lemma AheadPixel(p: nat)
    requires p < 2
    ensures PixAddr(AHEAD, p, 0) == p
  {
    DivModOf(0, p, 2);
    DivModOf(0, 0, 1);
  }

  /** The identity kernel copies the pixel that is in memory. */
  lemma AheadSample(mem: Scratch, cmem: Scratch, p: nat)
    requires p < 2 && |mem| == |cmem| == SCRATCH_WORDS && mem[p] < 0x8000 && cmem[8] == 1
    ensures OutSample(AHEAD, mem, cmem, p) == mem[p]
  {
    hide OutSample, PixAddr, Sx16, Wrap;
    OneTapSample(AHEAD, mem, cmem, p);
    AheadPixel(p);
    SmallSample(mem[p]);
    SmallSample(1);
    assert Peek(mem, p) == mem[p] && Coeff(AHEAD, cmem, 0) == 1;
  }

  lemma AheadWrites(mem: Scratch)
    requires |mem| == SCRATCH_WORDS && mem[0] == 5 && mem[1] == 7 && mem[8] == 1
    ensures OutSample(AHEAD, mem, mem, 1) == 7
    ensures Pixels(AHEAD) == 2 && WrittenBack(AHEAD, mem, 2)[2] == 5
  {
    AheadSample(mem, mem, 0);
    AheadSample(mem, mem, 1);
    hide OutSample;
    var one := WrittenBack(AHEAD, mem, 1);
    assert WrittenBack(AHEAD, mem, 0) == mem;
    assert one == mem[1 := 5];
    AheadSample(one, mem, 1);
  }

  /** Two pixels 5 and 7: the first output overwrites the second pixel, and the second output is 5. */
  lemma OverlapAheadClobbers(a: Accel, start: Bus, bs: seq<Bus>)
    requires Idle(a) && StartPulse(start) && Accepts(a.cfg) && ConfigJob(a.cfg) == AHEAD
    requires a.scratch[0] == 5 && a.scratch[1] == 7 && a.scratch[8] == 1 && |bs| == M.JobCycles(AHEAD)
    ensures OutSample(AHEAD, a.scratch, a.scratch, 1) == 7
    ensures AccelAfter(AccelNext(a, start), bs).scratch[2] == 5
  {
    hide AccelNext, AccelAfter, OutSample, M.JobCycles, BusyFor, M.LastSample, StartPulse, WrittenBack, Pixels;
    JobFromStart(a, start, bs);
    AheadWrites(a.scratch);
  }
}
