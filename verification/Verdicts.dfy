/** The two places where the repository compares the accelerator with software: the Python model's
    self-check and the benchmark's match flag. Both verdicts are always "equal". */
module Verdicts {
  import opened Arithmetic
  import opened Words
  import opened Conv
  import opened ConvMeaning
  import opened DirAccel
  import opened DirJob
  import opened AccelRegisters
  import opened SoftwareConv
  import PyModel
  import M = AccelModel

  /** The reference sum looks at a job's tile and kernel sizes only, and only inside the tile. */
  lemma {:induction false} SumOfTile(j: Job, g: Job, img: seq<Word>, kern: seq<Word>, p: nat, t: nat)
    requires Tile(j) && g.w == j.w && g.h == j.h && g.k == j.k && p < Pixels(j) && t <= Taps(j)
    requires |img| == j.w * j.h && |kern| == Taps(j)
    ensures ConvSum(j, img, kern, p, t) == ConvSum(g, img, kern, p, t)
  {
    if t > 0 {
      SumOfTile(j, g, img, kern, p, t - 1);
      WindowInTile(j, p, t - 1);
    }
  }

  /** `img` and `kern` lie in the scratchpad where the job expects them. */
  ghost predicate Stored(j: Job, mem: Scratch, img: seq<int>, kern: seq<int>) {
    && |img| == j.w * j.h && |kern| == Taps(j)
    && j.inBase + |img| <= |mem| && j.coBase + |kern| <= |mem|
    && mem[j.inBase..j.inBase + |img|] == AsWords(img)
    && mem[j.coBase..j.coBase + |kern|] == AsWords(kern)
  }

  /** The hardware's sample is the golden one. */
  lemma SampleIsGolden(j: Job, mem: Scratch, img: seq<int>, kern: seq<int>, p: nat)
    requires Tile(j) && Stored(j, mem, img, kern) && p < Pixels(j)
    ensures OutSample(j, mem, mem, p) == Golden(TileJob(j.w, j.h, j.k, j.shift), img, kern, p)
  {
    var g := TileJob(j.w, j.h, j.k, j.shift);
    DotIsConvSum(j, mem, p, Taps(j));
    SumOfTile(j, g, AsWords(img), AsWords(kern), p, Taps(j));
    hide Dot, ConvSum, Scale, AsWords;
  }

  // ---- The Python self-check ---------------------------------------------------------------------------

  lemma LoadedStores(j: Job, img: seq<int>, kern: seq<int>)
    requires PyModel.Fits(j) && |img| == j.w * j.h && |kern| == Taps(j)
    requires j.coBase + |kern| <= j.inBase || j.inBase + |img| <= j.coBase
    ensures Stored(j, PyModel.Loaded(img, kern, j.inBase, j.coBase), img, kern)
  {
    hide Wrap, Taps, Pixels;
  }

  /** What `run` leaves in the output tile is the golden convolution, pixel by pixel. */
  lemma RunIsGolden(j: Job, img: seq<int>, kern: seq<int>, p: nat)
    requires PyModel.Fits(j) && SafeTiles(j, PyModel.DEPTH) && |img| == j.w * j.h && |kern| == Taps(j)
    requires j.coBase + |kern| <= j.inBase || j.inBase + |img| <= j.coBase
    requires p < Pixels(j)
    ensures
      var mem0 := PyModel.Loaded(img, kern, j.inBase, j.coBase);
      var g := Golden(TileJob(j.w, j.h, j.k, j.shift), img, kern, p);
      && WrittenBack(j, mem0, Pixels(j))[j.outBase + p] == g
      && (p == Pixels(j) - 1 ==> M.LastSample(j, mem0) == g)
  {
    var mem0 := PyModel.Loaded(img, kern, j.inBase, j.coBase);
    SafeTilesDoNotClobber(j, PyModel.DEPTH);
    LoadedStores(j, img, kern);
    SampleIsGolden(j, mem0, img, kern, p);
    LastSampleOfOriginal(j, mem0);
    OutputsLand(j, mem0, Pixels(j), p);
    hide WrittenBack, OutSample, NoClobber, Stored, Golden, PyModel.Loaded, Taps, Pixels, M.LastSample;
    SmallMod(j.outBase + p, PyModel.DEPTH);
  }

  /** The self-check of the cycle model passes on every tile that fits its memory, its kernel range and
      its cycle cap. */
  method SelfCheck(img: seq<int>, kern: seq<int>, j: Job) returns (ok: bool)
    requires PyModel.Fits(j) && SafeTiles(j, PyModel.DEPTH) && |img| == j.w * j.h && |kern| == Taps(j)
    requires j.coBase + |kern| <= j.inBase || j.inBase + |img| <= j.coBase
    requires M.JobCycles(j) - 1 <= PyModel.CYCLE_CAP
    ensures ok
  {
    var out, result, cycles := PyModel.Run(img, kern, j);
    var golden := Conv2d(img, j.w, j.h, kern, j.k, j.shift);
    M.PixelsPositive(j);
    assert Tile(TileJob(j.w, j.h, j.k, j.shift)) && Pixels(TileJob(j.w, j.h, j.k, j.shift)) == Pixels(j);
    hide WrittenBack, Golden, PyModel.Loaded, Pixels, M.LastSample, M.JobCycles, SafeTiles;
    forall p: nat | p < Pixels(j)
      ensures out[p] == golden[p] && (p == Pixels(j) - 1 ==> result == golden[p])
    {
      RunIsGolden(j, img, kern, p);
    }
    assert out == golden;
    ok := out == golden && result == golden[|golden| - 1];
  }

  // ---- The benchmark's match flag ------------------------------------------------------------------------

  /** The register writes of `conv_hw` for a 16x16 tile at 0, coefficients at 256, output at 512. */
  function ConfigureBench(a: Accel, k: nat): (n: Accel)
    requires Shaped(a) && k < 16
    ensures Shaped(n)
  {
    Configure(a, 0, 512, 16, 16, k, 0, 256)
  }

  const START: Bus := Bus(true, true, 0x5000, 1)

  /** Software's 32-bit sum is hardware's unshifted sample. */
  lemma SumIsSample(sum: int)
    ensures Wrap(Int32(sum)) == Scale(sum, 0)
  {
    assert sum / Pow2(0) == sum;
  }

  function BenchJob(k: nat): Job { Job(0, 512, 256, 16, 16, k, 0) }

  lemma BenchJobFits(k: nat)
    requires k == 3 || k == 7
    ensures Valid(BenchJob(k)) && SafeTiles(BenchJob(k), SCRATCH_WORDS) && Taps(BenchJob(k)) <= 49
  {
  }

  /** Unshifted, the golden sample is the 32-bit sum. */
  lemma GoldenIsSum(j: Job, img: seq<int>, krn: seq<int>, outSw: seq<int>, p: nat)
    requires Tile(j) && |img| == j.w * j.h && |krn| == Taps(j) && p < |outSw| && j.shift == 0
    requires SumsIn32Bits(TileJob(j.w, j.h, j.k, 0), img, krn, outSw)
    ensures p < Pixels(j) && Golden(TileJob(j.w, j.h, j.k, 0), img, krn, p) == Wrap(outSw[p])
  {
    SumIsSample(ConvSum(TileJob(j.w, j.h, j.k, 0), AsWords(img), AsWords(krn), p, Taps(j)));
    hide ConvSum, Scale, Int32, Wrap;
  }

  lemma ConvolvedAt(j: Job, mem0: Scratch, mem: Scratch, p: nat)
    requires Tile(j) && IsConvolved(j, mem0, mem) && p < Pixels(j)
    ensures Peek(mem, j.outBase + p) == OutSample(j, mem0, mem0, p)
  {
    hide OutSample, Peek, Pixels, OthersKept;
  }

  /** One output word of a finished job. */
  lemma JobSample(a: Accel, start: Bus, bs: seq<Bus>, p: nat)
    requires Idle(a) && StartPulse(start) && Accepts(a.cfg) && SafeTiles(ConfigJob(a.cfg), SCRATCH_WORDS)
    requires |bs| == M.JobCycles(ConfigJob(a.cfg)) && p < Pixels(ConfigJob(a.cfg))
    ensures
      var f := AccelAfter(AccelNext(a, start), bs);
      && f.status.done && !f.status.busy
      && Peek(f.scratch, a.cfg.outputBase + p) == OutSample(ConfigJob(a.cfg), a.scratch, a.scratch, p)
  {
    hide AccelNext, AccelAfter, SafeTiles, OutSample, WrittenBack, M.JobCycles, M.LastSample, StartPulse, Peek, Pixels,
      IsConvolved, BusyFor;
    var j := ConfigJob(a.cfg);
    JobFromStart(a, start, bs);
    SafeTilesDoNotClobber(j, SCRATCH_WORDS);
    JobConvolves(a, start, bs);
    ConvolvedAt(j, a.scratch, AccelAfter(AccelNext(a, start), bs).scratch, p);
  }

  /** Hardware equals software: any unshifted job on a stored tile, once started, leaves in its output
      tile what the C loop computes for that tile, and says so after exactly the cycles it takes. */
  lemma HardwareMatchesSoftware(a: Accel, start: Bus, bs: seq<Bus>, img: seq<int>, krn: seq<int>,
                                outSw: seq<int>, p: nat)
    requires Idle(a) && StartPulse(start) && Accepts(a.cfg) && a.cfg.rshift == 0
    requires SafeTiles(ConfigJob(a.cfg), SCRATCH_WORDS) && Stored(ConfigJob(a.cfg), a.scratch, img, krn)
    requires SumsIn32Bits(TileJob(a.cfg.imgW, a.cfg.imgH, a.cfg.kdim, 0), img, krn, outSw)
    requires |bs| == M.JobCycles(ConfigJob(a.cfg)) && p < |outSw|
    ensures
      var f := AccelAfter(AccelNext(a, start), bs);
      f.status.done && !f.status.busy && Peek(f.scratch, a.cfg.outputBase + p) == Wrap(outSw[p])
  {
    hide AccelNext, AccelAfter, SafeTiles, OutSample, M.JobCycles, StartPulse, Peek, SumsIn32Bits, Pixels, Golden, Taps,
      AsWords;
    var j := ConfigJob(a.cfg);
    GoldenIsSum(j, img, krn, outSw, p);
    JobSample(a, start, bs, p);
    hide Stored;
    SampleIsGolden(j, a.scratch, img, krn, p);
  }

  lemma BenchWrites(a: Accel, k: nat)
    requires Shaped(a) && k < 16
    ensures ConfigureBench(a, k) == Configure(a, 0, 512, 16, 16, k, 0, 256)
  {
    hide Configure;
  }

  lemma BenchSetUp(a: Accel, k: nat)
    requires Idle(a) && (k == 3 || k == 7)
    ensures
      var s := ConfigureBench(a, k);
      && Idle(s) && s.scratch == a.scratch && StartPulse(START) && Accepts(s.cfg)
      && s.cfg.imgW == 16 && s.cfg.imgH == 16 && s.cfg.kdim == k && s.cfg.rshift == 0 && s.cfg.outputBase == 512
      && ConfigJob(s.cfg) == BenchJob(k) && SafeTiles(BenchJob(k), SCRATCH_WORDS)
  {
    hide AccelNext, ConfigureBench, SafeTiles;
    BenchJobFits(k);
    assert ConfigureBench(a, k) == Configure(a, 0, 512, 16, 16, k, 0, 256) by { BenchWrites(a, k); }
    Configured(a, 0, 512, 16, 16, k, 0, 256);
  }

  /** The benchmark's verdict is MATCH: for both of its kernel sizes, every image, every kernel and every
      previous state of the idle accelerator, DONE is set after exactly the cycles the job takes and every
      word of the output tile equals what the C loop computed. */
  lemma BenchmarkMatches(a: Accel, k: nat, img: seq<int>, krn: seq<int>, outSw: seq<int>, bs: seq<Bus>, p: nat)
    requires Idle(a) && (k == 3 || k == 7) && Stored(BenchJob(k), a.scratch, img, krn)
    requires SumsIn32Bits(TileJob(16, 16, k, 0), img, krn, outSw) && p < |outSw|
    requires |bs| == M.JobCycles(BenchJob(k))
    ensures
      var f := AccelAfter(AccelNext(ConfigureBench(a, k), START), bs);
      f.status.done && !f.status.busy && Peek(f.scratch, 512 + p) == Wrap(outSw[p])
  {
    BenchSetUp(a, k);
    hide AccelNext, ConfigureBench, SafeTiles, M.JobCycles, Stored, Peek, SumsIn32Bits, AccelAfter, Taps, StartPulse,
      Accepts;
    HardwareMatchesSoftware(ConfigureBench(a, k), START, bs, img, krn, outSw, p);
  }
}
