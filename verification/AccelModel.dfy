/** The cycle-level model of the accelerator with multiplied addresses: one step per clock, an
    invariant over every reachable state, and the exact number of cycles that remain. */
module AccelModel {
  import opened Arithmetic
  import opened Words
  import opened Conv

  datatype Phase = LoadCoeffs | PixelInit | Stream | Write | Done

  /** `tap`, `kx`, `ky` and `ci` are the positions being presented; the `D` fields and `data` belong to
      the operand fetched in the previous cycle. */
  datatype Model = Model(
    phase: Phase, ci: nat, storeIx: nat, loadValid: bool,
    kx: nat, ky: nat, tap: nat, coeffD: int, firstD: bool, pixValid: bool,
    ox: nat, oy: nat, acc: int, data: Word, result: Word,
    coeff: seq<int>, mem: Scratch)

  predicate LoadsNow(j: Job, m: Model) { m.phase == LoadCoeffs && m.ci < Taps(j) }
  predicate StreamsNow(j: Job, m: Model) { m.phase == Stream && m.tap < Taps(j) }

  function ReadAddr(j: Job, m: Model): nat {
    if m.phase == LoadCoeffs then j.coBase + m.ci
    else j.inBase + (m.oy + m.ky) * j.w + (m.ox + m.kx)
  }

  function WriteAddr(j: Job, m: Model): int { j.outBase + m.oy * OutW(j) + m.ox }

  predicate LastPixel(j: Job, m: Model) { m.ox == OutW(j) - 1 && m.oy == OutH(j) - 1 }

  function Mac(m: Model): int {
    if m.phase == Stream && m.pixValid then
      var product := Sx16(m.data) * m.coeffD;
      if m.firstD then product else Wrap48(m.acc + product)
    else m.acc
  }

  /** The operand register: reloaded when a read is presented, else kept. */
  function DataNext(j: Job, m: Model): Word {
    if LoadsNow(j, m) || StreamsNow(j, m) then Peek(m.mem, ReadAddr(j, m)) else m.data
  }

  predicate InRange(j: Job, m: Model) {
    Bounded(j) && Taps(j) <= |m.coeff| && (m.phase == LoadCoeffs && m.loadValid ==> m.storeIx < |m.coeff|) &&
    (m.phase == Stream ==> m.tap <= |m.coeff|) &&
    (m.phase != LoadCoeffs ==> m.ox < OutW(j) && m.oy < OutH(j))
  }

  function ModelNext(j: Job, m: Model): Model
    requires InRange(j, m)
  {
    match m.phase
    case LoadCoeffs =>
      var present := m.ci < Taps(j);
      var leaving := !present && m.loadValid;
      m.(coeff := if m.loadValid then m.coeff[m.storeIx := Sx16(m.data)] else m.coeff,
         storeIx := m.ci, loadValid := present, data := DataNext(j, m),
         ci := if present then m.ci + 1 else m.ci,
         ox := if leaving then 0 else m.ox, oy := if leaving then 0 else m.oy,
         phase := if leaving then PixelInit else LoadCoeffs)
    case PixelInit =>
      m.(kx := 0, ky := 0, tap := 0, pixValid := false, phase := Stream)
    case Stream =>
      var present := m.tap < Taps(j);
      var rowEnd := m.kx == j.k - 1;
      m.(acc := Mac(m), data := DataNext(j, m), pixValid := present,
         coeffD := if present && m.tap < |m.coeff| then m.coeff[m.tap] else m.coeffD,
         firstD := if present then m.tap == 0 else m.firstD,
         tap := if present then m.tap + 1 else m.tap,
         kx := if !present then m.kx else if rowEnd then 0 else m.kx + 1,
         ky := if present && rowEnd then m.ky + 1 else m.ky,
         phase := if !present && m.pixValid then Write else Stream)
    case Write =>
      var rowEnd := m.ox == OutW(j) - 1;
      var v := Scale(m.acc, j.shift);
      var m' := m.(result := v, data := v, mem := Poke(m.mem, WriteAddr(j, m), v));
      if LastPixel(j, m) then m'.(phase := Done)
      else m'.(ox := if rowEnd then 0 else m.ox + 1, oy := if rowEnd then m.oy + 1 else m.oy, phase := PixelInit)
    case Done => m
  }

  // ---- Invariant ---------------------------------------------------------------------------

  /** The output pixel being computed. */
  function PixelOf(j: Job, m: Model): nat
    requires InRange(j, m)
  {
    m.oy * OutW(j) + m.ox
  }

  /** Outputs already in the scratchpad. */
  function Finished(j: Job, m: Model): nat
    requires InRange(j, m)
  {
    match m.phase
    case LoadCoeffs => 0
    case Done => Pixels(j)
    case _ => PixelOf(j, m)
  }

  predicate CoeffsLoaded(j: Job, mem0: Scratch, m: Model, n: nat)
    requires n <= |m.coeff|
  {
    forall t: nat | t < n :: m.coeff[t] == Coeff(j, mem0, t)
  }

  predicate LoadOk(j: Job, mem0: Scratch, m: Model)
    requires InRange(j, m)
  {
    && m.ci <= Taps(j)
    && (if m.loadValid
        then m.ci >= 1 && m.storeIx == m.ci - 1 && m.data == Peek(mem0, j.coBase + m.storeIx) &&
             CoeffsLoaded(j, mem0, m, m.ci - 1)
        else m.ci == 0)
  }

  predicate StreamOk(j: Job, mem0: Scratch, m: Model)
    requires InRange(j, m)
  {
    var p := PixelOf(j, m);
    && m.kx < j.k && m.tap == m.ky * j.k + m.kx && m.tap <= Taps(j)
    && (if m.pixValid
        then m.tap >= 1 && m.coeffD == Coeff(j, mem0, m.tap - 1) && m.firstD == (m.tap == 1) &&
             m.data == Peek(m.mem, PixAddr(j, p, m.tap - 1)) &&
             (m.tap >= 2 ==> m.acc == Dot(j, m.mem, mem0, p, m.tap - 1))
        else m.tap == 0)
  }

  predicate JobInv(j: Job, mem0: Scratch, m: Model) {
    && InRange(j, m)
    && m.mem == WrittenBack(j, mem0, Finished(j, m))
    && (m.phase == LoadCoeffs ==> LoadOk(j, mem0, m))
    && (m.phase != LoadCoeffs ==> CoeffsLoaded(j, mem0, m, Taps(j)))
    && (m.phase == Stream ==> StreamOk(j, mem0, m))
    && (m.phase == Write ==> m.acc == Dot(j, m.mem, mem0, PixelOf(j, m), Taps(j)))
    && (m.phase == Done ==> m.result == LastSample(j, mem0))
  }

  /** The last output pixel. */
  function FinalPixel(j: Job): (p: nat)
    requires Tile(j)
    ensures p < Pixels(j)
  {
    PixelsPositive(j);
    Pixels(j) - 1
  }

  function LastSample(j: Job, mem0: Scratch): Word
    requires Tile(j)
  {
    OutSample(j, WrittenBack(j, mem0, FinalPixel(j)), mem0, FinalPixel(j))
  }

  lemma PixelsPositive(j: Job)
    requires Tile(j)
    ensures Pixels(j) >= 1
  {
  }

  // ---- Steps keep the invariant ---------------------------------------------------------------

  lemma CoeffStep(j: Job, mem0: Scratch, m: Model)
    requires JobInv(j, mem0, m) && m.phase == LoadCoeffs && m.loadValid
    ensures CoeffsLoaded(j, mem0, ModelNext(j, m), m.ci)
  {
    hide Dot, PixAddr, OutSample, WrittenBack, Taps, DataNext, Pixels, Sx16, Peek;
  }

  lemma LoadStep(j: Job, mem0: Scratch, m: Model)
    requires JobInv(j, mem0, m) && m.phase == LoadCoeffs
    ensures JobInv(j, mem0, ModelNext(j, m))
  {
    TapsPositive(j);
    assert WrittenBack(j, mem0, 0) == mem0;
    assert ReadAddr(j, m) == j.coBase + m.ci;
    if m.loadValid { CoeffStep(j, mem0, m); }
    var m' := ModelNext(j, m);
    hide Dot, PixAddr, OutSample, WrittenBack, Taps, Peek, Coeff, Pixels, Sx16, ReadAddr;
    if m'.phase == PixelInit {
      hide LoadOk, DataNext, CoeffsLoaded;
      assert PixelOf(j, m') == 0;
    } else {
      hide OutW, OutH, PixelOf;
    }
  }

  lemma PixAddrOf(j: Job, m: Model)
    requires InRange(j, m) && m.kx < j.k && m.phase == Stream
    ensures PixAddr(j, PixelOf(j, m), m.ky * j.k + m.kx) == ReadAddr(j, m)
  {
    DivModOf(m.oy, m.ox, OutW(j));
    DivModOf(m.ky, m.kx, j.k);
  }

  lemma NextTap(j: Job, m: Model)
    requires Tile(j) && m.kx < j.k && m.tap == m.ky * j.k + m.kx
    ensures m.kx == j.k - 1 ==> m.tap + 1 == (m.ky + 1) * j.k
  {
  }

  lemma AccStep(j: Job, mem0: Scratch, m: Model)
    requires JobInv(j, mem0, m) && m.phase == Stream && m.pixValid
    ensures Mac(m) == Dot(j, m.mem, mem0, PixelOf(j, m), m.tap)
  {
    var p := PixelOf(j, m);
    DotBound(j, m.mem, mem0, p, m.tap);
    NoWrap48(Dot(j, m.mem, mem0, p, m.tap));
    assert Dot(j, m.mem, mem0, p, m.tap) ==
           Dot(j, m.mem, mem0, p, m.tap - 1) + Sx16(m.data) * m.coeffD;
    hide Wrap48, PixAddr;
  }

  lemma StreamStep(j: Job, mem0: Scratch, m: Model)
    requires JobInv(j, mem0, m) && m.phase == Stream
    ensures JobInv(j, mem0, ModelNext(j, m))
  {
    TapsPositive(j);
    PixAddrOf(j, m);
    NextTap(j, m);
    if m.pixValid { AccStep(j, mem0, m); }
    hide Mac, PixAddr, ReadAddr, WrittenBack, Dot, OutSample;
  }

  lemma NextPixel(j: Job, m: Model)
    requires InRange(j, m) && m.phase != LoadCoeffs
    ensures PixelOf(j, m) < Pixels(j)
    ensures m.ox == OutW(j) - 1 ==> PixelOf(j, m) + 1 == (m.oy + 1) * OutW(j)
    ensures LastPixel(j, m) <==> PixelOf(j, m) == Pixels(j) - 1
  {
    var (w, h) := (OutW(j), OutH(j));
    if m.oy < h - 1 {
      assert (m.oy + 1) * w <= (h - 1) * w;
      assert (h - 1) * w == h * w - w;
    } else {
      assert m.oy * w == h * w - w;
    }
    assert (m.oy + 1) * w == m.oy * w + w;
  }

  /** The word written is the next output, and the last one is the result. */
  lemma WriteWord(j: Job, mem0: Scratch, m: Model)
    requires JobInv(j, mem0, m) && m.phase == Write
    ensures
      var p := PixelOf(j, m);
      && Poke(m.mem, j.outBase + p, Scale(m.acc, j.shift)) == WrittenBack(j, mem0, p + 1)
      && (p == Pixels(j) - 1 ==> Scale(m.acc, j.shift) == LastSample(j, mem0))
  {
    var p := PixelOf(j, m);
    assert OutSample(j, m.mem, mem0, p) == Scale(m.acc, j.shift);
    assert WrittenBack(j, mem0, p + 1) == Poke(m.mem, j.outBase + p, OutSample(j, m.mem, mem0, p));
    hide Dot, PixAddr, Scale, Taps, OutSample, Pixels, CoeffsLoaded, Poke, OutW, OutH;
  }

  lemma WriteStep(j: Job, mem0: Scratch, m: Model)
    requires JobInv(j, mem0, m) && m.phase == Write
    ensures JobInv(j, mem0, ModelNext(j, m))
  {
    NextPixel(j, m);
    TapsPositive(j);
    WriteWord(j, mem0, m);
    assert WriteAddr(j, m) == j.outBase + PixelOf(j, m);
    hide Dot, PixAddr, Scale, WrittenBack, Taps, OutSample, LastSample, Pixels, CoeffsLoaded, Poke, OutH, WriteAddr;
  }

  lemma StepKeepsInv(j: Job, mem0: Scratch, m: Model)
    requires JobInv(j, mem0, m)
    ensures JobInv(j, mem0, ModelNext(j, m))
  {
    match m.phase
    case LoadCoeffs => LoadStep(j, mem0, m);
    case Stream => StreamStep(j, mem0, m);
    case Write => WriteStep(j, mem0, m);
    case PixelInit =>
      TapsPositive(j);
    case Done =>
  }

  // ---- Exact number of cycles -------------------------------------------------------------------

  /** Cycles one output pixel takes: set-up, one per tap plus one to drain, and the write. */
  function PixelCycles(j: Job): nat { Taps(j) + 3 }

  /** Cycles from the start of a job until the accelerator is idle again. */
  function JobCycles(j: Job): nat
    requires Tile(j)
  {
    (Taps(j) + 1) + Pixels(j) * PixelCycles(j) + 1
  }

  /** Cycles that remain once output pixel `p` is written, the final one included. */
  function Later(j: Job, p: int): int
    requires Tile(j)
  {
    (Pixels(j) - 1 - p) * PixelCycles(j) + 1
  }

  lemma LaterFacts(j: Job, p: int)
    requires Tile(j) && 0 <= p < Pixels(j)
    ensures Later(j, p) >= 1 && Later(j, Pixels(j) - 1) == 1
    ensures Later(j, p + 1) == Later(j, p) - PixelCycles(j)
    ensures Later(j, 0) + PixelCycles(j) == Pixels(j) * PixelCycles(j) + 1
  {
    hide Pixels, PixelCycles;
    var (n, c) := (Pixels(j) - 1 - p, PixelCycles(j));
    assert (n - 1) * c == n * c - c;
    assert (Pixels(j) - 1) * c + c == Pixels(j) * c;
    assert n * c >= 0 by { MonotoneProduct(0, n, c); }
  }

  /** Cycles still to go, the one spent in the final state included. */
  function Remaining(j: Job, m: Model): int
    requires InRange(j, m)
  {
    match m.phase
    case LoadCoeffs => Taps(j) + 1 - m.ci + Pixels(j) * PixelCycles(j) + 1
    case PixelInit => PixelCycles(j) + Later(j, PixelOf(j, m))
    case Stream => Taps(j) + 1 - m.tap + 1 + Later(j, PixelOf(j, m))
    case Write => 1 + Later(j, PixelOf(j, m))
    case Done => 1
  }

  lemma LoadTakesOneCycle(j: Job, mem0: Scratch, m: Model)
    requires JobInv(j, mem0, m) && m.phase == LoadCoeffs && JobInv(j, mem0, ModelNext(j, m))
    ensures Remaining(j, ModelNext(j, m)) == Remaining(j, m) - 1 && Remaining(j, m) >= 2
  {
    TapsPositive(j);
    PixelsPositive(j);
    LaterFacts(j, 0);
    var m' := ModelNext(j, m);
    assert m'.phase == PixelInit ==> PixelOf(j, m') == 0;
    hide Pixels, Dot, PixAddr, WrittenBack, Taps, Mac, DataNext, CoeffsLoaded, Later, PixelOf, Peek;
  }

  lemma WriteTakesOneCycle(j: Job, mem0: Scratch, m: Model)
    requires JobInv(j, mem0, m) && m.phase == Write && JobInv(j, mem0, ModelNext(j, m))
    ensures Remaining(j, ModelNext(j, m)) == Remaining(j, m) - 1 && Remaining(j, m) >= 2
  {
    NextPixel(j, m);
    LaterFacts(j, PixelOf(j, m));
    hide Pixels, Dot, PixAddr, WrittenBack, Taps, Mac, DataNext, CoeffsLoaded, Later, PixelCycles, Poke, WriteAddr;
  }

  /** Every step but the last uses up exactly one cycle. */
  lemma StepTakesOneCycle(j: Job, mem0: Scratch, m: Model)
    requires JobInv(j, mem0, m) && m.phase != Done
    ensures JobInv(j, mem0, ModelNext(j, m))
    ensures Remaining(j, ModelNext(j, m)) == Remaining(j, m) - 1
    ensures Remaining(j, m) >= 2
  {
    StepKeepsInv(j, mem0, m);
    if m.phase == LoadCoeffs {
      LoadTakesOneCycle(j, mem0, m);
    } else if m.phase == Write {
      WriteTakesOneCycle(j, mem0, m);
    } else {
      NextPixel(j, m);
      LaterFacts(j, PixelOf(j, m));
      hide Pixels, Dot, PixAddr, WrittenBack, Taps, Mac, DataNext, CoeffsLoaded, Later;
    }
  }

  /** How the read address moves along a window row and to the next one. */
  lemma ReadAddrSteps(j: Job, m: Model)
    requires Tile(j) && m.phase == Stream
    ensures ReadAddr(j, m.(kx := m.kx + 1)) == ReadAddr(j, m) + 1
    ensures m.kx == j.k - 1 ==> ReadAddr(j, m.(kx := 0, ky := m.ky + 1)) == ReadAddr(j, m) + OutW(j)
  {
    assert (m.oy + (m.ky + 1)) * j.w == (m.oy + m.ky) * j.w + j.w;
  }

  /** Top-left word of an output pixel's window. */
  function WindowAddr(j: Job, oy: nat, ox: nat): nat { j.inBase + oy * j.w + ox }

  /** How window and output addresses move from pixel to pixel. */
  lemma PixelAddrSteps(j: Job, m: Model)
    requires InRange(j, m)
    ensures WindowAddr(j, m.oy, m.ox + 1) == WindowAddr(j, m.oy, m.ox) + 1
    ensures WriteAddr(j, m.(ox := m.ox + 1)) == WriteAddr(j, m) + 1
    ensures m.ox == OutW(j) - 1 ==>
              WindowAddr(j, m.oy + 1, 0) == WindowAddr(j, m.oy, m.ox) + j.k &&
              WriteAddr(j, m.(ox := 0, oy := m.oy + 1)) == WriteAddr(j, m) + 1
  {
    assert (m.oy + 1) * j.w == m.oy * j.w + j.w;
    assert (m.oy + 1) * OutW(j) == m.oy * OutW(j) + OutW(j);
  }
}
