/** The repository's cycle model of the accelerator and its golden convolution, as the loops they are. */
module PyModel {
  import opened Arithmetic
  import opened Words
  import opened Conv
  import opened ConvMeaning
  import M = AccelModel

  const DEPTH: nat := 2048
  const CYCLE_CAP: nat := 500000

  function Mask48(x: int): nat { x % W48 }
  function Sgn48(a: nat): int { if a >= W48 / 2 then a - W48 else a }

  /** `run`'s scratchpad before the first cycle; the kernel is stored after the image. */
  function LoadedWord(img: seq<int>, kern: seq<int>, inBase: nat, coBase: nat, a: nat): Word {
    if coBase <= a < coBase + |kern| then Wrap(kern[a - coBase])
    else if inBase <= a < inBase + |img| then Wrap(img[a - inBase]) else 0
  }

  function Loaded(img: seq<int>, kern: seq<int>, inBase: nat, coBase: nat): (mem: Scratch)
    ensures |mem| == DEPTH
  {
    assert DEPTH > 0;
    seq(DEPTH, a requires 0 <= a < DEPTH => LoadedWord(img, kern, inBase, coBase, a))
  }

  method LoadMem(img: seq<int>, kern: seq<int>, inBase: nat, coBase: nat) returns (mem: seq<Word>)
    requires inBase + |img| <= DEPTH && coBase + |kern| <= DEPTH
    ensures mem == Loaded(img, kern, inBase, coBase)
  {
    hide Wrap;
    mem := seq(DEPTH, _ => 0);
    for i := 0 to |img|
      invariant |mem| == DEPTH
      invariant forall a | 0 <= a < DEPTH :: mem[a] == if inBase <= a < inBase + i then Wrap(img[a - inBase]) else 0
    {
      mem := mem[inBase + i := Wrap(img[i])];
    }
    for i := 0 to |kern|
      invariant |mem| == DEPTH
      invariant forall a | 0 <= a < DEPTH :: mem[a] == LoadedWord(img, kern[..i], inBase, coBase, a)
    {
      mem := mem[coBase + i := Wrap(kern[i])];
    }
    assert kern[..|kern|] == kern;
  }

  predicate Fits(j: Job) {
    Tile(j) && j.coBase + Taps(j) <= DEPTH && TilesFit(j, DEPTH)
  }

  /** `run`'s registers. */
  datatype Registers = Registers(
    state: M.Phase, ci: nat, sciD: nat, lcValidD: bool, kx: nat, ky: nat, tap: nat,
    coeffD: int, firstD: bool, stValidD: bool, ox: nat, oy: nat, acc: nat, bRdata: Word, result: Word)

  /** The registers and lists of `run` beside the model: the accumulator is kept as 48 raw bits, and
      the coefficient list has one entry per tap. */
  predicate MirrorsControl(r: Registers, coeff: seq<int>, m: M.Model) {
    && r.state == m.phase && r.ci == m.ci && r.sciD == m.storeIx && r.lcValidD == m.loadValid
    && r.kx == m.kx && r.ky == m.ky && r.tap == m.tap && r.coeffD == m.coeffD && r.firstD == m.firstD
    && r.stValidD == m.pixValid && r.ox == m.ox && r.oy == m.oy && r.result == m.result
    && coeff == m.coeff
    && (r.state == M.LoadCoeffs ==> r.ox == 0 && r.oy == 0)
  }

  predicate MirrorsData(r: Registers, mem: seq<Word>, m: M.Model) {
    r.acc == Mask48(m.acc) && Sgn48(r.acc) == m.acc && r.bRdata == m.data && mem == m.mem
  }

  predicate Mirrors(r: Registers, coeff: seq<int>, mem: seq<Word>, m: M.Model) {
    MirrorsControl(r, coeff, m) && MirrorsData(r, mem, m)
  }

  function Start(j: Job, mem0: Scratch): M.Model {
    M.Model(M.LoadCoeffs, 0, 0, false, 0, 0, 0, 0, false, false, 0, 0, 0, 0, 0, seq(j.k * j.k, _ => 0), mem0)
  }

  lemma StartOk(j: Job, mem0: Scratch)
    requires Bounded(j)
    ensures M.JobInv(j, mem0, Start(j, mem0)) && M.Remaining(j, Start(j, mem0)) == M.JobCycles(j)
  {
    TapsPositive(j);
    assert WrittenBack(j, mem0, 0) == mem0;
    hide WrittenBack, Dot, PixAddr, Taps, Pixels;
  }

  /** No list access of the coming cycle is out of range, and the coefficient in flight is 16 bits. */
  predicate Accesses(j: Job, m: M.Model) {
    && M.InRange(j, m) && |m.mem| == DEPTH
    && (M.LoadsNow(j, m) || M.StreamsNow(j, m) ==> M.ReadAddr(j, m) < DEPTH)
    && (m.phase == M.Write ==> 0 <= M.WriteAddr(j, m) < DEPTH)
    && (m.phase == M.LoadCoeffs && m.loadValid ==> m.storeIx < Taps(j))
    && (m.phase == M.Stream && m.pixValid ==> -0x8000 <= m.coeffD < 0x8000)
  }

  lemma InBounds(j: Job, mem0: Scratch, m: M.Model)
    requires Fits(j) && |mem0| == DEPTH && M.JobInv(j, mem0, m)
    ensures Accesses(j, m)
  {
    TapsPositive(j);
    if M.StreamsNow(j, m) {
      M.PixAddrOf(j, m);
      M.NextPixel(j, m);
      WindowInTile(j, M.PixelOf(j, m), m.tap);
    } else if m.phase == M.Write {
      M.NextPixel(j, m);
    }
    hide WrittenBack, Dot, PixAddr, Pixels, M.CoeffsLoaded, Peek;
  }

  lemma WordIsWrapped(w: Word)
    ensures Wrap(w) == w
  {
  }

  lemma MaskedProduct(p: int)
    requires -0x4000_0000 <= p <= 0x4000_0000
    ensures Sgn48(Mask48(p)) == p
  {
  }

  lemma MaskedSum(acc: nat, p: int)
    requires acc == Mask48(Sgn48(acc))
    ensures Mask48(acc + p) == Mask48(Wrap48(Sgn48(acc) + p)) && Sgn48(Mask48(acc + p)) == Wrap48(Sgn48(acc) + p)
  {
  }

  /** The masked accumulator, read back as signed, is the model's. */
  lemma MacBits(acc: nat, data: Word, coeffD: int)
    requires -0x8000 <= coeffD < 0x8000 && acc == Mask48(Sgn48(acc))
    ensures
      var p := Sx16(data) * coeffD;
      && Sgn48(Mask48(p)) == p
      && Mask48(acc + p) == Mask48(Wrap48(Sgn48(acc) + p)) && Sgn48(Mask48(acc + p)) == Wrap48(Sgn48(acc) + p)
  {
    hide Mask48, Sgn48, Wrap48;
    ProductBound(Sx16(data), coeffD);
    hide Sx16;
    MaskedProduct(Sx16(data) * coeffD);
    MaskedSum(acc, Sx16(data) * coeffD);
  }

  /** What the controller drives during a cycle: scratchpad port and MAC operands. */
  datatype Ports = Ports(
    present: bool, bEn: bool, bWe: bool, bAddr: nat, bWdata: Word,
    macEn: bool, macClear: bool, macA: int, macB: int)

  method Outputs(j: Job, r: Registers, ghost coeff: seq<int>, ghost m: M.Model) returns (p: Ports)
    requires Accesses(j, m) && Mirrors(r, coeff, m.mem, m)
    ensures p.present == (M.LoadsNow(j, m) || M.StreamsNow(j, m)) && p.bWe == (r.state == M.Write)
    ensures p.bEn == (p.present || p.bWe) && (p.bEn ==> p.bAddr < DEPTH)
    ensures p.present ==> p.bAddr == M.ReadAddr(j, m)
    ensures p.bWe ==> p.bAddr == M.WriteAddr(j, m) && p.bWdata == Scale(m.acc, j.shift)
    ensures p.macEn == (r.state == M.Stream && r.stValidD)
    ensures p.macEn ==> p.macClear == r.firstD && p.macA == Sx16(r.bRdata) && p.macB == r.coeffD
  {
    hide Sx16, Wrap, Wrap48, Mask48, Sgn48, Pow2, Scale;
    var kk, ow := j.k * j.k, j.w - j.k + 1;
    p := Ports((r.state == M.LoadCoeffs && r.ci < kk) || (r.state == M.Stream && r.tap < kk),
               false, false, 0, 0, false, false, 0, 0);
    match r.state {
      case LoadCoeffs =>
        if p.present { p := p.(bEn := true, bAddr := j.coBase + r.ci); }
      case Stream =>
        if p.present { p := p.(bEn := true, bAddr := j.inBase + (r.oy + r.ky) * j.w + (r.ox + r.kx)); }
        if r.stValidD { p := p.(macEn := true, macClear := r.firstD, macA := Sx16(r.bRdata), macB := r.coeffD); }
      case Write =>
        p := p.(bEn := true, bWe := true, bAddr := j.outBase + r.oy * ow + r.ox,
                bWdata := Scale(Sgn48(r.acc), j.shift));
      case _ =>
    }
  }

  /** The `next-state` part of a cycle. */
  method NextState(j: Job, r: Registers, coeff: seq<int>, p: Ports, ghost m: M.Model)
    returns (n: Registers, coeff': seq<int>)
    requires Accesses(j, m) && MirrorsControl(r, coeff, m) && |coeff| == Taps(j) && r.state != M.Done
    requires r.bRdata == m.data && Sgn48(r.acc) == m.acc
    requires p.present == (M.LoadsNow(j, m) || M.StreamsNow(j, m))
    ensures MirrorsControl(n, coeff', M.ModelNext(j, m)) && |coeff'| == Taps(j)
    ensures n.acc == r.acc && n.bRdata == r.bRdata
  {
    hide Sx16, Wrap, Wrap48, Mask48, Sgn48, Taps, Pow2, Scale, M.ReadAddr, M.WriteAddr, Peek, Poke, M.Mac, M.DataNext;
    n, coeff' := r, coeff;
    match r.state {
      case LoadCoeffs =>
        if r.lcValidD { coeff' := coeff'[r.sciD := Sx16(r.bRdata)]; }
        n := n.(sciD := r.ci, lcValidD := p.present);
        if p.present { n := n.(ci := r.ci + 1); }
        if !p.present && r.lcValidD { n := n.(state := M.PixelInit); }
      case PixelInit =>
        n := n.(kx := 0, ky := 0, tap := 0, stValidD := false, state := M.Stream);
      case Stream =>
        if p.present {
          n := n.(coeffD := coeff[r.tap], firstD := r.tap == 0, tap := r.tap + 1);
          if r.kx == j.k - 1 { n := n.(kx := 0, ky := r.ky + 1); } else { n := n.(kx := r.kx + 1); }
        }
        n := n.(stValidD := p.present);
        if !p.present && r.stValidD { n := n.(state := M.Write); }
      case Write =>
        var ow, oh := j.w - j.k + 1, j.h - j.k + 1;
        n := n.(result := Scale(Sgn48(r.acc), j.shift));
        if r.ox == ow - 1 && r.oy == oh - 1 {
          n := n.(state := M.Done);
        } else {
          if r.ox == ow - 1 { n := n.(ox := 0, oy := r.oy + 1); } else { n := n.(ox := r.ox + 1); }
          n := n.(state := M.PixelInit);
        }
      case Done =>
    }
  }

  /** The model's memory side of a cycle. */
  lemma DataSide(j: Job, m: M.Model)
    requires Accesses(j, m) && m.phase != M.Done
    ensures
      var n := M.ModelNext(j, m);
      && n.mem == (if m.phase == M.Write then m.mem[M.WriteAddr(j, m) := Scale(m.acc, j.shift)] else m.mem)
      && n.data == (if m.phase == M.Write then Scale(m.acc, j.shift)
                    else if M.LoadsNow(j, m) || M.StreamsNow(j, m) then m.mem[M.ReadAddr(j, m)] else m.data)
      && n.acc == M.Mac(m)
  {
    hide Scale, Sx16, Wrap48, M.ReadAddr, M.WriteAddr, Taps;
  }

  /** One iteration of `run`'s loop. */
  method Cycle(j: Job, r: Registers, coeff: seq<int>, mem: seq<Word>, ghost m: M.Model)
    returns (n: Registers, coeff': seq<int>, mem': seq<Word>)
    requires Accesses(j, m) && Mirrors(r, coeff, mem, m) && |coeff| == Taps(j) && r.state != M.Done
    ensures Mirrors(n, coeff', mem', M.ModelNext(j, m)) && |coeff'| == Taps(j)
  {
    if r.stValidD && r.state == M.Stream { MacBits(r.acc, r.bRdata, r.coeffD); }
    WordIsWrapped(Scale(Sgn48(r.acc), j.shift));
    DataSide(j, m);
    hide Sx16, Wrap, Wrap48, Mask48, Sgn48, Taps, Pow2, Scale, M.ModelNext;
    var p := Outputs(j, r, coeff, m);
    hide M.ReadAddr, M.WriteAddr;
    n, coeff' := NextState(j, r, coeff, p, m);

    // Scratchpad, with its one cycle of read latency.
    mem' := mem;
    if p.bEn {
      if p.bWe { mem' := mem'[p.bAddr := Wrap(p.bWdata)]; }
      n := n.(bRdata := mem'[p.bAddr]);
    }

    // Multiply-accumulate.
    if p.macEn {
      var prod := p.macA * p.macB;
      n := n.(acc := if p.macClear then Mask48(prod) else Mask48(r.acc + prod));
    }
  }

  /** What is known when the model is done, and that it has cycles left when it is not. */
  lemma AtTheEnd(j: Job, mem0: Scratch, m: M.Model)
    requires M.JobInv(j, mem0, m)
    ensures M.InRange(j, m)
    ensures m.phase == M.Done ==>
              M.Remaining(j, m) == 1 && m.mem == WrittenBack(j, mem0, Pixels(j)) && m.result == M.LastSample(j, mem0)
    ensures m.phase != M.Done ==> M.Remaining(j, m) >= 2
  {
    if m.phase != M.Done { M.StepTakesOneCycle(j, mem0, m); }
    hide WrittenBack, Dot, PixAddr, Pixels, M.LastSample, M.CoeffsLoaded;
  }

  lemma GridIndex(w: nat, h: nat, oy: nat, ox: nat)
    requires oy < h && ox < w
    ensures oy * w + ox < h * w
  {
    MonotoneProduct(oy + 1, h, w);
    assert (oy + 1) * w == oy * w + w;
  }

  /** The output tile read back in raster order. */
  method ReadOut(j: Job, mem: seq<Word>) returns (out: seq<Word>)
    requires Fits(j) && |mem| == DEPTH
    ensures out == mem[j.outBase..j.outBase + Pixels(j)]
  {
    var ow, oh := j.w - j.k + 1, j.h - j.k + 1;
    assert Pixels(j) == oh * ow;
    hide Taps, Pixels;
    out := [];
    for oy := 0 to oh
      invariant oy * ow <= oh * ow && out == mem[j.outBase..j.outBase + oy * ow]
    {
      assert (oy + 1) * ow == oy * ow + ow;
      for ox := 0 to ow
        invariant oy * ow + ox <= oh * ow && out == mem[j.outBase..j.outBase + (oy * ow + ox)]
      {
        GridIndex(ow, oh, oy, ox);
        out := out + [mem[j.outBase + oy * ow + ox]];
      }
    }
  }

  /** `run`: from the coefficient load to the last write, for at most 500000 cycles. A job of N cycles
      in hardware takes N - 1 here, the last one being spent signalling DONE. */
  method Run(img: seq<int>, kern: seq<int>, j: Job) returns (out: seq<Word>, result: Word, cycles: nat)
    requires Fits(j) && j.inBase + |img| <= DEPTH && j.coBase + |kern| <= DEPTH
    ensures cycles == if M.JobCycles(j) - 1 <= CYCLE_CAP then M.JobCycles(j) - 1 else CYCLE_CAP
    ensures |out| == Pixels(j)
    ensures M.JobCycles(j) - 1 <= CYCLE_CAP ==>
              var mem0 := Loaded(img, kern, j.inBase, j.coBase);
              && result == M.LastSample(j, mem0)
              && out == WrittenBack(j, mem0, Pixels(j))[j.outBase..j.outBase + Pixels(j)]
  {
    assert Fits(j) ==> j.outBase + Pixels(j) <= DEPTH;
    hide WrittenBack, Dot, PixAddr, Pixels, OutSample, M.LastSample, M.JobInv, M.Remaining, M.JobCycles, M.CoeffsLoaded,
      Sx16, Wrap, Wrap48, Scale, M.ModelNext, Loaded, Accesses;
    var mem := LoadMem(img, kern, j.inBase, j.coBase);
    ghost var mem0 := Loaded(img, kern, j.inBase, j.coBase);
    var coeff := seq(j.k * j.k, _ => 0);
    var r := Registers(M.LoadCoeffs, 0, 0, false, 0, 0, 0, 0, false, false, 0, 0, 0, 0, 0);
    cycles := 0;
    ghost var m := Start(j, mem0);
    StartOk(j, mem0);
    AtTheEnd(j, mem0, m);
    assert Mirrors(r, coeff, mem, m);
    while cycles < CYCLE_CAP && r.state != M.Done
      invariant M.JobInv(j, mem0, m) && Mirrors(r, coeff, mem, m) && |coeff| == Taps(j)
      invariant M.InRange(j, m) && M.Remaining(j, m) == M.JobCycles(j) - cycles && cycles <= CYCLE_CAP
      invariant |mem| == DEPTH
    {
      cycles := cycles + 1;
      M.StepTakesOneCycle(j, mem0, m);
      InBounds(j, mem0, m);
      r, coeff, mem := Cycle(j, r, coeff, mem, m);
      m := M.ModelNext(j, m);
      AtTheEnd(j, mem0, m);
    }
    AtTheEnd(j, mem0, m);
    result := r.result;
    out := ReadOut(j, mem);
  }
}
