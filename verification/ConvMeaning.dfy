/** Writing outputs back one after the other leaves the convolution of the original tile, whenever no
    output lands on a word a later output still reads. */
module ConvMeaning {
  import opened Arithmetic
  import opened Words
  import opened Conv

  // ---- What the sequence of writes leaves ------------------------------------------------------

  /** Scratchpad word that output `p` lands on, and word read for tap `t` of pixel `q`. */
  function OutIx(j: Job, depth: nat, p: nat): nat
    requires depth > 0
  {
    (j.outBase + p) % depth
  }

  function PixIx(j: Job, depth: nat, q: nat, t: nat): nat
    requires Tile(j) && depth > 0
  {
    PixAddr(j, q, t) % depth
  }

  /** A word no earlier output landed on still holds what it held at the start. */
  lemma {:induction false} Untouched(j: Job, mem0: Scratch, n: nat, a: nat)
    requires Tile(j)
    requires forall p: nat | p < n :: OutIx(j, |mem0|, p) != a % |mem0|
    ensures Peek(WrittenBack(j, mem0, n), a) == Peek(mem0, a)
  {
    hide OutSample;
    if n > 0 {
      Untouched(j, mem0, n - 1, a);
      assert OutIx(j, |mem0|, n - 1) != a % |mem0|;
    }
  }

  /** No output lands on a word that the window of a later output reads. */
  predicate NoClobber(j: Job, depth: nat)
    requires Tile(j) && depth > 0
  {
    forall p: nat, q: nat, t: nat | p < q < Pixels(j) && t < Taps(j) ::
      OutIx(j, depth, p) != PixIx(j, depth, q, t)
  }

  /** No earlier output lands on a word that output `q` reads. */
  predicate ReadsOriginal(j: Job, depth: nat, q: nat)
    requires Tile(j) && depth > 0
  {
    forall p: nat, t: nat | p < q && t < Taps(j) :: OutIx(j, depth, p) != PixIx(j, depth, q, t)
  }

  /** A sum over words no earlier output landed on is over the original words. */
  lemma {:induction false} CleanDot(j: Job, mem0: Scratch, q: nat, t: nat)
    requires Tile(j) && ReadsOriginal(j, |mem0|, q) && t <= Taps(j)
    ensures Dot(j, WrittenBack(j, mem0, q), mem0, q, t) == Dot(j, mem0, mem0, q, t)
  {
    hide PixAddr, WrittenBack, Peek, OutIx, Coeff, Sx16, Taps;
    if t > 0 {
      CleanDot(j, mem0, q, t - 1);
      forall p: nat | p < q ensures OutIx(j, |mem0|, p) != PixAddr(j, q, t - 1) % |mem0| {
        assert OutIx(j, |mem0|, p) != PixIx(j, |mem0|, q, t - 1);
      }
      Untouched(j, mem0, q, PixAddr(j, q, t - 1));
    }
  }

  lemma DotOfOriginal(j: Job, mem0: Scratch, q: nat, t: nat)
    requires Tile(j) && NoClobber(j, |mem0|) && q < Pixels(j) && t <= Taps(j)
    ensures Dot(j, WrittenBack(j, mem0, q), mem0, q, t) == Dot(j, mem0, mem0, q, t)
  {
    CleanDot(j, mem0, q, t);
  }

  lemma DistinctOutputs(base: nat, p: nat, q: nat, depth: nat)
    requires p < q < p + depth
    ensures (base + p) % depth != (base + q) % depth
  {
    if (base + p) % depth == (base + q) % depth {
      Multiples((base + q) / depth - (base + p) / depth, depth, q - p);
    }
  }

  /** Once written, an output stays. */
  lemma {:induction false} OutputStays(j: Job, mem0: Scratch, p: nat, n: nat)
    requires Tile(j) && p < n <= |mem0|
    ensures Peek(WrittenBack(j, mem0, n), j.outBase + p) == OutSample(j, WrittenBack(j, mem0, p), mem0, p)
  {
    hide OutSample;
    if p < n - 1 {
      OutputStays(j, mem0, p, n - 1);
      DistinctOutputs(j.outBase, p, n - 1, |mem0|);
    }
  }

  /** The first `n` outputs are samples of the original tile. */
  lemma OutputsLand(j: Job, mem0: Scratch, n: nat, p: nat)
    requires Tile(j) && NoClobber(j, |mem0|) && p < n <= Pixels(j) <= |mem0|
    ensures Peek(WrittenBack(j, mem0, n), j.outBase + p) == OutSample(j, mem0, mem0, p)
  {
    DotOfOriginal(j, mem0, p, Taps(j));
    hide Dot, PixAddr, NoClobber, Pixels, WrittenBack, Taps, Peek;
    OutputStays(j, mem0, p, n);
  }

  /** Every output is the convolution sample of the original tile. */
  predicate OutputsRight(j: Job, mem0: Scratch, mem: Scratch)
    requires Tile(j)
  {
    forall p: nat | p < Pixels(j) :: Peek(mem, j.outBase + p) == OutSample(j, mem0, mem0, p)
  }

  predicate OffOutput(j: Job, depth: nat, a: nat)
    requires Tile(j) && depth > 0
  {
    forall p: nat | p < Pixels(j) :: OutIx(j, depth, p) != a
  }

  /** Every word outside the output tile is what it was. */
  predicate OthersKept(j: Job, mem0: Scratch, mem: Scratch)
    requires Tile(j) && |mem| == |mem0|
  {
    forall a: nat | a < |mem0| && OffOutput(j, |mem0|, a) :: mem[a] == mem0[a]
  }

  predicate IsConvolved(j: Job, mem0: Scratch, mem: Scratch)
    requires Tile(j)
  {
    |mem| == |mem0| && OutputsRight(j, mem0, mem) && OthersKept(j, mem0, mem)
  }

  lemma OthersAreKept(j: Job, mem0: Scratch)
    requires Tile(j)
    ensures OthersKept(j, mem0, WrittenBack(j, mem0, Pixels(j)))
  {
    var mem := WrittenBack(j, mem0, Pixels(j));
    hide WrittenBack, OutIx, Pixels;
    forall a: nat | a < |mem0| && OffOutput(j, |mem0|, a) ensures mem[a] == mem0[a] {
      SmallMod(a, |mem0|);
      Untouched(j, mem0, Pixels(j), a);
    }
  }

  /** The written-back scratchpad holds the convolution of the original tile. */
  lemma WrittenBackIsConvolved(j: Job, mem0: Scratch)
    requires Tile(j) && NoClobber(j, |mem0|) && Pixels(j) <= |mem0|
    ensures IsConvolved(j, mem0, WrittenBack(j, mem0, Pixels(j)))
  {
    hide OthersKept, NoClobber, WrittenBack, OutSample, Peek, Pixels;
    OthersAreKept(j, mem0);
    forall p: nat | p < Pixels(j)
      ensures Peek(WrittenBack(j, mem0, Pixels(j)), j.outBase + p) == OutSample(j, mem0, mem0, p)
    {
      OutputsLand(j, mem0, Pixels(j), p);
    }
  }

  // ---- Where the windows lie ----------------------------------------------------------------------

  lemma PixelRow(j: Job, q: nat)
    requires Tile(j) && q < Pixels(j)
    ensures 0 <= q / OutW(j) < OutH(j) && 0 <= q % OutW(j) < OutW(j) && q == q / OutW(j) * OutW(j) + q % OutW(j)
  {
    var (w, h) := (OutW(j), OutH(j));
    if q / w >= h { MonotoneProduct(h, q / w, w); }
  }

  lemma TapRow(j: Job, t: nat)
    requires Tile(j) && t < Taps(j)
    ensures 0 <= t / j.k < j.k && 0 <= t % j.k < j.k
  {
    if t / j.k >= j.k { MonotoneProduct(j.k, t / j.k, j.k); }
  }

  lemma WindowBelowEnd(j: Job, row: nat, col: nat)
    requires Tile(j) && row < j.h && col < j.w
    ensures row * j.w + col < j.w * j.h
  {
    MonotoneProduct(row, j.h - 1, j.w);
    assert (j.h - 1) * j.w == j.w * j.h - j.w;
  }

  lemma WindowFromOffset(j: Job, y: nat, x: nat, dy: nat, dx: nat)
    requires Tile(j)
    ensures y * OutW(j) + x <= (y + dy) * j.w + x + dx
  {
    MonotoneProduct(OutW(j), j.w, y);
    MonotoneProduct(y, y + dy, j.w);
  }

  /** Every word read for a tile lies inside it, at or after the output's own offset. */
  lemma WindowInTile(j: Job, q: nat, t: nat)
    requires Tile(j) && q < Pixels(j) && t < Taps(j)
    ensures j.inBase + q <= PixAddr(j, q, t) < j.inBase + j.w * j.h
  {
    PixelRow(j, q);
    TapRow(j, t);
    var (y, x, dy, dx) := (q / OutW(j), q % OutW(j), t / j.k, t % j.k);
    WindowBelowEnd(j, y + dy, x + dx);
    WindowFromOffset(j, y, x, dy, dx);
    assert PixAddr(j, q, t) == j.inBase + (y + dy) * j.w + x + dx;
  }

  predicate TilesFit(j: Job, depth: nat)
    requires Tile(j)
  {
    j.inBase + j.w * j.h <= depth && j.outBase + Pixels(j) <= depth
  }

  /** Output tile apart from input tile. */
  predicate Apart(j: Job)
    requires Tile(j)
  {
    j.outBase + Pixels(j) <= j.inBase || j.inBase + j.w * j.h <= j.outBase
  }

  lemma ApartIsSafe(j: Job, depth: nat)
    requires Tile(j) && depth > 0 && TilesFit(j, depth) && Apart(j)
    ensures NoClobber(j, depth)
  {
    forall p: nat, q: nat, t: nat | p < q < Pixels(j) && t < Taps(j)
      ensures OutIx(j, depth, p) != PixIx(j, depth, q, t)
    {
      WindowInTile(j, q, t);
      hide PixAddr, Pixels, Taps;
      assert PixIx(j, depth, q, t) == PixAddr(j, q, t) % depth;
      SmallMod(j.outBase + p, depth);
      SmallMod(PixAddr(j, q, t), depth);
    }
  }

  /** Output tile starting at or before the input tile, overlap allowed: every write lands strictly
      below every word a later output reads. */
  lemma InPlaceIsSafe(j: Job, depth: nat)
    requires Tile(j) && depth > 0 && TilesFit(j, depth) && j.outBase <= j.inBase
    ensures NoClobber(j, depth)
  {
    forall p: nat, q: nat, t: nat | p < q < Pixels(j) && t < Taps(j)
      ensures OutIx(j, depth, p) != PixIx(j, depth, q, t)
    {
      WindowInTile(j, q, t);
      hide PixAddr, Pixels, Taps;
      assert PixIx(j, depth, q, t) == PixAddr(j, q, t) % depth;
      SmallMod(j.outBase + p, depth);
      SmallMod(PixAddr(j, q, t), depth);
    }
  }

  // ---- The reference convolution ----------------------------------------------------------------------

  /** Image words a window reads, relative to the tile. */
  function ImgIndex(j: Job, p: nat, t: nat): nat
    requires Tile(j)
  {
    (p / OutW(j) + t / j.k) * j.w + (p % OutW(j) + t % j.k)
  }

  function ConvSum(j: Job, img: seq<Word>, kern: seq<Word>, p: nat, t: nat): int
    requires Tile(j) && |img| >= j.w * j.h && |kern| >= Taps(j) && p < Pixels(j) && t <= Taps(j)
  {
    if t == 0 then 0
    else
      WindowInTile(j, p, t - 1);
      ConvSum(j, img, kern, p, t - 1) + Sx16(img[ImgIndex(j, p, t - 1)]) * Sx16(kern[t - 1])
  }

  /** The dot product over the scratchpad is the reference sum over the tile and kernel stored there. */
  lemma {:induction false} DotIsConvSum(j: Job, mem: Scratch, p: nat, t: nat)
    requires Tile(j) && p < Pixels(j) && t <= Taps(j)
    requires j.inBase + j.w * j.h <= |mem| && j.coBase + Taps(j) <= |mem|
    ensures
      Dot(j, mem, mem, p, t) ==
      ConvSum(j, mem[j.inBase..j.inBase + j.w * j.h], mem[j.coBase..j.coBase + Taps(j)], p, t)
  {
    if t > 0 {
      DotIsConvSum(j, mem, p, t - 1);
      WindowInTile(j, p, t - 1);
      hide Pixels, Sx16, Taps;
      SmallMod(PixAddr(j, p, t - 1), |mem|);
      SmallMod(j.coBase + (t - 1), |mem|);
      assert PixAddr(j, p, t - 1) == j.inBase + ImgIndex(j, p, t - 1);
    }
  }
}
