/** Which overlaps of input and output tile are safe, exactly: where the output may start, and for every
    other start a scratchpad on which the result is wrong. */
module Overlap {
  import opened Arithmetic
  import opened Words
  import opened Bitwise
  import opened Conv
  import opened ConvMeaning

  /** Words from the start of the input tile to the start of the output tile. */
  function Lead(j: Job): int { j.outBase - j.inBase }

  /** Where the output tile may start: at or before the input tile, past its end, or ahead by whole rows
      when there is one output row, or ahead when there is one output column and it stays in the first
      row, or anywhere for a single output. */
  predicate Unclobbered(j: Job)
    requires Tile(j)
  {
    || Lead(j) <= 0
    || Lead(j) >= j.w * j.h
    || (OutH(j) == 1 && Lead(j) % j.w == 0)
    || (OutW(j) == 1 && (OutH(j) == 1 || Lead(j) < j.w))
  }

  // ---- Sufficient ----------------------------------------------------------------------------------

  lemma OtherColumn(r: int, p: int, y: int, x: int, w: int)
    requires 0 <= p < x < w
    ensures r * w + p != y * w + x
  {
    if r * w + p == y * w + x {
      assert (r - y) * w == r * w - y * w;
      Multiples(r - y, w, x - p);
    }
  }

  /** With one output row, output `q`'s window is at or right of column `q`. */
  lemma RowStrip(j: Job, p: nat, q: nat, t: nat)
    requires Tile(j) && OutH(j) == 1 && Lead(j) > 0 && Lead(j) % j.w == 0
    requires p < q < Pixels(j) && t < Taps(j)
    ensures j.outBase + p != PixAddr(j, q, t)
  {
    PixelRow(j, q);
    TapRow(j, t);
    assert q / OutW(j) == 0;
    assert PixAddr(j, q, t) == j.inBase + t / j.k * j.w + (q % OutW(j) + t % j.k);
    DivModIs(Lead(j), j.w);
    hide PixAddr, Pixels, Taps;
    OtherColumn(Lead(j) / j.w, p, t / j.k, q + t % j.k, j.w);
  }

  /** With one output column, output `q` reads rows from `q` on. */
  lemma ColumnStrip(j: Job, p: nat, q: nat, t: nat)
    requires Tile(j) && OutW(j) == 1 && Lead(j) < j.w
    requires p < q < Pixels(j) && t < Taps(j)
    ensures j.outBase + p < PixAddr(j, q, t)
  {
    PixelRow(j, q);
    TapRow(j, t);
    DivModOf(q, 0, 1);
    MonotoneProduct(p + 1, q + t / j.k, j.w);
    MonotoneProduct(1, j.w, p);
    assert (p + 1) * j.w == p * j.w + j.w;
    assert PixAddr(j, q, t) == j.inBase + (q + t / j.k) * j.w + t % j.k;
  }

  lemma StripIsSafe(j: Job, depth: nat)
    requires Tile(j) && depth > 0 && TilesFit(j, depth) && Lead(j) > 0
    requires (OutH(j) == 1 && Lead(j) % j.w == 0) || (OutW(j) == 1 && (OutH(j) == 1 || Lead(j) < j.w))
    ensures NoClobber(j, depth)
  {
    forall p: nat, q: nat, t: nat | p < q < Pixels(j) && t < Taps(j)
      ensures OutIx(j, depth, p) != PixIx(j, depth, q, t)
    {
      WindowInTile(j, q, t);
      if OutH(j) == 1 && Lead(j) % j.w == 0 { RowStrip(j, p, q, t); } else { ColumnStrip(j, p, q, t); }
      hide PixAddr, Pixels, Taps;
      assert PixIx(j, depth, q, t) == PixAddr(j, q, t) % depth;
      SmallMod(j.outBase + p, depth);
      SmallMod(PixAddr(j, q, t), depth);
    }
  }

  // ---- Necessary -----------------------------------------------------------------------------------

  function Least(a: int, b: int): int { if a <= b then a else b }

  /** Row and column, in the input tile, of the first output word. */
  function HitRow(j: Job): int
    requires Tile(j)
  {
    Lead(j) / j.w
  }

  function HitCol(j: Job): int
    requires Tile(j)
  {
    Lead(j) % j.w
  }

  lemma RowBelow(x: nat, w: nat, h: nat)
    requires w > 0 && x < w * h
    ensures x == x / w * w + x % w && x / w < h && x % w < w
  {
    DivModIs(x, w);
    if x / w >= h { MonotoneProduct(h, x / w, w); }
  }

  lemma HitInTile(j: Job)
    requires Tile(j) && 0 < Lead(j) < j.w * j.h
    ensures Lead(j) == HitRow(j) * j.w + HitCol(j) && 0 <= HitRow(j) < j.h && 0 <= HitCol(j) < j.w
  {
    RowBelow(Lead(j), j.w, j.h);
  }

  /** The last output whose window reads the first output word. */
  function HitPixel(j: Job): (q: nat)
    requires Tile(j) && !Unclobbered(j)
    ensures q < Pixels(j)
  {
    HitInTile(j);
    DigitBound(Least(HitRow(j), OutH(j) - 1), Least(HitCol(j), OutW(j) - 1), OutW(j), OutH(j));
    Least(HitRow(j), OutH(j) - 1) * OutW(j) + Least(HitCol(j), OutW(j) - 1)
  }

  /** The tap at which it reads it. */
  function HitTap(j: Job): (t: nat)
    requires Tile(j) && !Unclobbered(j)
    ensures t < Taps(j)
  {
    HitInTile(j);
    DigitBound(HitRow(j) - Least(HitRow(j), OutH(j) - 1), HitCol(j) - Least(HitCol(j), OutW(j) - 1), j.k, j.k);
    (HitRow(j) - Least(HitRow(j), OutH(j) - 1)) * j.k + (HitCol(j) - Least(HitCol(j), OutW(j) - 1))
  }

  /** Unless it starts in one of the safe places, the first output lands on a word that a later output
      reads. */
  lemma FirstOutputIsRead(j: Job)
    requires Tile(j) && !Unclobbered(j)
    ensures 0 < HitPixel(j) && PixAddr(j, HitPixel(j), HitTap(j)) == j.outBase
  {
    HitInTile(j);
    var (r, c) := (HitRow(j), HitCol(j));
    var (y, x) := (Least(r, OutH(j) - 1), Least(c, OutW(j) - 1));
    DivModOf(y, x, OutW(j));
    DivModOf(r - y, c - x, j.k);
    if y >= 1 { MonotoneProduct(1, y, OutW(j)); }
  }

  /** Exactly when no output lands on a word that a later output reads. */
  lemma NoClobberExactly(j: Job, depth: nat)
    requires Tile(j) && depth > 0 && TilesFit(j, depth)
    ensures NoClobber(j, depth) <==> Unclobbered(j)
  {
    if Lead(j) <= 0 {
      InPlaceIsSafe(j, depth);
    } else if Lead(j) >= j.w * j.h {
      ApartIsSafe(j, depth);
    } else if Unclobbered(j) {
      StripIsSafe(j, depth);
    } else {
      FirstOutputIsRead(j);
      assert OutIx(j, depth, 0) == PixIx(j, depth, HitPixel(j), HitTap(j));
    }
  }

  // ---- A scratchpad that shows it ------------------------------------------------------------------

  /** Output `p` lands on the word that output `q` reads at tap `t`. */
  predicate Hits(j: Job, depth: nat, p: nat, q: nat, t: nat)
    requires Tile(j) && depth > 0
  {
    p < q < Pixels(j) && t < Taps(j) && OutIx(j, depth, p) == PixIx(j, depth, q, t)
  }

  /** The first output that reads an earlier one, which one, and at which tap. */
  lemma FirstHit(j: Job, depth: nat) returns (p: nat, q: nat, t: nat)
    requires Tile(j) && depth > 0 && !NoClobber(j, depth)
    ensures Hits(j, depth, p, q, t) && forall o: nat | o < q :: ReadsOriginal(j, depth, o)
  {
    hide Pixels, Taps, OutIx, PixIx;
    q := 0;
    while q < Pixels(j) && ReadsOriginal(j, depth, q)
      invariant q <= Pixels(j) && forall o: nat | o < q :: ReadsOriginal(j, depth, o)
    {
      q := q + 1;
    }
    if q == Pixels(j) {
      forall p0: nat, q0: nat, t0: nat | p0 < q0 < Pixels(j) && t0 < Taps(j)
        ensures OutIx(j, depth, p0) != PixIx(j, depth, q0, t0)
      {
        assert ReadsOriginal(j, depth, q0);
      }
    }
    p, t :| p < q && t < Taps(j) && OutIx(j, depth, p) == PixIx(j, depth, q, t);
  }

  /** About the square root of 2^shift. */
  function Root(shift: nat): int { Pow2((shift + 1) / 2) }

  lemma RootIs(shift: nat)
    requires shift < 16
    ensures 1 <= Root(shift) <= 0x100
    ensures Pow2(shift) <= Root(shift) * Root(shift) <= 2 * Pow2(shift)
  {
    var h := (shift + 1) / 2;
    PowSum(h, h);
    PowGrows(shift, h + h);
    PowGrows(h + h, shift + 1);
    PowGrows(h, 8);
    assert Pow2(4) == 16 && Pow2(8) == 0x100;
  }

  /** The same negative number at the word `at` and at the coefficient of tap `t`, zero elsewhere. */
  function Show(j: Job, depth: nat, at: nat, t: nat): (mem: Scratch)
    requires depth > 0 && j.shift < 16
    ensures |mem| == depth
  {
    RootIs(j.shift);
    var v := 0x1_0000 - Root(j.shift);
    var mem := seq(depth, a requires 0 <= a < depth => if a == at || a == (j.coBase + t) % depth then v else 0);
    assert |mem| > 0;
    mem
  }

  lemma ShowAt(j: Job, depth: nat, at: nat, t: nat, a: nat)
    requires depth > 0 && j.shift < 16
    ensures
      var x := Sx16(Peek(Show(j, depth, at, t), a));
      && (x == 0 || x == -Root(j.shift))
      && (a % depth == at || a % depth == (j.coBase + t) % depth ==> x == -Root(j.shift))
  {
    RootIs(j.shift);
    hide Root;
  }

  // ---- On that scratchpad the job goes wrong ---------------------------------------------------------

  /** Products of numbers from 0 down to -r. */
  lemma SmallProduct(x: int, y: int, r: int)
    requires r >= 0 && (x == 0 || x == -r) && (y == 0 || y == -r)
    ensures 0 <= x * y <= r * r
  {
    assert -r * -r == r * r;
    MonotoneProduct(0, r, r);
  }

  /** The golden sums are not negative, and small. */
  lemma {:induction false} GoldenDot(j: Job, depth: nat, at: nat, t: nat, q: nat, n: nat)
    requires Tile(j) && depth > 0 && j.shift < 16
    ensures
      var (r, mem) := (Root(j.shift), Show(j, depth, at, t));
      0 <= Dot(j, mem, mem, q, n) <= n * (r * r)
  {
    hide PixAddr, Show, Root, Sx16, Peek;
    if n > 0 {
      var (r, mem) := (Root(j.shift), Show(j, depth, at, t));
      RootIs(j.shift);
      GoldenDot(j, depth, at, t, q, n - 1);
      ShowAt(j, depth, at, t, PixAddr(j, q, n - 1));
      ShowAt(j, depth, at, t, j.coBase + (n - 1));
      SmallProduct(Sx16(Peek(mem, PixAddr(j, q, n - 1))), Coeff(j, mem, n - 1), r);
      assert n * (r * r) == (n - 1) * (r * r) + r * r;
    }
  }

  lemma QuotientBound(x: int, d: nat, b: nat)
    requires d > 0 && 0 <= x <= b * d
    ensures 0 <= x / d <= b
  {
    assert (b + 1) * d == b * d + d;
    if x / d > b { MonotoneProduct(b + 1, x / d, d); }
  }

  lemma GoldenSample(j: Job, depth: nat, at: nat, t: nat, q: nat)
    requires Tile(j) && depth > 0 && j.shift < 16 && Taps(j) <= 49
    ensures var mem := Show(j, depth, at, t); 0 <= OutSample(j, mem, mem, q) <= 98
  {
    RootIs(j.shift);
    GoldenDot(j, depth, at, t, q, Taps(j));
    var (r, mem, d) := (Root(j.shift), Show(j, depth, at, t), Pow2(j.shift));
    var x := Dot(j, mem, mem, q, Taps(j));
    assert x <= 98 * d by {
      MonotoneProduct(Taps(j), 49, r * r);
      MonotoneProduct(r * r, 2 * d, 49);
    }
    QuotientBound(x, d, 98);
    hide Dot, Taps, Root, Show;
    SmallMod(x / d, W32);
  }

  /** The outputs before the first hit are the golden ones. */
  lemma CleanSample(j: Job, mem0: Scratch, q: nat)
    requires Tile(j) && ReadsOriginal(j, |mem0|, q)
    ensures OutSample(j, WrittenBack(j, mem0, q), mem0, q) == OutSample(j, mem0, mem0, q)
  {
    CleanDot(j, mem0, q, Taps(j));
    hide Dot, ReadsOriginal, WrittenBack, Taps;
  }

  /** A word is the original one, or one of the first `q` outputs has landed on it. */
  lemma WordAt(j: Job, mem0: Scratch, q: nat, a: nat) returns (p: int)
    requires Tile(j) && q <= |mem0|
    ensures -1 <= p < q
    ensures p == -1 ==> Peek(WrittenBack(j, mem0, q), a) == Peek(mem0, a)
    ensures p == -1 ==> forall o: nat | o < q :: OutIx(j, |mem0|, o) != a % |mem0|
    ensures p >= 0 ==> Peek(WrittenBack(j, mem0, q), a) == OutSample(j, WrittenBack(j, mem0, p), mem0, p)
  {
    hide OutSample, WrittenBack;
    if o: nat :| o < q && OutIx(j, |mem0|, o) == a % |mem0| {
      p := o;
      OutputStays(j, mem0, o, q);
    } else {
      p := -1;
      Untouched(j, mem0, q, a);
    }
  }

  /** What the hit output reads: small numbers, nowhere less than the original ones. */
  lemma ReadAtHit(j: Job, depth: nat, at: nat, t: nat, q: nat, a: nat)
    requires Tile(j) && depth > 0 && j.shift < 16 && Taps(j) <= 49 && q <= depth
    requires forall o: nat | o < q :: ReadsOriginal(j, depth, o)
    ensures
      var mem := Show(j, depth, at, t);
      var (x, y) := (Sx16(Peek(mem, a)), Sx16(Peek(WrittenBack(j, mem, q), a)));
      && -0x100 <= x <= y <= 98
      && ((exists p: nat :: p < q && OutIx(j, depth, p) == a % depth) ==> y >= 0)
  {
    var mem := Show(j, depth, at, t);
    RootIs(j.shift);
    ShowAt(j, depth, at, t, a);
    hide Show, WrittenBack, Root, ReadsOriginal, OutSample, Taps, OutIx, Peek, Pow2, Sx16;
    var p := WordAt(j, mem, q, a);
    if p >= 0 {
      CleanSample(j, mem, p);
      GoldenSample(j, depth, at, t, p);
      SmallSample(OutSample(j, mem, mem, p));
    }
  }

  lemma TapCompare(c: int, x: int, y: int, r: int)
    requires (c == 0 || c == -r) && 0 <= r <= 0x100 && -0x100 <= x <= y <= 98
    ensures -0x1_0000 <= c * y <= c * x <= 0x1_0000
  {
    MonotoneProduct(x, y, c);
    MonotoneProduct(-0x100, x, c);
    MonotoneProduct(y, 98, c);
    assert c * y == y * c && c * x == x * c;
  }

  /** The sum the accelerator computes is less than the golden one, by at least 2^shift once the hit tap is
      in. */
  lemma {:induction false} HitDot(j: Job, depth: nat, p: nat, q: nat, t: nat, n: nat)
    requires Tile(j) && depth > 0 && j.shift < 16 && Taps(j) <= 49 && q <= depth
    requires Hits(j, depth, p, q, t) && forall o: nat | o < q :: ReadsOriginal(j, depth, o)
    ensures
      var mem := Show(j, depth, OutIx(j, depth, p), t);
      var (golden, got) := (Dot(j, mem, mem, q, n), Dot(j, WrittenBack(j, mem, q), mem, q, n));
      && -(n * 0x1_0000) <= got <= golden <= n * 0x1_0000
      && (n > t ==> got <= golden - Root(j.shift) * Root(j.shift))
  {
    hide PixAddr, Show, Root, Sx16, Peek, WrittenBack, ReadsOriginal, Pixels, Taps;
    if n > 0 {
      var (at, r) := (OutIx(j, depth, p), Root(j.shift));
      var (mem, a) := (Show(j, depth, at, t), PixAddr(j, q, n - 1));
      RootIs(j.shift);
      HitDot(j, depth, p, q, t, n - 1);
      ReadAtHit(j, depth, at, t, q, a);
      ShowAt(j, depth, at, t, j.coBase + (n - 1));
      ShowAt(j, depth, at, t, a);
      var (c, x, y) := (Coeff(j, mem, n - 1), Sx16(Peek(mem, a)), Sx16(Peek(WrittenBack(j, mem, q), a)));
      TapCompare(c, x, y, r);
      if n - 1 == t {
        assert c == -r && x == -r && y >= 0;
        HitTapGap(r, y);
      }
    }
  }

  lemma HitTapGap(r: int, y: int)
    requires r >= 0 && y >= 0
    ensures y * -r <= -r * -r - r * r
  {
    MonotoneProduct(0, y, r);
    assert y * -r == -(y * r) && -r * -r == r * r;
  }

  lemma QuotientGap(x: int, y: int, d: nat)
    requires d > 0 && y <= x - d
    ensures y / d < x / d
  {
    if y / d >= x / d { MonotoneProduct(x / d, y / d, d); }
  }

  lemma QuotientSize(x: int, d: nat)
    requires d > 0 && -0x4000_0000 <= x <= 0x4000_0000
    ensures -0x4000_0000 <= x / d <= 0x4000_0000
  {
  }

  lemma DifferentWords(x: int, y: int)
    requires -0x4000_0000 <= y < x <= 0x4000_0000
    ensures Wrap(x) != Wrap(y)
  {
  }

  /** On that scratchpad the hit output comes out wrong. */
  lemma ShownWrong(j: Job, depth: nat, p: nat, q: nat, t: nat)
    requires Tile(j) && depth > 0 && j.shift < 16 && Taps(j) <= 49 && Pixels(j) <= depth
    requires Hits(j, depth, p, q, t) && forall o: nat | o < q :: ReadsOriginal(j, depth, o)
    ensures
      var mem := Show(j, depth, OutIx(j, depth, p), t);
      Peek(WrittenBack(j, mem, Pixels(j)), j.outBase + q) != OutSample(j, mem, mem, q)
  {
    var (mem, d) := (Show(j, depth, OutIx(j, depth, p), t), Pow2(j.shift));
    HitDot(j, depth, p, q, t, Taps(j));
    var (x, y) := (Dot(j, mem, mem, q, Taps(j)), Dot(j, WrittenBack(j, mem, q), mem, q, Taps(j)));
    hide Dot, WrittenBack, Show, Peek, Taps, Pixels, ReadsOriginal, OutIx, PixIx, PixAddr;
    RootIs(j.shift);
    hide Root, Pow2;
    QuotientGap(x, y, d);
    QuotientSize(x, d);
    QuotientSize(y, d);
    OutputStays(j, mem, q, Pixels(j));
    DifferentWords(x / d, y / d);
  }

  /** Whenever an output lands on a word that a later output reads, there is a scratchpad on which the result
      is not the convolution. */
  lemma ClobberShows(j: Job, depth: nat) returns (mem: Scratch)
    requires Tile(j) && depth > 0 && j.shift < 16 && Taps(j) <= 49 && Pixels(j) <= depth
    requires !NoClobber(j, depth)
    ensures |mem| == depth && !IsConvolved(j, mem, WrittenBack(j, mem, Pixels(j)))
  {
    hide NoClobber, ReadsOriginal, WrittenBack, Taps, OutSample, OthersKept, Peek, Show;
    var p, q, t := FirstHit(j, depth);
    mem := Show(j, depth, OutIx(j, depth, p), t);
    ShownWrong(j, depth, p, q, t);
  }
}
