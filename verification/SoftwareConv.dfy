/** The convolutions the accelerator is compared with: the Python golden model and the benchmark's C loop. */
module SoftwareConv {
  import opened Arithmetic
  import opened Words
  import opened Conv
  import opened ConvMeaning

  /** The tile on its own, away from any scratchpad. */
  function TileJob(w: nat, h: nat, k: nat, shift: nat): Job { Job(0, 0, 0, w, h, k, shift) }

  /** Numbers as the 32-bit words that hold them. */
  function AsWords(v: seq<int>): (r: seq<Word>)
    ensures |r| == |v|
  {
    seq(|v|, i requires 0 <= i < |v| => Wrap(v[i]))
  }

  /** The low 16 bits of a Python integer, signed. */
  function Sx(v: int): int { Sx16(Wrap(v)) }

  /** Positions the loops reach, as output pixel, tap and image word. */
  lemma Positions(j: Job, oy: nat, ox: nat, ky: nat, kx: nat)
    requires Tile(j) && oy < OutH(j) && ox < OutW(j) && ky < j.k && kx < j.k
    ensures 0 <= oy * OutW(j) + ox < Pixels(j) && 0 <= ky * j.k + kx < Taps(j)
    ensures 0 <= (oy + ky) * j.w + (ox + kx) < j.w * j.h
    ensures ImgIndex(j, oy * OutW(j) + ox, ky * j.k + kx) == (oy + ky) * j.w + (ox + kx)
  {
    GridBelow(OutW(j), OutH(j), oy, ox);
    GridBelow(j.k, j.k, ky, kx);
    GridBelow(j.w, j.h, oy + ky, ox + kx);
    assert Pixels(j) == OutW(j) * OutH(j);
    hide Pixels, OutH;
    ImgIndexAt(j, oy, ox, ky, kx);
  }

  lemma ImgIndexAt(j: Job, oy: nat, ox: nat, ky: nat, kx: nat)
    requires Tile(j) && ox < OutW(j) && kx < j.k && oy * OutW(j) + ox >= 0 && ky * j.k + kx >= 0
    ensures ImgIndex(j, oy * OutW(j) + ox, ky * j.k + kx) == (oy + ky) * j.w + (ox + kx)
  {
    DivModOf(oy, ox, OutW(j));
    DivModOf(ky, kx, j.k);
  }

  /** One turn of the innermost loop of either convolution. */
  lemma OneTap(j: Job, img: seq<Word>, kern: seq<Word>, p: nat, t: nat)
    requires Tile(j) && |img| >= j.w * j.h && |kern| >= Taps(j) && p < Pixels(j) && t < Taps(j)
    requires ImgIndex(j, p, t) < |img|
    ensures ConvSum(j, img, kern, p, t + 1) ==
            ConvSum(j, img, kern, p, t) + Sx16(img[ImgIndex(j, p, t)]) * Sx16(kern[t])
  {
  }

  lemma GridBelow(w: nat, h: nat, y: nat, x: nat)
    requires y < h && x < w
    ensures 0 <= y * w + x < w * h
  {
    MonotoneProduct(0, y, w);
    MonotoneProduct(y + 1, h, w);
    assert (y + 1) * w == y * w + w;
  }

  /** The golden sample of output pixel `p`. */
  function Golden(j: Job, img: seq<int>, kern: seq<int>, p: nat): Word
    requires Tile(j) && |img| >= j.w * j.h && |kern| >= Taps(j) && p < Pixels(j)
  {
    Scale(ConvSum(j, AsWords(img), AsWords(kern), p, Taps(j)), j.shift)
  }

  /** The two inner loops of `conv2d`; a kernel of size 0 sums nothing. */
  method WindowSum(img: seq<int>, kern: seq<int>, j: Job, oy: nat, ox: nat) returns (acc: int)
    requires j.k <= j.w && j.k <= j.h && |img| >= j.w * j.h && |kern| >= Taps(j) && oy < OutH(j) && ox < OutW(j)
    ensures j.k == 0 ==> acc == 0
    ensures Tile(j) ==>
              && 0 <= oy * OutW(j) + ox < Pixels(j)
              && acc == ConvSum(j, AsWords(img), AsWords(kern), oy * OutW(j) + ox, Taps(j))
  {
    ghost var tile, weights, p := AsWords(img), AsWords(kern), oy * OutW(j) + ox;
    if Tile(j) {
      Positions(j, oy, ox, 0, 0);
      SumStart(j, tile, weights, p);
    }
    hide Sx16, ConvSum, Pixels, OutW, OutH, ImgIndex, Taps, Wrap;
    TapsIs(j);
    acc := 0;
    for ky := 0 to j.k
      invariant ky * j.k <= Taps(j) && (ky == 0 ==> acc == 0)
      invariant Tile(j) ==> 0 <= p < Pixels(j) && acc == ConvSum(j, tile, weights, p, ky * j.k)
    {
      RowEnd(j, ky);
      for kx := 0 to j.k
        invariant ky * j.k + kx <= Taps(j)
        invariant 0 <= p < Pixels(j) && acc == ConvSum(j, tile, weights, p, ky * j.k + kx)
      {
        Positions(j, oy, ox, ky, kx);
        OneTap(j, tile, weights, p, ky * j.k + kx);
        acc := acc + Sx(img[(oy + ky) * j.w + (ox + kx)]) * Sx(kern[ky * j.k + kx]);
      }
    }
  }

  /** `conv2d`: the valid convolution; empty when the kernel is larger than the tile, all zeros when it has
      size 0. */
  method Conv2d(img: seq<int>, w: nat, h: nat, kern: seq<int>, k: nat, shift: nat) returns (out: seq<Word>)
    requires |img| >= w * h && |kern| >= k * k
    ensures k > w || k > h ==> out == []
    ensures k == 0 ==> |out| == (w + 1) * (h + 1) && forall p: nat | p < |out| :: out[p] == 0
    ensures
      var j := TileJob(w, h, k, shift);
      Tile(j) ==> |out| == Pixels(j) && forall p: nat | p < Pixels(j) :: out[p] == Golden(j, img, kern, p)
  {
    out := [];
    var j := TileJob(w, h, k, shift);
    var ow, oh := w - k + 1, h - k + 1;
    if ow <= 0 || oh <= 0 { return; }
    if Tile(j) { PixelsIs(j); }
    assert k == 0 ==> oh * ow == (w + 1) * (h + 1);
    hide Golden, ConvSum, Taps, Pixels;
    for oy := 0 to oh
      invariant |out| == oy * ow
      invariant k == 0 ==> forall p: nat | p < |out| :: out[p] == 0
      invariant Tile(j) ==> forall p: nat | p < |out| :: p < Pixels(j) && out[p] == Golden(j, img, kern, p)
    {
      for ox := 0 to ow
        invariant |out| == oy * ow + ox
        invariant k == 0 ==> forall p: nat | p < |out| :: out[p] == 0
        invariant Tile(j) ==> forall p: nat | p < |out| :: p < Pixels(j) && out[p] == Golden(j, img, kern, p)
      {
        var acc := WindowSum(img, kern, j, oy, ox);
        if Tile(j) { GoldenIs(j, img, kern, oy * ow + ox, acc); } else { ZeroShifts(shift); }
        out := out + [Wrap(acc / Pow2(shift))];
      }
      RowEnds(ow, oy);
    }
  }

  lemma ZeroShifts(shift: nat)
    ensures Wrap(0 / Pow2(shift)) == 0
  {
    DivModOf(0, 0, Pow2(shift));
  }

  lemma SumStart(j: Job, img: seq<Word>, kern: seq<Word>, p: nat)
    requires Tile(j) && |img| >= j.w * j.h && |kern| >= Taps(j) && p < Pixels(j)
    ensures ConvSum(j, img, kern, p, 0) == 0
  {
  }

  lemma RowEnd(j: Job, ky: nat)
    requires ky < j.k
    ensures ky * j.k + j.k == (ky + 1) * j.k <= Taps(j)
  {
    MonotoneProduct(ky + 1, j.k, j.k);
  }

  lemma TapsIs(j: Job)
    ensures Taps(j) == j.k * j.k
  {
  }

  lemma RowEnds(w: int, y: int)
    ensures (y + 1) * w == y * w + w
  {
  }

  lemma PixelsIs(j: Job)
    requires Tile(j)
    ensures Pixels(j) == OutH(j) * OutW(j)
  {
  }

  lemma GoldenIs(j: Job, img: seq<int>, kern: seq<int>, p: nat, sum: int)
    requires Tile(j) && |img| >= j.w * j.h && |kern| >= Taps(j) && p < Pixels(j)
    requires sum == ConvSum(j, AsWords(img), AsWords(kern), p, Taps(j))
    ensures Golden(j, img, kern, p) == Wrap(sum / Pow2(j.shift))
  {
  }

  // ---- The C loop ------------------------------------------------------------------------------------

  /** A 32-bit C integer: what is left of `x` after two's-complement wrap-around. */
  function Int32(x: int): int { Signed(Wrap(x)) }

  predicate Int16s(v: seq<int>) { forall i | 0 <= i < |v| :: -0x8000 <= v[i] < 0x8000 }

  lemma Int32Sum(x: int, d: int)
    ensures Int32(Int32(x) + d) == Int32(x + d)
  {
  }

  lemma ShortIsItself(v: int)
    requires -0x8000 <= v < 0x8000
    ensures Sx(v) == v
  {
  }

  lemma OneProduct(img: seq<int>, krn: seq<int>, i: nat, t: nat)
    requires i < |img| && t < |krn| && Int16s(img) && Int16s(krn)
    ensures Sx16(AsWords(img)[i]) * Sx16(AsWords(krn)[t]) == img[i] * krn[t]
  {
    ShortIsItself(img[i]);
    ShortIsItself(krn[t]);
    hide Sx16, Wrap;
    assert AsWords(img)[i] == Wrap(img[i]) && AsWords(krn)[t] == Wrap(krn[t]);
  }

  /** The first `t` products of output `p`, summed and reduced to 32 bits. */
  ghost function Sum32(j: Job, img: seq<int>, krn: seq<int>, p: nat, t: nat): int
    requires Tile(j) && |img| >= j.w * j.h && |krn| >= Taps(j) && p < Pixels(j) && t <= Taps(j)
  {
    Int32(ConvSum(j, AsWords(img), AsWords(krn), p, t))
  }

  lemma SumStart32(j: Job, img: seq<int>, krn: seq<int>, p: nat)
    requires Tile(j) && |img| >= j.w * j.h && |krn| >= Taps(j) && p < Pixels(j)
    ensures Sum32(j, img, krn, p, 0) == 0
  {
    SumStart(j, AsWords(img), AsWords(krn), p);
    assert Int32(0) == 0;
  }

  /** One turn of the C loop adds the next product, in 32 bits. */
  lemma TapInC(img: seq<int>, krn: seq<int>, j: Job, oy: nat, ox: nat, ky: nat, kx: nat)
    requires Tile(j) && |img| >= j.w * j.h && |krn| >= Taps(j) && Int16s(img) && Int16s(krn)
    requires oy < OutH(j) && ox < OutW(j) && ky < j.k && kx < j.k
    ensures
      var (p, t, i) := (oy * OutW(j) + ox, ky * j.k + kx, (oy + ky) * j.w + (ox + kx));
      && 0 <= p < Pixels(j) && 0 <= t < Taps(j) && 0 <= i < |img|
      && Int32(Sum32(j, img, krn, p, t) + img[i] * krn[t]) == Sum32(j, img, krn, p, t + 1)
  {
    Positions(j, oy, ox, ky, kx);
    hide Sx16, ConvSum, Pixels, OutW, OutH, ImgIndex, Taps, Wrap, Int32, Sx, AsWords, Int16s;
    var (p, t, i) := (oy * OutW(j) + ox, ky * j.k + kx, (oy + ky) * j.w + (ox + kx));
    OneTap(j, AsWords(img), AsWords(krn), p, t);
    OneProduct(img, krn, i, t);
    Int32Sum(ConvSum(j, AsWords(img), AsWords(krn), p, t), img[i] * krn[t]);
  }

  /** One output in software, accumulated in 32 bits. */
  method CalcOne(img: array<int>, krn: array<int>, j: Job, oy: nat, ox: nat) returns (acc: int)
    requires Tile(j) && img.Length >= j.w * j.h && krn.Length >= Taps(j) && oy < OutH(j) && ox < OutW(j)
    requires Int16s(img[..]) && Int16s(krn[..])
    ensures 0 <= oy * OutW(j) + ox < Pixels(j)
    ensures acc == Sum32(j, img[..], krn[..], oy * OutW(j) + ox, Taps(j))
  {
    Positions(j, oy, ox, 0, 0);
    TapsIs(j);
    ghost var image, kernel, p: nat := img[..], krn[..], oy * OutW(j) + ox;
    SumStart32(j, image, kernel, p);
    acc := 0;
    hide Sum32, ConvSum, Pixels, OutW, OutH, Taps, Int32, Int16s;
    for ky := 0 to j.k
      invariant ky * j.k <= Taps(j) && acc == Sum32(j, image, kernel, p, ky * j.k)
    {
      RowEnd(j, ky);
      for kx := 0 to j.k
        invariant ky * j.k + kx <= Taps(j) && acc == Sum32(j, image, kernel, p, ky * j.k + kx)
      {
        TapInC(image, kernel, j, oy, ox, ky, kx);
        var imgIdx, krnIdx := (oy + ky) * j.w + (ox + kx), ky * j.k + kx;
        acc := Int32(acc + img[imgIdx] * krn[krnIdx]);
      }
    }
  }

  /** `out` holds the tile's sums, each reduced to 32 bits. */
  ghost predicate SumsIn32Bits(j: Job, img: seq<int>, krn: seq<int>, out: seq<int>)
    requires Tile(j) && |img| >= j.w * j.h && |krn| >= Taps(j)
  {
    |out| <= Pixels(j) &&
    forall p: nat | p < |out| :: out[p] == Sum32(j, img, krn, p, Taps(j))
  }

  /** `conv_sw`: the whole output tile, written in place. */
  method ConvSw(img: array<int>, krn: array<int>, out: array<int>, j: Job)
    requires Tile(j) && img.Length >= j.w * j.h && krn.Length >= Taps(j) && out.Length == Pixels(j)
    requires Int16s(img[..]) && Int16s(krn[..]) && out != img && out != krn
    modifies out
    ensures SumsIn32Bits(j, img[..], krn[..], out[..])
  {
    ghost var image, kernel := img[..], krn[..];
    var ow, oh := j.w - j.k + 1, j.h - j.k + 1;
    PixelsIs(j);
    hide ConvSum, Taps, Pixels, Int32, Int16s;
    for oy := 0 to oh
      invariant img[..] == image && krn[..] == kernel && oy * ow <= oh * ow
      invariant SumsIn32Bits(j, image, kernel, out[..oy * ow])
    {
      RowEnds(ow, oy);
      for ox := 0 to ow
        invariant img[..] == image && krn[..] == kernel && oy * ow + ox <= oh * ow
        invariant SumsIn32Bits(j, image, kernel, out[..oy * ow + ox])
      {
        var at := oy * ow + ox;
        ghost var before := out[..at];
        var acc := CalcOne(img, krn, j, oy, ox);
        out[at] := acc;
        assert out[..at] == before;
        assert out[..at + 1] == before + [acc];
      }
    }
    assert out[..oh * ow] == out[..];
  }
}
