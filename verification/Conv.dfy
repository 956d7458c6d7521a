/** The accelerator's meaning: windowed convolution over a tile of 16-bit samples, and the sequence
    of scratchpad writes it amounts to. */
module Conv {
  import opened Arithmetic
  import opened Words

  /** The low 16 bits of a word as a signed number. */
  function Sx16(w: Word): (v: int)
    ensures -0x8000 <= v < 0x8000
  {
    var h := w % 0x1_0000;
    if h < 0x8000 then h else h - 0x1_0000
  }

  /** The signed sample is the one 16-bit number that agrees with the word modulo 2^16. */
  lemma SampleIsLow16(w: Word)
    ensures -0x8000 <= Sx16(w) < 0x8000 && (w - Sx16(w)) % 0x1_0000 == 0
  {
  }

  /** Small words stand for themselves. */
  lemma SmallSample(w: Word)
    requires w < 0x8000
    ensures Sx16(w) == w && Wrap(w) == w
  {
  }

  /** A convolution job: tile bases and coefficient base in words, tile size, kernel size, shift. */
  datatype Job = Job(inBase: nat, outBase: nat, coBase: nat, w: nat, h: nat, k: nat, shift: nat)

  /** A kernel, and a tile at least as large. */
  predicate Tile(j: Job) { 1 <= j.k <= j.w && j.k <= j.h }

  /** The accelerator accepts kernels up to 7x7. */
  predicate Valid(j: Job) { Tile(j) && j.k <= 7 }

  /** A kernel whose sums fit the 48-bit accumulator. */
  predicate Bounded(j: Job) { Tile(j) && Taps(j) <= 0x1_0000 }

  function OutW(j: Job): int { j.w - j.k + 1 }
  function OutH(j: Job): int { j.h - j.k + 1 }
  function Taps(j: Job): nat { j.k * j.k }

  function Pixels(j: Job): nat
    requires Tile(j)
  {
    OutW(j) * OutH(j)
  }

  /** The word read for tap `t` of output pixel `p`; both count in raster order. */
  function PixAddr(j: Job, p: nat, t: nat): nat
    requires Tile(j)
  {
    MonotoneProduct(0, p / OutW(j) + t / j.k, j.w);
    j.inBase + (p / OutW(j) + t / j.k) * j.w + p % OutW(j) + t % j.k
  }

  type Scratch = s: seq<Word> | |s| > 0 witness [0]

  /** Scratchpad addresses wrap at its depth. */
  function Peek(mem: Scratch, addr: nat): Word { mem[addr % |mem|] }
  function Poke(mem: Scratch, addr: nat, v: Word): Scratch { mem[addr % |mem| := v] }

  function Coeff(j: Job, mem: Scratch, t: nat): int { Sx16(Peek(mem, j.coBase + t)) }

  /** The first `t` products of output pixel `p`, pixels from `mem` and coefficients from `cmem`. */
  function Dot(j: Job, mem: Scratch, cmem: Scratch, p: nat, t: nat): int
    requires Tile(j)
  {
    if t == 0 then 0
    else Dot(j, mem, cmem, p, t - 1) + Sx16(Peek(mem, PixAddr(j, p, t - 1))) * Coeff(j, cmem, t - 1)
  }

  /** An output sample: the dot product shifted right arithmetically, low 32 bits. */
  function Scale(sum: int, shift: nat): Word { Wrap(sum / Pow2(shift)) }

  /** The output is the sum divided by 2^shift, rounded down, modulo 2^32. */
  lemma ScaleIsFloor(sum: int, shift: nat) returns (q: int)
    ensures q * Pow2(shift) <= sum < (q + 1) * Pow2(shift) && Scale(sum, shift) == q % 0x1_0000_0000
  {
    var d := Pow2(shift);
    q := sum / d;
    assert (q + 1) * d == q * d + d;
    assert sum == q * d + sum % d;
  }

  function OutSample(j: Job, mem: Scratch, cmem: Scratch, p: nat): Word
    requires Tile(j)
  {
    Scale(Dot(j, mem, cmem, p, Taps(j)), j.shift)
  }

  /** The scratchpad after the first `p` outputs have been written back one after the other. */
  function WrittenBack(j: Job, mem0: Scratch, p: nat): (mem: Scratch)
    requires Tile(j)
    ensures |mem| == |mem0|
  {
    if p == 0 then mem0
    else
      var mem := WrittenBack(j, mem0, p - 1);
      Poke(mem, j.outBase + (p - 1), OutSample(j, mem, mem0, p - 1))
  }

  /** A dot product of at most 65536 taps never leaves 47 bits, let alone the accumulator's 48; one of 49
      stays in 36. */
  lemma {:induction false} DotBound(j: Job, mem: Scratch, cmem: Scratch, p: nat, t: nat)
    requires Tile(j)
    ensures -(t * 0x4000_0000) <= Dot(j, mem, cmem, p, t) <= t * 0x4000_0000
  {
    if t > 0 {
      DotBound(j, mem, cmem, p, t - 1);
      ProductBound(Sx16(Peek(mem, PixAddr(j, p, t - 1))), Coeff(j, cmem, t - 1));
    }
  }

  lemma ProductBound(a: int, b: int)
    requires -0x8000 <= a <= 0x8000 && -0x8000 <= b <= 0x8000
    ensures -0x4000_0000 <= a * b <= 0x4000_0000
  {
    MonotoneProduct(a, 0x8000, b);
    MonotoneProduct(-0x8000, a, b);
  }

  lemma TapsBound(j: Job)
    requires Valid(j)
    ensures 1 <= Taps(j) <= 49
  {
    assert j.k == 1 || j.k == 2 || j.k == 3 || j.k == 4 || j.k == 5 || j.k == 6 || j.k == 7;
  }

  lemma TapsPositive(j: Job)
    requires Tile(j)
    ensures Taps(j) >= 1
  {
  }

  // ---- The 48-bit accumulator -------------------------------------------------------------

  const W48: int := 0x1_0000_0000_0000

  function Wrap48(x: int): int { (x + W48 / 2) % W48 - W48 / 2 }

  lemma NoWrap48(x: int)
    requires -(0x1_0000 * 0x4000_0000) <= x <= 0x1_0000 * 0x4000_0000
    ensures Wrap48(x) == x
  {
  }
}
