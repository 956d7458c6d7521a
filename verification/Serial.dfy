/** 8-N-1 serial lines: what a legal waveform is, clock cycle by clock cycle, and which bytes it
    carries. A divisor of `div` clocks per bit; both ends use the same clock. */
module Serial {
  import opened Words

  /** Eight bits, least significant first. */
  type Byte = s: seq<bool> | |s| == 8 witness [false, false, false, false, false, false, false, false]

  const ZERO: Byte := [false, false, false, false, false, false, false, false]

  /** The `n` low bits of a number, and the number some bits stand for. */
  function BitsOf(x: nat, n: nat): (b: seq<bool>)
    ensures |b| == n
  {
    if n == 0 then [] else [x % 2 == 1] + BitsOf(x / 2, n - 1)
  }

  function ValueOf(b: seq<bool>): nat {
    if b == [] then 0 else (if b[0] then 1 else 0) + 2 * ValueOf(b[1..])
  }

  lemma {:induction false} ValueOfBits(x: nat, n: nat)
    requires x < Pow2(n)
    ensures ValueOf(BitsOf(x, n)) == x
    decreases n
  {
    if n > 0 {
      ValueOfBits(x / 2, n - 1);
      assert BitsOf(x, n)[1..] == BitsOf(x / 2, n - 1);
    }
  }

  lemma {:induction false} ValueBound(b: seq<bool>)
    ensures ValueOf(b) < Pow2(|b|)
    decreases |b|
  {
    if b != [] { ValueBound(b[1..]); }
  }

  /** Start bit, data bits, stop bit, in the order they go out. */
  function FrameBits(b: Byte): (f: seq<bool>)
    ensures |f| == 10
  {
    [false] + b + [true]
  }

  /** What a line carries during one clock cycle: silence, or clock `e` of the frame of `b`. */
  datatype Slot = Quiet | Clock(b: Byte, e: nat)

  ghost predicate SlotOk(div: nat, s: Slot) { s.Clock? ==> s.e < 10 * div }

  function Level(div: nat, s: Slot): bool
    requires div > 0
  {
    match s
    case Quiet => true
    case Clock(b, e) => if e / div < 10 then FrameBits(b)[e / div] else true
  }

  /** `t` may come right after `s`: frames are sent whole, and start whenever the line is free. */
  ghost predicate Follows(div: nat, s: Slot, t: Slot) {
    if s.Clock? && s.e < 10 * div - 1 then t == Clock(s.b, s.e + 1) else t.Quiet? || t.e == 0
  }

  /** A waveform, continuing after `s`. */
  ghost predicate Legal(div: nat, s: Slot, slots: seq<Slot>)
    decreases |slots|
  {
    slots != [] ==> Follows(div, s, slots[0]) && Legal(div, slots[0], slots[1..])
  }

  function Levels(div: nat, slots: seq<Slot>): (l: seq<bool>)
    requires div > 0
    ensures |l| == |slots|
  {
    if slots == [] then [] else [Level(div, slots[0])] + Levels(div, slots[1..])
  }

  lemma {:induction false} LevelsConcat(div: nat, a: seq<Slot>, b: seq<Slot>)
    requires div > 0
    ensures Levels(div, a + b) == Levels(div, a) + Levels(div, b)
  {
    hide Level;
    if a == [] {
      assert a + b == b;
    } else {
      LevelsConcat(div, a[1..], b);
      assert (a + b)[1..] == a[1..] + b;
    }
  }

  /** Bytes whose frame is at clock `at` somewhere in the waveform, in order. */
  function Passing(slots: seq<Slot>, at: nat): seq<Byte> {
    if slots == [] then [] else PassingOne(slots[0], at) + Passing(slots[1..], at)
  }

  function PassingOne(s: Slot, at: nat): seq<Byte> { if s.Clock? && s.e == at then [s.b] else [] }

  /** Bytes whose frames start in the waveform. */
  function Started(slots: seq<Slot>): seq<Byte> { Passing(slots, 0) }

  /** The frame a slot is in the middle of, before clock `at`. */
  function Underway(s: Slot, at: nat): seq<Byte> { if s.Clock? && s.e < at then [s.b] else [] }

  function LastSlot(s: Slot, slots: seq<Slot>): Slot { if slots == [] then s else slots[|slots| - 1] }

  lemma Assoc(a: seq<Byte>, b: seq<Byte>, c: seq<Byte>)
    ensures a + (b + c) == (a + b) + c
  {
  }

  /** One clock: a frame under way is still under way, or has just passed clock `at`. */
  lemma SlotBalance(div: nat, s: Slot, t: Slot, at: nat)
    requires Follows(div, s, t) && SlotOk(div, s) && 0 < at < 10 * div
    ensures Underway(s, at) + PassingOne(t, 0) == PassingOne(t, at) + Underway(t, at)
  {
  }

  /** Every frame that starts gets to clock `at` exactly once, in order; at most the last is still on
      its way there. */
  lemma {:induction false} FramesPass(div: nat, s: Slot, slots: seq<Slot>, at: nat)
    requires Legal(div, s, slots) && SlotOk(div, s) && 0 < at < 10 * div
    ensures Underway(s, at) + Started(slots) == Passing(slots, at) + Underway(LastSlot(s, slots), at)
    decreases |slots|
  {
    if slots == [] {
    } else {
      var (t, rest) := (slots[0], slots[1..]);
      SlotBalance(div, s, t, at);
      FramesPass(div, t, rest, at);
      assert LastSlot(t, rest) == LastSlot(s, slots);
      hide PassingOne, Underway;
      Assoc(Underway(s, at), PassingOne(t, 0), Started(rest));
      Assoc(PassingOne(t, at), Underway(t, at), Started(rest));
      Assoc(PassingOne(t, at), Passing(rest, at), Underway(LastSlot(t, rest), at));
    }
  }

  // ---- Waveforms a host sends ------------------------------------------------------------------------

  /** A frame from clock `e` on, and silence. */
  function FrameFrom(div: nat, b: Byte, e: nat): (f: seq<Slot>)
    requires e <= 10 * div
    ensures |f| == 10 * div - e
  {
    seq(10 * div - e, i requires 0 <= i => Clock(b, e + i))
  }

  function Silence(n: nat): (q: seq<Slot>)
    ensures |q| == n
  {
    seq(n, _ => Quiet)
  }

  /** One byte's frame after a gap. */
  function Sent(div: nat, b: Byte, gap: nat): seq<Slot> { Silence(gap) + FrameFrom(div, b, 0) }

  /** Each byte's frame after a gap of its own, possibly none. */
  function Wave(div: nat, bytes: seq<Byte>, gaps: seq<nat>): seq<Slot>
    requires |bytes| == |gaps|
  {
    if bytes == [] then []
    else Sent(div, bytes[0], gaps[0]) + Wave(div, bytes[1..], gaps[1..])
  }

  /** A new frame may start right after `s`. */
  ghost predicate Free(div: nat, s: Slot) { s.Quiet? || s.e >= 10 * div - 1 }

  lemma {:induction false} LegalConcat(div: nat, s: Slot, a: seq<Slot>, b: seq<Slot>)
    requires Legal(div, s, a) && Legal(div, LastSlot(s, a), b)
    ensures Legal(div, s, a + b)
    decreases |a|
  {
    if a == [] {
      assert a + b == b;
    } else {
      assert LastSlot(a[0], a[1..]) == LastSlot(s, a);
      LegalConcat(div, a[0], a[1..], b);
      assert (a + b)[1..] == a[1..] + b;
    }
  }

  lemma {:induction false} PassingConcat(a: seq<Slot>, b: seq<Slot>, at: nat)
    ensures Passing(a + b, at) == Passing(a, at) + Passing(b, at)
  {
    if a == [] {
      assert a + b == b;
    } else {
      hide PassingOne;
      PassingConcat(a[1..], b, at);
      assert (a + b)[1..] == a[1..] + b && (a + b)[0] == a[0];
      Assoc(PassingOne(a[0], at), Passing(a[1..], at), Passing(b, at));
    }
  }

  lemma {:induction false} SilenceIsLegal(div: nat, s: Slot, n: nat, at: nat)
    requires Free(div, s)
    ensures Legal(div, s, Silence(n)) && Passing(Silence(n), at) == [] && Free(div, LastSlot(s, Silence(n)))
    decreases n
  {
    if n > 0 {
      SilenceIsLegal(div, Quiet, n - 1, at);
      assert Silence(n)[1..] == Silence(n - 1);
    }
  }

  lemma {:induction false} FrameIsLegal(div: nat, s: Slot, b: Byte, e: nat, at: nat)
    requires e < 10 * div && Follows(div, s, Clock(b, e))
    ensures Legal(div, s, FrameFrom(div, b, e))
    ensures Passing(FrameFrom(div, b, e), at) == if e <= at < 10 * div then [b] else []
    decreases 10 * div - e
  {
    var f := FrameFrom(div, b, e);
    if e + 1 < 10 * div {
      FrameIsLegal(div, Clock(b, e), b, e + 1, at);
      assert f[1..] == FrameFrom(div, b, e + 1);
    } else {
      assert f == [Clock(b, e)];
    }
  }

  lemma SentIsLegal(div: nat, s: Slot, b: Byte, gap: nat, at: nat)
    requires Free(div, s) && at < 10 * div
    ensures
      var w := Sent(div, b, gap);
      && Legal(div, s, w) && Passing(w, at) == [b] && Free(div, LastSlot(s, w))
      && (forall i | 0 <= i < |w| :: SlotOk(div, w[i]))
  {
    var (q, f) := (Silence(gap), FrameFrom(div, b, 0));
    SilenceIsLegal(div, s, gap, at);
    FrameIsLegal(div, LastSlot(s, q), b, 0, at);
    LegalConcat(div, s, q, f);
    PassingConcat(q, f, at);
    hide Legal, Passing;
    assert (q + f)[|q| + 10 * div - 1] == f[10 * div - 1] == Clock(b, 10 * div - 1);
    forall i | 0 <= i < |q + f| ensures SlotOk(div, (q + f)[i]) {
      assert (q + f)[i] == if i < |q| then Quiet else Clock(b, i - |q|);
    }
  }

  /** The host's waveform is legal, ends free, and carries exactly its bytes past every clock of a frame. */
  lemma {:induction false} WaveIsLegal(div: nat, s: Slot, bytes: seq<Byte>, gaps: seq<nat>, at: nat)
    requires |bytes| == |gaps| && Free(div, s) && at < 10 * div
    ensures
      var w := Wave(div, bytes, gaps);
      && Legal(div, s, w) && Passing(w, at) == bytes && Free(div, LastSlot(s, w))
      && (forall i | 0 <= i < |w| :: SlotOk(div, w[i]))
    decreases |bytes|
  {
    hide Sent, Legal, Passing;
    if bytes == [] {
      hide *;
      EmptyWave(div, s, gaps, at);
    } else {
      var (f, w) := (Sent(div, bytes[0], gaps[0]), Wave(div, bytes[1..], gaps[1..]));
      SentIsLegal(div, s, bytes[0], gaps[0], at);
      WaveIsLegal(div, LastSlot(s, f), bytes[1..], gaps[1..], at);
      LegalConcat(div, s, f, w);
      PassingConcat(f, w, at);
      assert LastSlot(s, f + w) == LastSlot(LastSlot(s, f), w);
    }
  }

  lemma EmptyWave(div: nat, s: Slot, gaps: seq<nat>, at: nat)
    requires |gaps| == 0 && Free(div, s)
    ensures Wave(div, [], gaps) == [] && Legal(div, s, []) && Passing([], at) == [] && Free(div, LastSlot(s, []))
  {
  }
}
