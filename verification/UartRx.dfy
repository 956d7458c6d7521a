/** The shared serial receiver: a two-flop synchroniser and a state machine that samples every bit
    half a period after its edge. */
module UartRx {
  import opened Arithmetic
  import opened Serial

  datatype RxState = S_IDLE | S_START | S_DATA | S_STOP

  datatype Rx = Rx(
    meta: bool, sync: bool, state: RxState, baud: nat, bitIdx: nat, shifter: Byte, data: Byte, strobe: bool)

  const RESET: Rx := Rx(true, true, S_IDLE, 0, 0, ZERO, ZERO, false)

  function Half(div: nat): nat { div / 2 }

  function RxNext(div: nat, r: Rx, line: bool): Rx {
    var n := r.(meta := line, sync := r.meta, strobe := false);
    match r.state
    case S_IDLE => if !r.sync then n.(baud := 0, state := S_START) else n.(baud := 0)
    case S_START =>
      if r.baud != Half(div) - 1 then n.(baud := r.baud + 1)
      else if !r.sync then n.(baud := 0, state := S_DATA, bitIdx := 0)
      else n.(baud := 0, state := S_IDLE)
    case S_DATA =>
      if r.baud != div - 1 then n.(baud := r.baud + 1)
      else
        var shifted := r.shifter[1..] + [r.sync];
        if r.bitIdx == 7 then n.(baud := 0, shifter := shifted, state := S_STOP)
        else n.(baud := 0, shifter := shifted, bitIdx := (r.bitIdx + 1) % 8)
    case S_STOP =>
      if r.baud != div - 1 then n.(baud := r.baud + 1)
      else n.(baud := 0, state := S_IDLE, data := r.shifter, strobe := true)
  }

  // ---- Where the receiver is at each clock of a frame ------------------------------------------------

  /** Clock of a frame, as seen behind the synchroniser, at which its byte is handed over. */
  function HandOver(div: nat): nat { Half(div) + 9 * div }

  /** Clock `m` of the period that ends with the sampling of data bit `i`. */
  ghost predicate TracksData(div: nat, r: Rx, b: Byte, i: nat, m: nat) {
    r.state == S_DATA && r.baud == m && r.bitIdx == i && i < 8 && r.shifter[8 - i..] == b[..i]
  }

  /** The receiver's state while clock `e` of the frame of `b` is behind the synchroniser. */
  ghost predicate Tracks(div: nat, r: Rx, b: Byte, e: nat)
    requires div >= 2
  {
    var h := Half(div);
    if e == 0 || e > HandOver(div) then r.state == S_IDLE
    else if e <= h then r.state == S_START && r.baud == e - 1
    else if e <= h + 8 * div then TracksData(div, r, b, (e - h - 1) / div, (e - h - 1) % div)
    else r.state == S_STOP && r.baud == e - h - 8 * div - 1 && r.shifter == b
  }

  /** `tm` and `ts` are the slots in the two synchroniser flops. */
  ghost predicate Matches(div: nat, r: Rx, tm: Slot, ts: Slot)
    requires div >= 2
  {
    && r.meta == Level(div, tm) && r.sync == Level(div, ts)
    && SlotOk(div, tm) && SlotOk(div, ts) && Follows(div, ts, tm)
    && match ts
       case Quiet => r.state == S_IDLE
       case Clock(b, e) => Tracks(div, r, b, e)
  }

  /** Counting on by one, below eight periods. */
  lemma DivStep(c: nat, d: nat)
    requires d > 0 && c < 8 * d
    ensures c / d < 8 && c == c / d * d + c % d
    ensures c % d == d - 1 ==> (c + 1) / d == c / d + 1 && (c + 1) % d == 0 && c + 1 == (c / d + 1) * d
    ensures c % d != d - 1 ==> (c + 1) / d == c / d && (c + 1) % d == c % d + 1 && c + 1 < 8 * d
    ensures c % d == d - 1 ==> (c + 1 < 8 * d <==> c / d < 7)
  {
    var (q, m) := (c / d, c % d);
    assert c == q * d + m;
    if q >= 8 { MonotoneProduct(8, q, d); }
    MonotoneProduct(q, 7, d);
    if m == d - 1 {
      assert c + 1 == (q + 1) * d + 0;
      DivModOf(q + 1, 0, d);
      if q < 7 { MonotoneProduct(q + 1, 7, d); }
    } else {
      DivModOf(q, m + 1, d);
    }
  }

  /** The level half a period into bit `i` of a frame. */
  lemma MidBit(div: nat, b: Byte, i: nat)
    requires div >= 2 && i < 10
    ensures Level(div, Clock(b, i * div + Half(div))) == FrameBits(b)[i]
  {
    DivModOf(i, Half(div), div);
  }

  /** The level in the first half of the start bit, and in the second half of the stop bit. */
  lemma EdgeBits(div: nat, b: Byte, e: nat)
    requires div >= 2 && e < 10 * div
    ensures e <= Half(div) ==> !Level(div, Clock(b, e))
    ensures e >= 9 * div ==> Level(div, Clock(b, e))
  {
    if e <= Half(div) { DivModOf(0, e, div); }
    if e >= 9 * div { DivModOf(9, e - 9 * div, div); }
  }

  lemma StepStart(div: nat, r: Rx, b: Byte, e: nat, line: bool)
    requires div >= 2 && e <= Half(div) && Tracks(div, r, b, e) && r.sync == Level(div, Clock(b, e))
    ensures Tracks(div, RxNext(div, r, line), b, e + 1) && !RxNext(div, r, line).strobe
  {
    EdgeBits(div, b, e);
    hide Level;
    if e == Half(div) { DivModOf(0, 0, div); }
  }

  /** Sampling data bit `i`. */
  lemma StepSample(div: nat, r: Rx, b: Byte, i: nat, line: bool)
    requires div >= 2 && TracksData(div, r, b, i, div - 1)
    requires r.sync == Level(div, Clock(b, (i + 1) * div + Half(div)))
    ensures
      var n := RxNext(div, r, line);
      && !n.strobe && n.baud == 0
      && (if i == 7 then n.state == S_STOP && n.shifter == b else TracksData(div, n, b, i + 1, 0))
  {
    hide Level, Half;
    DataBitLevel(div, b, i);
    assert r.sync == b[i];
    StepShift(div, r, line);
    hide RxNext;
    ShiftedIn(r.shifter, b, i);
  }

  /** What sampling a data bit does to the registers. */
  lemma StepShift(div: nat, r: Rx, line: bool)
    requires r.state == S_DATA && r.baud == div - 1 && r.bitIdx < 8
    ensures
      var n := RxNext(div, r, line);
      && !n.strobe && n.baud == 0 && n.shifter == r.shifter[1..] + [r.sync]
      && (if r.bitIdx == 7 then n.state == S_STOP else n.state == S_DATA && n.bitIdx == r.bitIdx + 1)
  {
  }

  lemma DataBitLevel(div: nat, b: Byte, i: nat)
    requires div >= 2 && i < 8
    ensures Level(div, Clock(b, (i + 1) * div + Half(div))) == b[i]
  {
    MidBit(div, b, i + 1);
    hide Level;
  }

  /** Shifting bit `i` in behind the `i` bits already there. */
  lemma ShiftedIn(shifter: Byte, b: Byte, i: nat)
    requires i < 8 && shifter[8 - i..] == b[..i]
    ensures (shifter[1..] + [b[i]])[8 - (i + 1)..] == b[..i + 1]
    ensures i == 7 ==> shifter[1..] + [b[i]] == b
  {
    var n := shifter[1..] + [b[i]];
    assert n[8 - (i + 1)..] == shifter[8 - i..] + [b[i]];
    assert b[..i + 1] == b[..i] + [b[i]];
    if i == 7 { assert n[0..] == n && b[..8] == b; }
  }

  lemma StepWait(div: nat, r: Rx, b: Byte, i: nat, m: nat, line: bool)
    requires div >= 2 && m < div - 1 && TracksData(div, r, b, i, m)
    ensures TracksData(div, RxNext(div, r, line), b, i, m + 1) && !RxNext(div, r, line).strobe
  {
  }

  lemma StepData(div: nat, r: Rx, b: Byte, e: nat, line: bool)
    requires div >= 2 && Half(div) < e <= Half(div) + 8 * div && Tracks(div, r, b, e)
    requires r.sync == Level(div, Clock(b, e))
    ensures Tracks(div, RxNext(div, r, line), b, e + 1) && !RxNext(div, r, line).strobe
  {
    var c := e - Half(div) - 1;
    DivStep(c, div);
    hide Level, RxNext, TracksData;
    if c % div == div - 1 {
      assert (c / div + 1) * div + Half(div) == e;
      StepSample(div, r, b, c / div, line);
    } else {
      StepWait(div, r, b, c / div, c % div, line);
    }
    hide Half;
  }

  lemma StepStop(div: nat, r: Rx, b: Byte, e: nat, line: bool)
    requires div >= 2 && Half(div) + 8 * div < e < 10 * div && Tracks(div, r, b, e)
    requires r.sync == Level(div, Clock(b, e))
    ensures
      var n := RxNext(div, r, line);
      && n.strobe == (e == HandOver(div)) && (n.strobe ==> n.data == b)
      && (if e + 1 < 10 * div then Tracks(div, n, b, e + 1) else n.state == S_IDLE)
  {
    if e > HandOver(div) { EdgeBits(div, b, e); }
  }

  /** One clock inside a frame. */
  lemma StepInFrame(div: nat, r: Rx, b: Byte, e: nat, line: bool)
    requires div >= 2 && e < 10 * div && Tracks(div, r, b, e) && r.sync == Level(div, Clock(b, e))
    ensures
      var n := RxNext(div, r, line);
      && n.strobe == (e == HandOver(div)) && (n.strobe ==> n.data == b)
      && (if e + 1 < 10 * div then Tracks(div, n, b, e + 1) else n.state == S_IDLE)
  {
    hide Level, RxNext, Tracks;
    if e <= Half(div) { StepStart(div, r, b, e, line); }
    else if e <= Half(div) + 8 * div { StepData(div, r, b, e, line); }
    else { StepStop(div, r, b, e, line); }
  }

  /** One clock on a legal waveform: the receiver stays in step with the slot behind its synchroniser,
      takes no false start, is idle whenever a start bit arrives, and hands over exactly the frame's byte
      in exactly one clock of the frame. */
  lemma RxStep(div: nat, r: Rx, tm: Slot, ts: Slot, x: Slot)
    requires div >= 2 && Matches(div, r, tm, ts) && SlotOk(div, x) && Follows(div, tm, x)
    ensures
      var n := RxNext(div, r, Level(div, x));
      && Matches(div, n, x, tm)
      && n.strobe == (ts.Clock? && ts.e == HandOver(div)) && (n.strobe ==> n.data == ts.b)
  {
    Flops(div, r, Level(div, x));
    if ts.Clock? {
      StepInFrame(div, r, ts.b, ts.e, Level(div, x));
      hide RxNext;
    } else {
      assert Level(div, ts);
    }
    hide Level, HandOver;
  }

  lemma Flops(div: nat, r: Rx, line: bool)
    ensures RxNext(div, r, line).meta == line && RxNext(div, r, line).sync == r.meta
  {
  }

  // ---- Whole waveforms ----------------------------------------------------------------------------------

  function RxAfter(div: nat, r: Rx, lines: seq<bool>): Rx
    decreases |lines|
  {
    if lines == [] then r else RxAfter(div, RxNext(div, r, lines[0]), lines[1..])
  }

  /** The bytes strobed while the line takes the given levels. */
  function Strobed(div: nat, r: Rx, lines: seq<bool>): seq<Byte>
    decreases |lines|
  {
    if lines == [] then []
    else
      var n := RxNext(div, r, lines[0]);
      (if n.strobe then [n.data] else []) + Strobed(div, n, lines[1..])
  }

  /** The slots the state machine sees, one clock on. */
  lemma SeenShifts(tm: Slot, ts: Slot, slots: seq<Slot>)
    requires slots != []
    ensures
      var (seen, rest) := ([ts, tm] + slots, [tm, slots[0]] + slots[1..]);
      && seen[..|slots|][0] == ts && seen[..|slots|][1..] == rest[..|slots| - 1]
      && seen[|seen| - 1] == rest[|rest| - 1] && seen[|seen| - 2] == rest[|rest| - 2] && |seen| == |rest| + 1
  {
  }

  /** On every legal waveform, whatever its bytes and gaps, the receiver strobes exactly the bytes of the
      frames that have got to their hand-over clock behind the synchroniser, in order, one strobe each. */
  lemma {:induction false} RxDecodes(div: nat, r: Rx, tm: Slot, ts: Slot, slots: seq<Slot>)
    requires div >= 2 && Matches(div, r, tm, ts) && Legal(div, tm, slots)
    requires forall i | 0 <= i < |slots| :: SlotOk(div, slots[i])
    ensures Strobed(div, r, Levels(div, slots)) == Passing(([ts, tm] + slots)[..|slots|], HandOver(div))
    ensures
      var seen := [ts, tm] + slots;
      Matches(div, RxAfter(div, r, Levels(div, slots)), seen[|seen| - 1], seen[|seen| - 2])
    decreases |slots|
  {
    hide Matches, RxNext, Level, HandOver, SlotOk, Follows;
    if slots == [] {
    } else {
      var x := slots[0];
      RxStep(div, r, tm, ts, x);
      SeenShifts(tm, ts, slots);
      RxDecodes(div, RxNext(div, r, Level(div, x)), x, tm, slots[1..]);
      assert Levels(div, slots)[1..] == Levels(div, slots[1..]);
    }
  }

  lemma ResetMatches(div: nat)
    requires div >= 2
    ensures Matches(div, RESET, Quiet, Quiet)
  {
  }

  lemma QuietIsIdle(div: nat, r: Rx, tm: Slot, ts: Slot)
    requires div >= 2 && Matches(div, r, tm, ts) && ts.Quiet?
    ensures r.state == S_IDLE
  {
  }

  lemma QuietPair(at: nat)
    ensures Passing([Quiet, Quiet], at) == []
  {
    assert [Quiet, Quiet][1..] == [Quiet] && [Quiet][1..] == [];
    assert Passing([Quiet], at) == PassingOne(Quiet, at) + Passing([], at) == [];
    assert Passing([Quiet, Quiet], at) == PassingOne(Quiet, at) + Passing([Quiet], at);
  }

  /** The host's waveform and the silence after it, as the state machine sees it: two slots late. */
  lemma HostWave(div: nat, bytes: seq<Byte>, gaps: seq<nat>, tail: nat, at: nat)
    requires div >= 2 && |bytes| == |gaps| && tail >= 2 && at < 10 * div
    ensures
      var slots := Wave(div, bytes, gaps) + Silence(tail);
      var seen := [Quiet, Quiet] + slots;
      && Legal(div, Quiet, slots) && (forall i | 0 <= i < |slots| :: SlotOk(div, slots[i]))
      && Passing(seen[..|slots|], at) == bytes && seen[|seen| - 2] == Quiet
  {
    hide Wave, Legal, Passing;
    var (w, q) := (Wave(div, bytes, gaps), Silence(tail));
    WaveIsLegal(div, Quiet, bytes, gaps, at);
    SilenceIsLegal(div, LastSlot(Quiet, w), tail, at);
    LegalConcat(div, Quiet, w, q);
    SeenWave(w, tail, at);
    hide LastSlot;
    assert |([Quiet, Quiet] + (w + q))| == 2 + |w + q| && |w + q| == |w| + tail;
    assert (w + q)[|w| + tail - 2] == q[tail - 2] == Quiet;
    forall i | 0 <= i < |w + q| ensures SlotOk(div, (w + q)[i]) {
      assert (w + q)[i] == if i < |w| then w[i] else Quiet;
    }
  }

  lemma SeenWave(w: seq<Slot>, tail: nat, at: nat)
    requires tail >= 2
    ensures Passing(([Quiet, Quiet] + (w + Silence(tail)))[..|w| + tail], at) == Passing(w, at)
  {
    var q := Silence(tail - 2);
    assert ([Quiet, Quiet] + (w + Silence(tail)))[..|w| + tail] == [Quiet, Quiet] + (w + q);
    SilenceIsLegal(1, Quiet, tail - 2, at);
    QuietPair(at);
    PassingConcat([Quiet, Quiet], w + q, at);
    PassingConcat(w, q, at);
    hide Passing;
  }

  /** Round trip from the host: any bytes sent as 8-N-1 frames after any gaps, back to back included, are
      strobed by the receiver exactly and in order, and it ends idle. */
  lemma HostBytesArrive(div: nat, bytes: seq<Byte>, gaps: seq<nat>, tail: nat)
    requires div >= 2 && |bytes| == |gaps| && tail >= 2
    ensures
      var lines := Levels(div, Wave(div, bytes, gaps) + Silence(tail));
      Strobed(div, RESET, lines) == bytes && RxAfter(div, RESET, lines).state == S_IDLE
  {
    ResetMatches(div);
    assert HandOver(div) < 10 * div;
    hide HandOver, Wave, Legal, Matches, Strobed, RxAfter, Passing, Levels, SlotOk;
    var slots := Wave(div, bytes, gaps) + Silence(tail);
    var seen := [Quiet, Quiet] + slots;
    HostWave(div, bytes, gaps, tail, HandOver(div));
    RxDecodes(div, RESET, Quiet, Quiet, slots);
    QuietIsIdle(div, RxAfter(div, RESET, Levels(div, slots)), seen[|seen| - 1], seen[|seen| - 2]);
  }

  // ---- The receiver as an object --------------------------------------------------------------------------

  /** `uart_rx_core`: registers updated on every clock. */
  class RxCore {
    const div: nat
    var meta: bool
    var sync: bool
    var state: RxState
    var baud: nat
    var bitIdx: nat
    var shifter: Byte
    var data: Byte
    var strobe: bool

    function View(): Rx
      reads this
    {
      Rx(meta, sync, state, baud, bitIdx, shifter, data, strobe)
    }

    constructor (div: nat)
      requires div >= 2
      ensures View() == RESET && this.div == div
    {
      this.div := div;
      meta, sync, state, baud, bitIdx := true, true, S_IDLE, 0, 0;
      shifter, data, strobe := ZERO, ZERO, false;
    }

    /** One clock edge. */
    method Clock(rx: bool)
      modifies this
      ensures View() == RxNext(div, old(View()), rx)
    {
      strobe := false;
      match state {
        case S_IDLE =>
          baud := 0;
          if !sync { state := S_START; }
        case S_START =>
          if baud == Half(div) - 1 {
            baud := 0;
            if !sync { state, bitIdx := S_DATA, 0; } else { state := S_IDLE; }
          } else {
            baud := baud + 1;
          }
        case S_DATA =>
          if baud == div - 1 {
            baud := 0;
            shifter := shifter[1..] + [sync];
            if bitIdx == 7 { state := S_STOP; } else { bitIdx := (bitIdx + 1) % 8; }
          } else {
            baud := baud + 1;
          }
        case S_STOP =>
          if baud == div - 1 {
            baud, state, data, strobe := 0, S_IDLE, shifter, true;
          } else {
            baud := baud + 1;
          }
      }
      meta, sync := rx, meta;
    }
  }
}
