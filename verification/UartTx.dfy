/** The transmitter: a holding register in front of a ten-bit shifter. */
module UartTx {
  import opened Words
  import opened Arithmetic
  import opened Serial

  type Frame = f: seq<bool> | |f| == 10 witness [true, true, true, true, true, true, true, true, true, true]

  datatype Tx = Tx(hold: Byte, full: bool, active: bool, bitcnt: nat, baud: nat, frame: Frame, line: bool)

  const ONES: Frame := [true, true, true, true, true, true, true, true, true, true]
  const RESET: Tx := Tx(ZERO, false, false, 0, 0, ONES, true)

  /** One clock; `w` is the byte written to TXDATA in it, if any. A write to a full holding register is
      ignored. */
  function TxNext(div: nat, t: Tx, w: Option<Byte>): Tx {
    var n := if w.Some? && !t.full then t.(hold := w.value, full := true) else t;
    if !t.active then
      if t.full
      then n.(line := true, frame := FrameBits(t.hold), bitcnt := 10, baud := 0, active := true, full := false)
      else n.(line := true)
    else
      var m := n.(line := t.frame[0]);
      if t.baud != div - 1 then m.(baud := t.baud + 1)
      else m.(baud := 0, frame := t.frame[1..] + [true], bitcnt := if t.bitcnt == 0 then 15 else t.bitcnt - 1,
              active := t.bitcnt != 1)
  }

  predicate TxBusy(t: Tx) { t.active || t.full }
  predicate TxReady(t: Tx) { !t.full }

  // ---- What the transmitter puts on the line -----------------------------------------------------------

  /** The transmitter, the byte in its shifter and the slot its line register stands for. */
  datatype Sender = Sender(tx: Tx, cur: Byte, last: Slot)

  /** The slot the line register takes on the coming edge. */
  function Emit(div: nat, s: Sender): Slot {
    if s.tx.active && s.tx.bitcnt <= 10 then Clock(s.cur, (10 - s.tx.bitcnt) * div + s.tx.baud) else Quiet
  }

  function SenderNext(div: nat, s: Sender, w: Option<Byte>): Sender {
    Sender(TxNext(div, s.tx, w), if !s.tx.active && s.tx.full then s.tx.hold else s.cur, Emit(div, s))
  }

  /** The shifter holds what is left of the current frame, and the line is where the frame says. */
  ghost predicate Sending(div: nat, s: Sender)
    requires div >= 2
  {
    var t := s.tx;
    && SlotOk(div, s.last) && t.line == Level(div, s.last) && Follows(div, s.last, Emit(div, s))
    && (t.active ==> 1 <= t.bitcnt <= 10 && t.baud < div && t.frame[..t.bitcnt] == FrameBits(s.cur)[10 - t.bitcnt..])
  }

  /** Clock `b` of bit `k` of a frame. */
  lemma BitClock(k: nat, b: nat, div: nat)
    requires k < 10 && b < div
    ensures (k * div + b) / div == k && k * div + b < 10 * div
    ensures (k * div + b == 10 * div - 1) <==> (k == 9 && b == div - 1)
  {
    DivModOf(k, b, div);
    MonotoneProduct(k, 9, div);
    if k < 9 { MonotoneProduct(k, 8, div); }
  }

  lemma EmitsLevel(div: nat, s: Sender)
    requires div >= 2 && Sending(div, s) && s.tx.active
    ensures Level(div, Emit(div, s)) == s.tx.frame[0] && SlotOk(div, Emit(div, s))
    ensures Emit(div, s).e == (10 - s.tx.bitcnt) * div + s.tx.baud
    ensures (s.tx.bitcnt == 1 && s.tx.baud == div - 1) <==> Emit(div, s).e == 10 * div - 1
  {
    var k := 10 - s.tx.bitcnt;
    BitClock(k, s.tx.baud, div);
    assert s.tx.frame[0] == s.tx.frame[..s.tx.bitcnt][0] == FrameBits(s.cur)[k];
    hide FrameBits;
  }

  lemma SendIdle(div: nat, s: Sender, w: Option<Byte>)
    requires div >= 2 && Sending(div, s) && !s.tx.active
    ensures Sending(div, SenderNext(div, s, w))
  {
    assert Level(div, Quiet);
    hide Level;
    if s.tx.full {
      assert SenderNext(div, s, w).tx.frame[..10] == FrameBits(s.tx.hold)[0..];
    }
    hide FrameBits;
  }

  lemma SendInBit(div: nat, s: Sender, w: Option<Byte>)
    requires div >= 2 && Sending(div, s) && s.tx.active && s.tx.baud != div - 1
    ensures Sending(div, SenderNext(div, s, w))
  {
    EmitsLevel(div, s);
    hide Level, FrameBits;
  }

  /** Shifting one bit out leaves the rest of the frame. */
  lemma RestOfFrame(frame: Frame, whole: seq<bool>, left: nat)
    requires |whole| == 10 && 1 <= left <= 10 && frame[..left] == whole[10 - left..]
    ensures (frame[1..] + [true])[..left - 1] == whole[10 - (left - 1)..]
  {
    assert (frame[1..] + [true])[..left - 1] == frame[..left][1..];
    assert whole[10 - left..][1..] == whole[10 - (left - 1)..];
  }

  lemma SendEndOfBit(div: nat, s: Sender, w: Option<Byte>)
    requires div >= 2 && Sending(div, s) && s.tx.active && s.tx.baud == div - 1
    ensures Sending(div, SenderNext(div, s, w))
  {
    hide Level, FrameBits;
    EmitsLevel(div, s);
    var left := s.tx.bitcnt;
    RestOfFrame(s.tx.frame, FrameBits(s.cur), left);
    OneBitOn(10 - left, div);
  }

  lemma OneBitOn(k: int, div: int)
    ensures (k + 1) * div == k * div + div
  {
  }

  /** One clock: what goes out continues a legal waveform, whatever is written. */
  lemma SendStep(div: nat, s: Sender, w: Option<Byte>)
    requires div >= 2 && Sending(div, s)
    ensures Sending(div, SenderNext(div, s, w))
  {
    hide Sending, SenderNext;
    if !s.tx.active { SendIdle(div, s, w); }
    else if s.tx.baud != div - 1 { SendInBit(div, s, w); }
    else { SendEndOfBit(div, s, w); }
  }

  // ---- Whole schedules of writes ---------------------------------------------------------------------------

  /** The line, seen before each edge, and what it stands for. */
  function Wire(div: nat, t: Tx, ws: seq<Option<Byte>>): (l: seq<bool>)
    ensures |l| == |ws|
    decreases |ws|
  {
    if ws == [] then [] else [t.line] + Wire(div, TxNext(div, t, ws[0]), ws[1..])
  }

  function Slots(div: nat, s: Sender, ws: seq<Option<Byte>>): (l: seq<Slot>)
    ensures |l| == |ws|
    decreases |ws|
  {
    if ws == [] then [] else [s.last] + Slots(div, SenderNext(div, s, ws[0]), ws[1..])
  }

  function SenderAfter(div: nat, s: Sender, ws: seq<Option<Byte>>): Sender
    decreases |ws|
  {
    if ws == [] then s else SenderAfter(div, SenderNext(div, s, ws[0]), ws[1..])
  }

  /** Bytes written while TX_READY. */
  function Accepted(div: nat, t: Tx, ws: seq<Option<Byte>>): seq<Byte>
    decreases |ws|
  {
    if ws == [] then []
    else AcceptedNow(t, ws[0]) + Accepted(div, TxNext(div, t, ws[0]), ws[1..])
  }

  function AcceptedNow(t: Tx, w: Option<Byte>): seq<Byte> { if w.Some? && TxReady(t) then [w.value] else [] }

  /** Every schedule of writes puts a legal waveform on the line. */
  lemma {:induction false} TxSends(div: nat, s: Sender, prev: Slot, ws: seq<Option<Byte>>)
    requires div >= 2 && Sending(div, s) && Follows(div, prev, s.last)
    ensures Legal(div, prev, Slots(div, s, ws)) && Wire(div, s.tx, ws) == Levels(div, Slots(div, s, ws))
    ensures forall i | 0 <= i < |ws| :: SlotOk(div, Slots(div, s, ws)[i])
    ensures Sending(div, SenderAfter(div, s, ws))
    decreases |ws|
  {
    if ws == [] {
    } else {
      SendStep(div, s, ws[0]);
      assert Follows(div, s.last, Emit(div, s)) && s.tx.line == Level(div, s.last);
      hide TxNext, Level, Follows, SlotOk, Emit;
      TxSends(div, SenderNext(div, s, ws[0]), s.last, ws[1..]);
      var slots := Slots(div, s, ws);
      assert slots[1..] == Slots(div, SenderNext(div, s, ws[0]), ws[1..]);
      hide Sending;
    }
  }

  /** Bytes accepted whose frame has not started on the line yet, or starts on it right now. */
  function Owed(div: nat, s: Sender): seq<Byte> {
    PassingOne(s.last, 0) + (PassingOne(Emit(div, s), 0) + Held(s.tx))
  }

  function Held(t: Tx): seq<Byte> { if t.full then [t.hold] else [] }

  lemma HoldStep(div: nat, s: Sender, w: Option<Byte>)
    requires div >= 2 && Sending(div, s)
    ensures
      var n := SenderNext(div, s, w);
      Held(s.tx) + AcceptedNow(s.tx, w) == PassingOne(Emit(div, n), 0) + Held(n.tx)
  {
    var n := SenderNext(div, s, w);
    if s.tx.active {
      EmitsLevel(div, s);
      SendStep(div, s, w);
      assert Follows(div, Emit(div, s), Emit(div, n));
      assert Emit(div, s).e == 10 * div - 1 ==> !n.tx.active;
      hide Emit;
      assert PassingOne(Emit(div, n), 0) == [];
    }
  }

  lemma OwedStep(div: nat, s: Sender, w: Option<Byte>)
    requires div >= 2 && Sending(div, s)
    ensures Owed(div, s) + AcceptedNow(s.tx, w) == PassingOne(s.last, 0) + Owed(div, SenderNext(div, s, w))
  {
    HoldStep(div, s, w);
    var (n, p) := (SenderNext(div, s, w), PassingOne(s.last, 0));
    var (e, a) := (PassingOne(Emit(div, s), 0), AcceptedNow(s.tx, w));
    assert n.last == Emit(div, s);
    hide PassingOne, Held, Emit, AcceptedNow, SenderNext;
    Assoc(p, e + Held(s.tx), a);
    Assoc(e, Held(s.tx), a);
  }

  /** Conservation: a byte accepted is a frame started or a byte still owed, in order, never both. */
  lemma {:induction false} NothingLostInTx(div: nat, s: Sender, ws: seq<Option<Byte>>)
    requires div >= 2 && Sending(div, s)
    ensures Owed(div, s) + Accepted(div, s.tx, ws) == Started(Slots(div, s, ws)) + Owed(div, SenderAfter(div, s, ws))
    decreases |ws|
  {
    if ws == [] {
    } else {
      var (n, rest) := (SenderNext(div, s, ws[0]), ws[1..]);
      SendStep(div, s, ws[0]);
      OwedStep(div, s, ws[0]);
      NothingLostInTx(div, n, rest);
      hide Owed, PassingOne, Sending, AcceptedNow;
      assert n.tx == TxNext(div, s.tx, ws[0]);
      var slots := Slots(div, s, ws);
      assert slots[0] == s.last && slots[1..] == Slots(div, n, rest);
      Assoc(Owed(div, s), AcceptedNow(s.tx, ws[0]), Accepted(div, n.tx, rest));
      Assoc(PassingOne(s.last, 0), Owed(div, n), Accepted(div, n.tx, rest));
      Assoc(PassingOne(s.last, 0), Started(Slots(div, n, rest)), Owed(div, SenderAfter(div, n, rest)));
      hide TxNext, Emit;
    }
  }
}
