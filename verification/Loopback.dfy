/** Transmitter wired to receiver: what is written comes out, byte for byte. */
module Loopback {
  import opened Words
  import opened Arithmetic
  import opened Serial
  import opened UartTx
  import R = UartRx

  const START: Sender := Sender(RESET, ZERO, Quiet)

  lemma StartSends(div: nat)
    requires div >= 2
    ensures Sending(div, START) && Owed(div, START) == []
  {
  }

  /** The bytes the receiver strobes while the transmitter is driven by a schedule of writes. */
  function Received(div: nat, ws: seq<Option<Byte>>): seq<Byte> {
    R.Strobed(div, R.RESET, Wire(div, RESET, ws))
  }

  function Written(div: nat, ws: seq<Option<Byte>>): seq<Byte> { Accepted(div, RESET, ws) }

  /** The line as the receiver's state machine has seen it: two clocks late. */
  function Seen(div: nat, ws: seq<Option<Byte>>): seq<Slot> { ([Quiet, Quiet] + Slots(div, START, ws))[..|ws|] }

  function NotSeen(div: nat, ws: seq<Option<Byte>>): seq<Slot> { ([Quiet, Quiet] + Slots(div, START, ws))[|ws|..] }

  /** Accepted but not strobed: behind the synchroniser, between the flops, and in the transmitter. */
  function InFlight(div: nat, ws: seq<Option<Byte>>): seq<Byte> {
    Underway(LastSlot(Quiet, Seen(div, ws)), R.HandOver(div)) +
    (Started(NotSeen(div, ws)) + Owed(div, SenderAfter(div, START, ws)))
  }

  lemma ReceivedIsPassing(div: nat, ws: seq<Option<Byte>>)
    requires div >= 2
    ensures Received(div, ws) == Passing(Seen(div, ws), R.HandOver(div))
  {
    StartSends(div);
    TxSends(div, START, Quiet, ws);
    R.ResetMatches(div);
    R.RxDecodes(div, R.RESET, Quiet, Quiet, Slots(div, START, ws));
    hide Sending, Owed, TxNext, R.RxNext, R.HandOver, Emit, Legal, R.Matches;
  }

  lemma {:induction false} LegalPrefix(div: nat, s: Slot, a: seq<Slot>, n: nat)
    requires Legal(div, s, a) && n <= |a|
    ensures Legal(div, s, a[..n])
    decreases n
  {
    if n > 0 {
      LegalPrefix(div, a[0], a[1..], n - 1);
      assert a[..n][1..] == a[1..][..n - 1];
    }
  }

  lemma SeenIsLegal(div: nat, ws: seq<Option<Byte>>)
    requires div >= 2
    ensures Legal(div, Quiet, Seen(div, ws))
  {
    hide Sending, Owed, TxNext, Emit, Legal;
    var slots := Slots(div, START, ws);
    StartSends(div);
    TxSends(div, START, Quiet, ws);
    SilenceIsLegal(div, Quiet, 2, 0);
    assert Silence(2) == [Quiet, Quiet];
    LegalConcat(div, Quiet, Silence(2), slots);
    LegalPrefix(div, Quiet, Silence(2) + slots, |ws|);
  }

  /** Conservation at every moment, for every divisor and every schedule of writes: the bytes accepted are
      the bytes strobed followed by the bytes in flight. So nothing is lost, repeated, reordered or made up. */
  lemma LoopbackConserves(div: nat, ws: seq<Option<Byte>>)
    requires div >= 2
    ensures Written(div, ws) == Received(div, ws) + InFlight(div, ws)
  {
    hide Sending, Owed, TxNext, Emit, R.RxNext, Legal, Underway, PassingOne, Slots, SenderAfter, Accepted, Wire,
      R.Strobed, Passing;
    var (line, at) := ([Quiet, Quiet] + Slots(div, START, ws), R.HandOver(div));
    var owed := Owed(div, SenderAfter(div, START, ws));
    var (seen, rest) := (Seen(div, ws), NotSeen(div, ws));
    StartSends(div);
    NothingLostInTx(div, START, ws);
    ReceivedIsPassing(div, ws);
    SeenIsLegal(div, ws);
    FramesPass(div, Quiet, seen, at);
    QuietStart(at);
    assert line == seen + rest;
    assert [] + Written(div, ws) == Written(div, ws) && [] + Started(seen) == Started(seen);
    assert [] + Started(Slots(div, START, ws)) == Started(Slots(div, START, ws));
    PassingConcat(seen, rest, 0);
    PassingConcat([Quiet, Quiet], Slots(div, START, ws), 0);
    Assoc(Passing(seen, at), Underway(LastSlot(Quiet, seen), at), Started(rest));
    Assoc(Passing(seen, at), Underway(LastSlot(Quiet, seen), at) + Started(rest), owed);
    Assoc(Underway(LastSlot(Quiet, seen), at), Started(rest), owed);
  }

  lemma QuietStart(at: nat)
    ensures Underway(Quiet, at) == [] && Passing([Quiet, Quiet], 0) == []
  {
    R.QuietPair(0);
  }

  // ---- Once the line goes quiet ------------------------------------------------------------------------------

  function Nothing(n: nat): (ws: seq<Option<Byte>>)
    ensures |ws| == n
  {
    seq(n, _ => None)
  }

  /** Clocks until the transmitter is idle if nothing more is written. */
  function Busy(div: nat, t: Tx): int {
    (if t.active then t.bitcnt * div - t.baud else 0) + (if t.full then 10 * div + 1 else 0)
  }

  lemma SenderBounds(div: nat, s: Sender)
    requires div >= 2 && Sending(div, s)
    ensures s.tx.active ==> 1 <= s.tx.bitcnt <= 10 && s.tx.baud < div
  {
  }

  lemma BusyBound(div: nat, s: Sender)
    requires div >= 2 && Sending(div, s)
    ensures 0 <= Busy(div, s.tx) <= 20 * div + 1 && (TxBusy(s.tx) <==> Busy(div, s.tx) > 0)
  {
    SenderBounds(div, s);
    hide Sending;
    if s.tx.active {
      MonotoneProduct(1, s.tx.bitcnt, div);
      MonotoneProduct(s.tx.bitcnt, 10, div);
    }
  }

  lemma BusyStep(div: nat, s: Sender)
    requires div >= 2 && Sending(div, s) && TxBusy(s.tx)
    ensures Busy(div, SenderNext(div, s, None).tx) == Busy(div, s.tx) - 1
  {
    SenderBounds(div, s);
    hide Sending, Emit;
    assert (s.tx.bitcnt - 1) * div == s.tx.bitcnt * div - div;
  }

  /** An idle transmitter with nothing to do leaves the line high. */
  lemma {:induction false} IdleRun(div: nat, s: Sender, n: nat)
    requires div >= 2 && !TxBusy(s.tx) && n >= 1
    ensures Slots(div, s, Nothing(n)) == [s.last] + Silence(n - 1)
    ensures var f := SenderAfter(div, s, Nothing(n)); !TxBusy(f.tx) && f.last == Quiet
    decreases n
  {
    assert Nothing(n)[1..] == Nothing(n - 1) && Nothing(n)[0] == None;
    var m := SenderNext(div, s, None);
    assert m.last == Quiet && !TxBusy(m.tx);
    hide SenderNext, TxBusy;
    if n > 1 {
      IdleRun(div, m, n - 1);
      assert [Quiet] + Silence(n - 2) == Silence(n - 1);
    }
  }

  /** The last three slots are silent and the transmitter is idle. */
  ghost predicate Settled(slots: seq<Slot>, f: Sender) {
    && |slots| >= 3 && slots[|slots| - 1].Quiet? && slots[|slots| - 2].Quiet? && slots[|slots| - 3].Quiet?
    && !TxBusy(f.tx) && f.last == Quiet
  }

  lemma {:induction false} Drains(div: nat, s: Sender, n: nat)
    requires div >= 2 && Sending(div, s) && n >= Busy(div, s.tx) + 4
    ensures Settled(Slots(div, s, Nothing(n)), SenderAfter(div, s, Nothing(n)))
    decreases n
  {
    hide TxNext, Emit, Sending;
    BusyBound(div, s);
    if TxBusy(s.tx) {
      BusyStep(div, s);
      SendStep(div, s, None);
      assert Nothing(n)[1..] == Nothing(n - 1) && Nothing(n)[0] == None;
      hide Busy, TxBusy;
      Drains(div, SenderNext(div, s, None), n - 1);
    } else {
      IdleRun(div, s, n);
    }
  }

  /** After any schedule and then enough quiet, the transmitter has settled. */
  lemma {:induction false} RunDrains(div: nat, s: Sender, ws: seq<Option<Byte>>, n: nat)
    requires div >= 2 && Sending(div, s) && n >= 20 * div + 5
    ensures Settled(Slots(div, s, ws + Nothing(n)), SenderAfter(div, s, ws + Nothing(n)))
    decreases |ws|
  {
    hide TxNext, Emit, Sending, TxBusy;
    if ws == [] {
      BusyBound(div, s);
      Drains(div, s, n);
      assert ws + Nothing(n) == Nothing(n);
    } else {
      SendStep(div, s, ws[0]);
      RunDrains(div, SenderNext(div, s, ws[0]), ws[1..], n);
      assert (ws + Nothing(n))[1..] == ws[1..] + Nothing(n);
    }
  }

  /** A settled line leaves nothing in flight. */
  lemma SettledIsEmpty(div: nat, ws: seq<Option<Byte>>)
    requires div >= 2 && Settled(Slots(div, START, ws), SenderAfter(div, START, ws))
    ensures InFlight(div, ws) == []
  {
    hide Slots, SenderAfter, R.HandOver, TxNext;
    var slots := Slots(div, START, ws);
    var n := |slots|;
    var line := [Quiet, Quiet] + slots;
    assert NotSeen(div, ws) == [slots[n - 2], slots[n - 1]] == [Quiet, Quiet];
    QuietStart(0);
    assert Seen(div, ws)[n - 1] == line[n - 1] == slots[n - 3];
  }

  lemma {:induction false} NothingAccepted(div: nat, t: Tx, ws: seq<Option<Byte>>, n: nat)
    ensures Accepted(div, t, ws + Nothing(n)) == Accepted(div, t, ws)
    decreases |ws| + n
  {
    hide TxNext;
    if ws != [] {
      NothingAccepted(div, TxNext(div, t, ws[0]), ws[1..], n);
      assert (ws + Nothing(n))[1..] == ws[1..] + Nothing(n);
    } else if n > 0 {
      NothingAccepted(div, TxNext(div, t, None), [], n - 1);
      assert (ws + Nothing(n))[1..] == [] + Nothing(n - 1);
    }
  }

  /** Serial round trip: for every divisor of at least 2 and every schedule of writes, once nothing has been
      written for two frames and a few clocks, the receiver has strobed exactly the bytes written while
      TX_READY, in order, one strobe each. */
  lemma LoopbackDelivers(div: nat, ws: seq<Option<Byte>>, n: nat)
    requires div >= 2 && n >= 20 * div + 5
    ensures Received(div, ws + Nothing(n)) == Written(div, ws)
  {
    hide Received, InFlight, Sending, Settled, Slots, SenderAfter, Accepted;
    StartSends(div);
    RunDrains(div, START, ws, n);
    SettledIsEmpty(div, ws + Nothing(n));
    LoopbackConserves(div, ws + Nothing(n));
    NothingAccepted(div, RESET, ws, n);
  }
}
