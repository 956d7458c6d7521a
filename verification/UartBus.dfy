/** The UART as software uses it, transmitter wired to receiver: words written to TXDATA come back from RXDATA. */
module UartBus {
  import opened Words
  import opened Serial
  import opened Uart
  import T = UartTx
  import R = UartRx
  import B = Boot
  import K = Loopback

  /** One clock with the serial line looped back. */
  function LoopNext(div: nat, p: Port, b: BusIn): Port { PortNext(div, p, b, p.tx.line) }

  function LoopAfter(div: nat, p: Port, bs: seq<BusIn>): Port
    decreases |bs|
  {
    if bs == [] then p else LoopAfter(div, LoopNext(div, p, bs[0]), bs[1..])
  }

  /** The words written to TXDATA, at offset 0, in cycles in which STATUS has TX_READY set. */
  function Sent(div: nat, p: Port, bs: seq<BusIn>): seq<Word>
    decreases |bs|
  {
    if bs == [] then []
    else SentNow(p, bs[0]) + Sent(div, LoopNext(div, p, bs[0]), bs[1..])
  }

  function SentNow(p: Port, b: BusIn): seq<Word> {
    if b.req && b.we && b.addr % 0x100 / 4 == 0 && ReadWord(0x4008, p.tx, p.mail) / 2 % 2 == 1 then [b.wdata] else []
  }

  /** The words the bus answers to reads of RXDATA, at offset 4, in cycles in which STATUS has RX_VALID set. */
  function Got(div: nat, p: Port, bs: seq<BusIn>): seq<Word>
    decreases |bs|
  {
    if bs == [] then []
    else GotNow(div, p, bs[0]) + Got(div, LoopNext(div, p, bs[0]), bs[1..])
  }

  function GotNow(div: nat, p: Port, b: BusIn): seq<Word> {
    if b.req && !b.we && b.addr % 0x100 / 4 == 1 && ReadWord(0x4008, p.tx, p.mail) / 4 % 2 == 1
    then [LoopNext(div, p, b).rdata] else []
  }

  /** Words modulo 256. */
  function LowBytes(ws: seq<Word>): (r: seq<int>)
    ensures |r| == |ws|
  {
    seq(|ws|, i requires 0 <= i < |ws| => ws[i] % 0x100)
  }

  function Values(bs: seq<Byte>): (r: seq<int>)
    ensures |r| == |bs|
  {
    seq(|bs|, i requires 0 <= i < |bs| => ValueOf(bs[i]))
  }

  lemma ValuesConcat(a: seq<Byte>, b: seq<Byte>)
    ensures Values(a + b) == Values(a) + Values(b)
  {
  }

  lemma LowBytesConcat(a: seq<Word>, b: seq<Word>)
    ensures LowBytes(a + b) == LowBytes(a) + LowBytes(b)
  {
  }

  // ---- The parts of a run -------------------------------------------------------------------------------------

  function Writes(bs: seq<BusIn>): (ws: seq<Option<Byte>>)
    ensures |ws| == |bs|
  {
    seq(|bs|, i requires 0 <= i < |bs| => TxWrite(bs[i]))
  }

  function Touches(div: nat, p: Port, bs: seq<BusIn>): seq<Touch>
    decreases |bs|
  {
    if bs == [] then []
    else
      [Touch(B.Strobe(p.rx), RxRead(bs[0]), OverrunClear(bs[0]))] + Touches(div, LoopNext(div, p, bs[0]), bs[1..])
  }

  lemma SentNowIs(p: Port, b: BusIn)
    ensures LowBytes(SentNow(p, b)) == Values(T.AcceptedNow(p.tx, TxWrite(b)))
  {
    RegistersAre(b, p.tx, p.mail);
    LowByteIs(b.wdata);
    hide LowByte, ReadWord, ValueOf, TxWrite;
  }

  lemma GotNowIs(div: nat, p: Port, b: BusIn)
    ensures GotNow(div, p, b) == if RxRead(b) then Values(Unread(p.mail)) else []
  {
    RegistersAre(b, p.tx, p.mail);
    SameRegister(b.addr, p.tx, p.mail);
    hide LowByte, ReadWord, ValueOf, RxRead, T.TxNext, R.RxNext, MailNext, TxWrite;
  }

  lemma SameRegister(addr: Word, t: T.Tx, m: Mailbox)
    ensures addr % 0x100 / 4 == 1 ==> ReadWord(addr, t, m) == ValueOf(m.data)
  {
    RegistersAre(BusIn(true, false, addr, 0), t, m);
  }

  /** A run of the peripheral taken apart: line, receiver, mailbox, and the two ends software sees. */
  lemma {:induction false} LoopParts(div: nat, p: Port, bs: seq<BusIn>)
    ensures
      var (f, wire, ts) := (LoopAfter(div, p, bs), T.Wire(div, p.tx, Writes(bs)), Touches(div, p, bs));
      && f.rx == R.RxAfter(div, p.rx, wire) && f.mail == MailAfter(p.mail, ts)
      && Arrived(ts) == B.Bytes(B.Events(div, p.rx, wire))
      && Got(div, p, bs) == Values(Fetched(p.mail, ts))
      && LowBytes(Sent(div, p, bs)) == Values(T.Accepted(div, p.tx, Writes(bs)))
    decreases |bs|
  {
    hide T.TxNext, R.RxNext, MailNext, TxWrite, RxRead, OverrunClear, ReadWord, SentNow, GotNow, Unread, T.AcceptedNow,
      Values, LowBytes, B.Strobe;
    if bs == [] {
      EmptyRun();
    } else {
      var (b, n, rest) := (bs[0], LoopNext(div, p, bs[0]), bs[1..]);
      LoopParts(div, n, rest);
      assert Writes(bs)[0] == TxWrite(b) && Writes(bs)[1..] == Writes(rest);
      NextParts(div, p, b);
      SentNowIs(p, b);
      GotNowIs(div, p, b);
      var (t, ts) := (Touch(B.Strobe(p.rx), RxRead(b), OverrunClear(b)), Touches(div, n, rest));
      assert Touches(div, p, bs)[0] == t && Touches(div, p, bs)[1..] == ts;
      var wire := T.Wire(div, n.tx, Writes(rest));
      assert T.Wire(div, p.tx, Writes(bs))[0] == p.tx.line && T.Wire(div, p.tx, Writes(bs))[1..] == wire;
      var evs := B.Events(div, p.rx, T.Wire(div, p.tx, Writes(bs)));
      assert evs[0] == B.Strobe(p.rx) && evs[1..] == B.Events(div, n.rx, wire);
      ValuesConcat(if t.read then Unread(p.mail) else [], Fetched(n.mail, ts));
      ValuesConcat(T.AcceptedNow(p.tx, TxWrite(b)), T.Accepted(div, n.tx, Writes(rest)));
      LowBytesConcat(SentNow(p, b), Sent(div, n, rest));
      NoValues();
    }
  }

  lemma NextParts(div: nat, p: Port, b: BusIn)
    ensures
      var n := LoopNext(div, p, b);
      && n.tx == T.TxNext(div, p.tx, TxWrite(b)) && n.rx == R.RxNext(div, p.rx, p.tx.line)
      && n.mail == MailNext(p.mail, Touch(B.Strobe(p.rx), RxRead(b), OverrunClear(b)))
  {
    hide T.TxNext, R.RxNext, MailNext, TxWrite, RxRead, OverrunClear, ReadWord;
  }

  lemma NoValues()
    ensures Values([]) == []
  {
  }

  lemma EmptyRun()
    ensures Values([]) == [] && LowBytes([]) == []
  {
  }

  // ---- Words out, words in ---------------------------------------------------------------------------------------

  /** Bytes between TXDATA and RXDATA: in the transmitter, on the line, in the receiver, and unread. */
  function Pending(div: nat, bs: seq<BusIn>): seq<int> {
    var f := LoopAfter(div, PORT_RESET, bs);
    Values(Unread(f.mail) + (B.ByteOf(B.Strobe(f.rx)) + K.InFlight(div, Writes(bs))))
  }

  /** For every schedule of bus accesses from reset in which no received byte is overwritten, the words written
      while TX_READY, modulo 256, are the words read from RXDATA while RX_VALID followed by those still on their
      way: nothing is lost, repeated, reordered or made up. */
  lemma WordsAreConserved(div: nat, bs: seq<BusIn>)
    requires div >= 2 && Overwritten(PORT_RESET.mail, Touches(div, PORT_RESET, bs)) == 0
    ensures LowBytes(Sent(div, PORT_RESET, bs)) == Got(div, PORT_RESET, bs) + Pending(div, bs)
  {
    hide T.Wire, R.RxAfter, MailAfter, Fetched, T.Accepted, R.Strobed, B.Bytes, B.Events, B.ByteOf, B.Strobe, Arrived,
      K.InFlight, LoopAfter, Touches, Values, LowBytes, Sent, Got, Unread, Overwritten, Writes;
    var (p, ws, ts) := (PORT_RESET, Writes(bs), Touches(div, PORT_RESET, bs));
    var f := LoopAfter(div, p, bs);
    LoopParts(div, p, bs);
    OverrunIsExact(p.mail, ts);
    B.EventsAreStrobes(div, R.RESET, T.Wire(div, T.RESET, ws));
    ResetIsSilent();
    K.LoopbackConserves(div, ws);
    var (got, unread, strobe) := (Fetched(p.mail, ts), Unread(f.mail), B.ByteOf(B.Strobe(f.rx)));
    var fly := K.InFlight(div, ws);
    assert K.Written(div, ws) == K.Received(div, ws) + fly;
    assert [] + Arrived(ts) == Arrived(ts) && [] + K.Received(div, ws) == K.Received(div, ws);
    Assoc(Arrived(ts), strobe, fly);
    Assoc(got, unread, strobe + fly);
    ValuesConcat(got, unread + (strobe + fly));
  }

  lemma ResetIsSilent()
    ensures Unread(PORT_RESET.mail) == [] && B.ByteOf(B.Strobe(R.RESET)) == []
  {
  }

  /** The same, said with what software can see: it never clears RX_OVERRUN and finds it clear at the end. */
  lemma NoOverrunNoLoss(div: nat, bs: seq<BusIn>)
    requires div >= 2 && forall b | b in bs :: !(b.req && b.we && b.addr % 0x100 / 4 == 3)
    requires
      var f := LoopAfter(div, PORT_RESET, bs);
      ReadWord(0x4008, f.tx, f.mail) / 8 % 2 == 0
    ensures Overwritten(PORT_RESET.mail, Touches(div, PORT_RESET, bs)) == 0
    ensures LowBytes(Sent(div, PORT_RESET, bs)) == Got(div, PORT_RESET, bs) + Pending(div, bs)
  {
    hide LoopAfter, Touches, LowBytes, Sent, Got, Pending, Overwritten, Uncleared, ReadWord;
    var (p, ts) := (PORT_RESET, Touches(div, PORT_RESET, bs));
    var f := LoopAfter(div, p, bs);
    NeverCleared(div, p, bs);
    LoopParts(div, p, bs);
    OverrunIsExact(p.mail, ts);
    OverrunShown(f.tx, f.mail);
    WordsAreConserved(div, bs);
  }

  lemma OverrunShown(t: T.Tx, m: Mailbox)
    ensures ReadWord(0x4008, t, m) / 8 % 2 == 0 <==> !m.overrun
  {
    RegistersAre(BusIn(false, false, 0, 0), t, m);
    hide ReadWord;
  }

  lemma {:induction false} NeverCleared(div: nat, p: Port, bs: seq<BusIn>)
    requires forall b | b in bs :: !(b.req && b.we && b.addr % 0x100 / 4 == 3)
    ensures Uncleared(Touches(div, p, bs), 0)
    decreases |bs|
  {
    hide LoopNext, OverrunClear, RxRead, B.Strobe;
    if bs != [] {
      RegistersAre(bs[0], p.tx, p.mail);
      var rest := Touches(div, LoopNext(div, p, bs[0]), bs[1..]);
      NeverCleared(div, LoopNext(div, p, bs[0]), bs[1..]);
      assert Touches(div, p, bs)[1..] == rest;
      LaterClears(Touches(div, p, bs), 0);
    }
  }

  // ---- Once nothing more is written --------------------------------------------------------------------------------

  lemma {:induction false} WireGrows(div: nat, t: T.Tx, ws: seq<Option<Byte>>, w: Option<Byte>) returns (x: bool)
    ensures T.Wire(div, t, ws + [w]) == T.Wire(div, t, ws) + [x]
    decreases |ws|
  {
    hide T.TxNext;
    if ws == [] {
      assert (ws + [w])[0] == w && (ws + [w])[1..] == [];
      x := t.line;
    } else {
      x := WireGrows(div, T.TxNext(div, t, ws[0]), ws[1..], w);
      assert (ws + [w])[0] == ws[0] && (ws + [w])[1..] == ws[1..] + [w];
    }
  }

  /** With nothing written for two frames and a few clocks nothing is on its way any more. */
  lemma LineIsEmpty(div: nat, ws: seq<Option<Byte>>, n: nat)
    requires div >= 2 && n >= 20 * div + 6
    ensures K.InFlight(div, ws + K.Nothing(n)) == []
    ensures B.Strobe(R.RxAfter(div, R.RESET, T.Wire(div, T.RESET, ws + K.Nothing(n)))) == None
  {
    hide K.InFlight, T.Wire, R.RxAfter, R.Strobed, K.Settled, T.Sending, T.Slots, T.SenderAfter, T.Accepted, R.RxNext;
    K.StartSends(div);
    K.RunDrains(div, K.START, ws, n);
    K.SettledIsEmpty(div, ws + K.Nothing(n));
    K.LoopbackDelivers(div, ws, n);
    K.LoopbackDelivers(div, ws, n - 1);
    assert ws + K.Nothing(n) == (ws + K.Nothing(n - 1)) + [None];
    var x := WireGrows(div, T.RESET, ws + K.Nothing(n - 1), None);
    var before := T.Wire(div, T.RESET, ws + K.Nothing(n - 1));
    B.StrobedConcat(div, R.RESET, before, [x]);
    LastStrobe(div, R.RxAfter(div, R.RESET, before), x);
  }

  lemma LastStrobe(div: nat, r: R.Rx, line: bool)
    ensures R.RxAfter(div, r, [line]) == R.RxNext(div, r, line)
    ensures R.Strobed(div, r, [line]) == B.ByteOf(B.Strobe(R.RxNext(div, r, line)))
  {
    hide R.RxNext;
    assert R.RxAfter(div, R.RxNext(div, r, line), [line][1..]) == R.RxNext(div, r, line);
    assert R.Strobed(div, R.RxNext(div, r, line), [line][1..]) == [];
  }

  /** Round trip in bus words: for every divisor and every schedule of accesses from reset whose last two frames and
      few clocks write nothing, if RX_OVERRUN was never set, the words written while TX_READY are, modulo 256 and in
      order, exactly the words read while RX_VALID, but for at most one that is still unread in RXDATA. */
  lemma WordsComeBack(div: nat, bs: seq<BusIn>, quiet: seq<BusIn>)
    requires div >= 2 && |quiet| >= 20 * div + 6
    requires forall b | b in quiet :: !(b.req && b.we && b.addr % 0x100 / 4 == 0)
    requires forall b | b in bs + quiet :: !(b.req && b.we && b.addr % 0x100 / 4 == 3)
    requires
      var f := LoopAfter(div, PORT_RESET, bs + quiet);
      ReadWord(0x4008, f.tx, f.mail) / 8 % 2 == 0
    ensures
      var f := LoopAfter(div, PORT_RESET, bs + quiet);
      LowBytes(Sent(div, PORT_RESET, bs + quiet)) ==
      Got(div, PORT_RESET, bs + quiet) +
      (if ReadWord(0x4008, f.tx, f.mail) / 4 % 2 == 1 then [ReadWord(0x4004, f.tx, f.mail)] else [])
  {
    hide LoopAfter, LowBytes, Sent, Got, ReadWord, K.InFlight, T.Wire, R.RxAfter, B.Strobe, Values, Unread;
    var all := bs + quiet;
    var f := LoopAfter(div, PORT_RESET, all);
    NoOverrunNoLoss(div, all);
    forall i | 0 <= i < |quiet| ensures TxWrite(quiet[i]) == None {
      assert quiet[i] in quiet;
      RegistersAre(quiet[i], f.tx, f.mail);
    }
    assert Writes(all) == Writes(bs) + K.Nothing(|quiet|);
    LineIsEmpty(div, Writes(bs), |quiet|);
    LoopParts(div, PORT_RESET, all);
    var u := Unread(f.mail);
    assert u + ([] + []) == u;
    UnreadShown(f.tx, f.mail);
  }

  lemma UnreadShown(t: T.Tx, m: Mailbox)
    ensures Values(Unread(m)) == if ReadWord(0x4008, t, m) / 4 % 2 == 1 then [ReadWord(0x4004, t, m)] else []
  {
    RegistersAre(BusIn(false, false, 0, 0), t, m);
    hide ReadWord, ValueOf;
  }
}
