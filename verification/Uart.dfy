/** The memory-mapped UART: transmitter, receiver, and the one-byte mailbox software reads. */
module Uart {
  import opened Words
  import opened Arithmetic
  import opened Serial
  import T = UartTx
  import R = UartRx

  /** RXDATA, RX_VALID and RX_OVERRUN. */
  datatype Mailbox = Mailbox(data: Byte, valid: bool, overrun: bool)

  /** What reaches the mailbox in one clock: a received byte, a read of RXDATA, a write of 1 to CTRL. */
  datatype Touch = Touch(strobe: Option<Byte>, read: bool, clear: bool)

  function MailNext(m: Mailbox, t: Touch): Mailbox {
    var valid := m.valid && !t.read;
    var overrun := m.overrun && !t.clear;
    match t.strobe
    case None => m.(valid := valid, overrun := overrun)
    case Some(b) => Mailbox(b, true, overrun || (m.valid && !t.read))
  }

  function MailAfter(m: Mailbox, ts: seq<Touch>): Mailbox
    decreases |ts|
  {
    if ts == [] then m else MailAfter(MailNext(m, ts[0]), ts[1..])
  }

  function Unread(m: Mailbox): seq<Byte> { if m.valid then [m.data] else [] }

  function Arrived(ts: seq<Touch>): seq<Byte> {
    if ts == [] then []
    else (if ts[0].strobe.Some? then [ts[0].strobe.value] else []) + Arrived(ts[1..])
  }

  /** The bytes software gets: what RXDATA held whenever it was read with RX_VALID set. */
  function Fetched(m: Mailbox, ts: seq<Touch>): seq<Byte>
    decreases |ts|
  {
    if ts == [] then []
    else (if ts[0].read then Unread(m) else []) + Fetched(MailNext(m, ts[0]), ts[1..])
  }

  /** Bytes overwritten before they were read. */
  function Overwritten(m: Mailbox, ts: seq<Touch>): nat
    decreases |ts|
  {
    if ts == [] then 0
    else
      (if ts[0].strobe.Some? && m.valid && !ts[0].read then 1 else 0) + Overwritten(MailNext(m, ts[0]), ts[1..])
  }

  /** The `i`-th clock brings a byte while another is waiting unread. */
  predicate LosesByte(m: Mailbox, ts: seq<Touch>, i: nat)
    requires i < |ts|
  {
    ts[i].strobe.Some? && MailAfter(m, ts[..i]).valid && !ts[i].read
  }

  /** No clear from clock `k` on. */
  predicate Uncleared(ts: seq<Touch>, k: nat) { forall j | k <= j < |ts| :: !ts[j].clear }

  /** RX_OVERRUN tells the truth: it is set exactly when a byte has been lost since the last clear, or when it
      was set at the start and never cleared. */
  lemma {:induction false} FlagIsExact(m: Mailbox, ts: seq<Touch>)
    ensures
      MailAfter(m, ts).overrun <==>
      (m.overrun && Uncleared(ts, 0)) || exists i: nat | i < |ts| :: LosesByte(m, ts, i) && Uncleared(ts, i + 1)
    decreases |ts|
  {
    if ts != [] {
      var (t, n, rest) := (ts[0], MailNext(m, ts[0]), ts[1..]);
      FlagIsExact(n, rest);
      assert ts[..0] == [];
      assert LosesByte(m, ts, 0) <==> t.strobe.Some? && m.valid && !t.read;
      assert n.overrun <==> (m.overrun && !t.clear) || LosesByte(m, ts, 0);
      assert Uncleared(ts, 1) <==> Uncleared(rest, 0) by { LaterClears(ts, 0); }
      assert Uncleared(ts, 0) <==> !t.clear && Uncleared(ts, 1);
      forall i: nat | i < |rest|
        ensures LosesByte(n, rest, i) == LosesByte(m, ts, i + 1) && Uncleared(rest, i + 1) == Uncleared(ts, i + 2)
      {
        assert ts[..i + 1][1..] == rest[..i];
        LaterClears(ts, i + 1);
      }
      hide MailNext, LosesByte, Uncleared;
      if i: nat :| i < |ts| && LosesByte(m, ts, i) && Uncleared(ts, i + 1) {
        if i > 0 { assert LosesByte(n, rest, i - 1) && Uncleared(rest, i - 1 + 1); }
      }
      if i: nat :| i < |rest| && LosesByte(n, rest, i) && Uncleared(rest, i + 1) {
        assert LosesByte(m, ts, i + 1) && Uncleared(ts, i + 1 + 1);
      }
    }
  }

  lemma LaterClears(ts: seq<Touch>, k: nat)
    requires ts != []
    ensures Uncleared(ts, k + 1) <==> Uncleared(ts[1..], k)
  {
    if Uncleared(ts, k + 1) {
      forall j | k <= j < |ts[1..]| ensures !ts[1..][j].clear { assert ts[1..][j] == ts[j + 1]; }
    } else {
      var j :| k + 1 <= j < |ts| && ts[j].clear;
      assert ts[1..][j - 1].clear;
    }
  }

  /** Every byte is read, lost or waiting; when none is lost software gets exactly the bytes that arrived, in
      order, but for the one still waiting; and RX_OVERRUN, as long as it is not cleared, says which. */
  lemma {:induction false} OverrunIsExact(m: Mailbox, ts: seq<Touch>)
    ensures
      var f := MailAfter(m, ts);
      && (Uncleared(ts, 0) ==> f.overrun == (m.overrun || Overwritten(m, ts) > 0))
      && |Unread(m)| + |Arrived(ts)| == |Fetched(m, ts)| + Overwritten(m, ts) + |Unread(f)|
      && (Overwritten(m, ts) == 0 ==> Unread(m) + Arrived(ts) == Fetched(m, ts) + Unread(f))
    decreases |ts|
  {
    if ts == [] {
    } else {
      var (t, n, rest) := (ts[0], MailNext(m, ts[0]), ts[1..]);
      OverrunIsExact(n, rest);
      LaterClears(ts, 0);
      var got := if t.read then Unread(m) else [];
      var came := if t.strobe.Some? then [t.strobe.value] else [];
      MailStep(m, t);
      Assoc(Unread(m), came, Arrived(rest));
      Assoc(got, Unread(n), Arrived(rest));
      Assoc(got, Fetched(n, rest), Unread(MailAfter(n, rest)));
      hide Unread, MailNext;
    }
  }

  lemma MailStep(m: Mailbox, t: Touch)
    ensures
      var n := MailNext(m, t);
      var got := if t.read then Unread(m) else [];
      var came := if t.strobe.Some? then [t.strobe.value] else [];
      var lost := t.strobe.Some? && m.valid && !t.read;
      && n.overrun == ((m.overrun && !t.clear) || lost)
      && |Unread(m)| + |came| == |got| + (if lost then 1 else 0) + |Unread(n)|
      && (!lost ==> Unread(m) + came == got + Unread(n))
  {
  }

  // ---- The peripheral as an object ---------------------------------------------------------------------------

  /** The low byte of a bus word. */
  function LowByte(w: Word): Byte { BitsOf(w, 8) }

  /** A byte is the word's value modulo 256. */
  lemma LowByteIs(w: Word)
    ensures ValueOf(LowByte(w)) == w % 0x100
  {
    assert Pow2(8) == 256 by { assert Pow2(4) == 16; }
    ValueOfLow(w, 8);
  }

  /** The bits of a number, read back, are the number modulo a power of two. */
  lemma {:induction false} ValueOfLow(x: nat, n: nat)
    ensures ValueOf(BitsOf(x, n)) == x % Pow2(n)
    decreases n
  {
    if n > 0 {
      ValueOfLow(x / 2, n - 1);
      assert BitsOf(x, n)[1..] == BitsOf(x / 2, n - 1);
      TwoDigits(x, 2, Pow2(n - 1));
    }
  }

  /** The registers by byte offset, and what each reads as. */
  lemma RegistersAre(b: BusIn, t: T.Tx, m: Mailbox)
    ensures TxWrite(b) == if b.req && b.we && b.addr % 0x100 / 4 == 0 then Some(LowByte(b.wdata)) else None
    ensures RxRead(b) <==> b.req && !b.we && b.addr % 0x100 / 4 == 1
    ensures OverrunClear(b) <==> b.req && b.we && b.addr % 0x100 / 4 == 3 && b.wdata % 2 == 1
    ensures ReadWord(0x4004, t, m) == ValueOf(m.data)
    ensures
      ReadWord(0x4008, t, m) ==
      (if T.TxBusy(t) then 1 else 0) + (if T.TxReady(t) then 2 else 0) + (if m.valid then 4 else 0) +
      (if m.overrun then 8 else 0)
    ensures b.addr % 0x100 / 4 !in {1, 2} ==> ReadWord(b.addr, t, m) == 0
  {
    RemainderDigit(b.addr, 4, 64);
    hide LowByte;
  }

  predicate Selects(addr: Word, reg: nat) { addr / 4 % 64 == reg }

  /** STATUS: [0] TX_BUSY, [1] TX_READY, [2] RX_VALID, [3] RX_OVERRUN. */
  function StatusWord(t: T.Tx, m: Mailbox): Word {
    (if t.active || t.full then 1 else 0) + (if !t.full then 2 else 0) +
    (if m.valid then 4 else 0) + (if m.overrun then 8 else 0)
  }

  /** What the bus reads at an address: RXDATA, STATUS, and 0 elsewhere. */
  function ReadWord(addr: Word, t: T.Tx, m: Mailbox): Word {
    ValueBound(m.data);
    assert Pow2(8) == 256 by { assert Pow2(4) == 16; }
    if Selects(addr, 1) then ValueOf(m.data) else if Selects(addr, 2) then StatusWord(t, m) else 0
  }

  /** The status bits are the flags they stand for: TX_READY exactly when a byte written now is accepted,
      TX_BUSY exactly when a byte is held or being sent. */
  lemma StatusIsExact(t: T.Tx, m: Mailbox, b: Byte)
    ensures
      var s := StatusWord(t, m);
      && (s % 2 == 1 <==> t.active || T.Held(t) != []) && (s / 2 % 2 == 1 <==> T.AcceptedNow(t, Some(b)) == [b])
      && (s / 4 % 2 == 1 <==> Unread(m) == [m.data]) && (s / 8 % 2 == 1 <==> m.overrun)
  {
  }

  /** One cycle of the bus port. */
  datatype BusIn = BusIn(req: bool, we: bool, addr: Word, wdata: Word)

  /** The byte written to TXDATA, if any, and what the access does to the mailbox. */
  function TxWrite(b: BusIn): Option<Byte> {
    if b.req && b.we && Selects(b.addr, 0) then Some(LowByte(b.wdata)) else None
  }
  predicate RxRead(b: BusIn) { b.req && !b.we && Selects(b.addr, 1) }
  predicate OverrunClear(b: BusIn) { b.req && b.we && Selects(b.addr, 3) && b.wdata % 2 == 1 }

  datatype Port = Port(tx: T.Tx, rx: R.Rx, mail: Mailbox, rdata: Word, ready: bool)

  const PORT_RESET: Port := Port(T.RESET, R.RESET, Mailbox(ZERO, false, false), 0, false)

  /** One clock of the whole peripheral; the answer and the strobe are taken from the registers before the edge. */
  function PortNext(div: nat, p: Port, b: BusIn, line: bool): Port {
    var strobe := if p.rx.strobe then Some(p.rx.data) else None;
    Port(T.TxNext(div, p.tx, TxWrite(b)), R.RxNext(div, p.rx, line),
         MailNext(p.mail, Touch(strobe, RxRead(b), OverrunClear(b))), ReadWord(b.addr, p.tx, p.mail), b.req)
  }

  lemma ZeroIsZero()
    ensures ValueOf(ZERO) == 0
  {
    assert ZERO[1..][1..][1..][1..] == [false, false, false, false];
    assert ValueOf(ZERO[1..][1..][1..][1..]) == 0 by { assert ValueOf([false, false]) == 0; }
  }

  /** Out of reset the line is high and no answer is due; STATUS reads TX_READY alone, every other register 0. */
  lemma ResetReads(addr: Word)
    ensures PORT_RESET.tx.line && !PORT_RESET.ready && PORT_RESET.rdata == 0
    ensures ReadWord(addr, PORT_RESET.tx, PORT_RESET.mail) == if addr / 4 % 64 == 2 then 2 else 0
  {
    ZeroIsZero();
    hide ValueOf;
  }

  class UartPort {
    const div: nat
    var txHold: Byte
    var txHoldFull: bool
    var txActive: bool
    var txBitcnt: nat
    var txBaud: nat
    var txFrame: T.Frame
    var txLine: bool
    const rx: R.RxCore
    var rxData: Byte
    var rxValid: bool
    var rxOverrun: bool
    var rdata: Word
    var ready: bool

    function Transmitter(): T.Tx
      reads this
    {
      T.Tx(txHold, txHoldFull, txActive, txBitcnt, txBaud, txFrame, txLine)
    }

    function Mail(): Mailbox
      reads this
    {
      Mailbox(rxData, rxValid, rxOverrun)
    }

    function View(): Port
      reads this, rx
    {
      Port(Transmitter(), rx.View(), Mail(), rdata, ready)
    }

    constructor (div: nat)
      requires div >= 2
      ensures View() == PORT_RESET && this.div == div && rx.div == div && fresh(rx)
    {
      this.div := div;
      txHold, txHoldFull, txActive, txBitcnt, txBaud, txFrame, txLine := ZERO, false, false, 0, 0, T.ONES, true;
      rx := new R.RxCore(div);
      rxData, rxValid, rxOverrun := ZERO, false, false;
      rdata, ready := 0, false;
    }

    /** The transmitter's clocked block. */
    method ClockTx(load: bool, data: Byte)
      modifies `txHold, `txHoldFull, `txActive, `txBitcnt, `txBaud, `txFrame, `txLine
      ensures Transmitter() == T.TxNext(div, old(Transmitter()), if load then Some(data) else None)
    {
      var full := txHoldFull;
      var held := txHold;
      if load && !full { txHold, txHoldFull := data, true; }
      if !txActive {
        txLine := true;
        if full {
          txFrame := FrameBits(held);
          txBitcnt, txBaud, txActive, txHoldFull := 10, 0, true, false;
        }
      } else {
        txLine := txFrame[0];
        if txBaud == div - 1 {
          txBaud := 0;
          txFrame := txFrame[1..] + [true];
          txActive := txBitcnt != 1;
          txBitcnt := if txBitcnt == 0 then 15 else txBitcnt - 1;
        } else {
          txBaud := txBaud + 1;
        }
      }
    }

    /** The mailbox's clocked block: the strobe is looked at after the read and the clear. */
    method ClockMail(strobe: bool, data: Byte, read: bool, clear: bool)
      modifies `rxData, `rxValid, `rxOverrun
      ensures Mail() == MailNext(old(Mail()), Touch(if strobe then Some(data) else None, read, clear))
    {
      var pending := rxValid && !read;
      if read { rxValid := false; }
      if clear { rxOverrun := false; }
      if strobe {
        rxData := data;
        if pending { rxOverrun := true; }
        rxValid := true;
      }
    }

    /** The read path: ready one clock after the request, with the register as it was at the request. */
    method ClockRead(req: bool, addr: Word)
      modifies `rdata, `ready
      ensures ready == req && rdata == ReadWord(addr, Transmitter(), Mail())
    {
      ready := req;
      if Selects(addr, 1) {
        ValueBound(rxData);
        assert Pow2(8) == 256 by { assert Pow2(4) == 16; }
        rdata := ValueOf(rxData);
      } else if Selects(addr, 2) {
        rdata := (if txActive || txHoldFull then 1 else 0) + (if !txHoldFull then 2 else 0) +
        (if rxValid then 4 else 0) + (if rxOverrun then 8 else 0);
      } else {
        rdata := 0;
      }
    }

    /** One clock edge of the whole peripheral. */
    method Clock(b: BusIn, uartRx: bool)
      requires rx.div == div
      modifies this, rx
      ensures View() == PortNext(div, old(View()), b, uartRx)
    {
      hide T.TxNext, R.RxNext, MailNext, LowByte, ReadWord;
      ClockRead(b.req, b.addr);
      ClockTx(b.req && b.we && Selects(b.addr, 0), LowByte(b.wdata));
      ClockMail(rx.strobe, rx.data, b.req && !b.we && Selects(b.addr, 1),
                b.req && b.we && Selects(b.addr, 3) && b.wdata % 2 == 1);
      rx.Clock(uartRx);
    }
  }
}
