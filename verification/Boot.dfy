/** Booting over the serial line: the host's payload, the loader's state machine, and the instruction
    memory it fills while the core is held in reset. */
module Boot {
  import opened Words
  import opened Arithmetic
  import opened Serial
  import R = UartRx

  const IMEM_WORDS: nat := 1024

  // ---- The host's side ------------------------------------------------------------------------------

  /** Byte `k` of a little-endian word. */
  function ByteAt(w: Word, k: nat): (v: nat)
    requires k < 4
    ensures v < 256
  {
    (match k case 0 => w case 1 => w / 0x100 case 2 => w / 0x1_0000 case _ => w / 0x100_0000) % 256
  }

  /** `struct.pack("<I", w)`. */
  function Pack(w: Word): (p: seq<Byte>)
    ensures |p| == 4
  {
    [BitsOf(ByteAt(w, 0), 8), BitsOf(ByteAt(w, 1), 8), BitsOf(ByteAt(w, 2), 8), BitsOf(ByteAt(w, 3), 8)]
  }

  function PackAll(words: seq<Word>): (p: seq<Byte>)
    ensures |p| == 4 * |words|
  {
    if words == [] then [] else Pack(words[0]) + PackAll(words[1..])
  }

  /** `build_payload`: the word count, then the words. */
  function Payload(words: seq<Word>): (p: seq<Byte>)
    requires |words| < W32
    ensures |p| == 4 + 4 * |words|
  {
    Pack(|words|) + PackAll(words)
  }

  lemma {:induction false} PackAllAt(words: seq<Word>, i: nat, k: nat)
    requires i < |words| && k < 4
    ensures PackAll(words)[4 * i + k] == Pack(words[i])[k]
    decreases i
  {
    hide Pack;
    if i > 0 { PackAllAt(words[1..], i - 1, k); }
  }

  lemma PackAt(w: Word, k: nat)
    requires k < 4
    ensures ValueOf(Pack(w)[k]) == ByteAt(w, k)
  {
    assert Pow2(8) == 256 by { assert Pow2(4) == 16; }
    ValueOfBits(ByteAt(w, k), 8);
    hide BitsOf, ValueOf, ByteAt;
  }

  // ---- The loader -------------------------------------------------------------------------------------

  datatype LState = L_WAIT | L_LEN | L_DATA | L_DONE

  datatype Loader = Loader(
    state: LState, bsel: nat, wordBuf: Word, wordCount: Word, wordIdx: Word, done: bool,
    req: bool, addr: Word, wdata: Word)

  const RESET: Loader := Loader(L_WAIT, 0, 0, 0, 0, false, false, 0, 0)

  /** The word register with a byte shifted in at the top. */
  function ShiftIn(buf: Word, b: Byte): Word {
    ValueBound(b);
    assert Pow2(8) == 256 by { assert Pow2(4) == 16; }
    ValueOf(b) * 0x100_0000 + buf / 0x100
  }

  function LoaderNext(l: Loader, enable: bool, rx: Option<Byte>): Loader {
    var n := l.(req := false);
    match l.state
    case L_WAIT => if !enable then n.(done := true) else n.(done := false, bsel := 0, wordIdx := 0, state := L_LEN)
    case L_LEN =>
      if rx.None? then n
      else
        var buf := ShiftIn(l.wordBuf, rx.value);
        if l.bsel == 3 then n.(wordBuf := buf, wordCount := buf, bsel := 0, state := L_DATA)
        else n.(wordBuf := buf, bsel := (l.bsel + 1) % 4)
    case L_DATA =>
      if l.wordIdx == l.wordCount then n.(state := L_DONE)
      else if rx.None? then n
      else
        var buf := ShiftIn(l.wordBuf, rx.value);
        if l.bsel == 3
        then n.(wordBuf := buf, req := true, addr := Wrap(l.wordIdx * 4), wdata := buf,
                wordIdx := Wrap(l.wordIdx + 1), bsel := 0)
        else n.(wordBuf := buf, bsel := (l.bsel + 1) % 4)
    case L_DONE => n.(done := true)
  }

  /** The loader and instruction memory port B, which the loader owns until it is done. */
  datatype Board = Board(loader: Loader, imem: seq<Word>)

  /** The memory once the write on port B, if any, has landed. */
  function Landed(b: Board): (m: seq<Word>)
    requires |b.imem| == IMEM_WORDS
    ensures |m| == IMEM_WORDS
  {
    if !b.loader.done && b.loader.req then b.imem[b.loader.addr / 4 % IMEM_WORDS := b.loader.wdata] else b.imem
  }

  function BoardNext(b: Board, enable: bool, rx: Option<Byte>): (n: Board)
    requires |b.imem| == IMEM_WORDS
    ensures |n.imem| == IMEM_WORDS
  {
    Board(LoaderNext(b.loader, enable, rx), Landed(b))
  }

  /** The core is held in reset until the loader is done. */
  predicate CoreRuns(b: Board) { b.loader.done }

  // ---- What a load does ----------------------------------------------------------------------------------

  /** The memory after the first `i` words of the image. */
  function Filled(image: seq<Word>, mem0: seq<Word>, i: nat): (m: seq<Word>)
    requires i <= |image| <= IMEM_WORDS == |mem0|
    ensures |m| == IMEM_WORDS
  {
    image[..i] + mem0[i..]
  }

  /** The top `k` bytes of the word register are the low `k` bytes of `w`. */
  predicate Partial(buf: Word, k: nat, w: Word) {
    match k
    case 0 => true
    case 1 => buf / 0x100_0000 == w % 0x100
    case 2 => buf / 0x1_0000 == w % 0x1_0000
    case 3 => buf / 0x100 == w % 0x100_0000
    case _ => buf == w
  }

  lemma SecondByte(q: nat, v: nat, w: Word)
    requires q < 0x100_0000 && q / 0x1_0000 == w % 0x100 && v == w / 0x100 % 0x100
    ensures (v * 0x100_0000 + q) / 0x1_0000 == w % 0x1_0000
  {
    assert (v * 0x100_0000 + q) / 0x1_0000 == v * 0x100 + q / 0x1_0000;
  }

  lemma ThirdByte(q: nat, v: nat, w: Word)
    requires q < 0x100_0000 && q / 0x100 == w % 0x1_0000 && v == w / 0x1_0000 % 0x100
    ensures (v * 0x100_0000 + q) / 0x100 == w % 0x100_0000
  {
    assert (v * 0x100_0000 + q) / 0x100 == v * 0x1_0000 + q / 0x100;
  }

  /** The register with `v` shifted in at the top of the `q` left over. */
  lemma ShiftedByte(buf: Word, q: nat, v: nat, k: nat, w: Word)
    requires k < 4 && Partial(buf, k, w) && q == buf / 0x100 && v == ByteAt(w, k)
    ensures v * 0x100_0000 + q < W32 && Partial(v * 0x100_0000 + q, k + 1, w)
    ensures k == 3 ==> v * 0x100_0000 + q == w
  {
    if k == 1 {
      DivDiv(buf, 0x100, 0x1_0000);
      SecondByte(q, v, w);
    } else if k == 2 {
      DivDiv(buf, 0x100, 0x100);
      ThirdByte(q, v, w);
    }
  }

  lemma PartialStep(buf: Word, k: nat, w: Word, b: Byte)
    requires k < 4 && Partial(buf, k, w) && b == Pack(w)[k]
    ensures Partial(ShiftIn(buf, b), k + 1, w)
    ensures k == 3 ==> ShiftIn(buf, b) == w
  {
    hide Pack, ValueOf, BitsOf, Partial, ByteAt;
    PackAt(w, k);
    ShiftedByte(buf, buf / 0x100, ByteAt(w, k), k, w);
  }

  lemma NothingYet(buf: Word, w: Word)
    ensures Partial(buf, 0, w)
  {
  }

  /** The loader after `c` bytes of the image's payload. */
  ghost predicate Loading(b: Board, image: seq<Word>, mem0: seq<Word>, c: nat) {
    var (l, n) := (b.loader, |image|);
    && n <= IMEM_WORDS == |mem0| == |b.imem| && c <= 4 + 4 * n
    && (l.done ==> l.state == L_DONE)
    && match l.state
       case L_WAIT => c == 0 && !l.req && b.imem == mem0
       case L_LEN => c < 4 && l.bsel == c && l.wordIdx == 0 && !l.req && b.imem == mem0 && Partial(l.wordBuf, c, n)
       case L_DATA =>
         && c >= 4 && l.wordCount == n && l.wordIdx == (c - 4) / 4 && l.bsel == (c - 4) % 4
         && (l.wordIdx < n ==> Partial(l.wordBuf, l.bsel, image[l.wordIdx]))
         && Landed(b) == Filled(image, mem0, l.wordIdx)
       case L_DONE => c == 4 + 4 * n && !l.req && b.imem == Filled(image, mem0, n)
  }

  /** The byte of the payload that comes after `c` others. */
  lemma PayloadAt(image: seq<Word>, c: nat)
    requires |image| < W32 && c < |Payload(image)|
    ensures c < 4 ==> Payload(image)[c] == Pack(|image|)[c]
    ensures c >= 4 ==> (c - 4) / 4 < |image| && Payload(image)[c] == Pack(image[(c - 4) / 4])[(c - 4) % 4]
  {
    hide Pack, PackAll;
    if c >= 4 { PackAllAt(image, (c - 4) / 4, (c - 4) % 4); }
  }

  /** Writing word `i` extends the filled part. */
  lemma FillNext(image: seq<Word>, mem0: seq<Word>, i: nat)
    requires i < |image| <= IMEM_WORDS == |mem0|
    ensures Filled(image, mem0, i)[Wrap(i * 4) / 4 % IMEM_WORDS := image[i]] == Filled(image, mem0, i + 1)
  {
    assert Wrap(i * 4) / 4 % IMEM_WORDS == i;
  }

  /** One clock of a load, with or without the next byte. */
  lemma LoadStep(b: Board, image: seq<Word>, mem0: seq<Word>, c: nat, rx: Option<Byte>)
    requires Loading(b, image, mem0, c)
    requires rx.Some? ==> c < |Payload(image)| && rx.value == Payload(image)[c] && b.loader.state != L_WAIT
    ensures Loading(BoardNext(b, true, rx), image, mem0, if rx.Some? then c + 1 else c)
  {
    hide Pack, PackAll, Payload, ShiftIn, Partial, Filled;
    var l := b.loader;
    NothingYet(l.wordBuf, |image|);
    if rx.Some? {
      PayloadAt(image, c);
      if c < 4 {
        LengthByte(b, image, mem0, c, rx.value);
      } else {
        DataByte(b, image, mem0, c, rx.value);
      }
    }
  }

  lemma LengthByte(b: Board, image: seq<Word>, mem0: seq<Word>, c: nat, rx: Byte)
    requires Loading(b, image, mem0, c) && b.loader.state == L_LEN && rx == Pack(|image|)[c]
    ensures Loading(BoardNext(b, true, Some(rx)), image, mem0, c + 1)
  {
    hide Pack, PackAll, Payload, ShiftIn, Partial;
    var l := b.loader;
    PartialStep(l.wordBuf, c, |image|, rx);
    if |image| > 0 { NothingYet(ShiftIn(l.wordBuf, rx), image[0]); }
  }

  lemma DataByte(b: Board, image: seq<Word>, mem0: seq<Word>, c: nat, rx: Byte)
    requires Loading(b, image, mem0, c) && b.loader.state == L_DATA && 4 <= c < 4 + 4 * |image|
    requires rx == Pack(image[(c - 4) / 4])[(c - 4) % 4]
    ensures Loading(BoardNext(b, true, Some(rx)), image, mem0, c + 1)
  {
    hide Pack, PackAll, Payload, ShiftIn, Partial, Filled;
    var (l, i) := (b.loader, (c - 4) / 4);
    PartialStep(l.wordBuf, l.bsel, image[i], rx);
    if l.bsel == 3 {
      FillNext(image, mem0, i);
      if i + 1 < |image| { NothingYet(ShiftIn(l.wordBuf, rx), image[i + 1]); }
    }
  }

  // ---- Whole loads -------------------------------------------------------------------------------------------

  function BoardAfter(b: Board, evs: seq<Option<Byte>>): (n: Board)
    requires |b.imem| == IMEM_WORDS
    ensures |n.imem| == IMEM_WORDS
    decreases |evs|
  {
    if evs == [] then b else BoardAfter(BoardNext(b, true, evs[0]), evs[1..])
  }

  /** The bytes among the events. */
  function Bytes(evs: seq<Option<Byte>>): seq<Byte> {
    if evs == [] then [] else ByteOf(evs[0]) + Bytes(evs[1..])
  }

  function ByteOf(ev: Option<Byte>): seq<Byte> { if ev.Some? then [ev.value] else [] }

  /** What a byte, or none, takes off what is still to come. */
  lemma NextByte(p: seq<Byte>, c: nat, ev: Option<Byte>, rest: seq<Byte>)
    requires c <= |p| && ByteOf(ev) + rest <= p[c..]
    ensures ev.Some? ==> c < |p| && ev.value == p[c] && rest <= p[c + 1..]
    ensures ev.None? ==> rest <= p[c..]
    ensures |ByteOf(ev) + rest| == |rest| + if ev.Some? then 1 else 0
  {
    if ev.Some? {
      assert (ByteOf(ev) + rest)[0] == ev.value && p[c..][1..] == p[c + 1..];
      assert rest == (ByteOf(ev) + rest)[1..];
    } else {
      assert ByteOf(ev) + rest == rest;
    }
  }

  /** Any part of a payload, arriving at any pace, leaves the loader where that part says. */
  lemma {:induction false} LoadRun(b: Board, image: seq<Word>, mem0: seq<Word>, c: nat, evs: seq<Option<Byte>>)
    requires Loading(b, image, mem0, c) && (b.loader.state == L_WAIT && evs != [] ==> evs[0].None?)
    requires Bytes(evs) <= Payload(image)[c..]
    ensures Loading(BoardAfter(b, evs), image, mem0, c + |Bytes(evs)|)
    decreases |evs|
  {
    hide Payload, Pack, PackAll, ByteOf, BoardNext;
    if evs != [] {
      LoadingBounds(b, image, mem0, c);
      hide Loading;
      NextByte(Payload(image), c, evs[0], Bytes(evs[1..]));
      LoadStep(b, image, mem0, c, evs[0]);
      LeavesWait(b, evs[0]);
      LoadRun(BoardNext(b, true, evs[0]), image, mem0, if evs[0].Some? then c + 1 else c, evs[1..]);
    }
  }

  lemma LoadingBounds(b: Board, image: seq<Word>, mem0: seq<Word>, c: nat)
    requires Loading(b, image, mem0, c)
    ensures |image| <= IMEM_WORDS == |b.imem| && c <= |Payload(image)|
  {
  }

  lemma LeavesWait(b: Board, ev: Option<Byte>)
    requires |b.imem| == IMEM_WORDS
    ensures BoardNext(b, true, ev).loader.state != L_WAIT
  {
    hide ShiftIn;
  }

  /** Once the last byte is in, two quiet clocks finish the load. */
  lemma LoadEnds(b: Board, image: seq<Word>, mem0: seq<Word>)
    requires Loading(b, image, mem0, 4 + 4 * |image|) && |image| <= IMEM_WORDS
    ensures
      var f := BoardNext(BoardNext(b, true, None), true, None);
      CoreRuns(f) && f.imem == Filled(image, mem0, |image|)
  {
    hide Filled, Partial;
  }

  // ---- Receiver and loader together ------------------------------------------------------------------------------

  datatype System = System(rx: R.Rx, board: Board)

  /** What the loader sees of the receiver in a clock. */
  function Strobe(r: R.Rx): Option<Byte> { if r.strobe then Some(r.data) else None }

  function SystemNext(div: nat, s: System, line: bool): (n: System)
    requires |s.board.imem| == IMEM_WORDS
    ensures |n.board.imem| == IMEM_WORDS
  {
    System(R.RxNext(div, s.rx, line), BoardNext(s.board, true, Strobe(s.rx)))
  }

  function SystemAfter(div: nat, s: System, lines: seq<bool>): (n: System)
    requires |s.board.imem| == IMEM_WORDS
    ensures |n.board.imem| == IMEM_WORDS
    decreases |lines|
  {
    if lines == [] then s else SystemAfter(div, SystemNext(div, s, lines[0]), lines[1..])
  }

  function Events(div: nat, r: R.Rx, lines: seq<bool>): seq<Option<Byte>>
    decreases |lines|
  {
    if lines == [] then [] else [Strobe(r)] + Events(div, R.RxNext(div, r, lines[0]), lines[1..])
  }

  lemma {:induction false} SystemSplits(div: nat, s: System, lines: seq<bool>)
    requires |s.board.imem| == IMEM_WORDS
    ensures
      var f := SystemAfter(div, s, lines);
      f.rx == R.RxAfter(div, s.rx, lines) && f.board == BoardAfter(s.board, Events(div, s.rx, lines))
    decreases |lines|
  {
    hide R.RxNext, BoardNext;
    if lines != [] {
      SystemSplits(div, SystemNext(div, s, lines[0]), lines[1..]);
      var evs := Events(div, s.rx, lines);
      assert evs[0] == Strobe(s.rx) && evs[1..] == Events(div, R.RxNext(div, s.rx, lines[0]), lines[1..]);
    }
  }

  /** The loader sees every strobe one clock later. */
  lemma {:induction false} EventsAreStrobes(div: nat, r: R.Rx, lines: seq<bool>)
    ensures
      Bytes(Events(div, r, lines)) + ByteOf(Strobe(R.RxAfter(div, r, lines))) ==
      ByteOf(Strobe(r)) + R.Strobed(div, r, lines)
    decreases |lines|
  {
    hide R.RxNext;
    if lines != [] {
      var (n, rest) := (R.RxNext(div, r, lines[0]), lines[1..]);
      EventsAreStrobes(div, n, rest);
      var evs := Events(div, r, lines);
      assert evs[0] == Strobe(r) && evs[1..] == Events(div, n, rest);
      assert R.Strobed(div, r, lines) == ByteOf(Strobe(n)) + R.Strobed(div, n, rest);
      hide ByteOf, Strobe, R.Strobed;
      Assoc(ByteOf(Strobe(r)), Bytes(Events(div, n, rest)), ByteOf(Strobe(R.RxAfter(div, n, rest))));
    }
  }

  lemma {:induction false} SystemConcat(div: nat, s: System, a: seq<bool>, b: seq<bool>)
    requires |s.board.imem| == IMEM_WORDS
    ensures SystemAfter(div, s, a + b) == SystemAfter(div, SystemAfter(div, s, a), b)
    decreases |a|
  {
    hide SystemNext;
    if a == [] {
      assert a + b == b;
    } else {
      assert (a + b)[1..] == a[1..] + b && (a + b)[0] == a[0];
      SystemConcat(div, SystemNext(div, s, a[0]), a[1..], b);
    }
  }

  lemma {:induction false} StrobedConcat(div: nat, r: R.Rx, a: seq<bool>, b: seq<bool>)
    ensures R.Strobed(div, r, a + b) == R.Strobed(div, r, a) + R.Strobed(div, R.RxAfter(div, r, a), b)
    ensures R.RxAfter(div, r, a + b) == R.RxAfter(div, R.RxAfter(div, r, a), b)
    decreases |a|
  {
    hide R.RxNext;
    if a == [] {
      assert a + b == b;
    } else {
      var n := R.RxNext(div, r, a[0]);
      assert (a + b)[1..] == a[1..] + b && (a + b)[0] == a[0];
      StrobedConcat(div, n, a[1..], b);
      Assoc(ByteOf(Strobe(n)), R.Strobed(div, n, a[1..]), R.Strobed(div, R.RxAfter(div, n, a[1..]), b));
    }
  }

  // ---- Boot, end to end -----------------------------------------------------------------------------------------

  /** The serial line while the host sends an image, with any gap before each byte, and then is silent. */
  function HostLine(div: nat, image: seq<Word>, gaps: seq<nat>, tail: nat): seq<bool>
    requires div > 0 && |image| < W32 && |gaps| == |Payload(image)|
  {
    Levels(div, Wave(div, Payload(image), gaps) + Silence(tail))
  }

  function PowerUp(mem0: seq<Word>): System { System(R.RESET, Board(RESET, mem0)) }

  lemma LineGrows(div: nat, image: seq<Word>, gaps: seq<nat>, tail: nat)
    requires div > 0 && |image| < W32 && |gaps| == |Payload(image)|
    ensures HostLine(div, image, gaps, tail + 1) == HostLine(div, image, gaps, tail) + [true]
  {
    var w := Wave(div, Payload(image), gaps);
    hide Payload, Wave;
    assert w + Silence(tail + 1) == (w + Silence(tail)) + [Quiet];
    LevelsConcat(div, w + Silence(tail), [Quiet]);
    assert Levels(div, [Quiet]) == [true] by { assert [Quiet][1..] == []; }
  }

  lemma LineStrobes(div: nat, image: seq<Word>, gaps: seq<nat>, tail: nat)
    requires div >= 2 && |image| < W32 && |gaps| == |Payload(image)| && tail >= 2
    ensures R.Strobed(div, R.RESET, HostLine(div, image, gaps, tail)) == Payload(image)
  {
    R.HostBytesArrive(div, Payload(image), gaps, tail);
    hide Payload, R.Strobed, Wave, Levels;
  }

  /** After power-up, what the loader has seen is what the receiver has strobed, but for a strobe of this
      very clock. */
  lemma OneBehind(div: nat, lines: seq<bool>)
    ensures
      Bytes(Events(div, R.RESET, lines)) + ByteOf(Strobe(R.RxAfter(div, R.RESET, lines))) ==
      R.Strobed(div, R.RESET, lines)
    ensures lines != [] ==> Events(div, R.RESET, lines)[0] == None
  {
    EventsAreStrobes(div, R.RESET, lines);
    assert ByteOf(Strobe(R.RESET)) == [];
    hide R.RxNext, R.Strobed, Bytes, R.RxAfter;
    assert [] + R.Strobed(div, R.RESET, lines) == R.Strobed(div, R.RESET, lines);
  }

  lemma OneClock(div: nat, r: R.Rx, s: System, line: bool)
    requires |s.board.imem| == IMEM_WORDS
    ensures R.Strobed(div, r, [line]) == ByteOf(Strobe(R.RxNext(div, r, line)))
    ensures R.RxAfter(div, r, [line]) == R.RxNext(div, r, line)
    ensures SystemAfter(div, s, [line]) == SystemNext(div, s, line)
  {
    hide R.RxNext, SystemNext;
    assert [line][1..] == [];
  }

  /** Three clocks after the last frame the loader has every byte and the receiver has nothing more. */
  lemma AllBytesIn(div: nat, image: seq<Word>, gaps: seq<nat>, tail: nat)
    requires div >= 2 && |image| < W32 && |gaps| == |Payload(image)| && tail >= 3
    ensures
      var line := HostLine(div, image, gaps, tail);
      Strobe(R.RxAfter(div, R.RESET, line)) == None && Bytes(Events(div, R.RESET, line)) == Payload(image)
  {
    hide R.RxNext, R.Strobed, R.RxAfter, HostLine, Payload, Events, Bytes;
    var (line, before) := (HostLine(div, image, gaps, tail), HostLine(div, image, gaps, tail - 1));
    LineStrobes(div, image, gaps, tail);
    LineStrobes(div, image, gaps, tail - 1);
    LineGrows(div, image, gaps, tail - 1);
    StrobedConcat(div, R.RESET, before, [true]);
    OneClock(div, R.RxAfter(div, R.RESET, before), PowerUp(seq(IMEM_WORDS, _ => 0)), true);
    OneBehind(div, line);
  }

  /** At every clock of the transmission the loader is where the bytes it has seen put it. */
  lemma AnyMoment(div: nat, image: seq<Word>, gaps: seq<nat>, tail: nat, mem0: seq<Word>, n: nat)
    requires div >= 2 && |image| <= IMEM_WORDS == |mem0| && |gaps| == |Payload(image)| && tail >= 2
    requires n <= |HostLine(div, image, gaps, tail)|
    ensures
      var line := HostLine(div, image, gaps, tail)[..n];
      Loading(SystemAfter(div, PowerUp(mem0), line).board, image, mem0, |Bytes(Events(div, R.RESET, line))|)
  {
    StartsLoading(image, mem0);
    hide R.RxNext, R.Strobed, R.RxAfter, Events, HostLine, Payload, BoardNext, SystemAfter, BoardAfter, Bytes,
      Loading, Strobe;
    var all := HostLine(div, image, gaps, tail);
    var line := all[..n];
    LineStrobes(div, image, gaps, tail);
    assert all == line + all[n..];
    StrobedConcat(div, R.RESET, line, all[n..]);
    OneBehind(div, line);
    SystemSplits(div, PowerUp(mem0), line);
    var evs := Events(div, R.RESET, line);
    assert Bytes(evs) <= Payload(image) == Payload(image)[0..];
    EventsLength(div, R.RESET, line);
    LoadRun(Board(RESET, mem0), image, mem0, 0, evs);
  }

  lemma {:induction false} EventsLength(div: nat, r: R.Rx, lines: seq<bool>)
    ensures |Events(div, r, lines)| == |lines|
    decreases |lines|
  {
    hide R.RxNext;
    if lines != [] { EventsLength(div, R.RxNext(div, r, lines[0]), lines[1..]); }
  }

  lemma StartsLoading(image: seq<Word>, mem0: seq<Word>)
    requires |image| <= IMEM_WORDS == |mem0|
    ensures Loading(Board(RESET, mem0), image, mem0, 0)
  {
  }

  /** The core never runs on a half-loaded image: at every clock, if it is out of reset then the last
      write has landed, the first words of the memory are the image and the rest is untouched. */
  lemma BootIsSafe(div: nat, image: seq<Word>, gaps: seq<nat>, tail: nat, mem0: seq<Word>, n: nat)
    requires div >= 2 && |image| <= IMEM_WORDS == |mem0| && |gaps| == |Payload(image)| && tail >= 2
    requires n <= |HostLine(div, image, gaps, tail)|
    ensures
      var b := SystemAfter(div, PowerUp(mem0), HostLine(div, image, gaps, tail)[..n]).board;
      CoreRuns(b) ==> b.imem == image + mem0[|image|..] && !b.loader.req
  {
    hide HostLine, SystemAfter, Payload, Events, Bytes;
    AnyMoment(div, image, gaps, tail, mem0, n);
  }

  /** Boot end to end: for every image that fits, every divisor of at least 2 and every pacing of the
      host, five clocks after the last stop bit the core runs on exactly that image. */
  lemma BootCompletes(div: nat, image: seq<Word>, gaps: seq<nat>, tail: nat, mem0: seq<Word>)
    requires div >= 2 && |image| <= IMEM_WORDS == |mem0| && |gaps| == |Payload(image)| && tail >= 5
    ensures
      var b := SystemAfter(div, PowerUp(mem0), HostLine(div, image, gaps, tail)).board;
      CoreRuns(b) && b.imem == image + mem0[|image|..]
  {
    hide HostLine, Events, Bytes, R.RxNext, R.RxAfter, BoardNext, SystemAfter, Strobe, BoardAfter, Loading,
      Payload, CoreRuns;
    var s3 := SystemAfter(div, PowerUp(mem0), HostLine(div, image, gaps, tail - 2));
    QuietClock(div, image, gaps, tail - 2, mem0);
    QuietClock(div, image, gaps, tail - 1, mem0);
    LoadedAt(div, image, gaps, tail - 2, mem0);
    LoadEnds(s3.board, image, mem0);
    assert image[..|image|] == image;
  }

  lemma LoadedAt(div: nat, image: seq<Word>, gaps: seq<nat>, tail: nat, mem0: seq<Word>)
    requires div >= 2 && |image| <= IMEM_WORDS == |mem0| && |gaps| == |Payload(image)| && tail >= 3
    ensures
      Loading(SystemAfter(div, PowerUp(mem0), HostLine(div, image, gaps, tail)).board, image, mem0, 4 + 4 * |image|)
  {
    hide HostLine, Events, Bytes, SystemAfter, Loading, Strobe, Payload;
    var line := HostLine(div, image, gaps, tail);
    AllBytesIn(div, image, gaps, tail);
    AnyMoment(div, image, gaps, tail, mem0, |line|);
    assert line[..|line|] == line;
  }

  lemma QuietClock(div: nat, image: seq<Word>, gaps: seq<nat>, tail: nat, mem0: seq<Word>)
    requires div >= 2 && |image| <= IMEM_WORDS == |mem0| && |gaps| == |Payload(image)| && tail >= 3
    ensures
      SystemAfter(div, PowerUp(mem0), HostLine(div, image, gaps, tail + 1)).board ==
      BoardNext(SystemAfter(div, PowerUp(mem0), HostLine(div, image, gaps, tail)).board, true, None)
  {
    hide HostLine, Events, Bytes, R.RxNext, R.RxAfter, BoardNext, SystemAfter, Strobe, BoardAfter, Payload;
    var line := HostLine(div, image, gaps, tail);
    var s := SystemAfter(div, PowerUp(mem0), line);
    LineGrows(div, image, gaps, tail);
    SystemConcat(div, PowerUp(mem0), line, [true]);
    SystemSplits(div, PowerUp(mem0), line);
    OneClock(div, s.rx, s, true);
    AllBytesIn(div, image, gaps, tail);
  }

  // ---- What the core fetches -------------------------------------------------------------------------------------

  /** The instruction memory as the core's program. */
  function ProgramOf(imem: seq<Word>): Program
    requires |imem| == IMEM_WORDS
  {
    map i: Word | i < IMEM_WORDS :: imem[i]
  }

  lemma FetchedWord(imem: seq<Word>, addr: Word)
    requires |imem| == IMEM_WORDS
    ensures Fetch(ProgramOf(imem), addr) == if addr < 0x1000 then imem[addr / 4] else 0x13
  {
  }

  /** The booted core fetches word `i` of the image at address 4 * i, starting at 0, what was there before behind
      the image, and NOPs outside the memory. */
  lemma BootedFetch(div: nat, image: seq<Word>, gaps: seq<nat>, tail: nat, mem0: seq<Word>, addr: Word)
    requires div >= 2 && |image| <= IMEM_WORDS == |mem0| && |gaps| == |Payload(image)| && tail >= 5
    ensures
      var b := SystemAfter(div, PowerUp(mem0), HostLine(div, image, gaps, tail)).board;
      && CoreRuns(b) && RESET_PC == 0
      && Fetch(ProgramOf(b.imem), addr) ==
         if addr / 4 < |image| then image[addr / 4] else if addr < 0x1000 then mem0[addr / 4] else 0x0000_0013
  {
    hide HostLine, SystemAfter, Payload, Fetch, ProgramOf, CoreRuns;
    BootCompletes(div, image, gaps, tail, mem0);
    FetchedWord(SystemAfter(div, PowerUp(mem0), HostLine(div, image, gaps, tail)).board.imem, addr);
  }

  // ---- Without the loader -----------------------------------------------------------------------------------------

  function DisabledAfter(b: Board, evs: seq<Option<Byte>>): (n: Board)
    requires |b.imem| == IMEM_WORDS
    ensures |n.imem| == IMEM_WORDS
    decreases |evs|
  {
    if evs == [] then b else DisabledAfter(BoardNext(b, false, evs[0]), evs[1..])
  }

  /** With loading disabled the core runs one clock after reset, and the memory stays as it was whatever arrives
      on the line. */
  lemma {:induction false} DisabledLoaderStaysOut(b: Board, evs: seq<Option<Byte>>)
    requires |b.imem| == IMEM_WORDS && b.loader.state == L_WAIT && !b.loader.req
    ensures
      var f := DisabledAfter(b, evs);
      f.imem == b.imem && f.loader.state == L_WAIT && !f.loader.req && (evs != [] ==> CoreRuns(f))
    decreases |evs|
  {
    if evs != [] {
      var n := BoardNext(b, false, evs[0]);
      assert CoreRuns(n) && n.imem == b.imem;
      hide BoardNext;
      DisabledLoaderStaysOut(n, evs[1..]);
      if evs[1..] == [] { assert DisabledAfter(n, evs[1..]) == n; }
    }
  }
}
