/** The loader and the instruction memory it writes, as objects clocked in place. */
module BootUnit {
  import opened Words
  import opened Datapath
  import opened Serial
  import opened Boot
  import L = Lanes
  import R = UartRx

  /** A request on port B of the instruction memory. */
  datatype PortRequest = PortRequest(req: bool, we: bool, addr: Word, wdata: Word, byteEn: Word)

  /** The memory after a clock in which `p` is on the port. */
  function Written(mem: seq<Word>, p: PortRequest): (m: seq<Word>)
    requires |mem| == IMEM_WORDS
    ensures |m| == IMEM_WORDS
  {
    var at := p.addr / 4 % IMEM_WORDS;
    if p.req && p.we then mem[at := WriteLanes(mem[at], p.wdata, p.byteEn)] else mem
  }

  class LoaderPort {
    const rx: R.RxCore
    var state: LState
    var bsel: nat
    var wordBuf: Word
    var wordCount: Word
    var wordIdx: Word
    var done: bool
    var req: bool
    var addr: Word
    var wdata: Word
    var byteEn: Word
    var bRdata: Word
    var bReady: bool
    const imem: array<Word>

    ghost predicate Valid()
      reads this
    {
      imem.Length == IMEM_WORDS && (req ==> byteEn == 15)
    }

    /** Who is on port B: the loader until it is done, then the data bus. */
    function OnPort(bus: PortRequest): PortRequest
      reads this
    {
      if done then bus else PortRequest(req, req, addr, wdata, byteEn)
    }

    function Registers(): Loader
      reads this
    {
      Loader(state, bsel, wordBuf, wordCount, wordIdx, done, req, addr, wdata)
    }

    function View(): System
      reads this, rx, imem
    {
      System(rx.View(), Board(Registers(), imem[..]))
    }

    /** In reset, over an instruction memory filled with NOPs. */
    constructor (div: nat)
      requires div >= 2
      ensures Valid() && View() == PowerUp(seq(IMEM_WORDS, _ => NOP_INSTR)) && rx.div == div
      ensures fresh(rx) && fresh(imem)
    {
      rx := new R.RxCore(div);
      state, bsel, wordBuf, wordCount, wordIdx, done := L_WAIT, 0, 0, 0, 0, false;
      req, addr, wdata, byteEn := false, 0, 0, 0;
      bRdata, bReady := 0, false;
      imem := new Word[IMEM_WORDS](_ => NOP_INSTR);
      new;
      assert imem[..] == seq(IMEM_WORDS, _ => NOP_INSTR);
    }

    /** The loader's clocked block. */
    method ClockLoader(enable: bool, strobe: bool, data: Byte)
      modifies `state, `bsel, `wordBuf, `wordCount, `wordIdx, `done, `req, `addr, `wdata, `byteEn
      ensures req ==> byteEn == 15
      ensures Registers() == LoaderNext(old(Registers()), enable, if strobe then Some(data) else None)
    {
      hide ShiftIn, Wrap;
      req := false;
      match state {
        case L_WAIT =>
          if !enable {
            done := true;
          } else {
            done, bsel, wordIdx, state := false, 0, 0, L_LEN;
          }
        case L_LEN =>
          if strobe {
            wordBuf := ShiftIn(wordBuf, data);
            if bsel == 3 {
              wordCount, bsel, state := wordBuf, 0, L_DATA;
            } else {
              bsel := (bsel + 1) % 4;
            }
          }
        case L_DATA =>
          if wordIdx == wordCount {
            state := L_DONE;
          } else if strobe {
            wordBuf := ShiftIn(wordBuf, data);
            if bsel == 3 {
              req, byteEn, addr, wdata := true, 15, Wrap(wordIdx * 4), wordBuf;
              wordIdx, bsel := Wrap(wordIdx + 1), 0;
            } else {
              bsel := (bsel + 1) % 4;
            }
          }
        case L_DONE =>
          done := true;
      }
    }

    /** Port B: a write lands with its byte enables, and the word read is the one before it. */
    method ClockPort(p: PortRequest)
      requires imem.Length == IMEM_WORDS
      modifies imem, `bRdata, `bReady
      ensures imem[..] == Written(old(imem[..]), p)
      ensures bReady == p.req && bRdata == old(imem[p.addr / 4 % IMEM_WORDS])
    {
      hide WriteLanes;
      var at := p.addr / 4 % IMEM_WORDS;
      bReady, bRdata := p.req, imem[at];
      if p.req && p.we { imem[at] := WriteLanes(imem[at], p.wdata, p.byteEn); }
    }

    /** One clock edge: the write requested in the previous clock lands while the loader owns the port;
        afterwards the data bus reads and writes there. */
    method Clock(enable: bool, uartRx: bool, bus: PortRequest)
      requires Valid()
      modifies this, rx, imem
      ensures Valid()
      ensures rx.View() == R.RxNext(rx.div, old(rx.View()), uartRx)
      ensures Registers() == LoaderNext(old(Registers()), enable, Strobe(old(rx.View())))
      ensures imem[..] == Written(old(imem[..]), old(OnPort(bus)))
      ensures bReady == old(OnPort(bus)).req && bRdata == old(imem[..])[old(OnPort(bus)).addr / 4 % IMEM_WORDS]
      ensures !(old(done) && bus.req && bus.we) ==>
                View().board == BoardNext(old(View()).board, enable, Strobe(old(rx.View())))
    {
      hide LoaderNext, R.RxNext, WriteLanes;
      if !done && req { L.AllEnabled(imem[addr / 4 % IMEM_WORDS], wdata); }
      ClockPort(OnPort(bus));
      ClockLoader(enable, rx.strobe, rx.data);
      rx.Clock(uartRx);
    }
  }
}
