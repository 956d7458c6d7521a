/** The accelerator as an object whose registers, coefficient buffer and scratchpad are updated in
    place on each clock edge. */
module AccelUnit {
  import opened Words
  import opened Conv
  import opened DirAccel

  class Accelerator {
    var cfg: Config
    var status: Status
    var job: Latched
    var scan: Scan
    var operand: Operand
    var bData: Word
    var acc: int
    var rrdata: Word
    var rready: bool
    const coeffBuf: array<int>
    const scratch: array<Word>

    ghost predicate Valid()
      reads this
    {
      coeffBuf.Length == TAPS && scratch.Length == SCRATCH_WORDS && (coeffBuf as object) != scratch && ConfigOk(cfg)
    }

    function View(): (a: Accel)
      requires scratch.Length > 0
      reads this, coeffBuf, scratch
    {
      Accel(cfg, status, job, scan, operand, bData, acc, coeffBuf[..], scratch[..])
    }

    /** In reset, at power-up: every register, the coefficient buffer and the scratchpad are zero. */
    constructor ()
      ensures Valid() && View() == AtRest(Config(0, 0, 0, 0, 0, 0, 0, false), seq(SCRATCH_WORDS, _ => 0))
      ensures rrdata == 0 && !rready
      ensures fresh(coeffBuf) && fresh(scratch)
    {
      cfg := Config(0, 0, 0, 0, 0, 0, 0, false);
      status := Status(S_IDLE, false, false, false, 0);
      job := Latched(0, 0, 0, 0, 0, 0, 0);
      scan := Scan(0, 0, 0, 0, 0, 0, 0, false, false, 0, 0, 0);
      operand := Operand(0, false);
      bData, acc := 0, 0;
      rrdata, rready := 0, false;
      coeffBuf := new int[TAPS](_ => 0);
      scratch := new Word[SCRATCH_WORDS](_ => 0);
      new;
      assert coeffBuf[..] == seq(TAPS, _ => 0) && scratch[..] == seq(SCRATCH_WORDS, _ => 0);
    }

    method ClockIdle(b: Bus)
      requires Valid() && status.state == S_IDLE
      modifies `status, `job, `scan
      ensures View() == IdleNext(old(View()), b).(bData := bData, acc := acc)
    {
      hide MacAcc, PortIndex, StartPulse, IntAck, Low16;
      if !StartPulse(b) {
        status := status.(busy := false, done := status.done && !IntAck(b));
      } else {
        job := Latched(cfg.inputBase, cfg.outputBase, cfg.kdim, cfg.rshift, cfg.coeffBase,
                       Low16(cfg.imgW - cfg.kdim + 1), Low16(cfg.imgH - cfg.kdim + 1));
        if cfg.kdim == 0 || cfg.kdim > MAXK || cfg.imgW < cfg.kdim || cfg.imgH < cfg.kdim {
          status := status.(busy := false, error := true, done := true);
        } else {
          status := status.(error := false, done := false, busy := true, state := S_LC);
          scan := scan.(ci := 0, lcValidD := false, winBase := cfg.inputBase, outPtr := cfg.outputBase);
        }
      }
    }

    method ClockLoad(b: Bus)
      requires Valid() && status.state == S_LC
      modifies `status, `scan, coeffBuf
      ensures View() == LoadNext(old(View()), b).(bData := bData, acc := acc)
    {
      hide MacAcc, PortIndex, IntAck, Low7, Sx16;
      var present, ended := Present(View()), !Present(View()) && scan.lcValidD;
      hide Present;
      if scan.lcValidD && scan.sciD < TAPS { coeffBuf[scan.sciD] := Sx16(bData); }
      scan := scan.(sciD := scan.ci, lcValidD := present, ci := if present then Low7(scan.ci + 1) else scan.ci);
      status := status.(done := status.done && !IntAck(b));
      if ended {
        scan := scan.(ox := 0, oy := 0);
        status := status.(state := S_PINIT);
      }
    }

    method ClockPixel(b: Bus)
      requires Valid() && status.state == S_PINIT
      modifies `status, `scan
      ensures View() == PixelNext(old(View()), b).(bData := bData, acc := acc)
    {
      hide MacAcc, PortIndex, IntAck;
      status := status.(done := status.done && !IntAck(b), state := S_STREAM);
      scan := scan.(kx := 0, ky := 0, tap := 0, pixPtr := scan.winBase, stValidD := false);
    }

    method ClockStream(b: Bus)
      requires Valid() && status.state == S_STREAM
      modifies `status, `scan, `operand
      ensures View() == StreamNext(old(View()), b).(bData := bData, acc := acc)
    {
      hide MacAcc, PortIndex, Wrap, IntAck, Low5, Low7;
      var present := Present(View());
      hide Present;
      status := status.(done := status.done && !IntAck(b),
                        state := if !present && scan.stValidD then S_WRITE else S_STREAM);
      if present {
        operand := Operand(if scan.tap < TAPS then coeffBuf[scan.tap] else operand.coeffD, scan.tap == 0);
        scan := scan.(stValidD := true, tap := Low7(scan.tap + 1));
        if scan.kx == Low5(job.k - 1) {
          scan := scan.(kx := 0, ky := Low5(scan.ky + 1), pixPtr := Wrap(scan.pixPtr + job.outW));
        } else {
          scan := scan.(kx := Low5(scan.kx + 1), pixPtr := Wrap(scan.pixPtr + 1));
        }
      } else {
        scan := scan.(stValidD := false);
      }
    }

    method ClockWrite(b: Bus)
      requires Valid() && status.state == S_WRITE
      modifies `status, `scan, scratch
      ensures View() == WriteNext(old(View()), b).(bData := bData, acc := acc)
    {
      hide MacAcc, Wrap, PortIndex, LastPix, OutWord, IntAck, Low16;
      var last, sample, at := LastPix(View()), OutWord(View()), PortIndex(View());
      scratch[at] := sample;
      status := status.(done := status.done && !IntAck(b), result := sample, state := if last then S_DONE else S_PINIT);
      if !last {
        scan := scan.(outPtr := Wrap(scan.outPtr + 1));
        if scan.ox == Low16(job.outW - 1) {
          scan := scan.(ox := 0, oy := Low16(scan.oy + 1), winBase := Wrap(scan.winBase + job.k));
        } else {
          scan := scan.(ox := Low16(scan.ox + 1), winBase := Wrap(scan.winBase + 1));
        }
      }
    }

    /** The register block's answer: ready one clock after the request, with the register as it was. */
    method ClockRead(b: Bus)
      requires Valid()
      modifies `rrdata, `rready
      ensures rready == b.req && rrdata == ReadReg(View(), b.addr)
    {
      rready := b.req;
      match b.addr / 4 % 64 {
        case 0 => rrdata := if cfg.irqEn then 2 else 0;
        case 1 =>
          rrdata := (if status.busy then 1 else 0) + (if status.done then 2 else 0) +
          (if status.error then 4 else 0);
        case 2 => rrdata := cfg.inputBase;
        case 3 => rrdata := cfg.outputBase;
        case 4 => rrdata := cfg.imgH * 0x1_0000 + cfg.imgW;
        case 5 => rrdata := cfg.coeffBase * 0x1_0000 + cfg.rshift * 0x100 + cfg.kdim;
        case 6 => rrdata := status.result;
        case _ => rrdata := 0;
      }
    }

    /** One clock edge. The scratchpad's output register and the MAC sample on the same edge as the
        FSM, and all of them see the values from before it. */
    method Clock(b: Bus)
      requires Valid()
      modifies this, coeffBuf, scratch
      ensures Valid() && View() == AccelNext(old(View()), b)
      ensures rready == b.req && rrdata == ReadReg(old(View()), b.addr)
    {
      hide MacAcc, PortIndex, LoadNext, PixelNext, StreamNext, WriteNext, ConfigNext, IdleNext, ReadReg, ConfigOk;
      assert Shaped(View());
      ConfigStaysOk(cfg, b);
      var read, mac, config := scratch[PortIndex(View())], MacAcc(View()), ConfigNext(cfg, b);
      ClockRead(b);
      match status.state {
        case S_IDLE => ClockIdle(b);
        case S_LC => ClockLoad(b);
        case S_PINIT => ClockPixel(b);
        case S_STREAM => ClockStream(b);
        case S_WRITE => ClockWrite(b);
        case S_DONE => status := status.(busy := false, done := true, state := S_IDLE);
      }
      cfg, bData, acc := config, read, mac;
    }
  }

  lemma ConfigStaysOk(c: Config, b: Bus)
    requires ConfigOk(c)
    ensures ConfigOk(ConfigNext(c, b))
  {
  }
}
