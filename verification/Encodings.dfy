/** Every instruction in the numbers of its encoding: what the sequential machine does for each opcode, with
    opcodes, fields, immediates and cause codes written out. */
module Encodings {
  import opened Words
  import opened Arithmetic
  import opened Datapath
  import opened Csr
  import opened Isa

  /** The low 32 bits. */
  function U32(v: int): Word { v % 0x1_0000_0000 }

  /** The low bits of `v` as a signed number, given the weight `m` of the sign bit. */
  function Sxm(v: int, m: nat): int
    requires m > 0
  {
    v % m - v / m % 2 * m
  }

  // ---- Fields ----------------------------------------------------------------------------------------------

  function F3(w: Word): Word { w / 0x1000 % 8 }
  function RdOf(w: Word): Word { w / 0x80 % 32 }

  /** The source registers' values. */
  function Src1(a: Arch, w: Word): Word { Reg(a.regs, w / 0x8000 % 32) }
  function Src2(a: Arch, w: Word): Word { Reg(a.regs, w / 0x10_0000 % 32) }

  /** The immediates, as signed numbers. */
  function I12(w: Word): int { Sxm(w / 0x10_0000, 0x800) }
  function S12(w: Word): int { Sxm(w / 0x200_0000 * 0x20 + w / 0x80 % 0x20, 0x800) }
  function B13(w: Word): int {
    Sxm(w / 0x8000_0000 * 0x1000 + w / 0x80 % 2 * 0x800 + w / 0x200_0000 % 0x40 * 0x20 + w / 0x100 % 0x10 * 2, 0x1000)
  }
  function U20(w: Word): Word { w / 0x1000 * 0x1000 }
  function J21(w: Word): int {
    Sxm(w / 0x8000_0000 * 0x10_0000 + w / 0x1000 % 0x100 * 0x1000 + w / 0x10_0000 % 2 * 0x800 +
        w / 0x20_0000 % 0x400 * 2, 0x10_0000)
  }

  // ---- The machine's arithmetic on them ----------------------------------------------------------------

  /** The machine's sum of a register and an immediate, and its next address. */
  lemma SumsAre(x: Word, imm: int, pc: Word)
    ensures Add(x, Wrap(imm)) == U32(x + imm) && Add(pc, 4) == U32(pc + 4)
  {
  }

  lemma ImmediatesAre(w: Word)
    ensures ImmI(w) == Wrap(I12(w)) && ImmS(w) == Wrap(S12(w)) && ImmB(w) == Wrap(B13(w)) && ImmJ(w) == Wrap(J21(w))
    ensures ImmU(w) == U20(w)
  {
    hide Wrap;
  }

  lemma AlignmentIs(addr: Word, size: Word)
    requires size < 4
    ensures AlignOk(addr, size) <==> size == 0 || (size == 1 && addr % 2 == 0) || (size == 2 && addr % 4 == 0)
  {
  }

  // ---- One lemma per opcode ------------------------------------------------------------------------------

  lemma OpAct(prog: Program, a: Arch)
    requires Fetch(prog, a.pc) % 0x80 == 0x33
    ensures
      var w := Fetch(prog, a.pc);
      Act(prog, a) ==
      Continue(U32(a.pc + 4), SetReg(RdOf(w), Arith(F3(w), w / 0x4000_0000 % 2 == 1, Src1(a, w), Src2(a, w))))
  {
    hide Fetch, Arith, ImmI, ImmS, ImmB, ImmJ, ImmU, Reg, BranchCond;
  }

  lemma OpImmAct(prog: Program, a: Arch)
    requires Fetch(prog, a.pc) % 0x80 == 0x13
    ensures
      var w := Fetch(prog, a.pc);
      Act(prog, a) ==
      Continue(U32(a.pc + 4),
               SetReg(RdOf(w), Arith(F3(w), F3(w) == 5 && w / 0x4000_0000 % 2 == 1, Src1(a, w), U32(I12(w)))))
  {
    var w := Fetch(prog, a.pc);
    ImmediatesAre(w);
    hide Fetch, Arith, ImmI, ImmS, ImmB, ImmJ, ImmU, Reg, BranchCond, I12;
  }

  lemma LoadAct(prog: Program, a: Arch)
    requires Fetch(prog, a.pc) % 0x80 == 0x03
    ensures
      var w := Fetch(prog, a.pc);
      var (addr, size) := (U32(Src1(a, w) + I12(w)), F3(w) % 4);
      Act(prog, a) ==
      if size == 0 || (size == 1 && addr % 2 == 0) || (size == 2 && addr % 4 == 0)
      then Continue(U32(a.pc + 4), Load(RdOf(w), addr, size, F3(w) >= 4)) else Raise(4, addr)
  {
    hide Fetch, Arith, ImmI, ImmS, ImmB, ImmJ, ImmU, Reg, BranchCond, I12, S12, B13, J21, U20, U32, Add, Wrap, AlignOk,
      Bit, ClearBit0, Taken;
    var w := Fetch(prog, a.pc);
    ImmediatesAre(w);
    SumsAre(Src1(a, w), I12(w), a.pc);
    AlignmentIs(U32(Src1(a, w) + I12(w)), F3(w) % 4);
    HighOfF3(F3(w));
  }

  lemma HighOfF3(f3: Word)
    requires f3 < 8
    ensures Bit(f3, 4) <==> f3 >= 4
  {
  }

  lemma StoreAct(prog: Program, a: Arch)
    requires Fetch(prog, a.pc) % 0x80 == 0x23
    ensures
      var w := Fetch(prog, a.pc);
      var (addr, size) := (U32(Src1(a, w) + S12(w)), F3(w) % 4);
      Act(prog, a) ==
      if size == 0 || (size == 1 && addr % 2 == 0) || (size == 2 && addr % 4 == 0)
      then Continue(U32(a.pc + 4), Store(addr, size, Src2(a, w))) else Raise(6, addr)
  {
    hide Fetch, Arith, ImmI, ImmS, ImmB, ImmJ, ImmU, Reg, BranchCond, I12, S12, B13, J21, U20, U32, Add, Wrap, AlignOk,
      Bit, ClearBit0, Taken;
    var w := Fetch(prog, a.pc);
    ImmediatesAre(w);
    SumsAre(Src1(a, w), S12(w), a.pc);
    AlignmentIs(U32(Src1(a, w) + S12(w)), F3(w) % 4);
  }

  /** A taken transfer: to an aligned target, else an exception that reports it. */
  function Transfer(target: Word, e: Effect): Action {
    if target % 4 == 0 then Continue(target, e) else Raise(0, target)
  }

  /** Which branches are taken; funct3 2 and 3 never. */
  predicate Taken(f3: Word, x: Word, y: Word) {
    var (sx, sy) := (Sxm(x, 0x8000_0000), Sxm(y, 0x8000_0000));
    if f3 == 0 then x == y else if f3 == 1 then x != y
    else if f3 == 4 then sx < sy else if f3 == 5 then sx >= sy
    else if f3 == 6 then x < y else if f3 == 7 then x >= y
    else false
  }

  lemma SxmIsSigned(x: Word)
    ensures Sxm(x, 0x8000_0000) == Signed(x)
  {
  }

  lemma TakenIs(f3: Word, x: Word, y: Word)
    ensures BranchCond(f3, x, y) == Taken(f3, x, y)
  {
    SxmIsSigned(x);
    SxmIsSigned(y);
    hide Sxm, Signed;
  }

  lemma BranchAct(prog: Program, a: Arch)
    requires Fetch(prog, a.pc) % 0x80 == 0x63
    ensures
      var w := Fetch(prog, a.pc);
      Act(prog, a) ==
      if Taken(F3(w), Src1(a, w), Src2(a, w)) then Transfer(U32(a.pc + B13(w)), NoEffect)
      else Continue(U32(a.pc + 4), NoEffect)
  {
    hide Fetch, Arith, ImmI, ImmS, ImmB, ImmJ, ImmU, Reg, BranchCond, I12, S12, B13, J21, U20, U32, Add, Wrap, AlignOk,
      Bit, ClearBit0, Taken;
    var w := Fetch(prog, a.pc);
    ImmediatesAre(w);
    SumsAre(a.pc, B13(w), a.pc);
    TakenIs(F3(w), Src1(a, w), Src2(a, w));
  }

  lemma JalAct(prog: Program, a: Arch)
    requires Fetch(prog, a.pc) % 0x80 == 0x6F
    ensures
      var w := Fetch(prog, a.pc);
      Act(prog, a) == Transfer(U32(a.pc + J21(w)), SetReg(RdOf(w), U32(a.pc + 4)))
  {
    hide Fetch, Arith, ImmI, ImmS, ImmB, ImmJ, ImmU, Reg, BranchCond, I12, S12, B13, J21, U20, U32, Add, Wrap, AlignOk,
      Bit, ClearBit0, Taken;
    var w := Fetch(prog, a.pc);
    ImmediatesAre(w);
    SumsAre(a.pc, J21(w), a.pc);
  }

  /** The target of JALR has its lowest bit cleared. */
  lemma JalrAct(prog: Program, a: Arch)
    requires Fetch(prog, a.pc) % 0x80 == 0x67
    ensures
      var w := Fetch(prog, a.pc);
      Act(prog, a) == Transfer(U32(Src1(a, w) + I12(w)) / 2 * 2, SetReg(RdOf(w), U32(a.pc + 4)))
  {
    hide Fetch, Arith, ImmI, ImmS, ImmB, ImmJ, ImmU, Reg, BranchCond, I12, S12, B13, J21, U20, U32, Add, Wrap, AlignOk,
      Bit, ClearBit0, Taken;
    var w := Fetch(prog, a.pc);
    ImmediatesAre(w);
    SumsAre(Src1(a, w), I12(w), a.pc);
    EvenDown(U32(Src1(a, w) + I12(w)));
  }

  lemma EvenDown(x: Word)
    ensures ClearBit0(x) == x / 2 * 2
  {
  }

  lemma U20IsWord(w: Word)
    ensures Wrap(U20(w)) == U20(w)
  {
  }

  lemma UpperAct(prog: Program, a: Arch)
    ensures
      var w := Fetch(prog, a.pc);
      && (w % 0x80 == 0x37 ==> Act(prog, a) == Continue(U32(a.pc + 4), SetReg(RdOf(w), U20(w))))
      && (w % 0x80 == 0x17 ==> Act(prog, a) == Continue(U32(a.pc + 4), SetReg(RdOf(w), U32(a.pc + U20(w)))))
  {
    hide Fetch, Arith, ImmI, ImmS, ImmB, ImmJ, ImmU, Reg, BranchCond, I12, S12, B13, J21, U20, U32, Add, Wrap, AlignOk,
      Bit, ClearBit0, Taken;
    var w := Fetch(prog, a.pc);
    ImmediatesAre(w);
    SumsAre(a.pc, U20(w), a.pc);
    U20IsWord(w);
  }

  /** ECALL, EBREAK, MRET and the CSR instructions. */
  lemma SystemAct(prog: Program, a: Arch)
    requires Fetch(prog, a.pc) % 0x80 == 0x73
    ensures
      var w := Fetch(prog, a.pc);
      var (f3, code) := (F3(w), w / 0x10_0000);
      Act(prog, a) ==
      if f3 == 0 then
        (if code == 0 then Raise(11, 0) else if code == 1 then Raise(3, 0) else if code == 0x302 then Return
         else Raise(2, w))
      else if f3 == 4 then Raise(2, w)
      else Continue(U32(a.pc + 4), CsrOp(RdOf(w), code, f3, if f3 >= 4 then w / 0x8000 % 32 else Src1(a, w)))
  {
    var w := Fetch(prog, a.pc);
    HighOfF3(F3(w));
    hide Fetch, Arith, ImmI, ImmS, ImmB, ImmJ, ImmU, Reg, BranchCond, Bit;
  }

  /** Everything else is illegal, FENCE included. */
  lemma OtherAct(prog: Program, a: Arch)
    requires Fetch(prog, a.pc) % 0x80 !in {0x33, 0x13, 0x03, 0x23, 0x63, 0x6F, 0x67, 0x37, 0x17, 0x73}
    ensures Act(prog, a) == Raise(2, Fetch(prog, a.pc))
  {
    hide Fetch, Arith, ImmI, ImmS, ImmB, ImmJ, ImmU, Reg, BranchCond;
  }

  // ---- Arithmetic by funct3 ----------------------------------------------------------------------------------

  /** What each funct3 of the arithmetic instructions computes; the logic operations are pinned down bit by bit
      in AluMeaning. */
  lemma ArithByFunct3(alt: bool, x: Word, y: Word)
    ensures Arith(0, false, x, y) == U32(x + y) && Arith(0, true, x, y) == U32(x - y)
    ensures Arith(1, alt, x, y) == U32(x * Pow2(y % 32))
    ensures Arith(2, alt, x, y) == (if Sxm(x, 0x8000_0000) < Sxm(y, 0x8000_0000) then 1 else 0)
    ensures Arith(3, alt, x, y) == (if x < y then 1 else 0)
    ensures Arith(4, alt, x, y) == Alu(XOR, x, y) && Arith(6, alt, x, y) == Alu(OR, x, y)
    ensures Arith(7, alt, x, y) == Alu(AND, x, y)
    ensures Arith(5, false, x, y) == U32(x / Pow2(y % 32))
    ensures Arith(5, true, x, y) == U32(Sxm(x, 0x8000_0000) / Pow2(y % 32))
  {
    SxmIsSigned(x);
    SxmIsSigned(y);
    hide Sxm, Signed, Pow2, Xor, Or, And;
  }
}
