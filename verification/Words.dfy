/** Shared vocabulary: 32-bit words, options, and the register/RAM/IMEM contents as finite maps. */
module Words {
  const W32: int := 0x1_0000_0000

  /** A 32-bit Verilog vector as the number it stands for. */
  type Word = x: int | 0 <= x < 0x1_0000_0000

  /** Truncation to 32 bits: what the adders, subtractors and shifters of the design do. */
  function Wrap(x: int): Word { x % W32 }

  function Add(a: Word, b: Word): Word { Wrap(a + b) }
  function Sub(a: Word, b: Word): Word { Wrap(a - b) }
  function Signed(a: Word): int { if a < 0x8000_0000 then a else a - W32 }

  function Pow2(n: nat): (p: int)
    ensures p >= 1
  {
    if n == 0 then 1 else 2 * Pow2(n - 1)
  }

  datatype LogicGate = AndGate | OrGate | XorGate

  function Through(g: LogicGate, x: bool, y: bool): bool {
    match g
    case AndGate => x && y
    case OrGate => x || y
    case XorGate => x != y
  }

  /** The low `n` bits of two numbers put through `n` gates side by side. */
  function Gates(g: LogicGate, a: nat, b: nat, n: nat): (r: nat)
    ensures r < Pow2(n)
  {
    if n == 0 then 0 else (if Through(g, a % 2 == 1, b % 2 == 1) then 1 else 0) + 2 * Gates(g, a / 2, b / 2, n - 1)
  }

  lemma Pow2Of32()
    ensures Pow2(32) == W32
  {
    assert Pow2(8) == 0x100;
    assert Pow2(16) == 0x1_0000 by { assert Pow2(12) == 0x1000; }
    assert Pow2(24) == 0x100_0000 by { assert Pow2(20) == 0x10_0000; }
    assert Pow2(28) == 0x1000_0000;
  }

  function BitwiseOf(g: LogicGate, a: Word, b: Word): Word {
    Pow2Of32();
    Gates(g, a, b, 32)
  }

  function And(a: Word, b: Word): Word { BitwiseOf(AndGate, a, b) }
  function Or(a: Word, b: Word): Word { BitwiseOf(OrGate, a, b) }
  function Xor(a: Word, b: Word): Word { BitwiseOf(XorGate, a, b) }
  function Not(a: Word): Word { W32 - 1 - a }

  /** The bit of weight `weight`, a power of two. */
  predicate Bit(w: Word, weight: int)
    requires weight > 0
  {
    w / weight % 2 == 1
  }

  /** `w` with its two low bits cleared. */
  function AlignDown(w: Word): Word { w - w % 4 }

  /** `w` with bit 0 cleared. */
  function ClearBit0(w: Word): Word { w - w % 2 }

  predicate Aligned(w: Word) { w % 4 == 0 }

  datatype Option<+T> = None | Some(value: T)

  /** Contents of the register file; registers never written read as 0 (power-up value). */
  type Regs = map<Word, Word>

  /** x0 always reads 0. */
  function Reg(regs: Regs, r: Word): Word {
    if r == 0 then 0 else if r in regs then regs[r] else 0
  }

  /** A word RAM, indexed by word number; words never written hold 0. */
  type Ram = map<Word, Word>

  function RamRead(ram: Ram, index: Word): Word {
    if index in ram then ram[index] else 0
  }

  /** The instruction memory image, indexed by word number; the rest is filled with NOPs. */
  type Program = map<Word, Word>

  const NOP_INSTR: Word := 0x13
  const RESET_PC: Word := 0

  /** What fetch port A returns for a byte address: 1024 words, NOP outside them. */
  function Fetch(prog: Program, addr: Word): Word {
    if addr < 0x1000 && addr / 4 in prog then prog[addr / 4] else NOP_INSTR
  }
}
