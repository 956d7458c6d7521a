/** What the ALU computes, bit by bit and in numbers, and which instruction asks for it. */
module AluMeaning {
  import opened Arithmetic
  import opened Words
  import opened Bitwise
  import opened Datapath

  /** Every bit of AND, OR and XOR is the function of the two bits in its place. */
  lemma LogicIsBitwise(a: Word, b: Word, i: nat)
    requires i < 32
    ensures BitAt(Alu(AND, a, b), i) == (BitAt(a, i) && BitAt(b, i))
    ensures BitAt(Alu(OR, a, b), i) == (BitAt(a, i) || BitAt(b, i))
    ensures BitAt(Alu(XOR, a, b), i) == (BitAt(a, i) != BitAt(b, i))
  {
    GateBits(AndGate, a, b, i);
    GateBits(OrGate, a, b, i);
    GateBits(XorGate, a, b, i);
    hide BitAt, BitwiseOf;
  }

  /** Exclusive or with the same word twice gives the first operand back. */
  lemma XorTwice(a: Word, b: Word)
    ensures Alu(XOR, Alu(XOR, a, b), b) == a
  {
    var r := Alu(XOR, Alu(XOR, a, b), b);
    Pow2Of32();
    forall i: nat | i < 32 ensures BitAt(r, i) == BitAt(a, i) {
      LogicIsBitwise(a, b, i);
      LogicIsBitwise(Alu(XOR, a, b), b, i);
    }
    SameBits(r, a, 32);
  }

  /** A left shift moves every bit up by the low five bits of the second operand, filling with zeros. */
  lemma LeftShiftMovesBits(a: Word, b: Word, i: nat)
    requires i < 32
    ensures BitAt(Alu(SLL, a, b), i) == (i >= b % 32 && BitAt(a, i - b % 32))
  {
    Pow2Of32();
    var n := b % 32;
    BitOfRemainder(a * Pow2(n), 32, i);
    BitOfPieces(a, 0, n, i);
    DivModOf(0, 0, Pow2(i));
    hide Pow2;
  }

  /** A logical right shift moves every bit down, filling with zeros. */
  lemma RightShiftMovesBits(a: Word, b: Word, i: nat)
    requires i < 32
    ensures BitAt(Alu(SRL, a, b), i) == (b % 32 + i < 32 && BitAt(a, b % 32 + i))
  {
    var n := b % 32;
    BitOfQuotient(a, n, i);
    ShiftedPart(a, n);
    SmallMod(a / Pow2(n), W32);
    if n + i >= 32 { HighBit(a, n + i); }
    hide BitAt, Pow2;
  }

  lemma QuotientBelow(x: nat, d: nat, e: nat)
    requires d > 0 && x < d * e
    ensures 0 <= x / d < e
  {
    DivModIs(x, d);
    if x / d >= e { MonotoneProduct(e, x / d, d); }
  }

  /** The quotient by 2^n of a word has 32 - n bits. */
  lemma ShiftedPart(a: Word, n: nat)
    requires n < 32
    ensures 0 <= a / Pow2(n) < Pow2(32 - n) <= W32 && Pow2(n) * Pow2(32 - n) == W32
  {
    Pow2Of32();
    PowSum(n, 32 - n);
    PowGrows(32 - n, 32);
    hide Pow2;
    QuotientBelow(a, Pow2(n), Pow2(32 - n));
  }

  lemma HighBit(a: Word, k: nat)
    requires k >= 32
    ensures !BitAt(a, k)
  {
    Pow2Of32();
    PowGrows(32, k);
    SmallQuotient(a, Pow2(k));
  }

  lemma SmallQuotient(x: nat, d: nat)
    requires x < d
    ensures x / d == 0
  {
  }

  /** Subtracting a multiple of the divisor subtracts from the quotient. */
  lemma QuotientLess(a: nat, d: nat, e: int)
    requires d > 0
    ensures (a - d * e) / d == a / d - e
  {
    var (q, r, x) := (a / d, a % d, a - d * e);
    assert a == q * d + r;
    assert (q - e) * d == q * d - d * e;
    Multiples(q - e - x / d, d, x % d - r);
  }

  lemma OneLess(d: int, e: int)
    ensures (d - 1) * e == d * e - e
  {
  }

  /** The arithmetic right shift of a negative word: its upper bits, with ones above them. */
  lemma NegativeShift(a: Word, n: nat)
    requires n < 32 && a >= 0x8000_0000
    ensures ShiftRightArith(a, n) == (Pow2(n) - 1) * Pow2(32 - n) + a / Pow2(n)
  {
    ShiftedPart(a, n);
    hide Pow2;
    var (d, e) := (Pow2(n), Pow2(32 - n));
    QuotientLess(a, d, e);
    OneLess(d, e);
    WrapNegative(a / d - e);
  }

  lemma WrapNegative(x: int)
    requires -W32 <= x < 0
    ensures Wrap(x) == x + W32
  {
  }

  /** An arithmetic right shift moves every bit down, filling with the sign. */
  lemma ArithmeticShiftMovesBits(a: Word, b: Word, i: nat)
    requires i < 32
    ensures BitAt(Alu(SRA, a, b), i) == if b % 32 + i < 32 then BitAt(a, b % 32 + i) else a >= 0x8000_0000
  {
    var n := b % 32;
    BitOfQuotient(a, n, i);
    ShiftedPart(a, n);
    SmallMod(a / Pow2(n), W32);
    if a >= 0x8000_0000 {
      NegativeShift(a, n);
      BitOfPieces(Pow2(n) - 1, a / Pow2(n), 32 - n, i);
      if n + i >= 32 { AllOnes(n, i - (32 - n)); }
    } else if n + i >= 32 {
      HighBit(a, n + i);
    }
    hide BitAt, Pow2;
  }
}
