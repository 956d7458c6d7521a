/** Words as rows of bits: what the logic operations and shifts do to each bit. */
module Bitwise {
  import opened Arithmetic
  import opened Words

  /** Bit `i`. */
  predicate BitAt(x: int, i: nat) { x / Pow2(i) % 2 == 1 }

  lemma BitBelow(x: nat, i: nat)
    requires i > 0
    ensures BitAt(x, i) == BitAt(x / 2, i - 1)
  {
    DivDiv(x, 2, Pow2(i - 1));
  }

  lemma BitZero(x: nat)
    ensures BitAt(x, 0) <==> x % 2 == 1
  {
    assert Pow2(0) == 1;
  }

  /** Every output bit is its gate's value on the two input bits in the same place. */
  lemma {:induction false} GatesAt(g: LogicGate, a: nat, b: nat, n: nat, i: nat)
    requires i < n
    ensures BitAt(Gates(g, a, b, n), i) == Through(g, BitAt(a, i), BitAt(b, i))
    decreases n
  {
    var r := Gates(g, a, b, n);
    hide BitAt;
    assert r / 2 == Gates(g, a / 2, b / 2, n - 1);
    if i == 0 {
      BitZero(a);
      BitZero(b);
      BitZero(r);
    } else {
      BitBelow(a, i);
      BitBelow(b, i);
      BitBelow(r, i);
      GatesAt(g, a / 2, b / 2, n - 1, i - 1);
    }
  }

  lemma GateBits(g: LogicGate, a: Word, b: Word, i: nat)
    requires i < 32
    ensures BitAt(BitwiseOf(g, a, b), i) == Through(g, BitAt(a, i), BitAt(b, i))
  {
    GatesAt(g, a, b, 32, i);
  }

  /** `2^n - 1 - x` has every bit of `x` turned over. */
  lemma {:induction false} Complement(x: nat, n: nat, i: nat)
    requires i < n && x < Pow2(n)
    ensures BitAt(Pow2(n) - 1 - x, i) == !BitAt(x, i)
    decreases n
  {
    var c := Pow2(n) - 1 - x;
    assert c / 2 == Pow2(n - 1) - 1 - x / 2 && c % 2 == 1 - x % 2;
    hide BitAt;
    if i == 0 {
      BitZero(x);
      BitZero(c);
    } else {
      BitBelow(x, i);
      BitBelow(c, i);
      Complement(x / 2, n - 1, i - 1);
    }
  }

  lemma NotBits(a: Word, i: nat)
    requires i < 32
    ensures BitAt(Not(a), i) == !BitAt(a, i)
  {
    Pow2Of32();
    Complement(a, 32, i);
  }

  /** Two numbers below 2^n with the same bits are equal. */
  lemma {:induction false} SameBits(a: nat, b: nat, n: nat)
    requires a < Pow2(n) && b < Pow2(n) && forall i: nat | i < n :: BitAt(a, i) == BitAt(b, i)
    ensures a == b
  {
    hide BitAt;
    if n > 0 {
      forall i: nat | i < n - 1 ensures BitAt(a / 2, i) == BitAt(b / 2, i) {
        BitBelow(a, i + 1);
        BitBelow(b, i + 1);
      }
      SameBits(a / 2, b / 2, n - 1);
      BitZero(a);
      BitZero(b);
      assert BitAt(a, 0) == BitAt(b, 0);
    }
  }

  // ---- Shifts --------------------------------------------------------------------------------------

  lemma {:induction false} PowSum(a: nat, b: nat)
    ensures Pow2(a + b) == Pow2(a) * Pow2(b)
  {
    if a > 0 {
      PowSum(a - 1, b);
      assert 2 * (Pow2(a - 1) * Pow2(b)) == 2 * Pow2(a - 1) * Pow2(b);
    }
  }

  lemma {:induction false} PowGrows(a: nat, b: nat)
    requires a <= b
    ensures 1 <= Pow2(a) <= Pow2(b)
  {
    if a < b { PowGrows(a, b - 1); }
  }

  /** Dropping the low `n` bits moves every other bit down by `n`. */
  lemma BitOfQuotient(x: nat, n: nat, i: nat)
    ensures BitAt(x / Pow2(n), i) == BitAt(x, n + i)
  {
    PowSum(n, i);
    DivDiv(x, Pow2(n), Pow2(i));
  }

  lemma EvenModulus(y: nat, e: nat)
    requires e > 0
    ensures y % (2 * e) % 2 == y % 2
  {
    TwoDigits(y, 2, e);
    var h := y / 2 % e;
    assert (y % 2 + 2 * h) % 2 == y % 2;
  }

  lemma DigitOfRemainder(x: nat, p: nat, e: nat, m: nat)
    requires p > 0 && e > 0 && m == p * (2 * e) && m > 0
    ensures x % m / p % 2 == x / p % 2
  {
    RemainderDigit(x, p, 2 * e);
    EvenModulus(x / p, e);
  }

  /** Reducing modulo 2^n keeps the low `n` bits. */
  lemma BitOfRemainder(x: nat, n: nat, i: nat)
    requires i < n
    ensures BitAt(x % Pow2(n), i) == BitAt(x, i)
  {
    PowSum(i, n - i);
    assert Pow2(n - i) == 2 * Pow2(n - i - 1);
    hide Pow2;
    DigitOfRemainder(x, Pow2(i), Pow2(n - i - 1), Pow2(n));
  }

  /** A number in two pieces: the low `m` bits are those of one, the rest those of the other. */
  lemma BitOfPieces(h: nat, u: nat, m: nat, i: nat)
    requires u < Pow2(m)
    ensures h * Pow2(m) + u >= 0 && BitAt(h * Pow2(m) + u, i) == if i < m then BitAt(u, i) else BitAt(h, i - m)
  {
    DivModOf(h, u, Pow2(m));
    var x := h * Pow2(m) + u;
    hide BitAt;
    if i < m { BitOfRemainder(x, m, i); } else { BitOfQuotient(x, m, i - m); }
  }

  /** 2^n - 1 has `n` bits, all set. */
  lemma AllOnes(n: nat, i: nat)
    requires i < n
    ensures BitAt(Pow2(n) - 1, i)
  {
    Complement(0, n, i);
    DivModOf(0, 0, Pow2(i));
  }
}
