/** The benchmark's software arithmetic for a core without multiply or divide, and its number printer. */
module BenchMath {
  import opened Words
  import opened Arithmetic

  // ---- Shift-and-add multiplication -----------------------------------------------------------------

  lemma WrapShift(x: int, k: int)
    ensures Wrap(x + k * W32) == Wrap(x)
  {
    var q := x / W32;
    assert x + k * W32 == (q + k) * W32 + Wrap(x);
  }

  lemma WrapSum(x: int, y: int)
    ensures Wrap(Wrap(x) + y) == Wrap(x + y)
  {
    WrapShift(Wrap(x) + y, x / W32);
  }

  lemma WrapProduct(x: int, y: int)
    ensures Wrap(Wrap(x) * y) == Wrap(x * y)
  {
    var q := x / W32;
    assert x * y == Wrap(x) * y + (q * y) * W32;
    WrapShift(Wrap(x) * y, q * y);
  }

  /** One round keeps the sum of what is collected and what is left. */
  lemma MulRound(r: Word, a: Word, b: Word)
    ensures
      var n := if b % 2 == 1 then Wrap(r + a) else r;
      Wrap(n + Wrap(2 * a) * (b / 2)) == Wrap(r + a * b)
  {
    var h := b / 2;
    var n := if b % 2 == 1 then Wrap(r + a) else r;
    Halves(a, b);
    hide Wrap;
    WrapProduct(2 * a, h);
    WrapSum(Wrap(2 * a) * h, n);
    WrapSum(2 * a * h, n);
    WrapSum(r + a, 2 * a * h);
  }

  lemma Halves(a: int, b: nat)
    ensures b % 2 == 1 ==> a * b == 2 * a * (b / 2) + a
    ensures b % 2 == 0 ==> a * b == 2 * a * (b / 2)
  {
    var h := b / 2;
    assert b % 2 == 1 ==> a * (2 * h + 1) == 2 * a * h + a;
    assert a * (2 * h) == 2 * a * h;
  }

  /** `__mulsi3`: the low 32 bits of the product, for all operands. */
  method MulSi3(a: Word, b: Word) returns (r: Word)
    ensures r == Wrap(a * b)
  {
    var x: Word, y: Word := a, b;
    r := 0;
    assert 0 + a * b == a * b;
    while y != 0
      invariant Wrap(r + x * y) == Wrap(a * b)
      decreases y
    {
      MulRound(r, x, y);
      if y % 2 == 1 { r := Wrap(r + x); }
      hide Wrap;
      x, y := Wrap(2 * x), y / 2;
    }
  }

  // ---- Restoring division ------------------------------------------------------------------------------

  /** A word with the bit of weight `weight` set: what OR with a power of two does. */
  function SetBit(w: Word, weight: int): Word
    requires weight > 0 && w + weight < W32
  {
    if Bit(w, weight) then w else w + weight
  }

  lemma {:induction false} Pow2Sum(i: nat, k: nat)
    ensures Pow2(i + k) == Pow2(i) * Pow2(k)
    decreases i
  {
    if i > 0 { Pow2Sum(i - 1, k); }
  }

  lemma Pow2Of32()
    ensures Pow2(32) == W32
  {
    assert Pow2(8) == 256 by { assert Pow2(4) == 16; }
    Pow2Sum(8, 8);
    Pow2Sum(16, 16);
  }

  /** Bringing down the next bit. */
  lemma NextBit(n: nat, p: int)
    requires p > 0
    ensures n / p == 2 * (n / (2 * p)) + n / p % 2
  {
    DivDiv(n, p, 2);
  }

  /** One round of restoring division with `i` bits still to come down: the shift loses nothing, even for
      divisors above 2^31, and the next quotient bit is free. */
  lemma DivRound(n: Word, d: Word, i: nat, h: nat, r: Word)
    requires d > 0 && r < d && h * d + r == n / Pow2(i + 1)
    ensures
      var s := 2 * r + n / Pow2(i) % 2;
      && s < W32 && Wrap(2 * r) == 2 * r
      && (2 * h) * d + s == n / Pow2(i)
      && (s >= d ==> (2 * h + 1) * d + (s - d) == n / Pow2(i) && s - d < d)
  {
    var p := Pow2(i);
    NextBit(n, p);
    MonotoneProduct(0, h, d);
    assert (2 * h) * d == 2 * (h * d) && (2 * h + 1) * d == 2 * (h * d) + d;
    QuotientBound(n, p);
  }

  lemma QuotientBound(n: nat, p: int)
    requires p >= 1
    ensures 0 <= n / p && n / p * p <= n && n / p <= n
  {
    MonotoneProduct(1, p, n / p);
  }

  lemma FactorBelow(x: nat, d: nat, m: int)
    requires d >= 1 && x * d <= m
    ensures x <= m
  {
    MonotoneProduct(1, d, x);
  }

  lemma EvenMultiple(h: nat, p: int)
    requires p >= 1
    ensures 0 <= h * (2 * p) && h * (2 * p) + p == (2 * h + 1) * p && h * (2 * p) / p == 2 * h
  {
    MonotoneProduct(0, h, 2 * p);
    assert h * (2 * p) == (2 * h) * p + 0 && (2 * h + 1) * p == (2 * h) * p + p;
    DivModOf(2 * h, 0, p);
  }

  /** Setting the next quotient bit adds its weight. */
  lemma QuotientBit(n: Word, d: Word, i: nat, h: nat)
    requires d > 0 && (2 * h + 1) * d <= n / Pow2(i)
    ensures 0 <= h * Pow2(i + 1) && h * Pow2(i + 1) + Pow2(i) == (2 * h + 1) * Pow2(i) < W32
    ensures !Bit(h * Pow2(i + 1), Pow2(i))
  {
    var p := Pow2(i);
    assert Pow2(i + 1) == 2 * p;
    hide Pow2;
    QuotientBound(n, p);
    FactorBelow(2 * h + 1, d, n / p);
    MonotoneProduct(2 * h + 1, n / p, p);
    EvenMultiple(h, p);
  }

  /** Before the first round nothing has come down; after the last, everything has. */
  lemma FirstAndLast(n: Word)
    ensures n / Pow2(32) == 0 && Pow2(0) == 1 && n / Pow2(0) == n
  {
    Pow2Of32();
  }

  lemma SameQuotient(h: nat, i: nat)
    ensures h * Pow2(i + 1) == (2 * h) * Pow2(i)
  {
    assert Pow2(i + 1) == 2 * Pow2(i);
    hide Pow2;
    assert h * (2 * Pow2(i)) == (2 * h) * Pow2(i);
  }

  /** `__udivsi3`: the quotient, for every divisor but zero; all ones for zero. */
  method UDivSi3(n: Word, d: Word) returns (q: Word)
    ensures d == 0 ==> q == 0xFFFF_FFFF
    ensures d != 0 ==> q == n / d
  {
    if d == 0 { return 0xFFFF_FFFF; }
    hide Pow2, Wrap, Bit;
    FirstAndLast(n);
    q := 0;
    var r: Word := 0;
    var i := 32;
    ghost var h: nat := 0;
    while i > 0
      invariant 0 <= i <= 32 && q == h * Pow2(i) && r < d && h * d + r == n / Pow2(i)
    {
      i := i - 1;
      DivRound(n, d, i, h, r);
      var s: Word := Wrap(2 * r) + n / Pow2(i) % 2;
      if s >= d {
        QuotientBit(n, d, i, h);
        r, q, h := s - d, SetBit(q, Pow2(i)), 2 * h + 1;
      } else {
        SameQuotient(h, i);
        r, h := s, 2 * h;
      }
    }
    DivModOf(h, r, d);
  }

  /** `__umodsi3`: the remainder, for every divisor but zero; the dividend itself for zero. */
  method UModSi3(n: Word, d: Word) returns (r: Word)
    ensures d == 0 ==> r == n
    ensures d != 0 ==> r == n % d
  {
    if d == 0 { return n; }
    hide Pow2, Wrap;
    FirstAndLast(n);
    r := 0;
    var i := 32;
    ghost var h: nat := 0;
    while i > 0
      invariant 0 <= i <= 32 && r < d && h * d + r == n / Pow2(i)
    {
      i := i - 1;
      DivRound(n, d, i, h, r);
      r := Wrap(2 * r) + n / Pow2(i) % 2;
      if r >= d {
        r, h := r - d, 2 * h + 1;
      } else {
        h := 2 * h;
      }
    }
    DivModOf(h, r, d);
  }

  // ---- Printing a number ---------------------------------------------------------------------------------

  function Digit(v: nat): char
    requires v < 10
  {
    '0' + v as char
  }

  /** The number a string of digits stands for. */
  function NumberOf(s: string): int {
    if s == [] then 0 else 10 * NumberOf(s[..|s| - 1]) + (s[|s| - 1] as int - '0' as int)
  }

  predicate AllDigits(s: string) { forall i | 0 <= i < |s| :: '0' <= s[i] <= '9' }

  function Ten(n: nat): (p: int)
    ensures p >= 1
  {
    if n == 0 then 1 else 10 * Ten(n - 1)
  }

  /** The number digits stand for when the first is the least significant. */
  function LittleEndian(s: string): int {
    if s == [] then 0 else LittleEndian(s[..|s| - 1]) + (s[|s| - 1] as int - '0' as int) * Ten(|s| - 1)
  }

  lemma LittleEndianNext(s: string, c: char)
    ensures LittleEndian(s + [c]) == LittleEndian(s) + (c as int - '0' as int) * Ten(|s|)
    ensures NumberOf(s + [c]) == 10 * NumberOf(s) + (c as int - '0' as int)
  {
    assert (s + [c])[..|s|] == s;
  }

  /** A 32-bit number has at most ten digits. */
  lemma TenDigits(w: nat, n: nat, rest: int)
    requires w >= 1 && rest >= 0 && w * Ten(n) + rest < W32
    ensures n <= 9
  {
    MonotoneProduct(1, w, Ten(n));
    if n > 9 { TenGrows(n); }
  }

  lemma {:induction false} TenGrows(n: nat)
    requires n >= 10
    ensures Ten(n) > W32
  {
    if n > 10 {
      TenGrows(n - 1);
    } else {
      assert Ten(5) == 100000 by { assert Ten(3) == 1000; }
      assert Ten(10) == Ten(5) * 100000 by { assert Ten(8) == 1000 * Ten(5); }
    }
  }

  lemma OneDigit(w: nat, n: nat)
    ensures w * Ten(n) == (w / 10) * Ten(n + 1) + (w % 10) * Ten(n)
  {
    var q := w / 10;
    assert w == 10 * q + w % 10;
    assert q * Ten(n + 1) == (10 * q) * Ten(n);
  }

  /** Collecting one more digit keeps the number. */
  lemma DigitCollected(done: string, w: nat)
    requires AllDigits(done) && 0 <= LittleEndian(done)
    ensures
      var c := Digit(w % 10);
      && AllDigits(done + [c]) && 0 <= LittleEndian(done + [c])
      && (w / 10) * Ten(|done| + 1) + LittleEndian(done + [c]) == w * Ten(|done|) + LittleEndian(done)
  {
    hide Ten, LittleEndian, NumberOf;
    OneDigit(w, |done|);
    LittleEndianNext(done, Digit(w % 10));
    MonotoneProduct(0, w % 10, Ten(|done|));
  }

  /** Collecting the digits of `v`, least significant first, in a 12-character buffer: it never overflows. */
  method CollectDigits(v: Word, b: array<char>) returns (n: nat)
    requires b.Length == 12
    modifies b
    ensures 1 <= n <= 10 && AllDigits(b[..n]) && LittleEndian(b[..n]) == v && (n > 1 ==> b[n - 1] != '0')
  {
    n := 0;
    var w: nat := v;
    var more := true;
    assert w * Ten(0) == w && LittleEndian(b[..0]) == 0;
    hide Ten, LittleEndian, NumberOf;
    while more
      invariant 0 <= n <= 10 && AllDigits(b[..n]) && 0 <= LittleEndian(b[..n])
      invariant w * Ten(n) + LittleEndian(b[..n]) == v
      invariant more <==> w != 0 || n == 0
      invariant !more && n > 1 ==> b[n - 1] != '0'
      decreases w, more
    {
      if w != 0 { TenDigits(w, n, LittleEndian(b[..n])); }
      ghost var before := b[..n];
      DigitCollected(before, w);
      b[n] := Digit(w % 10);
      assert b[..n + 1] == before + [Digit(w % 10)];
      n, w := n + 1, w / 10;
      more := w != 0;
    }
    NothingLeft(n);
  }

  lemma NothingLeft(n: nat)
    ensures 0 * Ten(n) == 0
  {
  }

  /** Moving a digit from the buffer to the line keeps the number. */
  lemma MoveDigit(sent: string, rest: string, c: char)
    ensures NumberOf(sent) * Ten(|rest| + 1) + LittleEndian(rest + [c]) ==
            NumberOf(sent + [c]) * Ten(|rest|) + LittleEndian(rest)
  {
    assert Ten(|rest| + 1) == 10 * Ten(|rest|);
    hide Ten, LittleEndian, NumberOf;
    LittleEndianNext(rest, c);
    LittleEndianNext(sent, c);
    AppendDigit(NumberOf(sent), Ten(|rest|), c as int - '0' as int);
  }

  lemma AppendDigit(x: int, t: int, g: int)
    ensures x * (10 * t) + g * t == (10 * x + g) * t
  {
  }

  /** Sending `n` collected digits, last one first. */
  method SendReversed(b: array<char>, n: nat) returns (out: string)
    requires n <= b.Length && AllDigits(b[..n])
    ensures |out| == n && AllDigits(out) && NumberOf(out) == LittleEndian(b[..n])
    ensures n > 0 ==> out[0] == b[n - 1]
  {
    hide Ten, LittleEndian, NumberOf;
    var k := n;
    out := [];
    NothingSent(n);
    while k > 0
      invariant 0 <= k <= n && |out| == n - k && AllDigits(out) && (k < n ==> out[0] == b[n - 1])
      invariant NumberOf(out) * Ten(k) + LittleEndian(b[..k]) == LittleEndian(b[..n])
    {
      k := k - 1;
      MoveDigit(out, b[..k], b[k]);
      assert b[..k + 1] == b[..k] + [b[k]];
      assert b[..n][k] == b[k];
      out := out + [b[k]];
    }
    AllSent(out, b[..0]);
  }

  lemma NothingSent(n: nat)
    ensures NumberOf([]) * Ten(n) == 0
  {
  }

  lemma AllSent(out: string, rest: string)
    requires rest == []
    ensures NumberOf(out) * Ten(0) + LittleEndian(rest) == NumberOf(out)
  {
  }

  /** `uputu`: what is sent is the decimal notation of `v`: digits only, no leading zero, and it reads back
      as `v`. */
  method UPutU(v: Word) returns (out: string)
    ensures out != [] && AllDigits(out) && NumberOf(out) == v
    ensures |out| > 1 ==> out[0] != '0'
  {
    var b := new char[12];
    var n := CollectDigits(v, b);
    out := SendReversed(b, n);
  }
}
