/** Multiplication and division facts. */
module Arithmetic {
  lemma MonotoneProduct(a: int, c: int, b: int)
    requires a <= c
    ensures b >= 0 ==> a * b <= c * b
    ensures b <= 0 ==> a * b >= c * b
  {
    var d := c - a;
    assert c * b == a * b + d * b;
  }

  /** A multiple of `d` smaller than `d` in magnitude is zero. */
  lemma Multiples(n: int, d: int, x: int)
    requires n * d == x && -d < x < d
    ensures n == 0 && x == 0
  {
    if n >= 1 { MonotoneProduct(1, n, d); }
    if n <= -1 { MonotoneProduct(n, -1, d); }
  }

  lemma DivModOf(q: nat, r: nat, d: nat)
    requires d > 0 && r < d
    ensures (q * d + r) / d == q && (q * d + r) % d == r
  {
    var x := q * d + r;
    Multiples(q - x / d, d, x % d - r);
  }

  lemma ModOf(q: int, r: nat, d: nat)
    requires d > 0 && r < d
    ensures (q * d + r) % d == r
  {
    var x := q * d + r;
    Multiples(q - x / d, d, x % d - r);
  }

  lemma Regroup(u: int, v: int, r: int, a: int, b: int)
    ensures (u * b + v) * a + r == u * (a * b) + (v * a + r)
  {
    assert (u * b + v) * a == u * b * a + v * a;
    assert u * b * a == u * (a * b);
  }

  lemma DigitBound(v: nat, r: nat, a: nat, b: nat)
    requires v < b && r < a
    ensures 0 <= v * a + r < a * b && a * b > 0
  {
    MonotoneProduct(v, b - 1, a);
    MonotoneProduct(0, v, a);
    assert (b - 1) * a == a * b - a;
  }

  lemma NestedDiv(u: nat, v: nat, r: nat, a: nat, b: nat)
    requires v < b && r < a
    ensures a * b > 0 && ((u * b + v) * a + r) / (a * b) == u
  {
    DigitBound(v, r, a, b);
    Regroup(u, v, r, a, b);
    DivModOf(u, v * a + r, a * b);
  }

  lemma DivModIs(x: nat, d: nat)
    requires d > 0
    ensures x == x / d * d + x % d && x % d < d
  {
  }

  lemma DivDiv(x: nat, a: nat, b: nat)
    requires a > 0 && b > 0
    ensures a * b > 0 && x / (a * b) == x / a / b
  {
    DivModIs(x, a);
    DivModIs(x / a, b);
    NestedDiv(x / a / b, x / a % b, x % a, a, b);
  }

  /** The two digits of `x` in base `a`, then `b`. */
  lemma TwoDigits(x: nat, a: nat, b: nat)
    requires a > 0 && b > 0
    ensures a * b > 0 && x % (a * b) == x % a + a * (x / a % b)
  {
    DivModIs(x, a);
    DivModIs(x / a, b);
    var (u, v, r) := (x / a / b, x / a % b, x % a);
    DigitBound(v, r, a, b);
    Regroup(u, v, r, a, b);
    DivModOf(u, v * a + r, a * b);
  }

  /** The upper digit of a remainder. */
  lemma RemainderDigit(x: nat, p: nat, e: nat)
    requires p > 0 && e > 0
    ensures p * e > 0 && x % (p * e) / p == x / p % e
  {
    TwoDigits(x, p, e);
    var h := x / p % e;
    assert x % p + p * h == h * p + x % p;
    DivModOf(h, x % p, p);
  }

  lemma SmallMod(x: nat, d: nat)
    requires x < d
    ensures x % d == x
  {
  }
}
