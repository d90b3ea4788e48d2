/** Products, quotients and remainders. */
module Arithmetic {

  /** A smaller factor leaves room for one more. */
  lemma LessScaled(a: int, b: int, d: nat)
    requires a < b
    ensures a * d + d <= b * d
  {
    var k: nat := b - a - 1;
    assert k * d >= 0;
    assert b * d == (a + 1 + k) * d == a * d + d + k * d;
  }

  lemma Scaled(a: int, b: int, d: nat)
    requires a <= b
    ensures a * d <= b * d
  {
    if a < b { LessScaled(a, b, d); }
  }

  lemma QuotientIs(x: int, d: nat, q: int)
    requires d >= 1 && q * d <= x < q * d + d
    ensures x / d == q && x % d == x - q * d
  {
    assert x == x / d * d + x % d;
    if x / d < q {
      LessScaled(x / d, q, d);
    } else if x / d > q {
      LessScaled(q, x / d, d);
    }
  }

  lemma DivMonotone(x: nat, y: nat, d: nat)
    requires d >= 1 && x <= y
    ensures x / d <= y / d
  {
    var a, b := x / d, y / d;
    assert a * d <= x && y < b * d + d;
    assert a > b ==> b * d + d <= a * d by { if a > b { LessScaled(b, a, d); } }
  }

  /** Distinct numbers less than n apart have different remainders. */
  lemma RemaindersDiffer(a: nat, b: nat, n: nat)
    requires a < b < a + n
    ensures a % n != b % n
  {
    var q, r := a / n, b / n;
    assert a == q * n + a % n && b == r * n + b % n;
    if q < r { LessScaled(q, r, n); }
    if r < q { LessScaled(r, q, n); }
  }
}
