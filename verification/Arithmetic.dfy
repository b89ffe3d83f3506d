/** Facts about division the components share: a quotient and a remainder in range are the only ones. */
module Arithmetic {

  lemma AtLeastOnce(x: int, m: int)
    requires x >= 1 && m > 0
    ensures x * m >= m
  {
    assert (x - 1) * m >= 0;
  }

  lemma OneQuotient(a: int, r: int, d: int, e: int, m: int)
    requires 0 <= r < m && 0 <= e < m && a * m + r == d * m + e
    ensures a == d && r == e
  {
    if a > d {
      AtLeastOnce(a - d, m);
    } else if d > a {
      AtLeastOnce(d - a, m);
    }
  }

  lemma Remainder(x: int, a: int, m: int, r: int)
    requires m > 0 && 0 <= r < m && x == a * m + r
    ensures x % m == r
  {
    OneQuotient(x / m, x % m, a, r, m);
  }

  lemma Multiples(x: int, k: int, m: int)
    requires m > 0
    ensures (x + k * m) % m == x % m
  {
    Remainder(x + k * m, x / m + k, m, x % m);
  }

  lemma RemainderOfTwo(t: int, r: int, a: int, b: int)
    requires 0 <= t < b && 0 <= r < a
    ensures 0 <= t * a + r < a * b
  {
    var u := b - t;
    AtLeastOnce(u, a);
    assert (t + u) * a == t * a + u * a;
  }

  lemma TwoQuotients(s: int, t: int, r: int, a: int, b: int)
    ensures (s * b + t) * a + r == s * (a * b) + (t * a + r)
  {
    assert s * b * a == s * (a * b);
  }

  lemma QuotientAndRemainder(v: int, m: int)
    requires m > 0
    ensures v == v / m * m + v % m && 0 <= v % m < m
  {
  }

  lemma Divided(v: nat, a: nat, b: nat)
    requires a > 0 && b > 0
    ensures v / a / b == v / (a * b)
  {
    var q := v / a;
    QuotientAndRemainder(v, a);
    QuotientAndRemainder(q, b);
    TwoQuotients(q / b, q % b, v % a, a, b);
    RemainderOfTwo(q % b, v % a, a, b);
    QuotientAndRemainder(v, a * b);
    OneQuotient(q / b, q % b * a + v % a, v / (a * b), v % (a * b), a * b);
  }
}
