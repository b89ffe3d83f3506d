/** The table of primes the constants of SHA-256 are drawn from holds the first 64 primes, in order and without gaps. */
module Primes {
  import opened Arithmetic
  import opened Sha256

  predicate Divides(d: nat, n: nat)
    requires d > 0
  {
    n % d == 0
  }

  predicate IsPrime(n: nat) {
    n >= 2 && forall d :: 2 <= d < n ==> !Divides(d, n)
  }

  // ---- a sieve for numbers below 324 ----

  /** No prime up to 17 divides `n`, but it itself may. */
  predicate Sifted(n: nat) {
    && (n > 2 ==> n % 2 != 0) && (n > 3 ==> n % 3 != 0) && (n > 5 ==> n % 5 != 0) && (n > 7 ==> n % 7 != 0)
    && (n > 11 ==> n % 11 != 0) && (n > 13 ==> n % 13 != 0) && (n > 17 ==> n % 17 != 0)
  }

  /** A number with a divisor has one no larger than its root. */
  lemma SmallDivisor(n: nat, d: nat) returns (s: nat)
    requires 2 <= d < n < 324 && Divides(d, n)
    ensures 2 <= s <= 17 && s < n && Divides(s, n)
  {
    if d <= 17 {
      return d;
    }
    s := n / d;
    assert n == s * d;
    assert s >= 2 by {
      assert s == 0 ==> n == 0;
      assert s == 1 ==> n == d;
    }
    assert s <= 17 by {
      AtMost(s, d);
    }
    Remainder(n, d, s, 0);
  }

  lemma AtMost(s: nat, d: nat)
    requires d >= 18 && s * d < 324
    ensures s <= 17
  {
    var r := s - 18;
    assert r * d == s * d - 18 * d < 0;
    assert r >= 0 ==> r * d >= 0;
  }

  lemma SmallFactor(n: nat, s: nat)
    requires 2 <= s <= 17 && s < n && Divides(s, n)
    ensures !Sifted(n)
  {
    var m := n / s;
    assert n == s * m;
    match s {
      case 2 => case 3 => case 5 => case 7 => case 11 => case 13 => case 17 =>
      case 9 => Remainder(n, 3 * m, 3, 0);
      case 15 => Remainder(n, 5 * m, 3, 0);
      case _ => Remainder(n, (s / 2) * m, 2, 0);
    }
  }

  lemma SiftedIsPrime(n: nat)
    requires 2 <= n < 324
    ensures Sifted(n) <==> IsPrime(n)
  {
    if !Sifted(n) {
      var q := if n > 2 && n % 2 == 0 then 2 else if n > 3 && n % 3 == 0 then 3 else if n > 5 && n % 5 == 0 then 5
               else if n > 7 && n % 7 == 0 then 7 else if n > 11 && n % 11 == 0 then 11
               else if n > 13 && n % 13 == 0 then 13 else 17;
      assert Divides(q, n);
    } else if d :| 2 <= d < n && Divides(d, n) {
      var s := SmallDivisor(n, d);
      SmallFactor(n, s);
    }
  }

  /** Two primes with none between: `p` is odd, or next to `q`, so only odd numbers are left to sift. */
  predicate Adjacent(p: nat, q: nat) {
    && 2 <= p < q <= p + 14 && Sifted(p) && Sifted(q) && (p % 2 == 1 || q == p + 1)
    && (p + 2 < q ==> !Sifted(p + 2)) && (p + 4 < q ==> !Sifted(p + 4)) && (p + 6 < q ==> !Sifted(p + 6))
    && (p + 8 < q ==> !Sifted(p + 8)) && (p + 10 < q ==> !Sifted(p + 10)) && (p + 12 < q ==> !Sifted(p + 12))
  }

  lemma NoneBetween(p: nat, q: nat, n: nat)
    requires Adjacent(p, q) && p < n < q
    ensures !Sifted(n)
  {
    var (k, a) := ((n - p) / 2, (n - p) % 2);
    assert n == p + 2 * k + a;
    if a == 1 {
      Remainder(n, p / 2 + k + 1, 2, 0);
    } else {
      assert 1 <= k <= 6;
    }
  }

  // ---- a run of adjacent primes ----

  predicate Run(ps: seq<nat>) {
    |ps| > 0 && ps[0] == 2 && forall t :: 0 < t < |ps| ==> Adjacent(ps[t - 1], ps[t])
  }

  lemma {:induction false} RunAscends(ps: seq<nat>, t: nat, u: nat)
    requires Run(ps) && t < u < |ps|
    ensures ps[t] < ps[u]
    decreases u
  {
    assert Adjacent(ps[u - 1], ps[u]);
    if t < u - 1 {
      RunAscends(ps, t, u - 1);
    }
  }

  /** The last of the run that is not after `n`. */
  lemma {:induction false} PlaceOf(ps: seq<nat>, n: nat, t: nat) returns (u: nat)
    requires Run(ps) && t < |ps| && 2 <= n <= ps[t]
    ensures u <= t && ps[u] <= n && (u < t ==> n < ps[u + 1])
    decreases t
  {
    if t == 0 || ps[t] == n {
      u := t;
    } else if n <= ps[t - 1] {
      u := PlaceOf(ps, n, t - 1);
    } else {
      u := t - 1;
    }
  }

  lemma RunIsSifted(ps: seq<nat>, t: nat)
    requires Run(ps) && t < |ps|
    ensures Sifted(ps[t]) && ps[t] >= 2
  {
    if t > 0 {
      assert Adjacent(ps[t - 1], ps[t]);
    }
  }

  /** Up to its last number, a run of adjacent primes from 2 holds just the primes. */
  lemma RunHoldsThePrimes(ps: seq<nat>, n: nat)
    requires Run(ps) && n <= ps[|ps| - 1] < 324
    ensures IsPrime(n) <==> n in ps
  {
    if n >= 2 {
      SiftedIsPrime(n);
      var u := PlaceOf(ps, n, |ps| - 1);
      if ps[u] < n {
        assert Adjacent(ps[u], ps[u + 1]);
        NoneBetween(ps[u], ps[u + 1], n);
      }
    }
    if n in ps {
      var t :| 0 <= t < |ps| && ps[t] == n;
      RunIsSifted(ps, t);
    }
  }

  // ---- the table ----

  predicate AdjacentAt(i: nat, j: nat) {
    && i < |PRIMES| && j < |PRIMES[i]|
    && if j < 7 then j + 1 < |PRIMES[i]| && Adjacent(PRIMES[i][j], PRIMES[i][j + 1])
       else i < 7 ==> i + 1 < |PRIMES| && 0 < |PRIMES[i + 1]| && Adjacent(PRIMES[i][j], PRIMES[i + 1][0])
  }

  predicate RowFrom(i: nat, j: nat)
    decreases 8 - j
  {
    j >= 8 || (AdjacentAt(i, j) && RowFrom(i, j + 1))
  }

  lemma Rows01(i: nat)
    requires 0 <= i < 2
    ensures RowFrom(i, 0)
  {
    if i == 0 { assert RowFrom(0, 0); } else { assert RowFrom(1, 0); }
  }

  lemma Rows23(i: nat)
    requires 2 <= i < 4
    ensures RowFrom(i, 0)
  {
    if i == 2 { assert RowFrom(2, 0); } else { assert RowFrom(3, 0); }
  }

  lemma Rows45(i: nat)
    requires 4 <= i < 6
    ensures RowFrom(i, 0)
  {
    if i == 4 { assert RowFrom(4, 0); } else { assert RowFrom(5, 0); }
  }

  lemma Rows67(i: nat)
    requires 6 <= i < 8
    ensures RowFrom(i, 0)
  {
    if i == 6 { assert RowFrom(6, 0); } else { assert RowFrom(7, 0); }
  }

  lemma {:induction false} RowHolds(i: nat, k: nat, j: nat)
    requires RowFrom(i, k) && k <= j < 8
    ensures AdjacentAt(i, j)
    decreases 8 - k
  {
    if k < j {
      RowHolds(i, k + 1, j);
    }
  }

  lemma Row(i: nat, j: nat)
    requires i < 8 && j < 8
    ensures AdjacentAt(i, j)
  {
    if i < 2 {
      Rows01(i);
    } else if i < 4 {
      Rows23(i);
    } else if i < 6 {
      Rows45(i);
    } else {
      Rows67(i);
    }
    RowHolds(i, 0, j);
  }

  /** The rows of the table, one after another. */
  function Table(): (ps: seq<nat>)
    ensures |ps| == 64
  {
    Tables();
    seq(64, t requires 0 <= t < 64 => PRIMES[t / 8][t % 8])
  }

  lemma TableAt(ps: seq<nat>, t: nat, i: nat, j: nat)
    requires ps == Table() && t < 63 && i == t / 8 && j == t % 8
    ensures Adjacent(ps[t], ps[t + 1])
  {
    Row(i, j);
    if j < 7 {
      assert (t + 1) / 8 == i && (t + 1) % 8 == j + 1;
    } else {
      assert (t + 1) / 8 == i + 1 && (t + 1) % 8 == 0;
    }
  }

  lemma TableEnds()
    ensures Table()[0] == 2 && Table()[63] == 311
  {
  }

  lemma TableIsARun(ps: seq<nat>)
    requires ps == Table()
    ensures Run(ps) && ps[63] == 311
  {
    TableEnds();
    forall t | 0 < t < |ps|
      ensures Adjacent(ps[t - 1], ps[t])
    {
      TableAt(ps, t - 1, (t - 1) / 8, (t - 1) % 8);
    }
  }

  /** The table is the first 64 primes: it ascends, and up to the last of it the primes are just its numbers. */
  lemma TableIsTheFirstPrimes(ps: seq<nat>, n: nat, t: nat, u: nat)
    requires ps == Table()
    ensures n <= ps[63] ==> (IsPrime(n) <==> n in ps)
    ensures t < u < 64 ==> ps[t] < ps[u]
  {
    TableIsARun(ps);
    if n <= ps[63] {
      RunHoldsThePrimes(ps, n);
    }
    if t < u < 64 {
      RunAscends(ps, t, u);
    }
  }
}
