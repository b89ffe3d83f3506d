/**
 32-bit words as numbers, and the bitwise operators JavaScript applies to them: operands
 are taken modulo 2^32, results are signed except that of `>>>`.
 */
module Words {
  import opened Arithmetic

  const WORD: int := 0x1_0000_0000

  type Word = x: int | 0 <= x < 0x1_0000_0000

  type Byte = x: int | 0 <= x < 256

  datatype Gate = AndGate | OrGate | XorGate

  function Apply(g: Gate, a: nat, b: nat): nat {
    match g
    case AndGate => if a == 1 && b == 1 then 1 else 0
    case OrGate => if a == 1 || b == 1 then 1 else 0
    case XorGate => if a != b then 1 else 0
  }

  function Pow2(n: nat): (r: nat)
    ensures r > 0
  {
    if n == 0 then 1 else 2 * Pow2(n - 1)
  }

  /** `x` and `y` put through the gate, bit by bit. */
  function Bits(g: Gate, x: nat, y: nat): nat
    decreases x + y
  {
    if x == 0 && y == 0 then 0 else Apply(g, x % 2, y % 2) + 2 * Bits(g, x / 2, y / 2)
  }

  lemma {:induction false} BitsFit(g: Gate, x: nat, y: nat, n: nat)
    requires x < Pow2(n) && y < Pow2(n)
    ensures Bits(g, x, y) < Pow2(n)
  {
    if n > 0 && (x > 0 || y > 0) {
      BitsFit(g, x / 2, y / 2, n - 1);
    }
  }

  lemma PowersOfWords()
    ensures Pow2(8) == 256 && Pow2(16) == 0x1_0000 && Pow2(24) == 0x100_0000 && Pow2(32) == WORD
  {
    assert Pow2(4) == 16;
    assert Pow2(8) == 256;
    assert Pow2(12) == 4096;
    assert Pow2(16) == 0x1_0000;
    assert Pow2(20) == 0x10_0000;
    assert Pow2(24) == 0x100_0000;
    assert Pow2(28) == 0x1000_0000;
  }

  function And(x: Word, y: Word): Word {
    PowersOfWords(); BitsFit(AndGate, x, y, 32);
    Bits(AndGate, x, y)
  }

  function Or(x: Word, y: Word): Word {
    PowersOfWords(); BitsFit(OrGate, x, y, 32);
    Bits(OrGate, x, y)
  }

  function Xor(x: Word, y: Word): Word {
    PowersOfWords(); BitsFit(XorGate, x, y, 32);
    Bits(XorGate, x, y)
  }

  function Not(x: Word): Word {
    WORD - 1 - x
  }

  // ---- JavaScript's operators ----

  function ToU32(x: int): Word {
    x % WORD
  }

  function ToI32(x: int): int {
    var u := ToU32(x);
    if u >= 0x8000_0000 then u - WORD else u
  }

  function JsAnd(x: int, y: int): int { ToI32(And(ToU32(x), ToU32(y))) }
  function JsOr(x: int, y: int): int { ToI32(Or(ToU32(x), ToU32(y))) }
  function JsXor(x: int, y: int): int { ToI32(Xor(ToU32(x), ToU32(y))) }
  function JsNot(x: int): int { ToI32(Not(ToU32(x))) }

  /** A word moved right, one bit at a time. */
  function Shr(x: Word, n: nat): Word
    decreases n, x
  {
    if n == 0 then x else Shr(x / 2, n - 1)
  }

  /** A word moved left, one bit at a time; the bits that leave it are lost. */
  function Shl(x: Word, n: nat): Word
    decreases n, x
  {
    if n == 0 then x else Shl(if x >= 0x8000_0000 then 2 * (x - 0x8000_0000) else 2 * x, n - 1)
  }

  /** Rotation to the right: each bit that leaves the word comes back as the highest (section 3.2 of FIPS 180-4). */
  function Rotation(x: Word, n: nat): Word
    decreases n, x
  {
    if n == 0 then x else Rotation(x / 2 + (if x % 2 == 1 then 0x8000_0000 else 0), n - 1)
  }

  /** `x << n`. */
  function JsShl(x: int, n: nat): int { ToI32(Shl(ToU32(x), n)) }

  /** `x >>> n`. */
  function JsShr(x: int, n: nat): int { Shr(ToU32(x), n) }

  function JsRotr(x: int, n: nat): int
    requires n <= 32
  {
    JsOr(JsShr(x, n), JsShl(x, 32 - n))
  }

  lemma SignedIsCongruent(x: int)
    ensures ToU32(ToI32(x)) == ToU32(x)
  {
  }

  lemma Reduced(x: Word)
    ensures ToU32(x) == x
  {
  }

  /** Sums may be reduced before or after. */
  lemma SumIsCongruent(a: int, b: int)
    ensures ToU32(ToU32(a) + ToU32(b)) == ToU32(a + b)
    ensures ToU32(a + ToU32(b)) == ToU32(a + b)
    ensures ToU32(ToU32(a) + b) == ToU32(a + b)
  {
  }

  /** Operators answer the words' operator, modulo 2^32, whatever form the operands had. */
  lemma OperatorsAreCongruent(x: int, y: int)
    ensures ToU32(JsAnd(x, y)) == And(ToU32(x), ToU32(y))
    ensures ToU32(JsOr(x, y)) == Or(ToU32(x), ToU32(y))
    ensures ToU32(JsXor(x, y)) == Xor(ToU32(x), ToU32(y))
    ensures ToU32(JsNot(x)) == Not(ToU32(x))
  {
    SignedIsCongruent(And(ToU32(x), ToU32(y)));
    SignedIsCongruent(Or(ToU32(x), ToU32(y)));
    SignedIsCongruent(Xor(ToU32(x), ToU32(y)));
    SignedIsCongruent(Not(ToU32(x)));
  }

  // ---- disjoint bits add ----

  lemma {:induction false} OrWithZero(x: nat)
    ensures Bits(OrGate, x, 0) == x
  {
    if x > 0 {
      OrWithZero(x / 2);
    }
  }

  lemma {:induction false} HighOrLow(x: nat, y: nat, k: nat)
    requires y < Pow2(k)
    ensures Bits(OrGate, x * Pow2(k), y) == x * Pow2(k) + y
  {
    if k == 0 {
      OrWithZero(x);
    } else {
      assert x * Pow2(k) == 2 * (x * Pow2(k - 1));
      HighOrLow(x, y / 2, k - 1);
    }
  }

  lemma {:induction false} OrCommutes(x: nat, y: nat)
    ensures Bits(OrGate, x, y) == Bits(OrGate, y, x)
    decreases x + y
  {
    if x > 0 || y > 0 {
      OrCommutes(x / 2, y / 2);
    }
  }

  lemma {:induction false} PowersMultiply(a: nat, b: nat)
    ensures Pow2(a + b) == Pow2(a) * Pow2(b)
  {
    if a > 0 {
      PowersMultiply(a - 1, b);
    }
  }

  // ---- rotations ----

  /** The two ends of a word, and the room each has after a rotation. */
  lemma Split(x: Word, n: nat, p: nat, q: nat)
    requires n <= 32 && p == Pow2(n) && q == Pow2(32 - n)
    ensures p > 0 && q > 0 && p * q == WORD
    ensures x / p < q && x % p < p
    ensures x / p + (x % p) * q < WORD
    ensures (x % p) * q < WORD
  {
    PowersMeet(n, p, q);
    Ends(x, p, q, WORD);
  }

  lemma PowersMeet(n: nat, p: nat, q: nat)
    requires n <= 32 && p == Pow2(n) && q == Pow2(32 - n)
    ensures p * q == WORD
  {
    PowersMultiply(n, 32 - n);
    assert n + (32 - n) == 32;
    PowersOfWords();
  }

  lemma QuotientBelow(a: int, p: int, q: int)
    requires p > 0 && a * p < p * q
    ensures a < q
  {
    var r := a - q;
    assert r * p == a * p - q * p < 0;
    assert r >= 0 ==> r * p >= 0;
  }

  lemma RemainderBelow(b: int, p: int, q: int)
    requires 0 <= b < p && q >= 0
    ensures b * q <= p * q - q
  {
    var r := p - 1 - b;
    assert r * q >= 0;
    assert b * q == p * q - q - r * q;
  }

  lemma Ends(x: nat, p: nat, q: nat, w: nat)
    requires p > 0 && q > 0 && p * q == w && x < w
    ensures x / p < q && x % p < p
    ensures x / p + (x % p) * q < w && (x % p) * q < w
  {
    var (a, b) := (x / p, x % p);
    assert x == a * p + b;
    QuotientBelow(a, p, q);
    RemainderBelow(b, p, q);
  }

  lemma ShiftedLeft(x: nat, p: nat, q: nat)
    requires p > 0 && q > 0
    ensures (x * q) % (p * q) == (x % p) * q
  {
    var (a, b) := (x / p, x % p);
    assert x == a * p + b;
    assert x * q == a * (p * q) + b * q;
    assert b * q < p * q;
    Remainder(x * q, a, p * q, b * q);
  }

  lemma {:induction false} ShrIsQuotient(x: Word, n: nat, p: nat)
    requires p == Pow2(n)
    ensures p > 0 && Shr(x, n) == x / p
  {
    if n > 0 {
      var half := Pow2(n - 1);
      ShrIsQuotient(x / 2, n - 1, half);
      Divided(x, 2, half);
    }
  }

  lemma {:induction false} ShlIsRemainder(x: Word, n: nat, p: nat)
    requires p == Pow2(n)
    ensures Shl(x, n) == (x * p) % WORD
    decreases n
  {
    if n > 0 {
      var half := Pow2(n - 1);
      var y := if x >= 0x8000_0000 then 2 * (x - 0x8000_0000) else 2 * x;
      ShlIsRemainder(y, n - 1, half);
      LeftOnce(x, half);
      assert p == 2 * half;
    }
  }

  lemma LeftOnce(x: Word, half: nat)
    ensures var y := if x >= 0x8000_0000 then 2 * (x - 0x8000_0000) else 2 * x;
      (y * half) % WORD == (x * (2 * half)) % WORD
  {
    var y := if x >= 0x8000_0000 then 2 * (x - 0x8000_0000) else 2 * x;
    var k := if x >= 0x8000_0000 then half else 0;
    assert x * (2 * half) == y * half + k * WORD;
    Multiples(y * half, k, WORD);
  }

  /** A rotation puts the low `n` bits above the others. */
  lemma {:induction false} RotationIsEnds(x: Word, n: nat, p: nat, q: nat)
    requires n <= 32 && p == Pow2(n) && q == Pow2(32 - n)
    ensures p > 0 && Rotation(x, n) == x / p + (x % p) * q
    decreases n
  {
    if n == 0 {
      assert x / 1 == x && x % 1 == 0;
    } else {
      var half := Pow2(n - 1);
      var y := x / 2 + (if x % 2 == 1 then 0x8000_0000 else 0);
      assert Pow2(32 - (n - 1)) == 2 * q;
      RotationIsEnds(y, n - 1, half, 2 * q);
      PowersMeet(n, p, q);
      OneTurn(x, half, q);
    }
  }

  /** One more bit over the top. */
  lemma OneTurn(x: Word, half: nat, q: nat)
    requires half > 0 && 2 * half * q == WORD
    ensures var y := x / 2 + (if x % 2 == 1 then 0x8000_0000 else 0);
      y / half + (y % half) * (2 * q) == x / (2 * half) + (x % (2 * half)) * q
  {
    var (a, b) := (x / 2, x % 2);
    var (c, d) := (a / half, a % half);
    assert x == 2 * (c * half + d) + b;
    assert x == c * (2 * half) + (2 * d + b);
    OneQuotient(x / (2 * half), x % (2 * half), c, 2 * d + b, 2 * half);
    assert half * q == 0x8000_0000;
    var y := a + (if b == 1 then 0x8000_0000 else 0);
    var more := if b == 1 then q else 0;
    assert more * half == if b == 1 then 0x8000_0000 else 0;
    assert y == (c + more) * half + d;
    OneQuotient(y / half, y % half, c + more, d, half);
    assert b * q == more;
    assert (2 * d + b) * q == d * (2 * q) + b * q;
  }

  lemma ShiftsAreEnds(x: int, n: nat, p: nat, q: nat)
    requires n <= 32 && p == Pow2(n) && q == Pow2(32 - n)
    ensures p > 0 && ToU32(JsShr(x, n)) == ToU32(x) / p
    ensures ToU32(JsShl(x, 32 - n)) == (ToU32(x) % p) * q
  {
    var u := ToU32(x);
    PowersMeet(n, p, q);
    ShiftedLeft(u, p, q);
    ShrIsQuotient(u, n, p);
    ShlIsRemainder(u, 32 - n, q);
    SignedIsCongruent(Shl(u, 32 - n));
    Reduced(Shr(u, n));
    Reduced(Shl(u, 32 - n));
  }

  lemma JoinedEnds(high: nat, low: nat, n: nat, p: nat, q: nat)
    requires n <= 32 && p == Pow2(n) && q == Pow2(32 - n)
    requires high < q && low < p && high < WORD && low * q < WORD
    ensures Or(high, low * q) == high + low * q
  {
    OrCommutes(high, low * q);
    HighOrLow(low, high, 32 - n);
  }

  /** The shifts and the `or` of the program are the rotation. */
  lemma RotrIsRotation(x: int, n: nat)
    requires n <= 32
    ensures ToU32(JsRotr(x, n)) == Rotation(ToU32(x), n)
  {
    var (p, q) := (Pow2(n), Pow2(32 - n));
    Split(ToU32(x), n, p, q);
    ShiftsAreEnds(x, n, p, q);
    OperatorsAreCongruent(JsShr(x, n), JsShl(x, 32 - n));
    JoinedEnds(ToU32(x) / p, ToU32(x) % p, n, p, q);
    RotationIsEnds(ToU32(x), n, p, q);
  }

  // ---- four bytes to a word ----

  function JsWord(b: seq<Byte>, i: nat): int
    requires i + 4 <= |b|
  {
    JsOr(JsOr(JsOr(JsShl(b[i], 24), JsShl(b[i + 1], 16)), JsShl(b[i + 2], 8)), b[i + 3])
  }

  function BigEndian(b: seq<Byte>, i: nat): Word
    requires i + 4 <= |b|
  {
    var (p: int, q: int, r: int, s: int) := (b[i], b[i + 1], b[i + 2], b[i + 3]);
    p * 0x100_0000 + q * 0x1_0000 + r * 0x100 + s
  }

  lemma Below(x: nat, p: nat, q: nat)
    requires x < q && p > 0
    ensures x * p <= p * q - p
  {
    var d := q - 1 - x;
    assert d * p >= 0;
    assert x * p == p * q - p - d * p;
  }

  lemma OrIsSum(x: nat, k: nat, p: nat, y: nat)
    requires k <= 32 && p == Pow2(k) && y < p && x < Pow2(32 - k)
    ensures x * p + y < WORD
    ensures Or(x * p, y) == x * p + y
  {
    HighOrLow(x, y, k);
    PowersMultiply(k, 32 - k);
    assert k + (32 - k) == 32;
    PowersOfWords();
    Below(x, p, Pow2(32 - k));
  }

  lemma ByteFits(y: int, p: nat)
    requires 0 <= y < 256 && p <= 0x100_0000
    ensures 0 <= y * p < WORD
  {
    var d := 255 - y;
    assert d * p >= 0;
    assert y * p == 255 * p - d * p;
    assert y * p >= 0;
  }

  lemma ByteShifts(x: Byte, n: nat, p: nat)
    requires p == Pow2(n) && p <= 0x100_0000
    ensures ToU32(JsShl(x, n)) == x as int * p
  {
    var y: int := x;
    ByteFits(y, p);
    ShlIsRemainder(x, n, p);
    Remainder(y * p, 0, WORD, y * p);
    SignedIsCongruent(Shl(x, n));
    Reduced(x);
  }

  lemma Joined(a: int, b: int, x: nat, k: nat, p: nat, y: nat)
    requires k <= 32 && p == Pow2(k) && y < p && x < Pow2(32 - k)
    requires ToU32(a) == x * p && ToU32(b) == y
    ensures ToU32(JsOr(a, b)) == x * p + y
  {
    OperatorsAreCongruent(a, b);
    OrIsSum(x, k, p, y);
  }

  lemma FourJoined(a: int, b: int, c: int, p: Byte, q: Byte, r: Byte, s: Byte)
    requires ToU32(a) == p as int * 0x100_0000 && ToU32(b) == q as int * 0x1_0000 && ToU32(c) == r as int * 0x100
    ensures ToU32(JsOr(JsOr(JsOr(a, b), c), s))
         == p as int * 0x100_0000 + q as int * 0x1_0000 + r as int * 0x100 + s as int
  {
    var (one, two) := (JsOr(a, b), JsOr(JsOr(a, b), c));
    assert ToU32(one) == (p as int * 0x100 + q as int) * 0x1_0000 by {
      PowersOfWords();
      Joined(a, b, p, 24, 0x100_0000, q as int * 0x1_0000);
    }
    assert ToU32(two) == (p as int * 0x1_0000 + q as int * 0x100 + r as int) * 0x100 by {
      PowersOfWords();
      Joined(one, c, p as int * 0x100 + q as int, 16, 0x1_0000, r as int * 0x100);
    }
    PowersOfWords();
    Reduced(s);
    Joined(two, s, p as int * 0x1_0000 + q as int * 0x100 + r as int, 8, 0x100, s);
  }

  /** Four bytes shifted into place are the big-endian word they spell. */
  lemma WordIsBigEndian(b: seq<Byte>, i: nat)
    requires i + 4 <= |b|
    ensures ToU32(JsWord(b, i)) == BigEndian(b, i)
  {
    PowersOfWords();
    ByteShifts(b[i], 24, 0x100_0000);
    ByteShifts(b[i + 1], 16, 0x1_0000);
    ByteShifts(b[i + 2], 8, 0x100);
    FourJoined(JsShl(b[i], 24), JsShl(b[i + 1], 16), JsShl(b[i + 2], 8), b[i], b[i + 1], b[i + 2], b[i + 3]);
  }
}
