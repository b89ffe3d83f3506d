/**
 Exact decimals: a whole coefficient over a power of ten. What the integer
 arithmetic computes is stated of the number a decimal stands for, as a real.
 */
module Decimals {
  import opened Wrappers

  datatype Rounding = HalfUp | HalfEven | Down | Up | Floor | Ceil

  datatype Decimal = Decimal(c: int, s: int)

  datatype Refusal = DivisionByZero | BadScale | NotADecimal

  function Pow10(n: nat): (p: int)
    ensures p >= 1
  {
    if n == 0 then 1 else 10 * Pow10(n - 1)
  }

  // ---- the program's arithmetic ----

  /** Division of whole numbers that drops the fraction, of either sign. */
  function Quotient(n: int, d: int): int
    requires d > 0
  {
    if n >= 0 then n / d else -((-n) / d)
  }

  function DivRound(n: int, d: int, mode: Rounding): int
    requires d > 0
  {
    var q := Quotient(n, d);
    var r := n - q * d;
    if r == 0 then q
    else
      var away := if n < 0 then q - 1 else q + 1;
      var twice := 2 * (if r < 0 then -r else r);
      match mode
      case Down => q
      case Up => away
      case Floor => if n < 0 then away else q
      case Ceil => if n < 0 then q else away
      case HalfUp => if twice >= d then away else q
      case HalfEven => if twice > d || (twice == d && q % 2 != 0) then away else q
  }

  function At(d: Decimal, s: int): int
    requires s >= d.s
  {
    d.c * Pow10(s - d.s)
  }

  function Max(a: int, b: int): int {
    if a >= b then a else b
  }

  function Plus(a: Decimal, b: Decimal): Decimal {
    var s := Max(a.s, b.s);
    Decimal(At(a, s) + At(b, s), s)
  }

  function Times(a: Decimal, b: Decimal): Decimal {
    Decimal(a.c * b.c, a.s + b.s)
  }

  function Cmp(a: Decimal, b: Decimal): int {
    var s := Max(a.s, b.s);
    if At(a, s) < At(b, s) then -1 else if At(a, s) > At(b, s) then 1 else 0
  }

  /** `(a / 10^sa) / (b / 10^sb)`, in units of the scale, is the ratio of these whole numbers. */
  function Numerator(a: Decimal, b: Decimal, scale: int): int {
    var shift := b.s + scale - a.s;
    if shift >= 0 then a.c * Pow10(shift) else a.c
  }

  function Denominator(a: Decimal, b: Decimal, scale: int): (d: int)
    ensures d == 0 <==> b.c == 0
  {
    var shift := b.s + scale - a.s;
    if shift >= 0 then b.c else b.c * Pow10(-shift)
  }

  function Div(a: Decimal, b: Decimal, scale: int, mode: Rounding): Result<Decimal, Refusal> {
    if b.c == 0 then Err(DivisionByZero)
    else
      var n, d := Numerator(a, b, scale), Denominator(a, b, scale);
      Ok(Decimal(if d < 0 then DivRound(-n, -d, mode) else DivRound(n, d, mode), scale))
  }

  function Round(d: Decimal, scale: int, mode: Rounding): Result<Decimal, Refusal> {
    if scale < 0 then Err(BadScale)
    else if scale >= d.s then Ok(Decimal(At(d, scale), scale))
    else Ok(Decimal(DivRound(d.c, Pow10(d.s - scale), mode), scale))
  }

  // ---- the numbers ----

  /** `x` with its point moved `s` places. */
  ghost function Shifted(x: real, s: int): real
    decreases if s < 0 then -s else s
  {
    if s == 0 then x else if s > 0 then 10.0 * Shifted(x, s - 1) else Shifted(x, s + 1) / 10.0
  }

  ghost function Number(d: Decimal): real {
    Shifted(d.c as real, -d.s)
  }

  /** A real rounded to a whole number: what each mode means. */
  ghost function Rounded(x: real, mode: Rounding): int {
    match mode
    case Floor => x.Floor
    case Ceil => -(-x).Floor
    case Down => if x >= 0.0 then x.Floor else -(-x).Floor
    case Up => if x >= 0.0 then -(-x).Floor else x.Floor
    case HalfUp => if x >= 0.0 then (x + 0.5).Floor else -(-x + 0.5).Floor
    case HalfEven =>
      var below := x.Floor;
      var part := x - below as real;
      if part < 0.5 || (part == 0.5 && below % 2 == 0) then below else below + 1
  }

  ghost function Abs(x: real): real {
    if x < 0.0 then -x else x
  }

  /** The directed modes stop at the last whole number on their side. */
  lemma DirectedModesMean(x: real, k: int)
    ensures var r := Rounded(x, Floor) as real; r <= x && (k as real <= x ==> k as real <= r)
    ensures var r := Rounded(x, Ceil) as real; r >= x && (k as real >= x ==> k as real >= r)
    ensures var r := Rounded(x, Down) as real;
            Abs(r) <= Abs(x) && (x >= 0.0 ==> r >= 0.0) && (x <= 0.0 ==> r <= 0.0)
            && (Abs(k as real) <= Abs(x) ==> Abs(k as real) <= Abs(r))
    ensures var r := Rounded(x, Up) as real;
            Abs(r) >= Abs(x) && (x >= 0.0 ==> r >= 0.0) && (x <= 0.0 ==> r <= 0.0)
            && (Abs(k as real) >= Abs(x) ==> Abs(k as real) >= Abs(r))
  {
    assert k as real <= x ==> k <= x.Floor;
    assert k as real >= x ==> -k <= (-x).Floor;
    assert -k as real <= x ==> -k <= x.Floor;
    assert -k as real >= x ==> k <= (-x).Floor;
  }

  /** The half modes take the nearest whole number: a tie goes away from zero. */
  lemma HalfUpMeans(x: real, k: int)
    ensures var r := Rounded(x, HalfUp) as real;
            Abs(r - x) <= Abs(k as real - x) && (Abs(r - x) == Abs(k as real - x) ==> Abs(r) >= Abs(k as real))
  {
    var r := Rounded(x, HalfUp);
    var h := if x >= 0.0 then x + 0.5 else -x + 0.5;
    assert h - 1.0 < h.Floor as real <= h;
    assert Abs(r as real - x) <= 0.5;
    assert k < r ==> k as real <= r as real - 1.0;
    assert k > r ==> k as real >= r as real + 1.0;
  }

  /** Or to the even one of the two. */
  lemma HalfEvenMeans(x: real, k: int)
    ensures var r := Rounded(x, HalfEven);
            Abs(r as real - x) <= Abs(k as real - x)
            && (Abs(r as real - x) == Abs(k as real - x) && k != r ==> r % 2 == 0)
  {
    var r := Rounded(x, HalfEven);
    assert Abs(r as real - x) <= 0.5;
    assert k < r ==> k as real <= r as real - 1.0;
    assert k > r ==> k as real >= r as real + 1.0;
    if Abs(r as real - x) == Abs(k as real - x) && k != r {
      assert Abs(r as real - x) == 0.5;
    }
  }

  lemma RoundedWhole(n: int, mode: Rounding)
    ensures Rounded(n as real, mode) == n
  {
    var x := n as real;
    assert x.Floor == n;
    assert (-x).Floor == -n;
    assert (x + 0.5).Floor == n;
    assert (-x + 0.5).Floor == -n;
  }

  lemma RoundedMonotone(x: real, y: real, mode: Rounding)
    requires x <= y
    ensures Rounded(x, mode) <= Rounded(y, mode)
  {
    FloorMonotone(x, y);
    FloorMonotone(-y, -x);
    FloorMonotone(x + 0.5, y + 0.5);
    FloorMonotone(-y + 0.5, -x + 0.5);
    assert x >= 0.0 ==> x.Floor >= 0 && (x + 0.5).Floor >= 0 && (-x).Floor <= 0;
    assert x < 0.0 ==> x.Floor < 0 && (-x).Floor >= 0 && (-x + 0.5).Floor >= 0;
    assert y >= 0.0 ==> y.Floor >= 0 && (y + 0.5).Floor >= 0 && (-y).Floor <= 0;
  }

  lemma FloorMonotone(x: real, y: real)
    requires x <= y
    ensures x.Floor <= y.Floor
  {
  }

  // ---- the arithmetic computes the rounded number ----

  lemma Cancel(a: real, b: real, d: real)
    requires d > 0.0
    ensures a * d <= b * d <==> a <= b
  {
    if a < b { assert (b - a) * d > 0.0; } else if a > b { assert (a - b) * d > 0.0; }
  }

  lemma FloorOfRatio(n: int, d: int)
    requires d > 0
    ensures (n as real / d as real).Floor == n / d
  {
    var x, f := n as real / d as real, n / d;
    assert x * d as real == n as real;
    CastProduct(f, d);
    CastProduct(f + 1, d);
    FloorBetween(x, d as real, n as real, f, (f * d) as real, ((f + 1) * d) as real);
  }

  lemma FloorBetween(x: real, d: real, n: real, f: int, low: real, high: real)
    requires d > 0.0 && x * d == n && low == f as real * d && high == (f + 1) as real * d && low <= n < high
    ensures x.Floor == f
  {
    Cancel(f as real, x, d);
    Cancel((f + 1) as real, x, d);
    FloorIs(x, f);
  }

  lemma FloorIs(x: real, f: int)
    requires f as real <= x < f as real + 1.0
    ensures x.Floor == f
  {
  }

  /** The fraction of a ratio beside its remainder. */
  lemma Halves(n: int, d: int)
    requires d > 0
    ensures var part := n as real / d as real - (n / d) as real; var r := n - (n / d) * d;
            0 <= r < d && (part < 0.5 <==> 2 * r < d) && (part == 0.5 <==> 2 * r == d)
  {
    var x, f := n as real / d as real, n / d;
    var part, r := x - f as real, n - f * d;
    assert x * d as real == n as real;
    assert (f * d) as real == f as real * d as real;
    assert part * d as real == r as real;
    HalfOf(part, r as real, d as real);
  }

  lemma HalfOf(part: real, r: real, d: real)
    requires d > 0.0 && part * d == r
    ensures (part < 0.5 <==> 2.0 * r < d) && (part == 0.5 <==> 2.0 * r == d)
  {
    Cancel(part, 0.5, d);
    Cancel(0.5, part, d);
  }

  lemma RatioNegated(n: int, d: int)
    requires d > 0
    ensures (-n) as real / d as real == -(n as real / d as real)
    ensures n >= 0 <==> n as real / d as real >= 0.0
  {
    var x := n as real / d as real;
    assert x * d as real == n as real;
    Cancel(0.0, x, d as real);
  }

  lemma HalfFloor(x: real)
    ensures (x + 0.5).Floor == if x - x.Floor as real < 0.5 then x.Floor else x.Floor + 1
  {
  }

  /** The remainders on either side of zero: both nothing, or together the divisor. */
  lemma Remainders(n: int, d: int)
    requires d > 0
    ensures var (r, t) := (n - (n / d) * d, -n - ((-n) / d) * d);
            0 <= r < d && 0 <= t < d && (r == 0 <==> t == 0) && (r != 0 ==> r + t == d && (-n) / d == -(n / d) - 1)
            && (r == 0 ==> (-n) / d == -(n / d))
  {
    var f, g := n / d, (-n) / d;
    var r, t := n - f * d, -n - g * d;
    assert r + t == -(f + g) * d;
    if f + g >= 1 {
      Scale(1, f + g, d);
    } else if f + g <= -2 {
      Scale(f + g, -2, d);
    }
    assert f + g == 0 || f + g == -1;
  }

  lemma Scale(a: int, b: int, d: int)
    requires d > 0 && a <= b
    ensures a * d <= b * d
  {
  }

  lemma QuotientBySign(n: int, d: int)
    requires d > 0
    ensures n >= 0 ==> Quotient(n, d) == n / d && n - Quotient(n, d) * d == n - (n / d) * d
    ensures n < 0 ==> Quotient(n, d) == -((-n) / d) && n - Quotient(n, d) * d == -(-n - ((-n) / d) * d)
  {
    var g := (-n) / d;
    assert (-g) * d == -(g * d);
  }

  /** The program's rounded division is the ratio, rounded. */
  lemma DivRoundIsRounded(n: int, d: int, mode: Rounding)
    requires d > 0
    ensures DivRound(n, d, mode) == Rounded(n as real / d as real, mode)
  {
    var x := n as real / d as real;
    FloorOfRatio(n, d);
    FloorOfRatio(-n, d);
    RatioNegated(n, d);
    Halves(n, d);
    Halves(-n, d);
    Remainders(n, d);
    QuotientBySign(n, d);
    HalfFloor(x);
    HalfFloor(-x);
    RoundByParts(n, d, x, n / d, (-n) / d, n - (n / d) * d, -n - ((-n) / d) * d, mode);
  }

  lemma RoundByParts(n: int, d: int, x: real, f: int, g: int, r: int, t: int, mode: Rounding)
    requires d > 0 && x.Floor == f && (-x).Floor == g && (n >= 0 <==> x >= 0.0)
    requires 0 <= r < d && 0 <= t < d && (r == 0 <==> t == 0)
    requires if r == 0 then g == -f else g == -f - 1 && r + t == d
    requires x - f as real < 0.5 <==> 2 * r < d
    requires x - f as real == 0.5 <==> 2 * r == d
    requires -x - g as real < 0.5 <==> 2 * t < d
    requires (x + 0.5).Floor == (if x - f as real < 0.5 then f else f + 1)
    requires (-x + 0.5).Floor == (if -x - g as real < 0.5 then g else g + 1)
    requires n >= 0 ==> Quotient(n, d) == f && n - Quotient(n, d) * d == r
    requires n < 0 ==> Quotient(n, d) == -g && n - Quotient(n, d) * d == -t
    ensures DivRound(n, d, mode) == Rounded(x, mode)
  {
    var q := Quotient(n, d);
    var rest := n - q * d;
    assert rest == if n >= 0 then r else -t;
  }

  // ---- moving the point ----

  lemma ShiftNext(x: real, s: int)
    ensures Shifted(x, s + 1) == 10.0 * Shifted(x, s)
  {
  }

  lemma {:induction false} ShiftsAdd(x: real, a: int, b: int)
    ensures Shifted(Shifted(x, a), b) == Shifted(x, a + b)
    decreases if b < 0 then -b else b
  {
    if b > 0 {
      ShiftsAdd(x, a, b - 1);
      ShiftNext(x, a + b - 1);
    } else if b < 0 {
      ShiftsAdd(x, a, b + 1);
      ShiftNext(x, a + b);
    }
  }

  lemma {:induction false} ShiftSum(x: real, y: real, s: int)
    ensures Shifted(x + y, s) == Shifted(x, s) + Shifted(y, s)
    decreases if s < 0 then -s else s
  {
    if s > 0 { ShiftSum(x, y, s - 1); } else if s < 0 { ShiftSum(x, y, s + 1); }
  }

  lemma {:induction false} ShiftOrder(x: real, y: real, s: int)
    ensures Shifted(x, s) <= Shifted(y, s) <==> x <= y
    decreases if s < 0 then -s else s
  {
    if s > 0 { ShiftOrder(x, y, s - 1); } else if s < 0 { ShiftOrder(x, y, s + 1); }
  }

  lemma {:induction false} ShiftScaled(k: real, x: real, s: int)
    ensures Shifted(k * x, s) == k * Shifted(x, s)
    decreases if s < 0 then -s else s
  {
    if s > 0 {
      ShiftScaled(k, x, s - 1);
      TenfoldProduct(k, Shifted(x, s - 1));
    } else if s < 0 {
      ShiftScaled(k, x, s + 1);
      TenfoldProduct(k, Shifted(x, s));
    }
  }

  lemma TenfoldProduct(k: real, x: real)
    ensures k * (10.0 * x) == 10.0 * (k * x)
  {
  }

  lemma {:induction false} PowShifts(c: int, n: nat)
    ensures (c * Pow10(n)) as real == Shifted(c as real, n)
  {
    if n > 0 {
      PowShifts(c, n - 1);
      TenfoldPower(c, Pow10(n - 1));
    }
  }

  lemma TenfoldPower(c: int, p: int)
    ensures c * (10 * p) == 10 * (c * p)
  {
  }

  lemma AtIsNumber(d: Decimal, s: int)
    requires s >= d.s
    ensures At(d, s) as real == Shifted(Number(d), s)
  {
    PowShifts(d.c, s - d.s);
    ShiftsAdd(d.c as real, -d.s, s);
  }

  lemma NumberBack(d: Decimal)
    ensures Shifted(Number(d), d.s) == d.c as real
  {
    ShiftsAdd(d.c as real, -d.s, d.s);
  }

  // ---- the operations on the numbers ----

  lemma PlusIsExact(a: Decimal, b: Decimal)
    ensures Number(Plus(a, b)) == Number(a) + Number(b)
  {
    var s := Max(a.s, b.s);
    AtIsNumber(a, s);
    AtIsNumber(b, s);
    SumShiftsBack(Number(a), Number(b), At(a, s), At(b, s), s);
  }

  lemma SumShiftsBack(x: real, y: real, m: int, n: int, s: int)
    requires m as real == Shifted(x, s) && n as real == Shifted(y, s)
    ensures Shifted((m + n) as real, -s) == x + y
  {
    ShiftSum(x, y, s);
    ShiftsAdd(x + y, s, -s);
  }

  lemma CastProduct(a: int, b: int)
    ensures (a * b) as real == a as real * b as real
  {
  }

  lemma Commute(x: real, y: real)
    ensures x * y == y * x
  {
  }

  /** Moving the point of a product moves that of either factor. */
  lemma ShiftRightFactor(n: real, q: real, d: real, s: int, ns: real, ds: real)
    requires n == q * d && ns == Shifted(n, s) && ds == Shifted(d, s)
    ensures ns == q * ds
  {
    ShiftScaled(q, d, s);
  }

  lemma ShiftLeftFactor(n: real, q: real, d: real, s: int, ns: real, qs: real)
    requires n == q * d && ns == Shifted(n, s) && qs == Shifted(q, s)
    ensures ns == qs * d
  {
    Commute(q, d);
    ShiftScaled(d, q, s);
    Commute(d, qs);
  }

  lemma ProductShifts(n: real, x: real, y: real, s: int, t: int, ns: real, ys: real, xt: real, r: real)
    requires n == x * y && ns == Shifted(n, s) && ys == Shifted(y, s) && xt == Shifted(x, t) && r == Shifted(ns, t)
    ensures r == xt * ys
  {
    ShiftRightFactor(n, x, y, s, ns, ys);
    ShiftLeftFactor(ns, x, ys, t, r, xt);
  }

  lemma TimesIsExact(a: Decimal, b: Decimal, x: real, y: real)
    requires x == Number(a) && y == Number(b)
    ensures Number(Times(a, b)) == x * y
  {
    var n := (a.c * b.c) as real;
    var ns := Shifted(n, -b.s);
    CastProduct(a.c, b.c);
    ShiftsAdd(n, -b.s, -a.s);
    ProductShifts(n, a.c as real, b.c as real, -b.s, -a.s, ns, y, x, Shifted(ns, -a.s));
  }

  lemma CmpIsOrder(a: Decimal, b: Decimal)
    ensures Cmp(a, b) < 0 <==> Number(a) < Number(b)
    ensures Cmp(a, b) == 0 <==> Number(a) == Number(b)
  {
    var s := Max(a.s, b.s);
    AtIsNumber(a, s);
    AtIsNumber(b, s);
    ShiftOrder(Number(a), Number(b), s);
    ShiftOrder(Number(b), Number(a), s);
  }

  lemma {:induction false} ShiftedZero(s: int)
    ensures Shifted(0.0, s) == 0.0
    decreases if s < 0 then -s else s
  {
    if s > 0 { ShiftedZero(s - 1); } else if s < 0 { ShiftedZero(s + 1); }
  }

  lemma ZeroIsZero(d: Decimal)
    ensures Number(d) == 0.0 <==> d.c == 0
  {
    NumberBack(d);
    ShiftedZero(d.s);
    ShiftedZero(-d.s);
  }

  lemma RatioOf(n: real, d: real, x: real)
    requires d != 0.0 && n == x * d
    ensures n / d == x
  {
  }

  lemma RatioLifted(a: Decimal, b: Decimal, scale: int, q: real, x: real, v: real, w: real)
    requires v == Number(a) && w == Number(b) && v == q * w && x == Shifted(q, scale)
    ensures Shifted(a.c as real, b.s + scale - a.s) == x * b.c as real
  {
    var vs := Shifted(v, b.s);
    NumberBack(b);
    ShiftsAdd(v, b.s, scale);
    ShiftsAdd(a.c as real, -a.s, b.s + scale);
    ProductShifts(v, q, w, b.s, scale, vs, b.c as real, x, Shifted(vs, scale));
  }

  lemma DenominatorLifted(n: real, back: real, x: real, c: int, k: nat, d: int)
    requires back == Shifted(n, 0 - k) && back == x * c as real && d == c * Pow10(k)
    ensures n == x * d as real
  {
    ShiftsAdd(n, 0 - k, k);
    ShiftRightFactor(back, x, c as real, k, n, Shifted(c as real, k));
    PowShifts(c, k);
  }

  lemma NumeratorLifted(c: int, k: nat, n: int, lifted: real)
    requires n == c * Pow10(k) && lifted == Shifted(c as real, k)
    ensures n as real == lifted
  {
    PowShifts(c, k);
  }

  /** A ratio of two numbers, one of them lifted to the other's places, as one of whole numbers. */
  lemma RatioOfLifted(ac: int, bc: int, shift: int, x: real, lifted: real, n: int, d: int)
    requires lifted == Shifted(ac as real, shift) && lifted == x * bc as real
    requires n == if shift >= 0 then ac * Pow10(shift) else ac
    requires d == if shift >= 0 then bc else bc * Pow10(-shift)
    ensures n as real == x * d as real
  {
    if shift >= 0 {
      NumeratorLifted(ac, shift, n, lifted);
    } else {
      DenominatorLifted(ac as real, lifted, x, bc, -shift, d);
    }
  }

  /** The whole numbers `div` divides stand in the ratio of the two decimals, in units of the scale. */
  lemma RatioIsQuotient(a: Decimal, b: Decimal, scale: int, x: real, lifted: real, n: int, d: int)
    requires lifted == Shifted(a.c as real, b.s + scale - a.s) && lifted == x * b.c as real
    requires n == Numerator(a, b, scale) && d == Denominator(a, b, scale)
    ensures n as real == x * d as real
  {
    RatioOfLifted(a.c, b.c, b.s + scale - a.s, x, lifted, n, d);
  }

  /** `div` answers the exact quotient, in units of the scale asked, rounded as the mode says. */
  lemma DivIsRounded(a: Decimal, b: Decimal, scale: int, mode: Rounding)
    ensures Div(a, b, scale, mode)
         == if Number(b) == 0.0 then Err(DivisionByZero)
            else Ok(Decimal(Rounded(Shifted(Number(a) / Number(b), scale), mode), scale))
  {
    ZeroIsZero(b);
    if b.c != 0 {
      var q := Number(a) / Number(b);
      QuotientBack(Number(a), Number(b));
      var x := Shifted(q, scale);
      var n, d := Numerator(a, b, scale), Denominator(a, b, scale);
      RatioLifted(a, b, scale, q, x, Number(a), Number(b));
      RatioIsQuotient(a, b, scale, x, Shifted(a.c as real, b.s + scale - a.s), n, d);
      DivBySign(n, d, x, mode);
    }
  }

  lemma QuotientBack(x: real, y: real)
    requires y != 0.0
    ensures x == x / y * y
  {
  }

  lemma DivBySign(n: int, d: int, x: real, mode: Rounding)
    requires d != 0 && n as real == x * d as real
    ensures (if d < 0 then DivRound(-n, -d, mode) else DivRound(n, d, mode)) == Rounded(x, mode)
  {
    if d < 0 {
      assert (-n) as real == x * (-d) as real;
      RatioOf((-n) as real, (-d) as real, x);
      DivRoundIsRounded(-n, -d, mode);
    } else {
      RatioOf(n as real, d as real, x);
      DivRoundIsRounded(n, d, mode);
    }
  }

  /**
   `round` answers the number, in units of the scale asked, rounded as the mode says; the scale
   must not be negative.
   */
  lemma RoundIsRounded(d: Decimal, scale: int, mode: Rounding)
    ensures Round(d, scale, mode)
         == if scale < 0 then Err(BadScale) else Ok(Decimal(Rounded(Shifted(Number(d), scale), mode), scale))
  {
    if 0 <= scale && scale >= d.s {
      AtIsNumber(d, scale);
      RoundedWhole(At(d, scale), mode);
    } else if 0 <= scale {
      var (x, p) := (Shifted(Number(d), scale), Pow10(d.s - scale));
      RoundDivides(d, scale, Number(d), x, p);
      DivBySign(d.c, p, x, mode);
    }
  }

  lemma ShiftByPower(x: real, k: nat, c: real, p: real)
    requires c == Shifted(x, k) && p == Shifted(1.0, k)
    ensures c == x * p
  {
    ShiftRightFactor(x, x, 1.0, k, c, p);
  }

  lemma RoundDivides(d: Decimal, scale: int, v: real, x: real, p: int)
    requires scale < d.s && v == Number(d) && x == Shifted(v, scale) && p == Pow10(d.s - scale)
    ensures d.c as real == x * p as real
  {
    var k := d.s - scale;
    PowIsShift(k);
    BackFrom(d, scale, v, x, k);
    ShiftByPower(x, k, d.c as real, p as real);
  }

  lemma BackFrom(d: Decimal, scale: int, v: real, x: real, k: nat)
    requires k == d.s - scale && v == Number(d) && x == Shifted(v, scale)
    ensures d.c as real == Shifted(x, k)
  {
    NumberBack(d);
    ShiftsAdd(v, scale, k);
  }

  lemma PowIsShift(n: nat)
    ensures Pow10(n) as real == Shifted(1.0, n)
  {
    PowShifts(1, n);
    OneTimes(Pow10(n));
  }

  lemma OneTimes(n: int)
    ensures 1 * n == n
  {
  }

  /** Both depend on the numbers alone: decimals of equal value, whatever their scales, give the same answer. */
  lemma AnswersDependOnNumbers(a: Decimal, a': Decimal, b: Decimal, b': Decimal, scale: int, mode: Rounding)
    requires Number(a) == Number(a') && Number(b) == Number(b')
    ensures Div(a, b, scale, mode) == Div(a', b', scale, mode)
    ensures Round(a, scale, mode) == Round(a', scale, mode)
  {
    DivIsRounded(a, b, scale, mode);
    DivIsRounded(a', b', scale, mode);
    RoundIsRounded(a, scale, mode);
    RoundIsRounded(a', scale, mode);
  }

  /** Rounding keeps the order of numbers. */
  lemma RoundIsMonotone(a: Decimal, b: Decimal, scale: int, mode: Rounding)
    requires scale >= 0 && Number(a) <= Number(b)
    ensures Number(Round(a, scale, mode).value) <= Number(Round(b, scale, mode).value)
  {
    RoundIsRounded(a, scale, mode);
    RoundIsRounded(b, scale, mode);
    var (p, q) := (Round(a, scale, mode).value, Round(b, scale, mode).value);
    ShiftOrder(Number(a), Number(b), scale);
    RoundedMonotone(Shifted(Number(a), scale), Shifted(Number(b), scale), mode);
    ShiftOrder(p.c as real, q.c as real, -scale);
  }

  /** And changes nothing the second time, in any mode. */
  lemma RoundIsIdempotent(d: Decimal, scale: int, mode: Rounding, again: Rounding)
    requires scale >= 0
    ensures Round(Round(d, scale, mode).value, scale, again) == Round(d, scale, mode)
  {
  }
}
