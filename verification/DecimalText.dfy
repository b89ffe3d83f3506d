/** A decimal's text, and the reading of it: an optional sign, digits, and a point with digits after it. */
module DecimalText {
  import opened Wrappers
  import opened Decimals
  import opened Texts

  predicate IsDigit(c: char) {
    '0' <= c <= '9'
  }

  predicate AllDigits(s: string) {
    forall i :: 0 <= i < |s| ==> IsDigit(s[i])
  }

  function ValueOf(s: string): int
    requires AllDigits(s)
  {
    if s == [] then 0 else 10 * ValueOf(s[..|s| - 1]) + (s[|s| - 1] - '0') as int
  }

  function DigitsOf(n: nat): (s: string)
    ensures s != [] && AllDigits(s) && ValueOf(s) == n
  {
    var last := [('0' as int + n % 10) as char];
    if n < 10 then last
    else
      var front := DigitsOf(n / 10);
      assert (front + last)[..|front|] == front;
      front + last
  }

  function Padded(s: string, width: int): (p: string)
    decreases width - |s|
  {
    if |s| >= width then s else Padded(['0'] + s, width)
  }

  function Trim(s: string): string {
    if s != [] && IsSpace(s[0]) then Trim(s[1..])
    else if s != [] && IsSpace(s[|s| - 1]) then Trim(s[..|s| - 1])
    else s
  }

  /** Where the first point stands, or the end. */
  function PointAt(s: string): (i: nat)
    ensures i <= |s|
    ensures forall k :: 0 <= k < i ==> s[k] != '.'
    ensures i < |s| ==> s[i] == '.'
  {
    if s == [] || s[0] == '.' then 0 else 1 + PointAt(s[1..])
  }

  function ReadUnsigned(s: string): Result<Decimal, Refusal> {
    var i := PointAt(s);
    var whole := s[..i];
    var fraction := if i < |s| then s[i + 1..] else [];
    if whole == [] || !AllDigits(whole) || !AllDigits(fraction) || (i < |s| && fraction == []) then Err(NotADecimal)
    else Ok(Decimal(ValueOf(whole + fraction), |fraction|))
  }

  function Read(text: string): Result<Decimal, Refusal> {
    var s := Trim(text);
    if s != [] && s[0] == '-' then
      var r := ReadUnsigned(s[1..]);
      if r.Ok? then Ok(Decimal(-r.value.c, r.value.s)) else r
    else if s != [] && s[0] == '+' then ReadUnsigned(s[1..])
    else ReadUnsigned(s)
  }

  function Write(d: Decimal): string {
    Sign(d.c) + Pointed(Padded(DigitsOf(Magnitude(d.c)), d.s + 1), d.s)
  }

  function Sign(c: int): string {
    if c < 0 then "-" else ""
  }

  function Magnitude(c: int): nat {
    if c < 0 then -c else c
  }

  function Pointed(digits: string, s: int): string {
    var cut := |digits| - s;
    if s > 0 && cut >= 0 then digits[..cut] + "." + digits[cut..] else digits
  }

  lemma {:induction false} LeadingZero(s: string)
    requires AllDigits(s)
    ensures AllDigits(['0'] + s) && ValueOf(['0'] + s) == ValueOf(s)
    decreases |s|
  {
    if s != [] {
      var front := s[..|s| - 1];
      LeadingZero(front);
      assert (['0'] + s)[..|s|] == ['0'] + front;
    }
  }

  lemma {:induction false} PaddingIsNothing(s: string, width: int)
    requires AllDigits(s)
    ensures var p := Padded(s, width);
            AllDigits(p) && ValueOf(p) == ValueOf(s) && |p| == Max(|s|, width)
    decreases width - |s|
  {
    if |s| < width {
      LeadingZero(s);
      PaddingIsNothing(['0'] + s, width);
    }
  }

  lemma ReadBack(whole: string, fraction: string)
    requires whole != [] && AllDigits(whole) && AllDigits(fraction)
    ensures ReadUnsigned(if fraction == [] then whole else whole + "." + fraction)
         == Ok(Decimal(ValueOf(whole + fraction), |fraction|))
  {
    var s := if fraction == [] then whole else whole + "." + fraction;
    var i := PointAt(s);
    if fraction == [] {
      assert whole + fraction == whole;
    } else {
      assert s[|whole|] == '.';
      assert forall k :: 0 <= k < |whole| ==> s[k] == whole[k] && IsDigit(whole[k]);
      assert i == |whole|;
      assert s[..i] == whole && s[i + 1..] == fraction;
    }
  }

  lemma PointedParts(digits: string, s: nat) returns (whole: string, fraction: string)
    requires AllDigits(digits) && |digits| > s
    ensures whole != [] && AllDigits(whole) && AllDigits(fraction) && |fraction| == s && whole + fraction == digits
    ensures Pointed(digits, s) == if fraction == [] then whole else whole + "." + fraction
  {
    whole, fraction := digits[..|digits| - s], digits[|digits| - s..];
  }

  lemma TrimKeeps(s: string)
    requires s != [] ==> !IsSpace(s[0]) && !IsSpace(s[|s| - 1])
    ensures Trim(s) == s
  {
  }

  lemma SignedReads(c: int, body: string, u: Decimal)
    requires body != [] && IsDigit(body[0]) && IsDigit(body[|body| - 1]) && ReadUnsigned(body) == Ok(u)
    ensures Read(Sign(c) + body) == Ok(if c < 0 then Decimal(-u.c, u.s) else u)
  {
    var text := Sign(c) + body;
    assert text[|text| - 1] == body[|body| - 1];
    TrimKeeps(text);
    if c < 0 { assert text[1..] == body; } else { assert text == body; }
  }

  lemma PointedReads(digits: string, s: nat)
    requires AllDigits(digits) && |digits| > s
    ensures var body := Pointed(digits, s);
            body != [] && IsDigit(body[0]) && IsDigit(body[|body| - 1])
            && ReadUnsigned(body) == Ok(Decimal(ValueOf(digits), s))
  {
    var body := Pointed(digits, s);
    var whole, fraction := PointedParts(digits, s);
    DigitsAtEnds(whole, fraction, body);
    assert ReadUnsigned(body) == Ok(Decimal(ValueOf(digits), s)) by {
      ReadBack(whole, fraction);
    }
  }

  lemma DigitsAtEnds(whole: string, fraction: string, body: string)
    requires whole != [] && AllDigits(whole) && AllDigits(fraction)
    requires body == if fraction == [] then whole else whole + "." + fraction
    ensures body != [] && IsDigit(body[0]) && IsDigit(body[|body| - 1])
  {
    var last := if fraction == [] then whole else fraction;
    assert body[0] == whole[0] && body[|body| - 1] == last[|last| - 1];
  }

  lemma SignOfMagnitude(d: Decimal, m: int)
    requires m == Magnitude(d.c)
    ensures (if d.c < 0 then Decimal(-m, d.s) else Decimal(m, d.s)) == d
  {
  }

  lemma TextReads(d: Decimal, digits: string, body: string)
    requires AllDigits(digits) && |digits| > d.s >= 0 && ValueOf(digits) == Magnitude(d.c)
    requires body == Pointed(digits, d.s)
    ensures Read(Sign(d.c) + body) == Ok(d)
  {
    var u := Decimal(Magnitude(d.c), d.s);
    assert body != [] && IsDigit(body[0]) && IsDigit(body[|body| - 1]) && ReadUnsigned(body) == Ok(u) by {
      PointedReads(digits, d.s);
    }
    var read := Read(Sign(d.c) + body);
    assert read == Ok(if d.c < 0 then Decimal(-u.c, u.s) else u) by {
      SignedReads(d.c, body, u);
    }
    SignOfMagnitude(d, u.c);
  }

  lemma WrittenDigits(d: Decimal) returns (digits: string)
    requires d.s >= 0
    ensures AllDigits(digits) && |digits| > d.s && ValueOf(digits) == Magnitude(d.c)
    ensures Write(d) == Sign(d.c) + Pointed(digits, d.s)
  {
    var plain := DigitsOf(Magnitude(d.c));
    digits := Padded(plain, d.s + 1);
    PaddingIsNothing(plain, d.s + 1);
  }

  /** What is written reads back as the very same decimal, exactly when its scale is not negative. */
  lemma ReadsBackWhenScaled(d: Decimal)
    ensures Read(Write(d)) == Ok(d) <==> d.s >= 0
  {
    if d.s >= 0 {
      var digits := WrittenDigits(d);
      TextReads(d, digits, Pointed(digits, d.s));
    } else {
      ScaleIsNatural(Write(d));
    }
  }

  lemma ScaleIsNatural(text: string)
    ensures Read(text).Ok? ==> Read(text).value.s >= 0
  {
  }
}
