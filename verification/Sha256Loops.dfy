/**
 The loops of the plain SHA-256: the reused schedule, the rounds over signed and
 unsigned values, and the digest, each proved to be the computation of FIPS 180-4.
 */
module Sha256Loops {
  import opened Words
  import opened Sha256

  // ---- the program's expressions, congruent to the standard's functions ----

  lemma XorsAreCongruent(x: int, y: int, z: int)
    ensures ToU32(JsXor(JsXor(x, y), z)) == Xor(Xor(ToU32(x), ToU32(y)), ToU32(z))
  {
    OperatorsAreCongruent(x, y);
    OperatorsAreCongruent(JsXor(x, y), z);
  }

  /** `rotr(x, p) ^ rotr(x, q) ^ rotr(x, r)`. */
  method BigSigma(x: int, p: nat, q: nat, r: nat) returns (s: int)
    requires p <= 32 && q <= 32 && r <= 32
    ensures ToU32(s) == Xor(Xor(Rotation(ToU32(x), p), Rotation(ToU32(x), q)), Rotation(ToU32(x), r))
  {
    RotrIsRotation(x, p);
    RotrIsRotation(x, q);
    RotrIsRotation(x, r);
    XorsAreCongruent(JsRotr(x, p), JsRotr(x, q), JsRotr(x, r));
    s := JsXor(JsXor(JsRotr(x, p), JsRotr(x, q)), JsRotr(x, r));
  }

  /** `rotr(x, p) ^ rotr(x, q) ^ (x >>> r)`. */
  method SmallSigma(x: int, p: nat, q: nat, r: nat) returns (s: int)
    requires p <= 32 && q <= 32
    ensures ToU32(s) == Xor(Xor(Rotation(ToU32(x), p), Rotation(ToU32(x), q)), Shr(ToU32(x), r))
  {
    RotrIsRotation(x, p);
    RotrIsRotation(x, q);
    Reduced(Shr(ToU32(x), r));
    XorsAreCongruent(JsRotr(x, p), JsRotr(x, q), JsShr(x, r));
    s := JsXor(JsXor(JsRotr(x, p), JsRotr(x, q)), JsShr(x, r));
  }

  method Choose(e: int, f: int, g: int) returns (s: int)
    ensures ToU32(s) == Ch(ToU32(e), ToU32(f), ToU32(g))
  {
    OperatorsAreCongruent(e, f);
    OperatorsAreCongruent(JsNot(e), g);
    OperatorsAreCongruent(JsAnd(e, f), JsAnd(JsNot(e), g));
    s := JsXor(JsAnd(e, f), JsAnd(JsNot(e), g));
  }

  method Majority(a: int, b: int, c: int) returns (s: int)
    ensures ToU32(s) == Maj(ToU32(a), ToU32(b), ToU32(c))
  {
    OperatorsAreCongruent(a, b);
    OperatorsAreCongruent(a, c);
    OperatorsAreCongruent(b, c);
    XorsAreCongruent(JsAnd(a, b), JsAnd(a, c), JsAnd(b, c));
    s := JsXor(JsXor(JsAnd(a, b), JsAnd(a, c)), JsAnd(b, c));
  }

  /** Two sums whose terms agree modulo 2^32 agree modulo 2^32. */
  lemma SumsAgree(a: int, b: int, x: int, y: int)
    requires ToU32(a) == ToU32(x) && ToU32(b) == ToU32(y)
    ensures ToU32(a + b) == ToU32(x + y)
  {
    SumIsCongruent(a, b);
    SumIsCongruent(x, y);
  }

  // ---- the schedule ----

  lemma ExpansionAgrees(w16: Word, w7: Word, s0: int, s1: int, z0: Word, z1: Word)
    requires ToU32(s0) == z0 && ToU32(s1) == z1
    ensures ToU32(w16 as int + s0 + w7 as int + s1) == ToU32(z1 as int + w7 as int + z0 as int + w16 as int)
  {
    Reduced(z0);
    Reduced(z1);
    SumsAgree(s0, s1, z0, z1);
    SumsAgree(s0 + s1, w16 as int + w7 as int, z0 as int + z1 as int, w16 as int + w7 as int);
  }

  method Expand(w16: Word, x: Word, w7: Word, y: Word) returns (r: Word)
    ensures r == ToU32(SmallSigma1(y) as int + w7 as int + SmallSigma0(x) as int + w16 as int)
  {
    var s0 := SmallSigma(x, 7, 18, 3);
    var s1 := SmallSigma(y, 17, 19, 10);
    Reduced(x);
    Reduced(y);
    ExpansionAgrees(w16, w7, s0, s1, SmallSigma0(x), SmallSigma1(y));
    r := ToU32(w16 + s0 + w7 + s1);
  }

  predicate Extends(e: seq<Word>, t: nat)
    requires 16 <= t < |e|
  {
    e[t] == ToU32(SmallSigma1(e[t - 2]) as int + e[t - 7] as int + SmallSigma0(e[t - 15]) as int + e[t - 16] as int)
  }

  lemma ExpandedExtends(block: Block, e: seq<Word>, t: nat)
    requires 16 <= t < 64 == |e| && forall s :: 0 <= s < 64 ==> e[s] == Expanded(block, s)
    ensures Extends(e, t)
  {
    assert e[t] == Expanded(block, t);
    assert e[t - 2] == Expanded(block, t - 2) && e[t - 7] == Expanded(block, t - 7);
    assert e[t - 15] == Expanded(block, t - 15) && e[t - 16] == Expanded(block, t - 16);
  }

  /** The schedule as a table. */
  ghost function ScheduleOf(block: Block): (e: seq<Word>)
    ensures |e| == 64 && forall t :: 0 <= t < 64 ==> e[t] == Expanded(block, t)
  {
    seq(64, t requires 0 <= t < 64 => Expanded(block, t))
  }

  method LoadSchedule(w: array<Word>, block: Block)
    requires w.Length == 64
    modifies w
    ensures forall t :: 0 <= t < 16 ==> w[t] == BigEndian(block, 4 * t)
  {
    for t := 0 to 16
      invariant forall s :: 0 <= s < t ==> w[s] == BigEndian(block, 4 * s)
    {
      WordIsBigEndian(block, t * 4);
      w[t] := ToU32(JsWord(block, t * 4));
    }
  }

  method Schedule(w: array<Word>, block: Block)
    requires w.Length == 64
    modifies w
    ensures forall t :: 0 <= t < 64 ==> w[t] == Expanded(block, t)
  {
    LoadSchedule(w, block);
    ghost var e := ScheduleOf(block);
    forall t | 16 <= t < 64
      ensures Extends(e, t)
    {
      ExpandedExtends(block, e, t);
    }
    ExtendSchedule(w, e);
  }

  method ExtendSchedule(w: array<Word>, ghost e: seq<Word>)
    requires w.Length == 64 && |e| == 64 && forall t :: 0 <= t < 16 ==> w[t] == e[t]
    requires forall t :: 16 <= t < 64 ==> Extends(e, t)
    modifies w
    ensures forall t :: 0 <= t < 64 ==> w[t] == e[t]
  {
    for t := 16 to 64
      invariant forall s :: 0 <= s < t ==> w[s] == e[s]
    {
      var x := Expand(w[t - 16], w[t - 15], w[t - 7], w[t - 2]);
      assert Extends(e, t);
      w[t] := x;
    }
  }

  // ---- the rounds ----

  /** The eight working variables, as the program holds them. */
  datatype Held = Held(a: int, b: int, c: int, d: int, e: int, f: int, g: int, h: int)

  function Reduce(v: Held): Working {
    Working(ToU32(v.a), ToU32(v.b), ToU32(v.c), ToU32(v.d), ToU32(v.e), ToU32(v.f), ToU32(v.g), ToU32(v.h))
  }

  lemma T1Agrees(hh: int, s: int, c: int, k: int, w: int, h: Word, z: Word, y: Word)
    requires ToU32(hh) == h && ToU32(s) == z && ToU32(c) == y
    ensures ToU32(ToI32(hh + s + c + k + w)) == ToU32(h as int + z as int + y as int + k + w)
  {
    Reduced(h);
    Reduced(z);
    Reduced(y);
    SumsAgree(hh, s, h, z);
    SumsAgree(hh + s, c, h as int + z as int, y);
    SumsAgree(hh + s + c, k + w, h as int + z as int + y as int, k + w);
    SignedIsCongruent(hh + s + c + k + w);
  }

  lemma T2Agrees(s: int, m: int, z: Word, y: Word)
    requires ToU32(s) == z && ToU32(m) == y
    ensures ToU32(ToI32(s + m)) == ToU32(z as int + y as int)
  {
    Reduced(z);
    Reduced(y);
    SumsAgree(s, m, z, y);
    SignedIsCongruent(s + m);
  }

  lemma SumsMeet(t1: int, t2: int, d: int, one: int, two: int, r: Word)
    requires ToU32(t1) == ToU32(one) && ToU32(t2) == ToU32(two) && ToU32(d) == r
    ensures ToU32(ToI32(t1 + t2)) == ToU32(one + two)
    ensures ToU32(ToI32(d + t1)) == ToU32(r as int + one)
  {
    Reduced(r);
    SumsAgree(t1, t2, one, two);
    SumsAgree(d, t1, r, one);
    SignedIsCongruent(t1 + t2);
    SignedIsCongruent(d + t1);
  }

  method FirstSum(v: Held, k: Word, w: Word) returns (t1: int)
    ensures ToU32(t1) == ToU32(T1Of(Reduce(v), k, w))
  {
    var s1 := BigSigma(v.e, 6, 11, 25);
    var ch := Choose(v.e, v.f, v.g);
    ghost var r := Reduce(v);
    T1Agrees(v.h, s1, ch, k, w, r.h, BigSigma1(r.e), Ch(r.e, r.f, r.g));
    t1 := ToI32(v.h + s1 + ch + k + w);
  }

  method SecondSum(v: Held) returns (t2: int)
    ensures ToU32(t2) == ToU32(T2Of(Reduce(v)))
  {
    var s0 := BigSigma(v.a, 2, 13, 22);
    var maj := Majority(v.a, v.b, v.c);
    ghost var r := Reduce(v);
    T2Agrees(s0, maj, BigSigma0(r.a), Maj(r.a, r.b, r.c));
    t2 := ToI32(s0 + maj);
  }

  /** One turn of the loop, on whatever mixture of signed and unsigned values, is one round modulo 2^32. */
  method RunRound(v: Held, k: Word, w: Word) returns (next: Held)
    ensures Reduce(next) == Round(Reduce(v), k, w)
  {
    var (a, b, c, d) := (v.a, v.b, v.c, v.d);
    var (e, f, g, hh) := (v.e, v.f, v.g, v.h);
    var t1 := FirstSum(v, k, w);
    var t2 := SecondSum(v);
    SumsMeet(t1, t2, d, T1Of(Reduce(v), k, w), T2Of(Reduce(v)), Reduce(v).d);
    hh := g;
    g := f;
    f := e;
    e := ToI32(d + t1);
    d := c;
    c := b;
    b := a;
    a := ToI32(t1 + t2);
    next := Held(a, b, c, d, e, f, g, hh);
  }

  function StateOf(h: seq<Word>): Working
    requires |h| == 8
  {
    Working(h[0], h[1], h[2], h[3], h[4], h[5], h[6], h[7])
  }

  method RunRounds(w: array<Word>, k: Table, start: Held, block: Block) returns (v: Held)
    requires w.Length == 64 && forall t :: 0 <= t < 64 ==> w[t] == Expanded(block, t)
    ensures Reduce(v) == Rounds(Reduce(start), k, block, 64)
  {
    v := start;
    for t := 0 to 64
      invariant Reduce(v) == Rounds(Reduce(start), k, block, t)
    {
      v := RunRound(v, k[t], w[t]);
    }
  }

  function AddHeld(x: Held, y: Held): Working {
    Working(ToU32(x.a + y.a), ToU32(x.b + y.b), ToU32(x.c + y.c), ToU32(x.d + y.d),
            ToU32(x.e + y.e), ToU32(x.f + y.f), ToU32(x.g + y.g), ToU32(x.h + y.h))
  }

  lemma PlusIsCongruent(x: int, y: int)
    ensures ToU32(x + y) == Plus(ToU32(x), ToU32(y))
  {
    SumIsCongruent(x, y);
  }

  lemma AddedIsCongruent(x: Held, y: Held)
    ensures AddHeld(x, y) == Added(Reduce(x), Reduce(y))
  {
    PlusIsCongruent(x.a, y.a);
    PlusIsCongruent(x.b, y.b);
    PlusIsCongruent(x.c, y.c);
    PlusIsCongruent(x.d, y.d);
    PlusIsCongruent(x.e, y.e);
    PlusIsCongruent(x.f, y.f);
    PlusIsCongruent(x.g, y.g);
    PlusIsCongruent(x.h, y.h);
  }

  function HeldOf(h: seq<Word>): Held
    requires |h| == 8
  {
    Held(h[0], h[1], h[2], h[3], h[4], h[5], h[6], h[7])
  }

  method Compress(h: array<Word>, w: array<Word>, k: Table, block: Block)
    requires h.Length == 8 && w.Length == 64 && h != w
    modifies h, w
    ensures StateOf(h[..]) == Compressed(StateOf(old(h[..])), k, block)
  {
    Schedule(w, block);
    var start := HeldOf(h[..]);
    var v := RunRounds(w, k, start, block);
    AddedIsCongruent(start, v);
    AddTo(h, v);
    ReducedState(old(h[..]));
  }

  lemma ReducedState(h: seq<Word>)
    requires |h| == 8
    ensures Reduce(HeldOf(h)) == StateOf(h)
  {
    forall i | 0 <= i < 8
      ensures ToU32(h[i]) == h[i]
    {
      Reduced(h[i]);
    }
  }

  method AddTo(h: array<Word>, v: Held)
    requires h.Length == 8
    modifies h
    ensures StateOf(h[..]) == AddHeld(HeldOf(old(h[..])), v)
  {
    h[0] := ToU32(h[0] + v.a);
    h[1] := ToU32(h[1] + v.b);
    h[2] := ToU32(h[2] + v.c);
    h[3] := ToU32(h[3] + v.d);
    h[4] := ToU32(h[4] + v.e);
    h[5] := ToU32(h[5] + v.f);
    h[6] := ToU32(h[6] + v.g);
    h[7] := ToU32(h[7] + v.h);
  }

  // ---- the digest ----

  method BigEndianOf(h: array<Word>) returns (out: array<Byte>)
    requires h.Length == 8
    ensures fresh(out) && out[..] == DigestOf(StateOf(h[..]))
  {
    out := new Byte[32](_ => 0);
    for i := 0 to 8
      invariant out[..4 * i] == Spelled(h[..i])
    {
      assert h[..i + 1][..i] == h[..i];
      ghost var before := out[..4 * i];
      SetUint32(out, i * 4, h[i]);
      assert out[..4 * (i + 1)] == before + BytesOf(h[i], 4);
    }
    var v := StateOf(h[..]);
    assert h[..8] == [v.a, v.b, v.c, v.d, v.e, v.f, v.g, v.h] && out[..32] == out[..];
  }

  /** The digest is the one the standard computes, for every byte string. */
  method Scalar(data: seq<Byte>) returns (out: array<Byte>)
    ensures out[..] == Digest(data)
  {
    var h := new Word[8](i requires 0 <= i < 8 => START[i]);
    var w := new Word[64](_ => 0);
    var blocks := Blocks(data);
    for i := 0 to |blocks|
      invariant StateOf(h[..]) == HashAfter(data, i)
    {
      Compress(h, w, Constants(), blocks[i]);
    }
    out := BigEndianOf(h);
  }
}
