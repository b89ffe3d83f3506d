/**
 SHA-256 as the plain loops compute it: blocks read in place, a built tail, a reused
 schedule and eight working variables whose values are signed or unsigned by turns.
 The reference is FIPS 180-4, sections 4.1.2, 4.2.2, 5.1.1, 5.3.3 and 6.2.2.
 */
module Sha256 {
  import opened Arithmetic
  import opened Words

  const K: seq<seq<Word>> := [
    [0x428a_2f98, 0x7137_4491, 0xb5c0_fbcf, 0xe9b5_dba5, 0x3956_c25b, 0x59f1_11f1, 0x923f_82a4, 0xab1c_5ed5],
    [0xd807_aa98, 0x1283_5b01, 0x2431_85be, 0x550c_7dc3, 0x72be_5d74, 0x80de_b1fe, 0x9bdc_06a7, 0xc19b_f174],
    [0xe49b_69c1, 0xefbe_4786, 0x0fc1_9dc6, 0x240c_a1cc, 0x2de9_2c6f, 0x4a74_84aa, 0x5cb0_a9dc, 0x76f9_88da],
    [0x983e_5152, 0xa831_c66d, 0xb003_27c8, 0xbf59_7fc7, 0xc6e0_0bf3, 0xd5a7_9147, 0x06ca_6351, 0x1429_2967],
    [0x27b7_0a85, 0x2e1b_2138, 0x4d2c_6dfc, 0x5338_0d13, 0x650a_7354, 0x766a_0abb, 0x81c2_c92e, 0x9272_2c85],
    [0xa2bf_e8a1, 0xa81a_664b, 0xc24b_8b70, 0xc76c_51a3, 0xd192_e819, 0xd699_0624, 0xf40e_3585, 0x106a_a070],
    [0x19a4_c116, 0x1e37_6c08, 0x2748_774c, 0x34b0_bcb5, 0x391c_0cb3, 0x4ed8_aa4a, 0x5b9c_ca4f, 0x682e_6ff3],
    [0x748f_82ee, 0x78a5_636f, 0x84c8_7814, 0x8cc7_0208, 0x90be_fffa, 0xa450_6ceb, 0xbef9_a3f7, 0xc671_78f2]]

  const START: seq<Word> := [
    0x6a09_e667, 0xbb67_ae85, 0x3c6e_f372, 0xa54f_f53a, 0x510e_527f, 0x9b05_688c, 0x1f83_d9ab, 0x5be0_cd19]

  const PRIMES: seq<seq<nat>> := [
    [2, 3, 5, 7, 11, 13, 17, 19],
    [23, 29, 31, 37, 41, 43, 47, 53],
    [59, 61, 67, 71, 73, 79, 83, 89],
    [97, 101, 103, 107, 109, 113, 127, 131],
    [137, 139, 149, 151, 157, 163, 167, 173],
    [179, 181, 191, 193, 197, 199, 211, 223],
    [227, 229, 233, 239, 241, 251, 257, 263],
    [269, 271, 277, 281, 283, 293, 307, 311]]

  lemma Tables()
    ensures |K| == 8 && |PRIMES| == 8 && |START| == 8
    ensures forall i :: 0 <= i < 8 ==> |K[i]| == 8 && |PRIMES[i]| == 8
  {
  }

  type Table = k: seq<Word> | |k| == 64 witness seq(64, _ => 0)

  /** The rows of `K`, one after another. */
  function Constants(): Table {
    Tables();
    seq(64, t requires 0 <= t < 64 => K[t / 8][t % 8])
  }

  // ---- the functions of section 4.1.2 ----

  function Ch(x: Word, y: Word, z: Word): Word { Xor(And(x, y), And(Not(x), z)) }
  function Maj(x: Word, y: Word, z: Word): Word { Xor(Xor(And(x, y), And(x, z)), And(y, z)) }
  function BigSigma0(x: Word): Word { Xor(Xor(Rotation(x, 2), Rotation(x, 13)), Rotation(x, 22)) }
  function BigSigma1(x: Word): Word { Xor(Xor(Rotation(x, 6), Rotation(x, 11)), Rotation(x, 25)) }
  function SmallSigma0(x: Word): Word { Xor(Xor(Rotation(x, 7), Rotation(x, 18)), Shr(x, 3)) }
  function SmallSigma1(x: Word): Word { Xor(Xor(Rotation(x, 17), Rotation(x, 19)), Shr(x, 10)) }

  // ---- the padded message of section 5.1.1 ----

  type Block = b: seq<Byte> | |b| == 64 witness seq(64, _ => 0)

  /** The low `n` bytes of a number, the highest first. */
  function BytesOf(v: nat, n: nat): (r: seq<Byte>)
    ensures |r| == n
  {
    if n == 0 then [] else BytesOf(v / 256, n - 1) + [v % 256]
  }

  function ZeroCount(n: nat): nat {
    (55 - n) % 64
  }

  function Padded(data: seq<Byte>): seq<Byte> {
    data + [0x80] + seq(ZeroCount(|data|), _ => 0) + BytesOf(8 * |data|, 8)
  }

  /** The zeros are the fewest that leave eight bytes to the end of a block. */
  lemma PaddingIsLeast(n: nat, k: nat)
    ensures (n + 1 + ZeroCount(n)) % 64 == 56
    ensures (n + 1 + k) % 64 == 56 ==> ZeroCount(n) <= k
  {
  }

  function BlockCount(data: seq<Byte>): nat {
    |Padded(data)| / 64
  }

  lemma PaddedLength(data: seq<Byte>)
    ensures |Padded(data)| == |data| + 9 + ZeroCount(|data|)
  {
  }

  lemma WholeBlocks(data: seq<Byte>)
    ensures |Padded(data)| == 64 * BlockCount(data)
  {
    PaddedLength(data);
    Whole(|data|, |Padded(data)|);
  }

  lemma Whole(n: nat, length: nat)
    requires length == n + 9 + ZeroCount(n)
    ensures length == 64 * (length / 64)
  {
  }

  function BlockAt(data: seq<Byte>, i: nat): Block
    requires i < BlockCount(data)
  {
    WholeBlocks(data);
    Padded(data)[64 * i..64 * i + 64]
  }

  // ---- the computation of section 6.2.2 ----

  function Expanded(block: Block, t: nat): Word
    requires t < 64
  {
    if t < 16 then BigEndian(block, 4 * t)
    else
      ToU32(SmallSigma1(Expanded(block, t - 2)) as int + Expanded(block, t - 7) as int
            + SmallSigma0(Expanded(block, t - 15)) as int + Expanded(block, t - 16) as int)
  }

  datatype Working = Working(a: Word, b: Word, c: Word, d: Word, e: Word, f: Word, g: Word, h: Word)

  function T1Of(v: Working, k: Word, w: Word): int {
    v.h as int + BigSigma1(v.e) as int + Ch(v.e, v.f, v.g) as int + k as int + w as int
  }

  function T2Of(v: Working): int {
    BigSigma0(v.a) as int + Maj(v.a, v.b, v.c) as int
  }

  function Round(v: Working, k: Word, w: Word): Working {
    var (t1, t2) := (T1Of(v, k, w), T2Of(v));
    Working(ToU32(t1 + t2), v.a, v.b, v.c, ToU32(v.d as int + t1), v.e, v.f, v.g)
  }

  function Rounds(v: Working, k: Table, block: Block, t: nat): Working
    requires t <= 64
  {
    if t == 0 then v else Round(Rounds(v, k, block, t - 1), k[t - 1], Expanded(block, t - 1))
  }

  function Plus(x: Word, y: Word): Word {
    ToU32(x as int + y as int)
  }

  function Added(x: Working, y: Working): Working {
    Working(Plus(x.a, y.a), Plus(x.b, y.b), Plus(x.c, y.c), Plus(x.d, y.d),
            Plus(x.e, y.e), Plus(x.f, y.f), Plus(x.g, y.g), Plus(x.h, y.h))
  }

  function Compressed(v: Working, k: Table, block: Block): Working {
    Added(v, Rounds(v, k, block, 64))
  }

  function HashAfter(data: seq<Byte>, i: nat): Working
    requires i <= BlockCount(data)
  {
    if i == 0
    then Working(START[0], START[1], START[2], START[3], START[4], START[5], START[6], START[7])
    else Compressed(HashAfter(data, i - 1), Constants(), BlockAt(data, i - 1))
  }

  /** The bytes of words, one after another. */
  function Spelled(h: seq<Word>): (r: seq<Byte>)
    ensures |r| == 4 * |h|
  {
    if h == [] then [] else Spelled(h[..|h| - 1]) + BytesOf(h[|h| - 1], 4)
  }

  function DigestOf(v: Working): (r: seq<Byte>)
    ensures |r| == 32
  {
    Spelled([v.a, v.b, v.c, v.d, v.e, v.f, v.g, v.h])
  }

  function Digest(data: seq<Byte>): seq<Byte> {
    DigestOf(HashAfter(data, BlockCount(data)))
  }

  // ---- the constants ----

  /** The fraction's first 32 bits, when the whole part of the root is `whole`. */
  predicate CubeRoot(p: nat, whole: nat, k: Word) {
    var v := whole * WORD + k as int;
    && whole * whole * whole <= p < (whole + 1) * (whole + 1) * (whole + 1)
    && v * v * v <= p * WORD * WORD * WORD < (v + 1) * (v + 1) * (v + 1)
  }

  predicate SquareRoot(p: nat, whole: nat, k: Word) {
    var v := whole * WORD + k as int;
    && whole * whole <= p < (whole + 1) * (whole + 1)
    && v * v <= p * WORD * WORD < (v + 1) * (v + 1)
  }

  function WholeRoot(p: nat): nat {
    if p < 8 then 1 else if p < 27 then 2 else if p < 64 then 3 else if p < 125 then 4 else if p < 216 then 5 else 6
  }

  predicate RootAt(i: nat, j: nat) {
    i < |K| && i < |PRIMES| && j < |K[i]| && j < |PRIMES[i]| && CubeRoot(PRIMES[i][j], WholeRoot(PRIMES[i][j]), K[i][j])
  }

  predicate RootsFrom(i: nat, j: nat)
    decreases 8 - j
  {
    j >= 8 || (RootAt(i, j) && RootsFrom(i, j + 1))
  }

  predicate SquareAt(j: nat) {
    j < |START| && j < |PRIMES[0]|
    && SquareRoot(PRIMES[0][j], if j < 2 then 1 else if j < 4 then 2 else if j < 6 then 3 else 4, START[j])
  }

  predicate SquaresFrom(j: nat)
    decreases 8 - j
  {
    j >= 8 || (SquareAt(j) && SquaresFrom(j + 1))
  }

  lemma RootsOfRows01(i: nat)
    requires 0 <= i < 2
    ensures RootsFrom(i, 0)
  {
    if i == 0 { assert RootsFrom(0, 0); } else { assert RootsFrom(1, 0); }
  }

  lemma RootsOfRows23(i: nat)
    requires 2 <= i < 4
    ensures RootsFrom(i, 0)
  {
    if i == 2 { assert RootsFrom(2, 0); } else { assert RootsFrom(3, 0); }
  }

  lemma RootsOfRows45(i: nat)
    requires 4 <= i < 6
    ensures RootsFrom(i, 0)
  {
    if i == 4 { assert RootsFrom(4, 0); } else { assert RootsFrom(5, 0); }
  }

  lemma RootsOfRows67(i: nat)
    requires 6 <= i < 8
    ensures RootsFrom(i, 0)
  {
    if i == 6 { assert RootsFrom(6, 0); } else { assert RootsFrom(7, 0); }
  }

  lemma {:induction false} RootsHold(i: nat, k: nat, j: nat)
    requires RootsFrom(i, k) && k <= j < 8
    ensures RootAt(i, j)
    decreases 8 - k
  {
    if k < j {
      RootsHold(i, k + 1, j);
    }
  }

  lemma {:induction false} SquaresHold(k: nat, j: nat)
    requires SquaresFrom(k) && k <= j < 8
    ensures SquareAt(j)
    decreases 8 - k
  {
    if k < j {
      SquaresHold(k + 1, j);
    }
  }

  /** The tables hold the first 32 bits of the fractions of the roots of the first primes (sections 4.2.2 and 5.3.3). */
  lemma ConstantsAreRoots(i: nat, j: nat)
    requires i < 8 && j < 8
    ensures RootAt(i, j) && SquareAt(j)
  {
    RootsOfRow(i);
    RootsHold(i, 0, j);
    SquaresFit();
    SquaresHold(0, j);
  }

  lemma SquaresFit()
    ensures SquaresFrom(0)
  {
  }

  lemma RootsOfRow(i: nat)
    requires i < 8
    ensures RootsFrom(i, 0)
  {
    if i < 2 {
      RootsOfRows01(i);
    } else if i < 4 {
      RootsOfRows23(i);
    } else if i < 6 {
      RootsOfRows45(i);
    } else {
      RootsOfRows67(i);
    }
  }

  // ---- blocks ----

  lemma FourBytes(v: nat)
    ensures BytesOf(v, 4) == [v / 0x100_0000 % 256, v / 0x1_0000 % 256, v / 256 % 256, v % 256]
  {
    assert BytesOf(v / 256 / 256 / 256, 1) == [v / 256 / 256 / 256 % 256];
    assert BytesOf(v / 256 / 256, 2) == [v / 256 / 256 / 256 % 256, v / 256 / 256 % 256];
    assert BytesOf(v / 256, 3) == [v / 256 / 256 / 256 % 256, v / 256 / 256 % 256, v / 256 % 256];
  }

  lemma {:induction false} HighAndLow(v: nat, high: nat, m: nat, n: nat, p: nat)
    requires p == Pow2(8 * n) && high == v / p
    ensures BytesOf(v, m + n) == BytesOf(high, m) + BytesOf(v, n)
    decreases n
  {
    if n > 0 {
      var q := Pow2(8 * (n - 1));
      ByteMore(n);
      Divided(v, 256, q);
      HighAndLow(v / 256, high, m, n - 1, q);
    }
  }

  lemma ByteMore(n: nat)
    requires n > 0
    ensures Pow2(8 * n) == 256 * Pow2(8 * (n - 1))
  {
    PowersMultiply(8, 8 * (n - 1));
    PowersOfWords();
  }

  lemma {:induction false} LowBytes(v: nat, w: nat, n: nat)
    requires v % Pow2(8 * n) == w % Pow2(8 * n)
    ensures BytesOf(v, n) == BytesOf(w, n)
  {
    if n > 0 {
      var p := Pow2(8 * (n - 1));
      ByteMore(n);
      SameLow(v, w, p);
      LowBytes(v / 256, w / 256, n - 1);
    }
  }

  lemma SameLow(v: nat, w: nat, p: nat)
    requires p > 0 && v % (256 * p) == w % (256 * p)
    ensures v % 256 == w % 256 && (v / 256) % p == (w / 256) % p
  {
    LowOf(v, p);
    LowOf(w, p);
  }

  /** The low part of a number says its low byte and the low part of the rest. */
  lemma LowOf(v: nat, p: nat)
    requires p > 0
    ensures v % 256 == (v % (256 * p)) % 256
    ensures (v / 256) % p == (v % (256 * p)) / 256
  {
    var (q, r) := (v / (256 * p), v % (256 * p));
    var (s, t) := (r / 256, r % 256);
    assert v == 256 * (q * p + s) + t;
    OneQuotient(v / 256, v % 256, q * p + s, t, 256);
    assert s < p;
    Remainder(v / 256, q, p, s);
  }

  /** The two halves the program writes are the message's length in bits, as eight bytes, whatever the length. */
  lemma LengthHalves(n: nat)
    ensures BytesOf(n / 0x2000_0000, 4) + BytesOf(n * 8 % WORD, 4) == BytesOf(8 * n, 8)
  {
    PowersOfWords();
    assert 8 * n / WORD == n / 0x2000_0000;
    HighAndLow(8 * n, n / 0x2000_0000, 4, 4, WORD);
    LowBytes(n * 8 % WORD, 8 * n, 4);
  }

  /** `setUint32`: a number modulo 2^32, its high byte first. */
  method SetUint32(bytes: array<Byte>, at: nat, v: nat)
    requires at + 4 <= bytes.Length
    modifies bytes
    ensures bytes[..] == old(bytes[..at]) + BytesOf(v, 4) + old(bytes[at + 4..])
  {
    FourBytes(v);
    bytes[at] := v / 0x100_0000 % 256;
    bytes[at + 1] := v / 0x1_0000 % 256;
    bytes[at + 2] := v / 256 % 256;
    bytes[at + 3] := v % 256;
    assert bytes[..] == bytes[..at] + bytes[at..at + 4] + bytes[at + 4..];
  }

  lemma TailSize(n: nat, full: nat, size: nat)
    requires full == n - n % 64 && size == if n - full < 56 then 64 else 128
    ensures n - full + 9 <= size && ZeroCount(n) == size - 9 - (n - full)
  {
  }

  lemma TailParts(data: seq<Byte>, full: nat, size: nat)
    requires full == |data| - |data| % 64 && size == if |data| - full < 56 then 64 else 128
    ensures |Padded(data)| == full + size && |data| - full + 9 <= size
    ensures Padded(data)[full..]
         == data[full..] + [0x80] + seq(size - 9 - (|data| - full), _ => 0) + BytesOf(8 * |data|, 8)
  {
    TailSize(|data|, full, size);
    PaddedLength(data);
    var zeros: seq<Byte> := seq(ZeroCount(|data|), _ => 0);
    assert seq(size - 9 - (|data| - full), _ => 0) == zeros;
    Dropped(data, [0x80], zeros, BytesOf(8 * |data|, 8), full);
  }

  lemma Dropped(a: seq<Byte>, b: seq<Byte>, c: seq<Byte>, d: seq<Byte>, k: nat)
    requires k <= |a|
    ensures (a + b + c + d)[k..] == a[k..] + b + c + d
  {
  }

  /** The tail before its length is written: the last bytes, the marker and zeros. */
  function Unfinished(data: seq<Byte>, full: nat, size: nat): seq<Byte>
    requires full <= |data| && |data| - full + 9 <= size
  {
    data[full..] + [0x80] + seq(size - 9 - (|data| - full), _ => 0)
  }

  method CopyTail(data: seq<Byte>, full: nat, size: nat) returns (tail: array<Byte>)
    requires full <= |data| && |data| - full + 9 <= size
    ensures fresh(tail) && tail.Length == size && tail[..size - 8] == Unfinished(data, full, size)
  {
    tail := new Byte[size](_ => 0);
    for i := 0 to |data| - full
      invariant forall j :: 0 <= j < tail.Length ==> tail[j] == if j < i then data[full + j] else 0
    {
      tail[i] := data[full + i];
    }
    tail[|data| - full] := 0x80;
  }

  method TailOf(data: seq<Byte>) returns (tail: array<Byte>)
    ensures fresh(tail)
    ensures tail[..] == Padded(data)[|data| - |data| % 64..]
    ensures tail.Length == 64 || tail.Length == 128
  {
    var n := |data|;
    var full := n - n % 64;
    var size := if n - full < 56 then 64 else 128;
    TailParts(data, full, size);
    tail := CopyTail(data, full, size);
    ghost var before := tail[..size - 8];
    SetUint32(tail, size - 8, n / 0x2000_0000);
    assert tail[..size - 4] == before + BytesOf(n / 0x2000_0000, 4);
    SetUint32(tail, size - 4, n * 8 % WORD);
    assert tail[..] == before + BytesOf(n / 0x2000_0000, 4) + BytesOf(n * 8 % WORD, 4);
    LengthHalves(n);
    assert tail[..] == before + BytesOf(8 * n, 8);
  }

  lemma BlockInPlace(data: seq<Byte>, k: nat)
    requires 64 * k + 64 <= |data|
    ensures k < BlockCount(data) && BlockAt(data, k) == data[64 * k..64 * k + 64]
  {
    WholeBlocks(data);
    PaddedLength(data);
    assert Padded(data)[..|data|] == data;
  }

  lemma BlockInTail(data: seq<Byte>, full: nat, tail: seq<Byte>, k: nat)
    requires full <= |data| <= |Padded(data)| && tail == Padded(data)[full..]
    requires full <= 64 * k && 64 * k - full + 64 <= |tail|
    ensures k < BlockCount(data) && BlockAt(data, k) == tail[64 * k - full..64 * k - full + 64]
  {
    WholeBlocks(data);
  }

  /** Blocks handed on so far are the first blocks of the padded message. */
  predicate AreFirst(data: seq<Byte>, blocks: seq<Block>) {
    |blocks| <= BlockCount(data) && forall k :: 0 <= k < |blocks| ==> blocks[k] == BlockAt(data, k)
  }

  lemma OneMoreBlock(data: seq<Byte>, blocks: seq<Block>, b: Block)
    requires AreFirst(data, blocks) && |blocks| < BlockCount(data) && b == BlockAt(data, |blocks|)
    ensures AreFirst(data, blocks + [b])
  {
  }

  method BlocksInPlace(data: seq<Byte>, full: nat) returns (blocks: seq<Block>)
    requires full == 64 * (|data| / 64)
    ensures AreFirst(data, blocks) && 64 * |blocks| == full
  {
    blocks := [];
    var i := 0;
    while i < full
      invariant 0 <= i <= full && i == 64 * |blocks|
      invariant AreFirst(data, blocks)
    {
      BlockInPlace(data, |blocks|);
      OneMoreBlock(data, blocks, data[i..i + 64]);
      blocks := blocks + [data[i..i + 64]];
      i := i + 64;
    }
  }

  /** The block of the tail at its own offset is the next block of the message. */
  lemma TailBlock(data: seq<Byte>, full: nat, tail: seq<Byte>, k: nat, i: nat)
    requires full <= |data| <= |Padded(data)| && tail == Padded(data)[full..]
    requires full + i == 64 * k && i + 64 <= |tail|
    ensures k < BlockCount(data) && BlockAt(data, k) == tail[i..i + 64]
  {
    BlockInTail(data, full, tail, k);
  }

  method BlocksOfTail(data: seq<Byte>, full: nat, tail: seq<Byte>, first: seq<Block>) returns (blocks: seq<Block>)
    requires full <= |data| <= |Padded(data)| && tail == Padded(data)[full..]
    requires |tail| == 64 || |tail| == 128
    requires AreFirst(data, first) && 64 * |first| == full
    ensures AreFirst(data, blocks) && 64 * |blocks| == full + |tail|
  {
    blocks := first;
    var i := 0;
    while i < |tail|
      invariant (i == 0 || i == 64 || i == 128) && i <= |tail| && full + i == 64 * |blocks|
      invariant AreFirst(data, blocks)
    {
      TailBlock(data, full, tail, |blocks|, i);
      OneMoreBlock(data, blocks, tail[i..i + 64]);
      blocks := blocks + [tail[i..i + 64]];
      i := i + 64;
    }
  }

  /** The blocks handed on, in place and then from the tail, are the blocks of the padded message, in order. */
  method Blocks(data: seq<Byte>) returns (blocks: seq<Block>)
    ensures |blocks| == BlockCount(data)
    ensures forall i :: 0 <= i < |blocks| ==> blocks[i] == BlockAt(data, i)
  {
    var full := |data| - |data| % 64;
    var tail := TailOf(data);
    var first := BlocksInPlace(data, full);
    TailLength(data, full, tail[..]);
    blocks := BlocksOfTail(data, full, tail[..], first);
  }

  lemma TailLength(data: seq<Byte>, full: nat, tail: seq<Byte>)
    requires full == |data| - |data| % 64 && tail == Padded(data)[full..]
    ensures full <= |data| <= |Padded(data)| && full + |tail| == 64 * BlockCount(data)
  {
    WholeBlocks(data);
    PaddedLength(data);
  }
}
