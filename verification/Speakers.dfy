/**
 Who is who across two chunks: a new chunk's labels go to the speakers they overlap most
 in time; a voice unheard in the overlap gets a speaker of its own.
 */
module Speakers {
  import opened Wrappers
  import opened Merging
  import DecimalText

  // ---- votes ----

  function Shared(a: Segment, b: Segment, lo: real, hi: real): real {
    Max(0.0, Min(Min(a.end, b.end), hi) - Max(Max(a.start, b.start), lo))
  }

  /** The time one new segment shares with a speaker's segments. */
  function TimeWith(n: Segment, before: seq<Segment>, speaker: Label, lo: real, hi: real): (r: real)
    ensures r >= 0.0
    ensures (forall p :: p in before ==> p.speaker != speaker) ==> r == 0.0
  {
    if before == [] then 0.0
    else
      var p := before[|before| - 1];
      TimeWith(n, before[..|before| - 1], speaker, lo, hi) + if p.speaker == speaker then Shared(n, p, lo, hi) else 0.0
  }

  /** The time a new label shares with a speaker. */
  function Vote(said: seq<Segment>, voice: Label, before: seq<Segment>, speaker: Label, lo: real, hi: real): (r: real)
    ensures r >= 0.0
    ensures (forall p :: p in before ==> p.speaker != speaker) ==> r == 0.0
  {
    if said == [] then 0.0
    else
      var n := said[|said| - 1];
      Vote(said[..|said| - 1], voice, before, speaker, lo, hi)
      + if n.speaker == voice then TimeWith(n, before, speaker, lo, hi) else 0.0
  }

  /** The speakers of some segments, each once, in the order they are first heard. */
  function SpeakersOf(ss: seq<Segment>): (r: seq<Label>)
    ensures forall l :: l in r <==> exists s :: s in ss && s.speaker == l
    ensures forall i, j :: 0 <= i < j < |r| ==> r[i] != r[j]
  {
    if ss == [] then []
    else
      var n := |ss| - 1;
      var first := SpeakersOf(ss[..n]);
      assert ss == ss[..n] + [ss[n]];
      if ss[n].speaker in first then first else first + [ss[n].speaker]
  }

  datatype Heard = Heard(best: Label, time: real)

  /** The first of the speakers with the most votes; no one when none has any. */
  function Best(speakers: seq<Label>, votes: Label -> real): (r: Heard)
    ensures r.time >= 0.0
    ensures forall l :: l in speakers ==> votes(l) <= r.time
    ensures r.time > 0.0 ==> r.best in speakers && votes(r.best) == r.time
    ensures r.time == 0.0 ==> r.best == ""
  {
    if speakers == [] then Heard("", 0.0)
    else
      var n := |speakers| - 1;
      var best := Best(speakers[..n], votes);
      if votes(speakers[n]) > best.time then Heard(speakers[n], votes(speakers[n])) else best
  }

  /** Whom a label was heard as in the overlap. */
  function HeardAs(before: seq<Segment>, said: seq<Segment>, voice: Label, lo: real, hi: real): Heard {
    Best(SpeakersOf(before), speaker => Vote(said, voice, before, speaker, lo, hi))
  }

  function Get(votes: map<Label, real>, l: Label): real {
    if l in votes then votes[l] else 0.0
  }

  /** One new segment's time added to the votes of the speakers before it. */
  method AddVotes(votes: map<Label, real>, n: Segment, before: seq<Segment>, lo: real, hi: real)
      returns (more: map<Label, real>)
    ensures forall l :: Get(more, l) == Get(votes, l) + TimeWith(n, before, l, lo, hi)
  {
    more := votes;
    for j := 0 to |before|
      invariant forall l :: Get(more, l) == Get(votes, l) + TimeWith(n, before[..j], l, lo, hi)
    {
      var p := before[j];
      assert before[..j + 1][..j] == before[..j];
      more := more[p.speaker := Get(more, p.speaker) + Shared(n, p, lo, hi)];
    }
    assert before[..|before|] == before;
  }

  method CountVotes(said: seq<Segment>, voice: Label, before: seq<Segment>, lo: real, hi: real)
      returns (votes: map<Label, real>)
    ensures forall l :: Get(votes, l) == Vote(said, voice, before, l, lo, hi)
  {
    votes := map[];
    for i := 0 to |said|
      invariant forall l :: Get(votes, l) == Vote(said[..i], voice, before, l, lo, hi)
    {
      assert said[..i + 1][..i] == said[..i];
      if said[i].speaker == voice {
        votes := AddVotes(votes, said[i], before, lo, hi);
      }
    }
    assert said[..|said|] == said;
  }

  lemma {:induction false} BestAgrees(speakers: seq<Label>, f: Label -> real, g: Label -> real)
    requires forall l :: f(l) == g(l)
    ensures Best(speakers, f) == Best(speakers, g)
  {
    if speakers != [] {
      BestAgrees(speakers[..|speakers| - 1], f, g);
    }
  }

  method HearAs(before: seq<Segment>, said: seq<Segment>, voice: Label, lo: real, hi: real) returns (heard: Heard)
    ensures heard == HeardAs(before, said, voice, lo, hi)
  {
    var votes := CountVotes(said, voice, before, lo, hi);
    BestAgrees(SpeakersOf(before), l => Get(votes, l), speaker => Vote(said, voice, before, speaker, lo, hi));
    heard := Best(SpeakersOf(before), l => Get(votes, l));
  }

  // ---- new labels ----

  function Numbered(n: nat): Label {
    "S" + DecimalText.DigitsOf(n)
  }

  lemma NumbersDiffer(m: nat, n: nat)
    requires Numbered(m) == Numbered(n)
    ensures m == n
  {
    assert Numbered(m)[1..] == DecimalText.DigitsOf(m) && Numbered(n)[1..] == DecimalText.DigitsOf(n);
  }

  lemma SubsetIsSmaller<T>(a: set<T>, b: set<T>)
    requires a <= b
    ensures |a| <= |b|
  {
    if a != {} {
      var x :| x in a;
      SubsetIsSmaller(a - {x}, b - {x});
    }
  }

  /** The search over S1, S2, ... ends, at the first number that is not taken. */
  method NextLabel(taken: set<Label>) returns (voice: Label, ghost n: nat)
    ensures n >= 1 && voice == Numbered(n) && voice !in taken
    ensures forall m: nat :: 1 <= m < n ==> Numbered(m) in taken
  {
    var k := 1;
    ghost var used: set<Label> := {};
    while Numbered(k) in taken
      invariant k >= 1 && used <= taken && |used| == k - 1
      invariant forall l :: l in used <==> exists m: nat :: 1 <= m < k && l == Numbered(m)
      invariant forall m: nat :: 1 <= m < k ==> Numbered(m) in taken
      decreases |taken| - k
    {
      if Numbered(k) in used {
        var m: nat :| 1 <= m < k && Numbered(k) == Numbered(m);
        NumbersDiffer(k, m);
        assert false;
      }
      used := used + {Numbered(k)};
      SubsetIsSmaller(used, taken);
      k := k + 1;
    }
    return Numbered(k), k;
  }

  function LabelsIn(known: seq<Label>): set<Label> {
    set l | l in known
  }

  /** The first known label no one has yet. */
  function FirstFree(known: seq<Label>, claimed: set<Label>): (r: Option<Label>)
    ensures r.Some? ==> r.value in known && r.value !in claimed
    ensures r.None? ==> forall l :: l in known ==> l in claimed
  {
    if known == [] then None
    else if known[0] !in claimed then Some(known[0])
    else FirstFree(known[1..], claimed)
  }

  // ---- the mapping ----

  predicate IsHeard(before: seq<Segment>, said: seq<Segment>, lo: real, hi: real, voice: Label) {
    HeardAs(before, said, voice, lo, hi).time > 0.0
  }

  /** No one else goes where one of these voices goes. */
  predicate Apart(labels: map<Label, Label>, voices: seq<Label>) {
    forall l, m :: l in voices && l in labels && m in labels && l != m ==> labels[l] != labels[m]
  }

  lemma AddApart(labels: map<Label, Label>, voices: seq<Label>, voice: Label, to: Label)
    requires Apart(labels, voices) && voice !in labels && to !in labels.Values
    ensures Apart(labels[voice := to], voices)
    ensures labels[voice := to].Values == labels.Values + {to}
  {
    var more := labels[voice := to];
    assert forall l :: l in labels ==> more[l] == labels[l] && labels[l] in labels.Values;
    assert more[voice] == to;
  }

  predicate HeardGoToBest(before: seq<Segment>, said: seq<Segment>, lo: real, hi: real, labels: map<Label, Label>) {
    forall l :: l in labels && IsHeard(before, said, lo, hi, l) ==> labels[l] == HeardAs(before, said, l, lo, hi).best
  }

  /** Step one: the heard labels, and the rest in order. */
  method MapHeard(before: seq<Segment>, said: seq<Segment>, lo: real, hi: real)
      returns (labels: map<Label, Label>, rest: seq<Label>)
    ensures forall l :: l in labels <==> l in SpeakersOf(said) && IsHeard(before, said, lo, hi, l)
    ensures forall l :: l in rest <==> l in SpeakersOf(said) && !IsHeard(before, said, lo, hi, l)
    ensures forall i, j :: 0 <= i < j < |rest| ==> rest[i] != rest[j]
    ensures HeardGoToBest(before, said, lo, hi, labels)
  {
    labels, rest := map[], [];
    var all := SpeakersOf(said);
    for i := 0 to |all|
      invariant forall l :: l in labels <==> l in all[..i] && IsHeard(before, said, lo, hi, l)
      invariant forall l :: l in rest <==> l in all[..i] && !IsHeard(before, said, lo, hi, l)
      invariant forall i, j :: 0 <= i < j < |rest| ==> rest[i] != rest[j]
      invariant HeardGoToBest(before, said, lo, hi, labels)
    {
      assert all[..i + 1] == all[..i] + [all[i]];
      var heard := HearAs(before, said, all[i], lo, hi);
      if heard.time > 0.0 {
        labels := labels[all[i] := heard.best];
      } else {
        rest := rest + [all[i]];
      }
    }
    assert all[..|all|] == all;
  }

  /** The voices a known label may keep: known, and no heard voice has taken them. */
  function Keepers(rest: seq<Label>, known: seq<Label>, claimed: set<Label>): (r: seq<Label>)
    requires forall i, j :: 0 <= i < j < |rest| ==> rest[i] != rest[j]
    ensures forall l :: l in r <==> l in rest && l in known && l !in claimed
    ensures forall i, j :: 0 <= i < j < |r| ==> r[i] != r[j]
  {
    if rest == [] then []
    else
      var n := |rest| - 1;
      assert rest == rest[..n] + [rest[n]];
      Keepers(rest[..n], known, claimed) + if rest[n] in known && rest[n] !in claimed then [rest[n]] else []
  }

  predicate Extends(after: map<Label, Label>, before: map<Label, Label>) {
    forall l :: l in before ==> l in after && after[l] == before[l]
  }

  /** Step two: known voices no one has taken keep their labels. */
  method KeepKnown(labels: map<Label, Label>, rest: seq<Label>, known: seq<Label>) returns (kept: map<Label, Label>)
    requires forall i, j :: 0 <= i < j < |rest| ==> rest[i] != rest[j]
    requires forall l :: l in rest ==> l !in labels
    ensures Extends(kept, labels) && Apart(kept, rest)
    ensures forall l :: l in kept <==> l in labels || (l in rest && l in known && l !in labels.Values)
    ensures forall l :: l in kept && l !in labels ==> kept[l] == l
  {
    kept := labels;
    var keepers := Keepers(rest, known, labels.Values);
    for i := 0 to |keepers|
      invariant Extends(kept, labels) && Apart(kept, rest)
      invariant forall l :: l in kept <==> l in labels || l in keepers[..i]
      invariant forall l :: l in kept && l !in labels ==> kept[l] == l
      invariant forall to :: to in kept.Values <==> to in labels.Values || to in keepers[..i]
    {
      assert keepers[..i + 1] == keepers[..i] + [keepers[i]];
      assert keepers[i] !in keepers[..i];
      AddApart(kept, rest, keepers[i], keepers[i]);
      kept := kept[keepers[i] := keepers[i]];
    }
    assert keepers[..|keepers|] == keepers;
  }

  /** Step three: each voice left gets a free known label if it is known itself, else the next number. */
  method NameOne(labels: map<Label, Label>, voice: Label, known: seq<Label>) returns (to: Label)
    ensures to !in labels.Values && (to in known ==> voice in known)
  {
    var free := if voice in known then FirstFree(known, labels.Values) else None;
    if free.Some? {
      return free.value;
    }
    ghost var n;
    to, n := NextLabel(labels.Values + LabelsIn(known));
  }

  method NameRest(kept: map<Label, Label>, rest: seq<Label>, known: seq<Label>) returns (labels: map<Label, Label>)
    requires Apart(kept, rest)
    ensures Extends(labels, kept) && Apart(labels, rest)
    ensures forall l :: l in labels <==> l in kept || l in rest
    ensures forall l :: l in labels && l !in kept ==> (labels[l] in known ==> l in known)
  {
    labels := kept;
    for i := 0 to |rest|
      invariant Extends(labels, kept) && Apart(labels, rest)
      invariant forall l :: l in labels <==> l in kept || l in rest[..i]
      invariant forall l :: l in labels && l !in kept ==> (labels[l] in known ==> l in known)
    {
      assert rest[..i + 1] == rest[..i] + [rest[i]];
      if rest[i] !in labels {
        var to := NameOne(labels, rest[i], known);
        AddApart(labels, rest, rest[i], to);
        labels := labels[rest[i] := to];
      }
    }
    assert rest[..|rest|] == rest;
  }

  /** What a mapping of a chunk's labels holds. */
  predicate IsMapping(
      before: seq<Segment>, said: seq<Segment>, lo: real, hi: real, known: seq<Label>,
      labels: map<Label, Label>)
  {
    && labels.Keys == (set l | l in SpeakersOf(said))
    && HeardGoToBest(before, said, lo, hi, labels)
    && UnheardGoAlone(before, said, lo, hi, labels)
    && KnownKeepThemselves(before, said, lo, hi, known, labels)
    && (forall l :: l in labels && !IsHeard(before, said, lo, hi, l) && labels[l] in known ==> l in known)
  }

  /** Every label unheard in the overlap goes where no other label goes. */
  predicate UnheardGoAlone(before: seq<Segment>, said: seq<Segment>, lo: real, hi: real, labels: map<Label, Label>) {
    forall l, m :: l in labels && m in labels && !IsHeard(before, said, lo, hi, l) && l != m ==> labels[l] != labels[m]
  }

  /** A known unheard label keeps itself unless a heard one took it. */
  predicate KnownKeepThemselves(
      before: seq<Segment>, said: seq<Segment>, lo: real, hi: real, known: seq<Label>, labels: map<Label, Label>)
  {
    forall l :: l in labels && l in known && !IsHeard(before, said, lo, hi, l)
        && Untaken(before, said, lo, hi, labels, l)
      ==> labels[l] == l
  }

  predicate Untaken(before: seq<Segment>, said: seq<Segment>, lo: real, hi: real, labels: map<Label, Label>, l: Label) {
    forall m :: m in labels && IsHeard(before, said, lo, hi, m) ==> labels[m] != l
  }

  method MapLabels(before: seq<Segment>, said: seq<Segment>, lo: real, hi: real, known: seq<Label>)
      returns (labels: map<Label, Label>)
    ensures IsMapping(before, said, lo, hi, known, labels)
  {
    var heard, rest := MapHeard(before, said, lo, hi);
    var kept := KeepKnown(heard, rest, known);
    labels := NameRest(kept, rest, known);
    assert forall l :: l in labels <==> l in heard || l in rest;
    assert forall l :: l in heard ==> labels[l] == heard[l];
    forall l | l in labels && l in known && !IsHeard(before, said, lo, hi, l)
        && Untaken(before, said, lo, hi, labels, l)
      ensures labels[l] == l
    {
      assert l !in heard.Values;
    }
  }
}
