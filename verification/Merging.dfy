/**
 Joining one chunk's segments onto the transcript so far: the overlap is cut once, or the
 utterance that runs through it is spliced from its two hearings. Times are exact seconds;
 splitting a text into words and normalising a word are parameters.
 */
module Merging {
  import opened Wrappers

  type Label = string

  datatype Segment = Segment(speaker: Label, start: real, end: real, text: string)

  datatype Language = Language(split: string -> seq<string>, token: string -> string, join: seq<string> -> string)

  const EDGE: real := 0.5

  function Min(a: real, b: real): real { if a <= b then a else b }
  function Max(a: real, b: real): real { if a >= b then a else b }
  function Distance(a: real, b: real): real { if a <= b then b - a else a - b }

  // ---- words ----

  function Tokens(lang: Language, words: seq<string>): (r: seq<string>)
    ensures |r| == |words|
  {
    seq(|words|, i requires 0 <= i < |words| => lang.token(words[i]))
  }

  function NonEmpty(words: seq<string>): seq<string> {
    if words == [] then []
    else
      var n := |words| - 1;
      NonEmpty(words[..n]) + if words[n] == "" then [] else [words[n]]
  }

  /** The words of a text, as they are compared. */
  function Words(lang: Language, text: string): seq<string> {
    NonEmpty(Tokens(lang, lang.split(text)))
  }

  /** Whether the last `k` words of `heard` stand in `words` at `j`. */
  predicate RunAt(heard: seq<string>, words: seq<string>, k: nat, j: nat) {
    k <= |heard| && j + k <= |words| && words[j..j + k] == heard[|heard| - k..]
  }

  /** A splice after a run repeats the longest run of last words there is, where it first stands. */
  ghost predicate LongestRun(heard: seq<string>, words: seq<string>, k: nat, j: nat) {
    && k >= 2 && RunAt(heard, words, k, j)
    && (forall l: nat, i: nat :: l > k ==> !RunAt(heard, words, l, i))
    && (forall i: nat :: i < j ==> !RunAt(heard, words, k, i))
  }

  /** Where the second hearing goes on: after the longest repeated run of two words or more, if any. */
  method FindRun(heard: seq<string>, words: seq<string>) returns (r: Option<nat>)
    ensures r.Some? ==> r.value <= |words|
    ensures r.Some? ==> exists k: nat, j: nat :: LongestRun(heard, words, k, j) && r.value == j + k
    ensures r.None? ==> forall k: nat, j: nat :: k >= 2 ==> !RunAt(heard, words, k, j)
  {
    var k := if |heard| <= |words| then |heard| else |words|;
    while k >= 2
      invariant forall l: nat, i: nat :: l > k ==> !RunAt(heard, words, l, i)
    {
      var j := 0;
      while j + k <= |words|
        invariant forall i: nat :: i < j ==> !RunAt(heard, words, k, i)
      {
        if RunAt(heard, words, k, j) {
          assert LongestRun(heard, words, k, j);
          return Some(j + k);
        }
        j := j + 1;
      }
      k := k - 1;
    }
    return None;
  }

  function Round(x: real): int {
    (x + 0.5).Floor
  }

  /** With no repeated run, the share of the words that the overlap holds. */
  function Share(count: nat, heard: real): (r: nat)
    ensures r <= count
  {
    var part := Min(1.0, Max(0.0, heard));
    ShareFits(count, part);
    Round(count as real * part)
  }

  lemma ShareFits(count: nat, part: real)
    requires 0.0 <= part <= 1.0
    ensures 0 <= Round(count as real * part) <= count
  {
    assert count as real * part <= count as real;
  }

  /** Where the second hearing goes on in a splice: after the longest run it repeats, else after its share. */
  ghost predicate GoesOnAt(heard: seq<string>, words: seq<string>, share: real, from: nat) {
    if exists k: nat, j: nat :: k >= 2 && RunAt(heard, words, k, j)
    then exists k: nat, j: nat :: LongestRun(heard, words, k, j) && from == j + k
    else from == Share(|words|, share)
  }

  /** Two hearings of one utterance as one text: all of the first, and the second from some word on. */
  ghost predicate IsSplicedText(lang: Language, text: string, b: string, n: string, heard: real) {
    exists from: nat ::
      && GoesOnAt(Tokens(lang, lang.split(b)), Tokens(lang, lang.split(n)), heard, from)
      && from <= |lang.split(n)| && text == lang.join([b] + lang.split(n)[from..])
  }

  method Splice(lang: Language, b: string, n: string, heard: real) returns (text: string)
    ensures IsSplicedText(lang, text, b, n, heard)
  {
    var nt := lang.split(n);
    var run := FindRun(Tokens(lang, lang.split(b)), Tokens(lang, nt));
    if run.Some? {
      return lang.join([b] + nt[run.value..]);
    }
    var share := Share(|nt|, heard);
    return lang.join([b] + nt[share..]);
  }

  // ---- where the overlap is cut ----

  function Middle(s: Segment): real {
    (s.start + s.end) / 2.0
  }

  predicate Inside(t: real, lo: real, hi: real) {
    lo + EDGE < t < hi - EDGE
  }

  function EndsInside(ss: seq<Segment>, lo: real, hi: real): (r: seq<real>)
    ensures forall t :: t in r ==> Inside(t, lo, hi)
    ensures forall s :: s in ss && Inside(s.end, lo, hi) ==> s.end in r
  {
    if ss == [] then []
    else
      var n := |ss| - 1;
      EndsInside(ss[..n], lo, hi) + if Inside(ss[n].end, lo, hi) then [ss[n].end] else []
  }

  function StartsInside(ss: seq<Segment>, lo: real, hi: real): (r: seq<real>)
    ensures forall t :: t in r ==> Inside(t, lo, hi)
    ensures forall s :: s in ss && Inside(s.start, lo, hi) ==> s.start in r
  {
    if ss == [] then []
    else
      var n := |ss| - 1;
      StartsInside(ss[..n], lo, hi) + if Inside(ss[n].start, lo, hi) then [ss[n].start] else []
  }

  /** The first of the times nearest the middle. */
  function Nearest(times: seq<real>, middle: real): (r: real)
    requires times != []
    ensures r in times && forall t :: t in times ==> Distance(r, middle) <= Distance(t, middle)
  {
    if |times| == 1 then times[0]
    else
      var n := |times| - 1;
      var best := Nearest(times[..n], middle);
      if Distance(times[n], middle) < Distance(best, middle) then times[n] else best
  }

  function CutOf(bounds: seq<real>, lo: real, hi: real): real {
    var middle := (lo + hi) / 2.0;
    if bounds == [] then middle else Nearest(bounds, middle)
  }

  function BeforeCut(ss: seq<Segment>, cut: real): seq<Segment> {
    if ss == [] then []
    else
      var n := |ss| - 1;
      BeforeCut(ss[..n], cut) + if Middle(ss[n]) < cut then [ss[n]] else []
  }

  function AfterCut(ss: seq<Segment>, cut: real): seq<Segment> {
    if ss == [] then []
    else
      var n := |ss| - 1;
      AfterCut(ss[..n], cut) + if Middle(ss[n]) >= cut then [ss[n]] else []
  }

  /** The first segment not cut off by the start of its chunk; the length when there is none. */
  function FirstWhole(ss: seq<Segment>, lo: real): (at: nat)
    ensures at <= |ss|
    ensures forall i :: 0 <= i < at ==> ss[i].end <= lo + EDGE
    ensures at < |ss| ==> ss[at].end > lo + EDGE
  {
    if ss == [] then 0
    else if ss[0].end > lo + EDGE then 0
    else FirstWhole(ss[1..], lo) + 1
  }

  /** The label another is mapped to, itself when it is not mapped. */
  function Mapped(labels: map<Label, Label>, voice: Label): Label {
    if voice in labels then labels[voice] else voice
  }

  function Relabelled(labels: map<Label, Label>, s: Segment): Segment {
    s.(speaker := Mapped(labels, s.speaker))
  }

  function RelabelledAll(labels: map<Label, Label>, ss: seq<Segment>): (r: seq<Segment>)
    ensures |r| == |ss| && forall i :: 0 <= i < |ss| ==> r[i] == Relabelled(labels, ss[i])
  {
    seq(|ss|, i requires 0 <= i < |ss| => Relabelled(labels, ss[i]))
  }

  // ---- the join ----

  /** One utterance runs through the whole overlap, heard by both chunks. */
  predicate RunsThrough(before: seq<Segment>, hi: real, lo: real, said: seq<Segment>) {
    var at := FirstWhole(said, lo);
    && EndsInside(before, lo, hi) + StartsInside(said, lo, hi) == []
    && before != [] && at < |said|
    && before[|before| - 1].end >= hi - EDGE && said[at].start <= lo + EDGE
  }

  /** The first new segment repeats the last one kept. */
  predicate Repeats(lang: Language, kept: seq<Segment>, added: seq<Segment>) {
    kept != [] && added != [] && Words(lang, kept[|kept| - 1].text) == Words(lang, added[0].text)
  }

  /** What a join makes of its two sides: what is kept, at most one spliced segment, and what is added. */
  datatype Join = Join(kept: seq<Segment>, spliced: seq<Segment>, added: seq<Segment>)

  /** The share of an utterance that lies in the overlap. */
  function HeardOf(n: Segment, hi: real): real {
    (hi - n.start) / Max(EDGE, n.end - n.start)
  }

  ghost predicate IsSplice(lang: Language, s: Segment, b: Segment, n: Segment, hi: real) {
    && s.speaker == b.speaker && s.start == b.start && s.end == n.end
    && IsSplicedText(lang, s.text, b.text, n.text, HeardOf(n, hi))
  }

  ghost predicate IsSplicedJoin(
      lang: Language, before: seq<Segment>, hi: real, lo: real, said: seq<Segment>, labels: map<Label, Label>, j: Join)
    requires RunsThrough(before, hi, lo, said)
  {
    var at := FirstWhole(said, lo);
    && j.kept == before[..|before| - 1]
    && |j.spliced| == 1 && IsSplice(lang, j.spliced[0], before[|before| - 1], said[at], hi)
    && j.added == RelabelledAll(labels, said[at + 1..])
  }

  /** The join cut at the boundary nearest the overlap's middle. */
  function CutJoin(
      lang: Language, before: seq<Segment>, hi: real, lo: real, said: seq<Segment>,
      labels: map<Label, Label>): Join
  {
    var cut := CutOf(EndsInside(before, lo, hi) + StartsInside(said, lo, hi), lo, hi);
    var (kept, later) := (BeforeCut(before, cut), RelabelledAll(labels, AfterCut(said, cut)));
    Join(kept, [], if Repeats(lang, kept, later) then later[1..] else later)
  }

  ghost predicate IsJoin(
      lang: Language, before: seq<Segment>, hi: real, lo: real, said: seq<Segment>, labels: map<Label, Label>, j: Join)
  {
    if RunsThrough(before, hi, lo, said)
    then IsSplicedJoin(lang, before, hi, lo, said, labels, j)
    else j == CutJoin(lang, before, hi, lo, said, labels)
  }

  function Joined(j: Join): seq<Segment> {
    j.kept + j.spliced + j.added
  }

  method SpliceOn(lang: Language, b: Segment, n: Segment, hi: real) returns (one: Segment)
    ensures IsSplice(lang, one, b, n, hi)
  {
    var text := Splice(lang, b.text, n.text, HeardOf(n, hi));
    one := Segment(b.speaker, b.start, n.end, text);
  }

  method CutOn(lang: Language, before: seq<Segment>, hi: real, lo: real, said: seq<Segment>, labels: map<Label, Label>)
      returns (segments: seq<Segment>)
    ensures segments == Joined(CutJoin(lang, before, hi, lo, said, labels))
  {
    var cut := CutOf(EndsInside(before, lo, hi) + StartsInside(said, lo, hi), lo, hi);
    var kept, added := BeforeCut(before, cut), RelabelledAll(labels, AfterCut(said, cut));
    if Repeats(lang, kept, added) {
      added := added[1..];
    }
    assert kept + [] + added == kept + added;
    return kept + added;
  }

  method JoinOn(lang: Language, before: seq<Segment>, hi: real, lo: real, said: seq<Segment>, labels: map<Label, Label>)
      returns (segments: seq<Segment>)
    ensures exists j :: IsJoin(lang, before, hi, lo, said, labels, j) && segments == Joined(j)
  {
    if !RunsThrough(before, hi, lo, said) {
      segments := CutOn(lang, before, hi, lo, said, labels);
      assert IsJoin(lang, before, hi, lo, said, labels, CutJoin(lang, before, hi, lo, said, labels));
      return;
    }
    var at := FirstWhole(said, lo);
    var one := SpliceOn(lang, before[|before| - 1], said[at], hi);
    ghost var j := Join(before[..|before| - 1], [one], RelabelledAll(labels, said[at + 1..]));
    assert IsJoin(lang, before, hi, lo, said, labels, j);
    return before[..|before| - 1] + [one] + RelabelledAll(labels, said[at + 1..]);
  }

  // ---- nothing outside the overlap is lost ----

  predicate WhollyBefore(s: Segment, lo: real) {
    s.start <= lo && s.end <= lo
  }

  predicate WhollyAfter(s: Segment, hi: real) {
    s.start >= hi && s.end >= hi
  }

  function Earlier(ss: seq<Segment>, lo: real): (r: seq<Segment>)
    ensures forall s :: s in ss && WhollyBefore(s, lo) <==> s in r
  {
    if ss == [] then []
    else
      var n := |ss| - 1;
      Earlier(ss[..n], lo) + if WhollyBefore(ss[n], lo) then [ss[n]] else []
  }

  function Later(ss: seq<Segment>, hi: real): (r: seq<Segment>)
    ensures forall s :: s in ss && WhollyAfter(s, hi) <==> s in r
  {
    if ss == [] then []
    else
      var n := |ss| - 1;
      Later(ss[..n], hi) + if WhollyAfter(ss[n], hi) then [ss[n]] else []
  }

  lemma EarlierAndOne(ss: seq<Segment>, s: Segment, lo: real)
    ensures Earlier(ss + [s], lo) == Earlier(ss, lo) + if WhollyBefore(s, lo) then [s] else []
  {
    assert (ss + [s])[..|ss|] == ss;
  }

  lemma LaterAndOne(ss: seq<Segment>, s: Segment, hi: real)
    ensures Later(ss + [s], hi) == Later(ss, hi) + if WhollyAfter(s, hi) then [s] else []
  {
    assert (ss + [s])[..|ss|] == ss;
  }

  lemma {:induction false} LaterInTwo(a: seq<Segment>, b: seq<Segment>, hi: real)
    ensures Later(a + b, hi) == Later(a, hi) + Later(b, hi)
  {
    if b == [] {
      assert a + b == a;
    } else {
      var n := |b| - 1;
      assert (a + b)[..|a + b| - 1] == a + b[..n];
      LaterInTwo(a, b[..n], hi);
    }
  }

  lemma {:induction false} LaterRelabelled(labels: map<Label, Label>, ss: seq<Segment>, hi: real)
    ensures Later(RelabelledAll(labels, ss), hi) == RelabelledAll(labels, Later(ss, hi))
  {
    if ss != [] {
      var n := |ss| - 1;
      LaterRelabelled(labels, ss[..n], hi);
      assert RelabelledAll(labels, ss)[..n] == RelabelledAll(labels, ss[..n]);
    }
  }

  lemma {:induction false} KeptKeepsEarlier(ss: seq<Segment>, cut: real, lo: real)
    requires forall s :: s in ss && WhollyBefore(s, lo) ==> Middle(s) < cut
    ensures Earlier(BeforeCut(ss, cut), lo) == Earlier(ss, lo)
  {
    if ss != [] {
      var n := |ss| - 1;
      KeptKeepsEarlier(ss[..n], cut, lo);
      if Middle(ss[n]) < cut {
        EarlierAndOne(BeforeCut(ss[..n], cut), ss[n], lo);
      } else {
        assert BeforeCut(ss, cut) == BeforeCut(ss[..n], cut);
        assert !WhollyBefore(ss[n], lo);
      }
    }
  }

  lemma {:induction false} AddedKeepsLater(ss: seq<Segment>, cut: real, hi: real)
    requires cut <= hi
    ensures Later(AfterCut(ss, cut), hi) == Later(ss, hi)
  {
    if ss != [] {
      var n := |ss| - 1;
      AddedKeepsLater(ss[..n], cut, hi);
      if Middle(ss[n]) >= cut {
        LaterAndOne(AfterCut(ss[..n], cut), ss[n], hi);
      } else {
        assert AfterCut(ss, cut) == AfterCut(ss[..n], cut);
        assert !WhollyAfter(ss[n], hi);
      }
    }
  }

  lemma CutIsInside(bounds: seq<real>, lo: real, hi: real)
    requires lo <= hi && forall t :: t in bounds ==> Inside(t, lo, hi)
    ensures lo <= CutOf(bounds, lo, hi) <= hi
    ensures lo < hi ==> lo < CutOf(bounds, lo, hi) < hi
  {
  }

  lemma {:induction false} NoneLater(ss: seq<Segment>, hi: real)
    requires forall s :: s in ss ==> !WhollyAfter(s, hi)
    ensures Later(ss, hi) == []
  {
    if ss != [] {
      NoneLater(ss[..|ss| - 1], hi);
    }
  }

  lemma SplicedKeepsLater(said: seq<Segment>, at: nat, hi: real, labels: map<Label, Label>)
    requires at < |said| && forall i :: 0 <= i <= at ==> !WhollyAfter(said[i], hi)
    ensures Later(RelabelledAll(labels, said[at + 1..]), hi) == RelabelledAll(labels, Later(said, hi))
  {
    assert said == said[..at + 1] + said[at + 1..];
    LaterInTwo(said[..at + 1], said[at + 1..], hi);
    NoneLater(said[..at + 1], hi);
    LaterRelabelled(labels, said[at + 1..], hi);
    assert [] + Later(said[at + 1..], hi) == Later(said[at + 1..], hi);
  }

  lemma CutKeeps(before: seq<Segment>, hi: real, lo: real, said: seq<Segment>, labels: map<Label, Label>, cut: real)
    requires lo <= hi && cut == CutOf(EndsInside(before, lo, hi) + StartsInside(said, lo, hi), lo, hi)
    ensures lo < hi ==> Earlier(BeforeCut(before, cut), lo) == Earlier(before, lo)
    ensures Later(RelabelledAll(labels, AfterCut(said, cut)), hi) == RelabelledAll(labels, Later(said, hi))
  {
    CutIsInside(EndsInside(before, lo, hi) + StartsInside(said, lo, hi), lo, hi);
    if lo < hi {
      KeptKeepsEarlier(before, cut, lo);
    }
    AddedKeepsLater(said, cut, hi);
    LaterRelabelled(labels, AfterCut(said, cut), hi);
  }

  /** The new segment that repeats the last one kept, if the first does. */
  function Repeated(lang: Language, kept: seq<Segment>, later: seq<Segment>): seq<Segment> {
    if Repeats(lang, kept, later) then [later[0]] else []
  }

  /** The new segments a join dropped because they repeat the last kept one: none, or the first. */
  function Dropped(
      lang: Language, before: seq<Segment>, hi: real, lo: real, said: seq<Segment>, labels: map<Label, Label>):
      seq<Segment>
  {
    if RunsThrough(before, hi, lo, said) then []
    else
      var cut := CutOf(EndsInside(before, lo, hi) + StartsInside(said, lo, hi), lo, hi);
      Repeated(lang, BeforeCut(before, cut), RelabelledAll(labels, AfterCut(said, cut)))
  }

  lemma WithItsFirst(ss: seq<Segment>)
    ensures ss != [] ==> [ss[0]] + ss[1..] == ss
    ensures [] + ss == ss
  {
  }

  lemma CutKeepsLater(
      lang: Language, before: seq<Segment>, hi: real, lo: real, said: seq<Segment>, labels: map<Label, Label>, j: Join)
    requires !RunsThrough(before, hi, lo, said) && j == CutJoin(lang, before, hi, lo, said, labels) && lo <= hi
    ensures Later(Dropped(lang, before, hi, lo, said, labels) + j.added, hi) == RelabelledAll(labels, Later(said, hi))
  {
    var cut := CutOf(EndsInside(before, lo, hi) + StartsInside(said, lo, hi), lo, hi);
    var later := RelabelledAll(labels, AfterCut(said, cut));
    assert Dropped(lang, before, hi, lo, said, labels) + j.added == later by {
      WithItsFirst(later);
    }
    CutKeeps(before, hi, lo, said, labels, cut);
  }

  lemma CutKeepsEarlier(
      lang: Language, before: seq<Segment>, hi: real, lo: real, said: seq<Segment>, labels: map<Label, Label>, j: Join)
    requires !RunsThrough(before, hi, lo, said) && j == CutJoin(lang, before, hi, lo, said, labels) && lo < hi
    ensures Earlier(j.kept, lo) == Earlier(before, lo)
  {
    CutKeeps(before, hi, lo, said, labels, CutOf(EndsInside(before, lo, hi) + StartsInside(said, lo, hi), lo, hi));
  }

  // ---- over any overlap ----

  lemma LastEarlier(before: seq<Segment>, lo: real)
    requires before != [] && WhollyBefore(before[|before| - 1], lo)
    ensures Earlier(before, lo) == Earlier(before[..|before| - 1], lo) + [before[|before| - 1]]
  {
  }

  /** A segment of no length at the very cut. */
  predicate StandsAt(ss: seq<Segment>, t: real) {
    exists s :: s in ss && s.start == t && s.end == t
  }

  lemma {:induction false} KeptIsBeforeCut(ss: seq<Segment>, cut: real)
    ensures forall s :: s in BeforeCut(ss, cut) ==> Middle(s) < cut
  {
    if ss != [] {
      KeptIsBeforeCut(ss[..|ss| - 1], cut);
    }
  }

  lemma CutAtTheStart(ss: seq<Segment>, lo: real)
    ensures Earlier(BeforeCut(ss, lo), lo) == Earlier(ss, lo) <==> !StandsAt(ss, lo)
  {
    if StandsAt(ss, lo) {
      var s :| s in ss && s.start == lo && s.end == lo;
      KeptIsBeforeCut(ss, lo);
      assert s in Earlier(ss, lo) && s !in Earlier(BeforeCut(ss, lo), lo);
    } else {
      KeptKeepsEarlier(ss, lo, lo);
    }
  }

  lemma NoOverlapCut(before: seq<Segment>, said: seq<Segment>, t: real)
    ensures CutOf(EndsInside(before, t, t) + StartsInside(said, t, t), t, t) == t
  {
    var bounds := EndsInside(before, t, t) + StartsInside(said, t, t);
    assert bounds != [] ==> Inside(bounds[0], t, t);
  }

  /**
   Over any overlap at all, earlier segments are kept unless the last of them ends before the
   overlap and is still taken for an utterance that runs through it, or, where there is no
   overlap, one of no length stands at the cut.
   */
  lemma EarlierIsKeptWhen(
      lang: Language, before: seq<Segment>, hi: real, lo: real, said: seq<Segment>, labels: map<Label, Label>, j: Join)
    requires IsJoin(lang, before, hi, lo, said, labels, j) && lo <= hi
    ensures Earlier(j.kept, lo) == Earlier(before, lo)
       <==> if RunsThrough(before, hi, lo, said)
            then !WhollyBefore(before[|before| - 1], lo)
            else lo < hi || !StandsAt(before, lo)
  {
    if RunsThrough(before, hi, lo, said) {
      if WhollyBefore(before[|before| - 1], lo) {
        LastEarlier(before, lo);
        assert |Earlier(before, lo)| == |Earlier(j.kept, lo)| + 1;
      }
    } else if lo < hi {
      CutKeepsEarlier(lang, before, hi, lo, said, labels, j);
    } else {
      NoOverlapCut(before, said, lo);
      CutAtTheStart(before, lo);
    }
  }

  lemma {:induction false} SomeLater(ss: seq<Segment>, hi: real, i: nat)
    requires i < |ss| && WhollyAfter(ss[i], hi)
    ensures |Later(ss, hi)| > 0
  {
    assert ss[i] in Later(ss, hi);
  }

  /** The new segments up to the one spliced, of which only that one's text is kept. */
  predicate PassesOver(said: seq<Segment>, hi: real, lo: real) {
    exists i :: 0 <= i <= FirstWhole(said, lo) && i < |said| && WhollyAfter(said[i], hi)
  }

  lemma SplicedLater(said: seq<Segment>, hi: real, lo: real, labels: map<Label, Label>, added: seq<Segment>)
    requires FirstWhole(said, lo) < |said| && added == RelabelledAll(labels, said[FirstWhole(said, lo) + 1..])
    ensures Later(added, hi) == RelabelledAll(labels, Later(said, hi)) <==> !PassesOver(said, hi, lo)
  {
    var at := FirstWhole(said, lo);
    if PassesOver(said, hi, lo) {
      var i :| 0 <= i <= at && WhollyAfter(said[i], hi);
      assert said == said[..at + 1] + said[at + 1..];
      LaterInTwo(said[..at + 1], said[at + 1..], hi);
      SomeLater(said[..at + 1], hi, i);
      LaterRelabelled(labels, said[at + 1..], hi);
      assert |RelabelledAll(labels, Later(said, hi))| > |Later(added, hi)|;
    } else {
      SplicedKeepsLater(said, at, hi, labels);
    }
  }

  lemma SplicedDropsNone(
      lang: Language, before: seq<Segment>, hi: real, lo: real, said: seq<Segment>, labels: map<Label, Label>,
      added: seq<Segment>)
    requires RunsThrough(before, hi, lo, said)
    ensures Dropped(lang, before, hi, lo, said, labels) + added == added
  {
    WithItsFirst(added);
  }

  lemma SplicedKeepsLaterWhen(
      lang: Language, before: seq<Segment>, hi: real, lo: real, said: seq<Segment>, labels: map<Label, Label>,
      added: seq<Segment>, offered: seq<Segment>)
    requires RunsThrough(before, hi, lo, said) && added == RelabelledAll(labels, said[FirstWhole(said, lo) + 1..])
    requires offered == Dropped(lang, before, hi, lo, said, labels) + added
    ensures Later(offered, hi) == RelabelledAll(labels, Later(said, hi)) <==> !PassesOver(said, hi, lo)
  {
    assert offered == added by {
      SplicedDropsNone(lang, before, hi, lo, said, labels, added);
    }
    SplicedLater(said, hi, lo, labels, offered);
  }

  /**
   Over any overlap at all, new segments after it are kept, but for a first one that repeats
   the last kept, unless a join is spliced and one of them is the spliced one or stands before it.
   */
  lemma LaterIsKeptWhen(
      lang: Language, before: seq<Segment>, hi: real, lo: real, said: seq<Segment>, labels: map<Label, Label>, j: Join)
    requires IsJoin(lang, before, hi, lo, said, labels, j) && lo <= hi
    ensures Later(Dropped(lang, before, hi, lo, said, labels) + j.added, hi) == RelabelledAll(labels, Later(said, hi))
       <==> !(RunsThrough(before, hi, lo, said) && PassesOver(said, hi, lo))
  {
    if RunsThrough(before, hi, lo, said) {
      SplicedKeepsLaterWhen(
          lang, before, hi, lo, said, labels, j.added, Dropped(lang, before, hi, lo, said, labels) + j.added);
    } else {
      CutKeepsLater(lang, before, hi, lo, said, labels, j);
    }
  }

  lemma LongOverlapPassesNone(before: seq<Segment>, hi: real, lo: real, said: seq<Segment>)
    requires RunsThrough(before, hi, lo, said) && lo + EDGE < hi
    ensures !WhollyBefore(before[|before| - 1], lo) && !PassesOver(said, hi, lo)
  {
  }

  /**
   Over an overlap longer than the edge, or onto nothing, a join loses no earlier segment
   that ends before the overlap and no new one that starts after it, and keeps their order;
   the one exception is a first new segment that repeats the last kept one.
   */
  lemma NothingOutsideIsLost(
      lang: Language, before: seq<Segment>, hi: real, lo: real, said: seq<Segment>, labels: map<Label, Label>, j: Join)
    requires IsJoin(lang, before, hi, lo, said, labels, j)
    requires lo + EDGE < hi || (before == [] && lo <= hi)
    ensures Earlier(j.kept, lo) == Earlier(before, lo)
    ensures Later(Dropped(lang, before, hi, lo, said, labels) + j.added, hi) == RelabelledAll(labels, Later(said, hi))
  {
    if RunsThrough(before, hi, lo, said) {
      LongOverlapPassesNone(before, hi, lo, said);
    }
    EarlierIsKeptWhen(lang, before, hi, lo, said, labels, j);
    LaterIsKeptWhen(lang, before, hi, lo, said, labels, j);
  }

  lemma SingleRunsThrough(b: Segment, said: seq<Segment>, hi: real, lo: real)
    requires hi - lo <= EDGE + EDGE && b.end >= hi - EDGE
    requires FirstWhole(said, lo) < |said| && said[FirstWhole(said, lo)].start <= lo + EDGE
    ensures RunsThrough([b], hi, lo, said)
  {
    var bounds := EndsInside([b], lo, hi) + StartsInside(said, lo, hi);
    assert bounds != [] ==> Inside(bounds[0], lo, hi);
  }

  /** Within the edge it happens: an utterance over before a short overlap is spliced away, whatever is said. */
  lemma ShortOverlapTakesMore(lang: Language, text: string, more: string, labels: map<Label, Label>, j: Join)
    requires var (b, n) := (Segment("S1", 9.0, 9.9, text), Segment("S1", 10.0, 12.0, more));
      IsJoin(lang, [b], 10.3, 10.0, [n], labels, j)
    ensures Earlier([Segment("S1", 9.0, 9.9, text)], 10.0) == [Segment("S1", 9.0, 9.9, text)]
    ensures Earlier(j.kept, 10.0) == []
  {
    var (b, n) := (Segment("S1", 9.0, 9.9, text), Segment("S1", 10.0, 12.0, more));
    assert FirstWhole([n], 10.0) == 0;
    SingleRunsThrough(b, [n], 10.3, 10.0);
    assert [b][..0] == [] && j.kept == [];
  }

  /** And an utterance after it vanishes: neither added, nor in the text of the splice. */
  lemma ShortOverlapLosesLater(lang: Language, a: string, b: string, c: string, labels: map<Label, Label>, j: Join)
    requires var said := [Segment("S2", 10.35, 10.45, b), Segment("S1", 10.46, 12.0, c)];
      IsJoin(lang, [Segment("S1", 9.0, 10.3, a)], 10.3, 10.0, said, labels, j)
    ensures var said := [Segment("S2", 10.35, 10.45, b), Segment("S1", 10.46, 12.0, c)];
      said[0] in Later(said, 10.3) && j.kept == [] && j.added == []
      && |j.spliced| == 1 && IsSplicedText(lang, j.spliced[0].text, a, c, HeardOf(said[1], 10.3))
  {
    var said := [Segment("S2", 10.35, 10.45, b), Segment("S1", 10.46, 12.0, c)];
    assert said[1..] == [said[1]] && FirstWhole([said[1]], 10.0) == 0 && FirstWhole(said, 10.0) == 1;
    SingleRunsThrough(Segment("S1", 9.0, 10.3, a), said, 10.3, 10.0);
    assert said[2..] == [] && WhollyAfter(said[0], 10.3);
  }
}
