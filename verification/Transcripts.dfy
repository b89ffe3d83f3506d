/**
 The chunk loop: each window's segments are joined onto the transcript so far. Speech that
 lies in no overlap comes through the whole run.
 */
module Transcripts {
  import opened Windows
  import opened Merging
  import opened Speakers

  /** What one window was heard as: its segments on the recording's clock, and the labels it describes. */
  datatype Chunk = Chunk(window: Window, said: seq<Segment>, described: seq<Label>)

  predicate Distinct(known: seq<Label>) {
    forall i, j :: 0 <= i < j < |known| ==> known[i] != known[j]
  }

  lemma AddDistinct(known: seq<Label>, voice: Label)
    ensures Distinct(known) && voice !in known ==> Distinct(known + [voice])
  {
  }

  /** The known labels but one. */
  function Without(known: seq<Label>, voice: Label): (r: seq<Label>)
    ensures forall l :: l in r <==> l in known && l != voice
    ensures Distinct(known) ==> Distinct(r)
  {
    if known == [] then []
    else
      var n := |known| - 1;
      assert known == known[..n] + [known[n]];
      assert Distinct(known) ==> Distinct(known[..n]) && known[n] !in known[..n];
      if known[n] == voice then Without(known[..n], voice)
      else
        AddDistinct(Without(known[..n], voice), known[n]);
        Without(known[..n], voice) + [known[n]]
  }

  method Describe(known: seq<Label>, described: seq<Label>, labels: map<Label, Label>) returns (r: seq<Label>)
    requires Distinct(known)
    ensures Distinct(r)
    ensures forall l :: l in r <==> l in known || exists i :: 0 <= i < |described| && l == Mapped(labels, described[i])
  {
    r := known;
    for i := 0 to |described|
      invariant Distinct(r)
      invariant forall l :: l in r <==> l in known || exists k :: 0 <= k < i && l == Mapped(labels, described[k])
    {
      var voice := Mapped(labels, described[i]);
      AddDistinct(Without(r, voice), voice);
      r := Without(r, voice) + [voice];
    }
  }

  /** Where the chunk before ended. */
  function EndBefore(chunks: seq<Chunk>, k: nat): real
    requires k <= |chunks|
  {
    if k == 0 then 0.0 else chunks[k - 1].window.end
  }

  /** A run of the loop: the transcript before each chunk and after the last, and the join each chunk made. */
  datatype Run = Run(states: seq<seq<Segment>>, joins: seq<Join>, labels: seq<map<Label, Label>>)

  ghost predicate IsRun(lang: Language, chunks: seq<Chunk>, run: Run) {
    && |run.states| == |chunks| + 1 && |run.joins| == |chunks| && |run.labels| == |chunks|
    && run.states[0] == []
    && forall k :: 0 <= k < |chunks| ==> IsStep(lang, chunks, run, k)
  }

  ghost predicate IsStep(lang: Language, chunks: seq<Chunk>, run: Run, k: nat)
    requires k < |chunks| && |run.states| == |chunks| + 1 && |run.joins| == |chunks| && |run.labels| == |chunks|
  {
    && MapsLabels(run.states[k], chunks[k].said, chunks[k].window.start, EndBefore(chunks, k), run.labels[k])
    && IsJoin(lang, run.states[k], EndBefore(chunks, k), chunks[k].window.start, chunks[k].said, run.labels[k],
        run.joins[k])
    && run.states[k + 1] == Joined(run.joins[k])
  }

  /** The labels are mapped, with some labels known. */
  ghost predicate MapsLabels(before: seq<Segment>, said: seq<Segment>, lo: real, hi: real, labels: map<Label, Label>) {
    exists known: seq<Label> :: IsMapping(before, said, lo, hi, known, labels)
  }

  method Transcribe(lang: Language, chunks: seq<Chunk>) returns (segments: seq<Segment>, known: seq<Label>)
    ensures exists run: Run :: IsRun(lang, chunks, run) && segments == run.states[|chunks|]
    ensures Distinct(known)
  {
    ghost var run: Run;
    segments, known := [], [];
    var prevEnd := 0.0;
    run := Run([[]], [], []);
    for k := 0 to |chunks|
      invariant Distinct(known) && prevEnd == EndBefore(chunks, k)
      invariant IsRun(lang, chunks[..k], run) && segments == run.states[k]
    {
      var chunk := chunks[k];
      var labels := MapLabels(segments, chunk.said, chunk.window.start, prevEnd, known);
      var next := JoinOn(lang, segments, prevEnd, chunk.window.start, chunk.said, labels);
      ghost var j :| IsJoin(lang, segments, prevEnd, chunk.window.start, chunk.said, labels, j) && next == Joined(j);
      assert MapsLabels(segments, chunk.said, chunk.window.start, prevEnd, labels);
      RunOn(lang, chunks, k, run, next, j, labels);
      run := Longer(run, next, j, labels);
      known := Describe(known, chunk.described, labels);
      segments := next;
      prevEnd := chunk.window.end;
    }
    assert chunks[..|chunks|] == chunks;
  }

  function Longer(run: Run, next: seq<Segment>, j: Join, labels: map<Label, Label>): Run {
    Run(run.states + [next], run.joins + [j], run.labels + [labels])
  }

  lemma StepStays(
      lang: Language, chunks: seq<Chunk>, longer: seq<Chunk>, run: Run, next: seq<Segment>, j: Join,
      labels: map<Label, Label>, i: nat)
    requires IsRun(lang, chunks, run) && |longer| == |chunks| + 1 && longer[..|chunks|] == chunks && i < |chunks|
    ensures IsStep(lang, longer, Longer(run, next, j, labels), i)
  {
    assert IsStep(lang, chunks, run, i);
    assert longer[i] == longer[..|chunks|][i];
    assert EndBefore(longer, i) == EndBefore(chunks, i) by {
      if i > 0 {
        assert longer[i - 1] == longer[..|chunks|][i - 1];
      }
    }
  }

  lemma LastStep(
      lang: Language, longer: seq<Chunk>, k: nat, run: Run, next: seq<Segment>, j: Join, labels: map<Label, Label>)
    requires |longer| == k + 1 && |run.states| == k + 1 && |run.joins| == k && |run.labels| == k
    requires MapsLabels(run.states[k], longer[k].said, longer[k].window.start, EndBefore(longer, k), labels)
    requires IsJoin(lang, run.states[k], EndBefore(longer, k), longer[k].window.start, longer[k].said, labels, j)
    requires next == Joined(j)
    ensures IsStep(lang, longer, Longer(run, next, j, labels), k)
  {
  }

  lemma RunOn(
      lang: Language, chunks: seq<Chunk>, k: nat, run: Run, next: seq<Segment>, j: Join,
      labels: map<Label, Label>)
    requires k < |chunks| && IsRun(lang, chunks[..k], run)
    requires MapsLabels(run.states[k], chunks[k].said, chunks[k].window.start, EndBefore(chunks, k), labels)
    requires IsJoin(lang, run.states[k], EndBefore(chunks, k), chunks[k].window.start, chunks[k].said, labels, j)
    requires next == Joined(j)
    ensures IsRun(lang, chunks[..k + 1], Longer(run, next, j, labels))
  {
    var more, now, n := Longer(run, next, j, labels), chunks[..k + 1], k + 1;
    assert now[..k] == chunks[..k];
    assert EndBefore(now, k) == EndBefore(chunks, k);
    LastStep(lang, now, k, run, next, j, labels);
    forall i | 0 <= i < n
      ensures IsStep(lang, now, more, i)
    {
      if i < k {
        StepStays(lang, chunks[..k], now, run, next, j, labels, i);
      }
    }
  }

  // ---- what comes through a whole run ----

  /** The chunks were heard over windows of one recording, overlapping by more than the edge. */
  predicate HeardOver(chunks: seq<Chunk>, duration: real, chunk: real, overlap: real) {
    && chunk > overlap > EDGE
    && Chained(WindowsIn(chunks), duration, chunk, overlap)
  }

  function WindowsIn(chunks: seq<Chunk>): (r: seq<Window>)
    ensures |r| == |chunks| && forall i :: 0 <= i < |chunks| ==> r[i] == chunks[i].window
  {
    seq(|chunks|, i requires 0 <= i < |chunks| => chunks[i].window)
  }

  /** The times a join works with: an overlap longer than the edge, or nothing before it. */
  lemma OverlapOf(lang: Language, chunks: seq<Chunk>, run: Run, duration: real, chunk: real, overlap: real, k: nat)
    requires IsRun(lang, chunks, run) && HeardOver(chunks, duration, chunk, overlap) && k < |chunks|
    ensures var (lo, hi) := (chunks[k].window.start, EndBefore(chunks, k));
      lo + EDGE < hi || (run.states[k] == [] && lo <= hi)
  {
    var ws := WindowsIn(chunks);
    if k > 0 {
      assert ws[k].start == ws[k - 1].end - overlap;
    } else {
      assert ws[0].start == 0.0;
    }
  }

  lemma StepKeepsEarlier(
      lang: Language, chunks: seq<Chunk>, run: Run, duration: real, chunk: real, overlap: real, k: nat, s: Segment)
    requires IsRun(lang, chunks, run) && HeardOver(chunks, duration, chunk, overlap) && k < |chunks|
    requires s in run.states[k] && WhollyBefore(s, chunks[k].window.start)
    ensures s in run.states[k + 1]
  {
    var (lo, hi, j) := (chunks[k].window.start, EndBefore(chunks, k), run.joins[k]);
    assert IsStep(lang, chunks, run, k);
    OverlapOf(lang, chunks, run, duration, chunk, overlap, k);
    NothingOutsideIsLost(lang, run.states[k], hi, lo, chunks[k].said, run.labels[k], j);
    assert s in Earlier(run.states[k], lo);
    assert s in j.kept;
  }

  lemma StepAddsLater(
      lang: Language, chunks: seq<Chunk>, run: Run, duration: real, chunk: real, overlap: real, k: nat, s: Segment)
    requires IsRun(lang, chunks, run) && HeardOver(chunks, duration, chunk, overlap) && k < |chunks|
    requires s in chunks[k].said && WhollyAfter(s, EndBefore(chunks, k))
    ensures var dropped := Dropped(lang, run.states[k], EndBefore(chunks, k), chunks[k].window.start,
        chunks[k].said, run.labels[k]);
      Relabelled(run.labels[k], s) in run.states[k + 1] || Relabelled(run.labels[k], s) in dropped
  {
    var (lo, hi, j) := (chunks[k].window.start, EndBefore(chunks, k), run.joins[k]);
    assert IsStep(lang, chunks, run, k);
    OverlapOf(lang, chunks, run, duration, chunk, overlap, k);
    NothingOutsideIsLost(lang, run.states[k], hi, lo, chunks[k].said, run.labels[k], j);
    var later := Later(chunks[k].said, hi);
    var i :| 0 <= i < |later| && later[i] == s;
    assert RelabelledAll(run.labels[k], later)[i] == Relabelled(run.labels[k], s);
    var dropped := Dropped(lang, run.states[k], hi, lo, chunks[k].said, run.labels[k]);
    assert Relabelled(run.labels[k], s) in Later(dropped + j.added, hi);
    assert Relabelled(run.labels[k], s) in dropped + j.added;
  }

  lemma {:induction false} StaysToTheEnd(
      lang: Language, chunks: seq<Chunk>, run: Run, duration: real, chunk: real, overlap: real, k: nat, s: Segment)
    requires IsRun(lang, chunks, run) && HeardOver(chunks, duration, chunk, overlap) && k <= |chunks|
    requires s in run.states[k] && (k < |chunks| ==> WhollyBefore(s, chunks[k].window.start))
    ensures s in run.states[|chunks|]
    decreases |chunks| - k
  {
    if k < |chunks| {
      StepKeepsEarlier(lang, chunks, run, duration, chunk, overlap, k, s);
      if k + 1 < |chunks| {
        WindowsGoOn(WindowsIn(chunks), duration, chunk, overlap, k, k + 1);
      }
      StaysToTheEnd(lang, chunks, run, duration, chunk, overlap, k + 1, s);
    }
  }

  /**
   Speech a chunk heard after its overlap with the chunk before and before its overlap with
   the next is in the transcript at the end, under its mapped speaker, whatever the chunks
   between did; unless its own join dropped it as a repeat of the last segment kept.
   */
  lemma SpeechOutsideOverlapsComesThrough(
      lang: Language, chunks: seq<Chunk>, run: Run, duration: real, chunk: real, overlap: real, k: nat, s: Segment)
    requires IsRun(lang, chunks, run) && HeardOver(chunks, duration, chunk, overlap) && k < |chunks|
    requires s in chunks[k].said && WhollyAfter(s, EndBefore(chunks, k))
    requires k + 1 < |chunks| ==> WhollyBefore(s, chunks[k + 1].window.start)
    ensures var dropped := Dropped(lang, run.states[k], EndBefore(chunks, k), chunks[k].window.start,
        chunks[k].said, run.labels[k]);
      Relabelled(run.labels[k], s) in run.states[|chunks|] || Relabelled(run.labels[k], s) in dropped
  {
    StepAddsLater(lang, chunks, run, duration, chunk, overlap, k, s);
    if Relabelled(run.labels[k], s) in run.states[k + 1] {
      StaysToTheEnd(lang, chunks, run, duration, chunk, overlap, k + 1, Relabelled(run.labels[k], s));
    }
  }
}
