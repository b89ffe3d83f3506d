/**
 The windows a recording is heard in: each starts `overlap` before the one before it ends. Times
 are exact seconds.
 */
module Windows {
  import opened Wrappers

  datatype Window = Window(start: real, end: real)

  datatype Problem = ChunkWithinOverlap

  function Min(a: real, b: real): real { if a <= b then a else b }
  function Max(a: real, b: real): real { if a >= b then a else b }

  /** Windows that follow one another: whole chunks, each overlapping the next by just the overlap. */
  predicate Chained(ws: seq<Window>, duration: real, chunk: real, overlap: real) {
    && (ws != [] ==> ws[0].start == 0.0)
    && (forall i :: 0 < i < |ws| ==> ws[i].start == ws[i - 1].end - overlap)
    && (forall i :: 0 <= i < |ws| - 1 ==> ws[i].end == ws[i].start + chunk && ws[i].end < duration)
  }

  /** How many more windows there can be. */
  function Ahead(duration: real, start: real, step: real): nat
    requires step > 0.0
  {
    if start >= duration then 0 else ((duration - start) / step).Floor + 1
  }

  lemma Quotient(x: real, y: real, q: real)
    requires y > 0.0 && q * y == x
    ensures x / y == q
  {
    var r := x / y;
    assert (r - q) * y == 0.0;
  }

  lemma AheadFalls(duration: real, start: real, step: real)
    requires step > 0.0 && start < duration
    ensures Ahead(duration, start + step, step) < Ahead(duration, start, step)
  {
    var rest := duration - (start + step);
    var q := rest / step;
    assert q * step == rest;
    assert (q + 1.0) * step == duration - start;
    Quotient(duration - start, step, q + 1.0);
  }

  lemma ChainedAndOne(ws: seq<Window>, w: Window, duration: real, chunk: real, overlap: real)
    requires Chained(ws, duration, chunk, overlap)
    requires ws == [] ==> w.start == 0.0
    requires ws != [] ==>
      var last := ws[|ws| - 1];
      w.start == last.end - overlap && last.end == last.start + chunk && last.end < duration
    ensures Chained(ws + [w], duration, chunk, overlap)
  {
  }

  method WindowsOf(duration: real, chunk: real, overlap: real) returns (r: Result<seq<Window>, Problem>)
    ensures r.Err? <==> !(chunk > overlap && overlap >= 0.0)
    ensures r.Ok? ==>
      && r.value != [] && Chained(r.value, duration, chunk, overlap)
      && var last := r.value[|r.value| - 1];
        last.end == duration && last.end <= last.start + chunk
  {
    if !(chunk > overlap && overlap >= 0.0) {
      return Err(ChunkWithinOverlap);
    }
    var out: seq<Window> := [];
    var start := 0.0;
    while true
      invariant Chained(out, duration, chunk, overlap)
      invariant out == [] ==> start == 0.0
      invariant out != [] ==>
        var last := out[|out| - 1];
        start == last.end - overlap && last.end == last.start + chunk && last.end < duration
      decreases Ahead(duration, start, chunk - overlap)
    {
      var end := Min(duration, start + chunk);
      ChainedAndOne(out, Window(start, end), duration, chunk, overlap);
      out := out + [Window(start, end)];
      if end >= duration {
        return Ok(out);
      }
      AheadFalls(duration, start, chunk - overlap);
      start := start + (chunk - overlap);
    }
  }

  /** No moment of the recording is left out of every window. */
  lemma {:induction false} EveryMomentIsHeard(ws: seq<Window>, duration: real, chunk: real, overlap: real, t: real)
    requires ws != [] && Chained(ws, duration, chunk, overlap) && overlap >= 0.0
    requires 0.0 <= t <= ws[|ws| - 1].end
    ensures exists i :: 0 <= i < |ws| && ws[i].start <= t <= ws[i].end
  {
    var n := |ws| - 1;
    if t < ws[n].start {
      assert n > 0;
      EveryMomentIsHeard(ws[..n], duration, chunk, overlap, t);
      var i :| 0 <= i < n && ws[..n][i].start <= t <= ws[..n][i].end;
      assert ws[i].start <= t <= ws[i].end;
    }
  }

  /**
   Windows go on: each starts and ends after the one before it, so only neighbours can share more
   than the overlap.
   */
  lemma {:induction false} WindowsGoOn(ws: seq<Window>, duration: real, chunk: real, overlap: real, i: nat, j: nat)
    requires Chained(ws, duration, chunk, overlap) && chunk > overlap >= 0.0
    requires i < j < |ws|
    ensures ws[i].start < ws[j].start && ws[i].end - overlap <= ws[j].start
  {
    assert ws[j].start == ws[j - 1].end - overlap;
    if i < j - 1 {
      WindowsGoOn(ws, duration, chunk, overlap, i, j - 1);
      assert ws[j - 1].end == ws[j - 1].start + chunk;
    }
  }
}
