/**
 The admission envelope of one activation: a pool of permits, an interactive and
 a background lane of waiters, a latch that is open while nothing runs, and a
 drain. The class `Gate` changes these in place; a state machine over its
 pieces, in any interleaving, says what every run keeps. A piece holds only
 operations that never suspend, so it is one step.
 */
module Envelope {
  import opened Wrappers

  datatype Lane = Interactive | Background
  datatype Stage = Waiting | Granted | Released
  datatype Ready = Pending | Succeeded | Busy

  /** A waiter is its ticket: tickets are dealt in the order of offers. */
  type Ticket = nat

  datatype Waiter = Waiter(lane: Lane, stage: Stage, ready: Ready)

  /** `log` and `returned` are the tickets whose permits were granted and given back, in order. */
  datatype Env = Env(
    capacity: nat,
    free: nat,
    idle: bool,
    open: bool,
    high: seq<Ticket>,
    low: seq<Ticket>,
    waiters: seq<Waiter>,
    log: seq<Ticket>,
    returned: seq<Ticket>)

  function QueueOf(e: Env, lane: Lane): seq<Ticket> {
    if lane.Interactive? then e.high else e.low
  }

  predicate Dealt(e: Env) {
    (forall i :: 0 <= i < |e.high| ==> e.high[i] < |e.waiters|)
    && (forall i :: 0 <= i < |e.low| ==> e.low[i] < |e.waiters|)
  }

  /** The waiter `next` polls: the interactive lane's first, else the background lane's. */
  function Polled(e: Env): Option<Ticket> {
    if e.high != [] then Some(e.high[0]) else if e.low != [] then Some(e.low[0]) else None
  }

  function WithoutPolled(e: Env): Env
    requires Polled(e).Some?
  {
    if e.high != [] then e.(high := e.high[1..]) else e.(low := e.low[1..])
  }

  function Grant(e: Env, t: Ticket): Env
    requires t < |e.waiters| && e.free > 0
  {
    e.(free := e.free - 1, idle := false, log := e.log + [t],
       waiters := e.waiters[t := e.waiters[t].(stage := Granted, ready := Succeeded)])
  }

  /** `next`'s loop: permits go to polled waiters still waiting, until none is free or none is queued. */
  function Serve(e: Env): (r: Env)
    requires Dealt(e)
    ensures Dealt(r) && |r.waiters| == |e.waiters|
    decreases |e.high| + |e.low|
  {
    if e.free == 0 || Polled(e).None? then e
    else
      var t := Polled(e).value;
      var polled := WithoutPolled(e);
      if e.waiters[t].stage.Waiting? then Serve(Grant(polled, t)) else Serve(polled)
  }

  /** One turn of the loop: the first waiter is granted, or passed over when it has ended. */
  function Turn(e: Env): (r: Env)
    requires Dealt(e) && e.free > 0 && Polled(e).Some?
    ensures Dealt(r) && Serve(r) == Serve(e) && |r.high| + |r.low| < |e.high| + |e.low|
  {
    var t := Polled(e).value;
    if e.waiters[t].stage.Waiting? then Grant(WithoutPolled(e), t) else WithoutPolled(e)
  }

  function Next(e: Env): (r: Env)
    requires Dealt(e)
    ensures Dealt(r)
  {
    var served := Serve(e);
    if served.free >= served.capacity then served.(idle := true) else served
  }

  function Offer(e: Env, lane: Lane): (r: Env)
    requires Dealt(e)
    ensures Dealt(r)
  {
    var t := |e.waiters|;
    var joined := e.(waiters := e.waiters + [Waiter(lane, Waiting, Pending)]);
    Next(if lane.Interactive? then joined.(high := e.high + [t]) else joined.(low := e.low + [t]))
  }

  /** The end of an admitted or waiting piece of work, however it ends. */
  function Release(e: Env, t: Ticket): (r: Env)
    requires Dealt(e) && t < |e.waiters|
    ensures Dealt(r)
  {
    var left := e.(waiters := e.waiters[t := e.waiters[t].(stage := Released)]);
    Next(if e.waiters[t].stage.Granted? then left.(free := e.free + 1, returned := e.returned + [t]) else left)
  }

  /** One turn of the drain's loop over a lane: its first waiter is taken out and failed. */
  function Evict(e: Env, lane: Lane): (r: Env)
    requires Dealt(e) && QueueOf(e, lane) != []
    ensures Dealt(r)
  {
    var t := if lane.Interactive? then e.high[0] else e.low[0];
    var taken := if lane.Interactive? then e.(high := e.high[1..]) else e.(low := e.low[1..]);
    if e.waiters[t].ready.Pending?
    then taken.(waiters := e.waiters[t := e.waiters[t].(ready := Busy)])
    else taken
  }

  /** The drain's loop over one lane. */
  function DrainLane(e: Env, lane: Lane): (r: Env)
    requires Dealt(e)
    ensures Dealt(r)
    decreases |QueueOf(e, lane)|
  {
    if QueueOf(e, lane) == [] then e else DrainLane(Evict(e, lane), lane)
  }

  // ---- the machine ----

  datatype Event =
    | Admit(lane: Lane)
    | End(ticket: Ticket)
    | Close
    | DrainOne(lane: Lane)

  function Initial(capacity: nat): Env {
    Env(capacity, capacity, true, true, [], [], [], [], [])
  }

  predicate Enabled(e: Env, v: Event) {
    Dealt(e) &&
    match v
    case Admit(_) => e.open
    case End(t) => t < |e.waiters| && !e.waiters[t].stage.Released?
    case Close => true
    case DrainOne(lane) => !e.open && QueueOf(e, lane) != []
  }

  function Step(e: Env, v: Event): (r: Env)
    requires Enabled(e, v)
    ensures Dealt(r)
  {
    match v
    case Admit(lane) => Offer(e, lane)
    case End(t) => Release(e, t)
    case Close => e.(open := false)
    case DrainOne(lane) => Evict(e, lane)
  }

  ghost predicate Legal(capacity: nat, vs: seq<Event>)
    decreases |vs|, 0
  {
    vs == [] || (Legal(capacity, vs[..|vs| - 1]) && Enabled(After(capacity, vs[..|vs| - 1]), vs[|vs| - 1]))
  }

  ghost function After(capacity: nat, vs: seq<Event>): Env
    requires Legal(capacity, vs)
    decreases |vs|, 1
  {
    if vs == [] then Initial(capacity) else Step(After(capacity, vs[..|vs| - 1]), vs[|vs| - 1])
  }

  // ---- what every step keeps ----

  function GrantedNow(e: Env): set<Ticket> {
    set t: Ticket | t < |e.waiters| && e.waiters[t].stage.Granted?
  }

  /** Permits are neither lost nor made: the free ones and the granted waiters' are all of them. */
  ghost predicate PermitsOk(e: Env) {
    e.free + |GrantedNow(e)| == e.capacity && (GrantedNow(e) != {} ==> !e.idle)
  }

  /**
   A lane's queue holds waiters of that lane not yet answered, in the order of their
   offers, every one still waiting among them; what the lane was granted is in that
   order too, ahead of the queue.
   */
  ghost predicate LaneOk(ws: seq<Waiter>, log: seq<Ticket>, lane: Lane, q: seq<Ticket>) {
    && (forall i :: 0 <= i < |q| ==> q[i] < |ws| && ws[q[i]].lane == lane && ws[q[i]].ready.Pending?)
    && (forall i, j :: 0 <= i < j < |q| ==> q[i] < q[j])
    && (forall t: Ticket :: t < |ws| && ws[t].lane == lane && ws[t].stage.Waiting? && ws[t].ready.Pending? ==> t in q)
    && (forall i :: 0 <= i < |log| ==> log[i] < |ws|)
    && (forall i, j :: 0 <= i < j < |log| && ws[log[i]].lane == lane && ws[log[j]].lane == lane ==> log[i] < log[j])
    && (forall i, k :: 0 <= i < |log| && 0 <= k < |q| && ws[log[i]].lane == lane ==> log[i] < q[k])
  }

  ghost predicate LanesOk(e: Env) {
    LaneOk(e.waiters, e.log, Interactive, e.high) && LaneOk(e.waiters, e.log, Background, e.low)
  }

  /** The log holds exactly the tickets that were granted. */
  ghost predicate LogRight(ws: seq<Waiter>, log: seq<Ticket>) {
    && (forall t: Ticket :: t < |ws| ==> (t in log <==> ws[t].ready.Succeeded?))
    && (forall t: Ticket :: t < |ws| && ws[t].stage.Granted? ==> ws[t].ready.Succeeded?)
    && (forall t: Ticket :: t < |ws| && ws[t].stage.Waiting? ==> !ws[t].ready.Succeeded?)
  }

  ghost predicate LogOk(e: Env) {
    LogRight(e.waiters, e.log)
  }

  /** A permit is given back once by each granted waiter that has ended, and by no other. */
  ghost predicate ReturnsRight(ws: seq<Waiter>, returned: seq<Ticket>) {
    && (forall i :: 0 <= i < |returned| ==> returned[i] < |ws|)
    && (forall t: Ticket :: t < |ws| ==>
          (t in returned <==> ws[t].ready.Succeeded? && ws[t].stage.Released?))
    && (forall i, j :: 0 <= i < j < |returned| ==> returned[i] != returned[j])
  }

  ghost predicate ReturnsOk(e: Env) {
    ReturnsRight(e.waiters, e.returned)
  }

  ghost predicate Inner(e: Env) {
    PermitsOk(e) && LanesOk(e) && LogOk(e) && ReturnsOk(e)
  }

  /**
   No wake-up is lost: a free permit means no waiter still waiting is queued. And the latch is
   open exactly when nothing runs.
   */
  ghost predicate Rested(e: Env) {
    && (e.free > 0 ==> forall t :: t < |e.waiters| && (t in e.high || t in e.low) ==> !e.waiters[t].stage.Waiting?)
    && (e.idle <==> GrantedNow(e) == {})
  }

  // ---- what becomes of a lane ----

  /** The first of a lane's queue leaves it, granted or not, and is no longer waiting for an answer. */
  lemma HeadLeaves(ws: seq<Waiter>, log: seq<Ticket>, lane: Lane, q: seq<Ticket>, w: Waiter, granted: bool)
    requires LaneOk(ws, log, lane, q) && q != [] && w.lane == lane && !(w.stage.Waiting? && w.ready.Pending?)
    ensures q[0] < |ws|
    ensures LaneOk(ws[q[0] := w], if granted then log + [q[0]] else log, lane, q[1..])
  {
    var ws' := ws[q[0] := w];
    forall t: Ticket | t < |ws| && ws'[t].lane == lane && ws'[t].stage.Waiting? && ws'[t].ready.Pending?
      ensures t in q[1..]
    {
      var i :| 0 <= i < |q| && q[i] == t;
      assert q[1..][i - 1] == t;
    }
  }

  /** Another lane's waiter changes, granted or not. */
  lemma OtherLaneStays(
      ws: seq<Waiter>, log: seq<Ticket>, lane: Lane, q: seq<Ticket>, t: Ticket, w: Waiter, granted: bool)
    requires LaneOk(ws, log, lane, q) && t < |ws| && ws[t].lane != lane && w.lane == ws[t].lane
    ensures LaneOk(ws[t := w], if granted then log + [t] else log, lane, q)
  {
  }

  lemma EndingStays(ws: seq<Waiter>, log: seq<Ticket>, lane: Lane, q: seq<Ticket>, t: Ticket)
    requires LaneOk(ws, log, lane, q) && t < |ws|
    ensures LaneOk(ws[t := ws[t].(stage := Released)], log, lane, q)
  {
  }

  lemma NewcomerJoins(ws: seq<Waiter>, log: seq<Ticket>, lane: Lane, q: seq<Ticket>, joined: Lane)
    requires LaneOk(ws, log, lane, q)
    ensures LaneOk(ws + [Waiter(joined, Waiting, Pending)], log, lane, if joined == lane then q + [|ws|] else q)
  {
    var ws' := ws + [Waiter(joined, Waiting, Pending)];
    var q' := if joined == lane then q + [|ws|] else q;
    forall t: Ticket | t < |ws'| && ws'[t].lane == lane && ws'[t].stage.Waiting? && ws'[t].ready.Pending?
      ensures t in q'
    {
      if t == |ws| { assert q'[|q|] == t; } else { assert t in q; }
    }
  }

  // ---- one turn of the loop ----

  function PolledLane(e: Env): Lane {
    if e.high != [] then Interactive else Background
  }

  lemma PolledIsFirst(e: Env)
    requires LanesOk(e) && Polled(e).Some?
    ensures var t := Polled(e).value;
            t < |e.waiters| && e.waiters[t].ready.Pending? && e.waiters[t].lane == PolledLane(e)
            && QueueOf(e, PolledLane(e)) != [] && QueueOf(e, PolledLane(e))[0] == t
  {
  }

  lemma SkipKeeps(e: Env)
    requires Inner(e) && Polled(e).Some? && !e.waiters[Polled(e).value].stage.Waiting?
    ensures Inner(WithoutPolled(e))
  {
    PolledIsFirst(e);
    var t := Polled(e).value;
    HeadLeaves(e.waiters, e.log, PolledLane(e), QueueOf(e, PolledLane(e)), e.waiters[t], false);
    assert e.waiters[t := e.waiters[t]] == e.waiters;
    assert GrantedNow(WithoutPolled(e)) == GrantedNow(e);
  }

  /** Waiter `t`, the head of the polled lane, becomes `w`. */
  lemma PolledChanges(e: Env, w: Waiter, granted: bool)
    requires LanesOk(e) && Polled(e).Some? && w.lane == PolledLane(e) && !(w.stage.Waiting? && w.ready.Pending?)
    ensures var t, p := Polled(e).value, WithoutPolled(e);
            t < |e.waiters|
            && LaneOk(e.waiters[t := w], if granted then e.log + [t] else e.log, Interactive, p.high)
            && LaneOk(e.waiters[t := w], if granted then e.log + [t] else e.log, Background, p.low)
  {
    PolledIsFirst(e);
    if e.high != [] {
      HeadLeaves(e.waiters, e.log, Interactive, e.high, w, granted);
      OtherLaneStays(e.waiters, e.log, Background, e.low, e.high[0], w, granted);
    } else {
      HeadLeaves(e.waiters, e.log, Background, e.low, w, granted);
      OtherLaneStays(e.waiters, e.log, Interactive, e.high, e.low[0], w, granted);
    }
  }

  lemma GrantKeepsPermits(e: Env, t: Ticket)
    requires PermitsOk(e) && t < |e.waiters| && e.free > 0 && e.waiters[t].stage.Waiting?
    ensures PermitsOk(Grant(e, t))
  {
    assert GrantedNow(Grant(e, t)) == GrantedNow(e) + {t};
  }

  lemma GrantKeeps(e: Env)
    requires Inner(e) && e.free > 0 && Polled(e).Some? && e.waiters[Polled(e).value].stage.Waiting?
    ensures Inner(Grant(WithoutPolled(e), Polled(e).value))
  {
    PolledIsFirst(e);
    var t, p := Polled(e).value, WithoutPolled(e);
    var w := e.waiters[t].(stage := Granted, ready := Succeeded);
    PolledChanges(e, w, true);
    assert GrantedNow(p) == GrantedNow(e);
    GrantKeepsPermits(p, t);
    AnswerKeepsLog(e.waiters, e.log, e.returned, t, w, true);
    assert Grant(p, t).waiters == e.waiters[t := w] && Grant(p, t).log == e.log + [t];
  }

  /** A waiting waiter is answered: granted, or failed. */
  lemma AnswerKeepsLog(ws: seq<Waiter>, log: seq<Ticket>, returned: seq<Ticket>, t: Ticket, w: Waiter, granted: bool)
    requires LogRight(ws, log) && ReturnsRight(ws, returned) && t < |ws| && ws[t].ready.Pending?
    requires if granted then w.stage.Granted? && w.ready.Succeeded? else w.stage == ws[t].stage && !w.ready.Succeeded?
    requires granted ==> ws[t].stage.Waiting?
    ensures LogRight(ws[t := w], if granted then log + [t] else log)
    ensures ReturnsRight(ws[t := w], returned)
  {
    assert forall u :: u in log + [t] <==> u in log || u == t;
    assert t !in returned;
  }

  lemma {:induction false} ServeKeeps(e: Env)
    requires Inner(e)
    ensures Inner(Serve(e)) && (Serve(e).free == 0 || Polled(Serve(e)).None?)
    decreases |e.high| + |e.low|
  {
    if e.free > 0 && Polled(e).Some? {
      if e.waiters[Polled(e).value].stage.Waiting? {
        GrantKeeps(e);
        ServeKeeps(Grant(WithoutPolled(e), Polled(e).value));
      } else {
        SkipKeeps(e);
        ServeKeeps(WithoutPolled(e));
      }
    }
  }

  /** A waiter between two states of a run: it keeps its lane, its end, and an answer once given. */
  predicate Follows(w: Waiter, w': Waiter) {
    w'.lane == w.lane && (w.ready == w'.ready || w.ready.Pending?) && (w.stage.Released? ==> w'.stage.Released?)
  }

  /** What serving leaves alone. */
  ghost predicate Framed(e: Env, r: Env) {
    && r.returned == e.returned && r.capacity == e.capacity && r.open == e.open && e.log <= r.log
    && |r.waiters| == |e.waiters|
    && (forall t: Ticket :: t < |e.waiters| ==> Follows(e.waiters[t], r.waiters[t]))
    && (e.high == [] && e.low == [] ==> r == e)
  }

  lemma FramesJoin(e: Env, g: Env, r: Env)
    requires Framed(e, g) && Framed(g, r) && e.high + e.low != []
    ensures Framed(e, r)
  {
    forall t: Ticket | t < |e.waiters| ensures Follows(e.waiters[t], r.waiters[t]) {
      assert Follows(e.waiters[t], g.waiters[t]) && Follows(g.waiters[t], r.waiters[t]);
    }
    assert r.log[..|e.log|] == g.log[..|e.log|];
  }

  lemma {:induction false} ServeFrames(e: Env)
    requires Inner(e)
    ensures Framed(e, Serve(e))
    decreases |e.high| + |e.low|
  {
    if e.free > 0 && Polled(e).Some? {
      var g := Turn(e);
      OneServed(e, g);
      ServeFrames(g);
      FramesJoin(e, g, Serve(e));
    }
  }

  lemma GrantFrames(e: Env, t: Ticket)
    requires Inner(e) && e.free > 0 && Polled(e) == Some(t) && t < |e.waiters| && e.waiters[t].stage.Waiting?
    ensures Framed(e, Grant(WithoutPolled(e), t))
  {
    PolledIsFirst(e);
  }

  lemma SkipFrames(e: Env)
    requires Inner(e) && Polled(e).Some?
    ensures Framed(e, WithoutPolled(e))
  {
  }

  lemma OneServed(e: Env, g: Env)
    requires Inner(e) && e.free > 0 && Polled(e).Some? && g == Turn(e)
    ensures Inner(g) && Framed(e, g) && Serve(e) == Serve(g) && e.high + e.low != []
    ensures |g.high| + |g.low| < |e.high| + |e.low|
  {
    PolledIsFirst(e);
    var t := Polled(e).value;
    if e.waiters[t].stage.Waiting? {
      GrantKeeps(e);
      GrantFrames(e, t);
    } else {
      SkipKeeps(e);
      SkipFrames(e);
    }
  }

  predicate IsBackground(e: Env, i: nat) {
    i < |e.log| && e.log[i] < |e.waiters| && e.waiters[e.log[i]].lane.Background?
  }

  /**
   What one `next` adds to the log is in priority order, and holds background work only once the
   interactive lane is empty.
   */
  ghost predicate Prioritised(e: Env, r: Env) {
    && (forall i: nat, j: nat :: |e.log| <= i < j < |r.log| && IsBackground(r, i) ==> IsBackground(r, j))
    && (forall i: nat :: |e.log| <= i && IsBackground(r, i) ==> r.high == [])
    && (e.high == [] ==> r.high == [] && forall i: nat :: |e.log| <= i < |r.log| ==> IsBackground(r, i))
  }

  lemma {:induction false} ServePrioritises(e: Env)
    requires Inner(e)
    ensures Prioritised(e, Serve(e))
    decreases |e.high| + |e.low|
  {
    if e.free > 0 && Polled(e).Some? {
      var g := Turn(e);
      OneServed(e, g);
      ServePrioritises(g);
      ServeFrames(g);
      if e.waiters[Polled(e).value].stage.Waiting? {
        GrantedFirst(e, g, Serve(g), Polled(e).value);
      }
    }
  }

  /** A grant and what is served after it are in priority order. */
  lemma GrantedFirst(e: Env, g: Env, r: Env, t: Ticket)
    requires Inner(e) && e.free > 0 && Polled(e) == Some(t) && t < |e.waiters| && e.waiters[t].stage.Waiting?
    requires g == Turn(e) && Framed(g, r) && Prioritised(g, r)
    ensures Prioritised(e, r)
  {
    PolledIsFirst(e);
    assert r.log[|e.log|] == g.log[|e.log|] == t && Follows(g.waiters[t], r.waiters[t]);
    assert IsBackground(r, |e.log|) <==> PolledLane(e).Background?;
  }

  /**
   `next`, from any state its callers leave, restores rest: no lost wake-up, and the latch open
   exactly when nothing runs.
   */
  lemma NextKeeps(e: Env)
    requires Inner(e)
    ensures Inner(Next(e)) && Rested(Next(e)) && Prioritised(e, Next(e))
    ensures e.high == [] && e.low == [] ==> Next(e) == if e.free >= e.capacity then e.(idle := true) else e
    ensures Framed(e, Next(e).(idle := Serve(e).idle))
  {
    ServeKeeps(e);
    ServePrioritises(e);
    ServeFrames(e);
    var r := Serve(e);
    assert GrantedNow(Next(e)) == GrantedNow(r);
    if r.free >= r.capacity {
      assert |GrantedNow(r)| == 0;
    } else {
      assert GrantedNow(r) != {};
    }
    assert forall i: nat :: IsBackground(Next(e), i) == IsBackground(r, i);
  }

  // ---- every step ----

  /** The state in which a step calls `next`. */
  function Before(e: Env, v: Event): Env
    requires Enabled(e, v)
  {
    match v
    case Admit(lane) =>
      var joined := e.(waiters := e.waiters + [Waiter(lane, Waiting, Pending)]);
      if lane.Interactive? then joined.(high := e.high + [|e.waiters|]) else joined.(low := e.low + [|e.waiters|])
    case End(t) =>
      var left := e.(waiters := e.waiters[t := e.waiters[t].(stage := Released)]);
      if e.waiters[t].stage.Granted? then left.(free := e.free + 1, returned := e.returned + [t]) else left
    case Close => e.(open := false)
    case DrainOne(lane) => Evict(e, lane)
  }

  lemma NewcomerKeepsLog(ws: seq<Waiter>, log: seq<Ticket>, returned: seq<Ticket>, lane: Lane)
    requires LogRight(ws, log) && ReturnsRight(ws, returned) && forall i :: 0 <= i < |log| ==> log[i] < |ws|
    ensures LogRight(ws + [Waiter(lane, Waiting, Pending)], log)
    ensures ReturnsRight(ws + [Waiter(lane, Waiting, Pending)], returned)
  {
    assert |ws| !in log && |ws| !in returned;
  }

  lemma AdmitReady(e: Env, lane: Lane)
    requires Inner(e) && Enabled(e, Admit(lane))
    ensures Inner(Before(e, Admit(lane)))
  {
    var r := Before(e, Admit(lane));
    assert GrantedNow(r) == GrantedNow(e);
    NewcomerJoins(e.waiters, e.log, Interactive, e.high, lane);
    NewcomerJoins(e.waiters, e.log, Background, e.low, lane);
    NewcomerKeepsLog(e.waiters, e.log, e.returned, lane);
  }

  lemma EndReady(e: Env, t: Ticket)
    requires Inner(e) && Enabled(e, End(t))
    ensures Inner(Before(e, End(t)))
  {
    var r := Before(e, End(t));
    if e.waiters[t].stage.Granted? {
      assert t in GrantedNow(e);
      assert GrantedNow(r) == GrantedNow(e) - {t};
      assert t !in e.returned;
    } else {
      assert GrantedNow(r) == GrantedNow(e);
    }
    EndingStays(e.waiters, e.log, Interactive, e.high, t);
    EndingStays(e.waiters, e.log, Background, e.low, t);
    assert LogOk(r);
    assert forall u :: u in e.returned + [t] <==> u in e.returned || u == t;
    assert ReturnsOk(r);
  }

  lemma EvictAnswers(e: Env, lane: Lane)
    requires Inner(e) && Enabled(e, DrainOne(lane))
    ensures var r, t := Evict(e, lane), QueueOf(e, lane)[0];
            r == (if lane.Interactive? then e.(high := e.high[1..]) else e.(low := e.low[1..]))
                 .(waiters := e.waiters[t := e.waiters[t].(ready := Busy)])
            && e.waiters[t].ready.Pending? && e.waiters[t].lane == lane
            && GrantedNow(r) == GrantedNow(e)
  {
  }

  lemma EvictKeeps(e: Env, lane: Lane)
    requires Inner(e) && Enabled(e, DrainOne(lane))
    ensures Inner(Evict(e, lane))
  {
    var t := QueueOf(e, lane)[0];
    var failed := e.waiters[t].(ready := Busy);
    EvictAnswers(e, lane);
    AnswerKeepsLog(e.waiters, e.log, e.returned, t, failed, false);
    if lane.Interactive? {
      HeadLeaves(e.waiters, e.log, Interactive, e.high, failed, false);
      OtherLaneStays(e.waiters, e.log, Background, e.low, t, failed, false);
    } else {
      HeadLeaves(e.waiters, e.log, Background, e.low, failed, false);
      OtherLaneStays(e.waiters, e.log, Interactive, e.high, t, failed, false);
    }
  }

  lemma EvictRests(e: Env, lane: Lane)
    requires Inner(e) && Rested(e) && Enabled(e, DrainOne(lane))
    ensures Rested(Evict(e, lane))
  {
    EvictAnswers(e, lane);
    var r := Evict(e, lane);
    forall t | r.free > 0 && t < |r.waiters| && (t in r.high || t in r.low)
      ensures !r.waiters[t].stage.Waiting?
    {
      assert t in e.high || t in e.low;
    }
  }

  lemma StepKeeps(e: Env, v: Event)
    requires Inner(e) && Rested(e) && Enabled(e, v)
    ensures Inner(Step(e, v)) && Rested(Step(e, v)) && Step(e, v).capacity == e.capacity
  {
    match v {
      case Admit(lane) => AdmitReady(e, lane); NextKeeps(Before(e, v));
      case End(t) => EndReady(e, t); NextKeeps(Before(e, v));
      case Close => assert GrantedNow(Step(e, v)) == GrantedNow(e);
      case DrainOne(lane) => EvictKeeps(e, lane); EvictRests(e, lane);
    }
  }

  /**
   After every step of every run: the free permits and the granted waiters make up
   the capacity, no waiter still waiting is queued beside a free permit, the latch is
   open exactly when nothing is granted, each lane and the log are in order, and each
   granted waiter that has ended gave its permit back once, and no other did.
   */
  lemma {:induction false} RunsKeep(capacity: nat, vs: seq<Event>)
    requires Legal(capacity, vs)
    ensures Inner(After(capacity, vs)) && Rested(After(capacity, vs))
    ensures After(capacity, vs).capacity == capacity
    decreases |vs|
  {
    if vs == [] {
      assert GrantedNow(Initial(capacity)) == {};
    } else {
      RunsKeep(capacity, vs[..|vs| - 1]);
      StepKeeps(After(capacity, vs[..|vs| - 1]), vs[|vs| - 1]);
    }
  }

  // ---- what is granted, over runs ----

  /** Within a lane, grants follow the order of offers; an earlier waiter passed over had ended or been failed. */
  lemma GrantsFollowOffers(capacity: nat, vs: seq<Event>, t: Ticket, u: Ticket)
    requires Legal(capacity, vs)
    requires var e := After(capacity, vs);
             u < t < |e.waiters| && e.waiters[u].lane == e.waiters[t].lane && t in e.log
    ensures var e := After(capacity, vs);
            (exists i, j :: 0 <= i < j < |e.log| && e.log[i] == u && e.log[j] == t)
            || (u !in e.log && (e.waiters[u].stage.Released? || e.waiters[u].ready.Busy?))
  {
    RunsKeep(capacity, vs);
    var e := After(capacity, vs);
    var lane := e.waiters[t].lane;
    assert LaneOk(e.waiters, e.log, lane, QueueOf(e, lane));
    var j :| 0 <= j < |e.log| && e.log[j] == t;
    if u in e.log {
      var i :| 0 <= i < |e.log| && e.log[i] == u;
      assert i < j;
    }
  }

  lemma StepServesInteractiveFirst(e: Env, v: Event, i: nat)
    requires Inner(e) && Rested(e) && Enabled(e, v)
    requires |e.log| <= i && IsBackground(Step(e, v), i)
    ensures Step(e, v).high == []
    ensures forall j: nat :: i < j < |Step(e, v).log| ==> IsBackground(Step(e, v), j)
  {
    match v {
      case Admit(lane) => AdmitReady(e, lane); NextKeeps(Before(e, v));
      case End(t) => EndReady(e, t); NextKeeps(Before(e, v));
      case _ =>
    }
  }

  /**
   When a step grants background work, no interactive waiter is left waiting, and
   every interactive waiter granted by the step was granted before it.
   */
  lemma BackgroundWaitsItsTurn(capacity: nat, vs: seq<Event>, v: Event, i: nat)
    requires Legal(capacity, vs) && Enabled(After(capacity, vs), v)
    requires |After(capacity, vs).log| <= i && IsBackground(Step(After(capacity, vs), v), i)
    ensures var r := Step(After(capacity, vs), v);
            && (forall t: Ticket :: t < |r.waiters| && r.waiters[t].lane.Interactive? ==>
                  !(r.waiters[t].stage.Waiting? && r.waiters[t].ready.Pending?))
            && (forall j: nat :: i < j < |r.log| ==> IsBackground(r, j))
  {
    RunsKeep(capacity, vs);
    StepKeeps(After(capacity, vs), v);
    StepServesInteractiveFirst(After(capacity, vs), v, i);
  }

  /** Every step adds to the log at its end, and an answer once given stays: a failed waiter is never granted. */
  lemma StepFollows(e: Env, v: Event)
    requires Inner(e) && Enabled(e, v)
    ensures var r := Step(e, v);
            && e.log <= r.log && |e.waiters| <= |r.waiters|
            && (forall t: Ticket :: t < |e.waiters| ==> Follows(e.waiters[t], r.waiters[t]))
            && (!e.open ==> !r.open)
            && (!e.open && e.high == [] && e.low == [] ==> r.log == e.log && r.high == [] && r.low == [])
  {
    if v.Admit? || v.End? {
      if v.Admit? { AdmitReady(e, v.lane); } else { EndReady(e, v.ticket); }
      var b, r := Before(e, v), Step(e, v);
      NextKeeps(b);
      BeforeFollows(e, v);
      forall t: Ticket | t < |e.waiters| ensures Follows(e.waiters[t], r.waiters[t]) {
        assert Follows(e.waiters[t], b.waiters[t]) && Follows(b.waiters[t], r.waiters[t]);
      }
    }
  }

  lemma BeforeFollows(e: Env, v: Event)
    requires Enabled(e, v) && (v.Admit? || v.End?)
    ensures var b := Before(e, v);
            b.log == e.log && b.open == e.open && |e.waiters| <= |b.waiters| && Step(e, v) == Next(b)
            && (forall t: Ticket :: t < |e.waiters| ==> Follows(e.waiters[t], b.waiters[t]))
            && (v.End? ==> b.high == e.high && b.low == e.low)
  {
  }

  /**
   Once the drain has emptied the lanes nothing more is granted, and whatever was failed stays
   failed and ungranted.
   */
  lemma {:induction false} DrainedStaysDrained(capacity: nat, vs: seq<Event>, k: nat)
    requires Legal(capacity, vs) && k <= |vs| && Legal(capacity, vs[..k])
    requires var e := After(capacity, vs[..k]); !e.open && e.high == [] && e.low == []
    ensures var e, r := After(capacity, vs[..k]), After(capacity, vs);
            && r.log == e.log && !r.open && r.high == [] && r.low == []
            && |e.waiters| <= |r.waiters|
            && (forall t: Ticket :: t < |e.waiters| && e.waiters[t].ready.Busy? ==>
                  r.waiters[t].ready.Busy? && t !in r.log)
    decreases |vs|
  {
    RunsKeep(capacity, vs);
    if k == |vs| {
      assert vs[..k] == vs;
    } else {
      var prefix := vs[..|vs| - 1];
      assert prefix[..k] == vs[..k];
      DrainedStaysDrained(capacity, prefix, k);
      RunsKeep(capacity, prefix);
      StepFollows(After(capacity, prefix), vs[|vs| - 1]);
    }
  }

  lemma EndOnEmptyLanes(e: Env, t: Ticket)
    requires Enabled(e, End(t)) && e.high == [] && e.low == []
    ensures GrantedNow(Step(e, End(t))) == GrantedNow(e) - {t}
  {
    var b := Before(e, End(t));
    assert Serve(b) == b;
    assert Step(e, End(t)) == Next(b);
    assert b.waiters == e.waiters[t := e.waiters[t].(stage := Released)];
  }

  /** After the drain, the latch opens with the step that ends the last granted work, and with no other. */
  lemma LatchOpensWithLastEnd(capacity: nat, vs: seq<Event>, v: Event)
    requires Legal(capacity, vs) && Enabled(After(capacity, vs), v)
    requires var e := After(capacity, vs); !e.open && e.high == [] && e.low == []
    ensures var e, r := After(capacity, vs), Step(After(capacity, vs), v);
            (!e.idle && r.idle) <==> (v.End? && GrantedNow(e) == {v.ticket})
  {
    RunsKeep(capacity, vs);
    LatchAfter(After(capacity, vs), v);
  }

  lemma LatchAfter(e: Env, v: Event)
    requires Inner(e) && Rested(e) && Enabled(e, v) && !e.open && e.high == [] && e.low == []
    ensures (!e.idle && Step(e, v).idle) <==> (v.End? && GrantedNow(e) == {v.ticket})
  {
    StepKeeps(e, v);
    if v.End? {
      EndOnEmptyLanes(e, v.ticket);
      assert GrantedNow(e) - {v.ticket} == {} ==> GrantedNow(e) == {} || GrantedNow(e) == {v.ticket};
    }
  }

  // ---- the code ----

  /** The envelope's own state. The tickets index the waiters' cells; `log` and `returned` are its history. */
  class Gate {
    const capacity: nat
    var permits: nat
    var idle: bool
    var open: bool
    var high: seq<Ticket>
    var low: seq<Ticket>
    var waiters: seq<Waiter>
    ghost var log: seq<Ticket>
    ghost var returned: seq<Ticket>

    constructor (capacity: nat)
      ensures View() == Initial(capacity)
    {
      this.capacity, permits, idle, open := capacity, capacity, true, true;
      high, low, waiters, log, returned := [], [], [], [], [];
    }

    ghost function View(): Env
      reads this
    {
      Env(capacity, permits, idle, open, high, low, waiters, log, returned)
    }

    method TakeIfAvailable(n: nat) returns (taken: bool)
      modifies this`permits
      ensures taken <==> old(permits) >= n
      ensures permits == if taken then old(permits) - n else old(permits)
    {
      taken := permits >= n;
      if taken { permits := permits - n; }
    }

    /** Polls the interactive lane, and the background lane if that is empty. */
    method Poll() returns (t: Option<Ticket>)
      modifies this`high, this`low
      ensures t == Polled(old(View()))
      ensures View() == if t.Some? then WithoutPolled(old(View())) else old(View())
    {
      if high != [] {
        t := Some(high[0]);
        high := high[1..];
      } else if low != [] {
        t := Some(low[0]);
        low := low[1..];
      } else {
        t := None;
      }
    }

    /** One turn of `next`'s loop; false when it is to stop. */
    method GrantOne() returns (more: bool)
      requires Dealt(View())
      modifies this
      ensures more <==> old(permits) > 0 && Polled(old(View())).Some?
      ensures View() == if more then Turn(old(View())) else old(View())
    {
      var taken := TakeIfAvailable(1);
      if !taken { return false; }
      var t := Poll();
      if t.None? {
        permits := permits + 1;
        return false;
      }
      if !waiters[t.value].stage.Waiting? {
        permits := permits + 1;
        return true;
      }
      idle := false;
      waiters := waiters[t.value := waiters[t.value].(stage := Granted, ready := Succeeded)];
      log := log + [t.value];
      return true;
    }

    method RunNext()
      requires Dealt(View())
      modifies this
      ensures View() == Next(old(View()))
    {
      var more := true;
      while more
        invariant Dealt(View()) && Serve(View()) == Serve(old(View()))
        invariant !more ==> permits == 0 || Polled(View()).None?
        decreases more, |high| + |low|
      {
        more := GrantOne();
      }
      var all := TakeIfAvailable(capacity);
      if all {
        permits := permits + capacity;
        idle := true;
      }
    }

    /** The acquire: refused once the envelope is closed, else a waiter joins its lane. */
    method Acquire(lane: Lane) returns (ticket: Option<Ticket>)
      requires Dealt(View())
      modifies this
      ensures ticket.Some? <==> old(open)
      ensures ticket.Some? ==> ticket.value == |old(waiters)| && View() == Step(old(View()), Admit(lane))
      ensures ticket.None? ==> View() == old(View())
    {
      if !open { return None; }
      ticket := Some(|waiters|);
      waiters := waiters + [Waiter(lane, Waiting, Pending)];
      if lane.Interactive? { high := high + [ticket.value]; } else { low := low + [ticket.value]; }
      RunNext();
    }

    method Leave(t: Ticket)
      requires Dealt(View()) && Enabled(View(), End(t))
      modifies this
      ensures View() == Step(old(View()), End(t))
    {
      var stage := waiters[t].stage;
      waiters := waiters[t := waiters[t].(stage := Released)];
      if stage.Granted? {
        permits := permits + 1;
        returned := returned + [t];
      }
      RunNext();
    }

    method EvictOne(lane: Lane)
      requires Dealt(View()) && QueueOf(View(), lane) != []
      modifies this`high, this`low, this`waiters
      ensures View() == Evict(old(View()), lane)
    {
      var t;
      if lane.Interactive? {
        t := high[0];
        high := high[1..];
      } else {
        t := low[0];
        low := low[1..];
      }
      if waiters[t].ready.Pending? { waiters := waiters[t := waiters[t].(ready := Busy)]; }
    }

    /** The drain up to its wait: closes the envelope and fails every queued waiter, lane by lane. */
    method Drain()
      requires Dealt(View())
      modifies this
      ensures View() == DrainLane(DrainLane(old(View()).(open := false), Interactive), Background)
    {
      open := false;
      while high != []
        invariant Dealt(View())
        invariant DrainLane(View(), Interactive) == DrainLane(old(View()).(open := false), Interactive)
        decreases |high|
      {
        EvictOne(Interactive);
      }
      while low != []
        invariant Dealt(View())
        invariant DrainLane(View(), Background)
               == DrainLane(DrainLane(old(View()).(open := false), Interactive), Background)
        decreases |low|
      {
        EvictOne(Background);
      }
    }
  }

  lemma {:induction false} DrainEmptiesTheLane(e: Env, lane: Lane)
    requires Inner(e) && !e.open
    ensures var r := DrainLane(e, lane);
            Inner(r) && r == (if lane.Interactive? then e.(high := []) else e.(low := [])).(waiters := r.waiters)
    decreases |QueueOf(e, lane)|
  {
    if QueueOf(e, lane) != [] {
      EvictKeeps(e, lane);
      EvictAnswers(e, lane);
      DrainEmptiesTheLane(Evict(e, lane), lane);
    }
  }

  lemma EvictStep(e: Env, lane: Lane, t: Ticket)
    requires Inner(e) && Enabled(e, DrainOne(lane)) && t < |e.waiters|
    ensures var r := Evict(e, lane);
            |r.waiters| == |e.waiters| && !r.open
            && (t in QueueOf(e, lane) <==> t == QueueOf(e, lane)[0] || t in QueueOf(r, lane))
            && (t == QueueOf(e, lane)[0] ==> t !in QueueOf(r, lane))
            && r.waiters[t] == if t == QueueOf(e, lane)[0] then e.waiters[t].(ready := Busy) else e.waiters[t]
  {
    EvictAnswers(e, lane);
    var q := QueueOf(e, lane);
    assert q == [q[0]] + QueueOf(Evict(e, lane), lane);
  }

  /** Draining a lane grants nothing, and fails exactly the waiters the lane held. */
  lemma {:induction false} DrainFailsTheLane(e: Env, lane: Lane, t: Ticket)
    requires Inner(e) && !e.open && t < |e.waiters|
    ensures var r := DrainLane(e, lane);
            |r.waiters| == |e.waiters|
            && r.waiters[t] == if t in QueueOf(e, lane) then e.waiters[t].(ready := Busy) else e.waiters[t]
    decreases |QueueOf(e, lane)|
  {
    if QueueOf(e, lane) != [] {
      EvictStep(e, lane, t);
      EvictKeeps(e, lane);
      DrainFailsTheLane(Evict(e, lane), lane, t);
    }
  }
}
