/**
 The durable job queue: one table every replica shares, changed only by whole
 statements. Each statement is a function from a table to a table; the class
 `Queue` is the object that holds the table and runs them in place.
 */
module JobQueue {
  import opened Wrappers

  type Id = string
  type Worker = string

  datatype State = Queued | Running | Succeeded | Failed

  /** What a row's `error` column says. */
  datatype Problem = NoProblem | Reported(message: string) | Stopped(times: nat)

  datatype Outcome = Converted(mime: string) | Refused(message: string)

  /** The columns a submit fixes for good. */
  datatype Order = Order(owner: string, target: string, request: string, lane: string, priority: int)

  datatype Row = Row(
    order: Order,
    reference: Option<seq<bv8>>,
    state: State,
    mime: Option<string>,
    problem: Problem,
    attempts: nat,
    worker: Option<Worker>,
    lease: Option<int>,
    created: int,
    updated: int)

  type Table = map<Id, Row>

  predicate Held(r: Row, w: Worker) {
    r.state.Running? && r.worker == Some(w)
  }

  predicate Lapsed(r: Row, now: int) {
    r.state.Running? && r.lease.Some? && r.lease.value < now
  }

  predicate Settled(r: Row) {
    r.state.Succeeded? || r.state.Failed?
  }

  // ---- the statements ----

  function NewRow(order: Order, reference: Option<seq<bv8>>, now: int): Row {
    Row(order, reference, Queued, None, NoProblem, 0, None, None, now, now)
  }

  function Claimed(t: Table, id: Id, w: Worker, until: int, now: int): Table
    requires id in t
  {
    t[id := t[id].(state := Running, attempts := t[id].attempts + 1, worker := Some(w),
                   lease := Some(until), updated := now)]
  }

  function FinishedRow(r: Row, outcome: Outcome, now: int): Row {
    var settled := r.(reference := None, worker := None, lease := None, updated := now);
    match outcome
    case Converted(mime) => settled.(state := Succeeded, mime := Some(mime), problem := NoProblem)
    case Refused(message) => settled.(state := Failed, mime := None, problem := Reported(message))
  }

  function Finished(t: Table, id: Id, w: Worker, outcome: Outcome, now: int): Table {
    if id in t && Held(t[id], w) then t[id := FinishedRow(t[id], outcome, now)] else t
  }

  function Renewed(t: Table, w: Worker, until: int): Table {
    map id | id in t :: if Held(t[id], w) then t[id].(lease := Some(until)) else t[id]
  }

  function RecoveredRow(r: Row, maxAttempts: int, now: int): Row {
    var freed := r.(worker := None, lease := None, updated := now);
    if r.attempts >= maxAttempts
    then freed.(state := Failed, problem := Stopped(r.attempts))
    else freed.(state := Queued)
  }

  function Recovered(t: Table, maxAttempts: int, now: int): Table {
    map id | id in t :: if Lapsed(t[id], now) then RecoveredRow(t[id], maxAttempts, now) else t[id]
  }

  predicate Expired(r: Row, before: int) {
    Settled(r) && r.updated < before
  }

  function Purged(t: Table, before: int): Table {
    map id | id in t && !Expired(t[id], before) :: t[id]
  }

  // ---- the order of claims ----

  function RunningIn(t: Table, lane: string): set<Id> {
    set id | id in t && t[id].state.Running? && t[id].order.lane == lane
  }

  function QueuedIds(t: Table): set<Id> {
    set id | id in t && t[id].state.Queued?
  }

  /** Whether `a` is claimed before `b`: the emptier lane, then the lower priority, then the older row. */
  predicate Ahead(t: Table, a: Id, b: Id)
    requires a in t && b in t
  {
    var (x, y) := (t[a], t[b]);
    var (m, n) := (|RunningIn(t, x.order.lane)|, |RunningIn(t, y.order.lane)|);
    m < n || (m == n && (x.order.priority < y.order.priority
                         || (x.order.priority == y.order.priority && x.created < y.created)))
  }

  /** A row the claim's subquery may answer: no queued row is ahead of it. Rows that tie may each be answered. */
  predicate IsNext(t: Table, id: Id) {
    id in QueuedIds(t) && forall other :: other in QueuedIds(t) ==> !Ahead(t, other, id)
  }

  lemma {:induction false} FirstOf(t: Table, ids: set<Id>) returns (first: Id)
    requires ids != {} && ids <= t.Keys
    ensures first in ids && forall other :: other in ids ==> !Ahead(t, other, first)
    decreases |ids|
  {
    first :| first in ids;
    var rest := ids - {first};
    if rest != {} {
      var best := FirstOf(t, rest);
      if Ahead(t, best, first) {
        first := best;
      } else {
        forall other | other in ids ensures !Ahead(t, other, first) {
          if other != first { assert other in rest; }
        }
      }
    }
  }

  /** The claim answers nothing only when nothing is queued. */
  lemma NextExists(t: Table)
    ensures (exists id :: IsNext(t, id)) <==> QueuedIds(t) != {}
  {
    if QueuedIds(t) != {} {
      var first := FirstOf(t, QueuedIds(t));
      assert IsNext(t, first);
    }
  }

  class Queue {
    var rows: Table
    const maxAttempts: int

    constructor (maxAttempts: int)
      ensures rows == map[] && this.maxAttempts == maxAttempts
    {
      this.maxAttempts := maxAttempts;
      rows := map[];
    }

    /** `id` is the primary key: a second row under it is refused. No other row changes. */
    method Submit(id: Id, order: Order, reference: Option<seq<bv8>>, now: int) returns (accepted: bool)
      modifies this
      ensures accepted <==> id !in old(rows)
      ensures rows.Keys == old(rows).Keys + {id}
      ensures forall other :: other in old(rows) ==> rows[other] == old(rows)[other]
      ensures accepted ==>
        var r := rows[id];
        && r.state.Queued? && r.attempts == 0 && r.worker == None && r.lease == None
        && r.order == order && r.reference == reference && r.mime == None && r.problem == NoProblem
        && r.created == now && r.updated == now
      ensures rows == if accepted then old(rows)[id := NewRow(order, reference, now)] else old(rows)
    {
      accepted := id !in rows;
      if accepted { rows := rows[id := NewRow(order, reference, now)]; }
    }

    method Claim(w: Worker, leaseMs: int, now: int) returns (claimed: Option<Id>)
      modifies this
      ensures claimed.None? <==> QueuedIds(old(rows)) == {}
      ensures claimed.None? ==> rows == old(rows)
      ensures claimed.Some? ==> IsNext(old(rows), claimed.value)
      ensures claimed.Some? ==> rows == Claimed(old(rows), claimed.value, w, now + leaseMs, now)
    {
      NextExists(rows);
      if QueuedIds(rows) == {} { return None; }
      var id :| id in rows && IsNext(rows, id);
      rows := Claimed(rows, id, w, now + leaseMs, now);
      return Some(id);
    }

    /** Only the worker the row is recorded to settles it, and no one holds it after. No other row changes. */
    method Finish(id: Id, w: Worker, outcome: Outcome, now: int)
      modifies this
      ensures rows.Keys == old(rows).Keys
      ensures forall other :: other in rows && other != id ==> rows[other] == old(rows)[other]
      ensures id in rows && !Held(old(rows)[id], w) ==> rows[id] == old(rows)[id]
      ensures id in rows && Held(old(rows)[id], w) ==>
        var (was, r) := (old(rows)[id], rows[id]);
        && (r.state.Succeeded? <==> outcome.Converted?) && (r.state.Failed? <==> outcome.Refused?)
        && (outcome.Converted? ==> r.mime == Some(outcome.mime) && r.problem == NoProblem)
        && (outcome.Refused? ==> r.mime == None && r.problem == Reported(outcome.message))
        && r.worker == None && r.lease == None && r.reference == None && r.updated == now
        && r.order == was.order && r.attempts == was.attempts && r.created == was.created
      ensures id in rows ==> !Held(rows[id], w)
      ensures rows == Finished(old(rows), id, w, outcome, now)
    {
      rows := Finished(rows, id, w, outcome, now);
    }

    /** Every lease of this worker ends a lease from now, and nothing else of the table changes. */
    method Renew(w: Worker, leaseMs: int, now: int)
      modifies this
      ensures rows.Keys == old(rows).Keys
      ensures forall id :: id in rows && !Held(old(rows)[id], w) ==> rows[id] == old(rows)[id]
      ensures forall id :: id in rows && Held(old(rows)[id], w) ==>
        Held(rows[id], w) && rows[id].lease == Some(now + leaseMs)
        && rows[id].(lease := None) == old(rows)[id].(lease := None)
      ensures leaseMs >= 0 ==> forall id :: id in rows && Held(rows[id], w) ==> !Lapsed(rows[id], now)
      ensures rows == Renewed(old(rows), w, now + leaseMs)
    {
      rows := Renewed(rows, w, now + leaseMs);
    }

    /**
     Every lapsed row is freed, to run again while it has attempts left; none is lapsed after,
     and no other row changes.
     */
    method Recover(now: int)
      modifies this
      ensures rows.Keys == old(rows).Keys
      ensures forall id :: id in rows && !Lapsed(old(rows)[id], now) ==> rows[id] == old(rows)[id]
      ensures forall id :: id in rows && Lapsed(old(rows)[id], now) ==>
        var (was, r) := (old(rows)[id], rows[id]);
        && (r.state.Queued? <==> was.attempts < maxAttempts) && (r.state.Failed? <==> was.attempts >= maxAttempts)
        && r.worker == None && r.lease == None && r.updated == now
        && r.problem == (if r.state.Failed? then Stopped(was.attempts) else was.problem)
        && r.attempts == was.attempts && r.order == was.order && r.reference == was.reference
        && r.mime == was.mime && r.created == was.created
      ensures forall id :: id in rows ==> !Lapsed(rows[id], now)
      ensures rows == Recovered(old(rows), maxAttempts, now)
    {
      rows := Recovered(rows, maxAttempts, now);
    }

    method Purge(before: int) returns (gone: set<Id>)
      modifies this
      ensures rows == Purged(old(rows), before)
      ensures gone == old(rows).Keys - rows.Keys
    {
      gone := set id | id in rows && Expired(rows[id], before);
      rows := Purged(rows, before);
    }
  }

  // ---- the fairness of claims ----

  /** `t` after the claims `picks`, in order, by any workers at any times. */
  ghost predicate ClaimRun(t: Table, picks: seq<Id>, t': Table)
    decreases |picks|
  {
    if picks == [] then t' == t
    else exists w: Worker, until: int, now: int ::
      IsNext(t, picks[0]) && ClaimRun(Claimed(t, picks[0], w, until, now), picks[1..], t')
  }

  lemma ClaimGrowsOneLane(t: Table, id: Id, w: Worker, until: int, now: int, lane: string)
    requires id in QueuedIds(t)
    ensures |RunningIn(Claimed(t, id, w, until, now), lane)|
         == |RunningIn(t, lane)| + (if t[id].order.lane == lane then 1 else 0)
    ensures QueuedIds(Claimed(t, id, w, until, now)) == QueuedIds(t) - {id}
  {
    var t' := Claimed(t, id, w, until, now);
    if t[id].order.lane == lane {
      assert RunningIn(t', lane) == RunningIn(t, lane) + {id};
    } else {
      assert RunningIn(t', lane) == RunningIn(t, lane);
    }
  }

  /** No lane runs more than one job more than a lane that still has a job waiting. */
  ghost predicate Balanced(t: Table) {
    forall lane: string, id :: id in QueuedIds(t) ==>
      |RunningIn(t, lane)| <= |RunningIn(t, t[id].order.lane)| + 1
  }

  lemma ClaimKeepsBalance(t: Table, id: Id, w: Worker, until: int, now: int)
    requires Balanced(t) && IsNext(t, id)
    ensures Balanced(Claimed(t, id, w, until, now))
  {
    var t' := Claimed(t, id, w, until, now);
    forall lane: string, other | other in QueuedIds(t')
      ensures |RunningIn(t', lane)| <= |RunningIn(t', t'[other].order.lane)| + 1
    {
      ClaimGrowsOneLane(t, id, w, until, now, lane);
      ClaimGrowsOneLane(t, id, w, until, now, t[other].order.lane);
      assert !Ahead(t, other, id);
    }
  }

  /** From a table where nothing runs, any run of claims alone leaves the lanes balanced. */
  lemma {:induction false} ClaimsStayFair(t: Table, picks: seq<Id>, t': Table)
    requires Balanced(t) && ClaimRun(t, picks, t')
    ensures Balanced(t')
    decreases |picks|
  {
    if picks != [] {
      var w: Worker, until: int, now: int :|
        IsNext(t, picks[0]) && ClaimRun(Claimed(t, picks[0], w, until, now), picks[1..], t');
      ClaimKeepsBalance(t, picks[0], w, until, now);
      ClaimsStayFair(Claimed(t, picks[0], w, until, now), picks[1..], t');
    }
  }

  lemma IdleIsBalanced(t: Table)
    requires forall id :: id in t ==> !t[id].state.Running?
    ensures Balanced(t)
  {
    forall lane: string ensures RunningIn(t, lane) == {} {}
  }

  /** A run of claims takes distinct queued rows, and the order columns of every row stay as they were. */
  lemma {:induction false} ClaimsTakeQueued(t: Table, picks: seq<Id>, t': Table)
    requires ClaimRun(t, picks, t')
    ensures t'.Keys == t.Keys
    ensures forall id :: id in t ==> t'[id].order == t[id].order && t'[id].created == t[id].created
    ensures forall i :: 0 <= i < |picks| ==> picks[i] in QueuedIds(t)
    ensures QueuedIds(t') == QueuedIds(t) - set id | id in picks
    ensures forall i, j :: 0 <= i < j < |picks| ==> picks[i] != picks[j]
    decreases |picks|
  {
    if picks != [] {
      var w: Worker, until: int, now: int :|
        IsNext(t, picks[0]) && ClaimRun(Claimed(t, picks[0], w, until, now), picks[1..], t');
      var next := Claimed(t, picks[0], w, until, now);
      ClaimGrowsOneLane(t, picks[0], w, until, now, "");
      ClaimsTakeQueued(next, picks[1..], t');
      assert picks == [picks[0]] + picks[1..];
      forall i | 0 <= i < |picks| ensures picks[i] in QueuedIds(t) {
        if i > 0 { assert picks[i] == picks[1..][i - 1]; }
      }
      forall i, j | 0 <= i < j < |picks| ensures picks[i] != picks[j] {
        assert picks[j] == picks[1..][j - 1];
        if i > 0 { assert picks[i] == picks[1..][i - 1]; }
      }
    }
  }

  /** Within one lane and one priority, rows are claimed oldest first. */
  lemma {:induction false} ClaimsTakeTheOldest(t: Table, picks: seq<Id>, t': Table, i: nat, j: nat)
    requires ClaimRun(t, picks, t') && i < j < |picks|
    requires picks[i] in t && picks[j] in t
    requires t[picks[i]].order.lane == t[picks[j]].order.lane
    requires t[picks[i]].order.priority == t[picks[j]].order.priority
    ensures t[picks[i]].created <= t[picks[j]].created
    decreases |picks|
  {
    ClaimsTakeQueued(t, picks, t');
    var w: Worker, until: int, now: int :|
      IsNext(t, picks[0]) && ClaimRun(Claimed(t, picks[0], w, until, now), picks[1..], t');
    if i == 0 {
      assert !Ahead(t, picks[j], picks[0]);
    } else {
      var next := Claimed(t, picks[0], w, until, now);
      assert picks[i] == picks[1..][i - 1] && picks[j] == picks[1..][j - 1];
      ClaimsTakeTheOldest(next, picks[1..], t', i - 1, j - 1);
    }
  }
}
