/**
 Replicas over the shared queue: each pumps jobs into its free slots, renews its
 leases, recovers lapsed ones and may crash at any point. The system is a state
 machine whose events are single statements on the table or single synchronous
 pieces of a replica, in any interleaving, under one monotone clock.
 */
module ConvertService {
  import opened Wrappers
  import opened JobQueue

  const LEASE_MS := 15_000

  /**
   One live replica. `active` is the counter the program keeps; `converting` (jobs
   whose conversion has not yet reported), `leaving` (reported, slot not yet given
   back) and `previews` are what it counts. `beat` is when it last renewed, or began.
   */
  datatype Replica = Replica(
    concurrency: int,
    active: int,
    stopping: bool,
    converting: multiset<Id>,
    leaving: nat,
    previews: nat,
    beat: int)

  /** `workers` and `ids` are the names ever used: both are drawn at random and never drawn twice. */
  datatype System = System(
    rows: Table,
    live: map<Worker, Replica>,
    now: int,
    workers: set<Worker>,
    ids: set<Id>,
    purged: nat)

  datatype Event =
    | Tick(ms: nat)
    | Join(worker: Worker, concurrency: int)
    | Crash(worker: Worker)
    | Submit(id: Id, order: Order, reference: Option<seq<bv8>>)
    | Claim(worker: Worker, id: Id)
    | Report(worker: Worker, id: Id, outcome: Outcome)
    | GiveBack(worker: Worker)
    | PreviewBegins(worker: Worker)
    | PreviewEnds(worker: Worker)
    | Renew(worker: Worker)
    | Recover
    | Purge(before: int)
    | Stop(worker: Worker)

  predicate HasRoom(r: Replica) {
    !r.stopping && r.active < r.concurrency
  }

  predicate Enabled(s: System, e: Event) {
    match e
    case Tick(_) => true
    case Join(w, _) => w !in s.workers
    case Crash(w) => w in s.live
    case Submit(id, _, _) => id !in s.ids
    case Claim(w, id) => w in s.live && HasRoom(s.live[w]) && IsNext(s.rows, id)
    case Report(w, id, _) => w in s.live && id in s.live[w].converting
    case GiveBack(w) => w in s.live && s.live[w].leaving > 0
    case PreviewBegins(w) => w in s.live && HasRoom(s.live[w]) && QueuedIds(s.rows) == {}
    case PreviewEnds(w) => w in s.live && s.live[w].previews > 0
    case Renew(w) => w in s.live
    case Recover => true
    case Purge(_) => true
    case Stop(w) => w in s.live
  }

  function Step(s: System, e: Event, maxAttempts: int): System
    requires Enabled(s, e)
  {
    match e
    case Tick(ms) => s.(now := s.now + ms)
    case Join(w, concurrency) =>
      s.(workers := s.workers + {w},
         live := s.live[w := Replica(concurrency, 0, false, multiset{}, 0, 0, s.now)])
    case Crash(w) => s.(live := s.live - {w})
    case Submit(id, order, reference) =>
      s.(ids := s.ids + {id}, rows := s.rows[id := NewRow(order, reference, s.now)])
    case Claim(w, id) =>
      var r := s.live[w];
      s.(rows := Claimed(s.rows, id, w, s.now + LEASE_MS, s.now),
         live := s.live[w := r.(active := r.active + 1, converting := r.converting + multiset{id})])
    case Report(w, id, outcome) =>
      var r := s.live[w];
      s.(rows := Finished(s.rows, id, w, outcome, s.now),
         live := s.live[w := r.(converting := r.converting - multiset{id}, leaving := r.leaving + 1)])
    case GiveBack(w) =>
      var r := s.live[w];
      s.(live := s.live[w := r.(active := r.active - 1, leaving := r.leaving - 1)])
    case PreviewBegins(w) =>
      var r := s.live[w];
      s.(live := s.live[w := r.(active := r.active + 1, previews := r.previews + 1)])
    case PreviewEnds(w) =>
      var r := s.live[w];
      s.(live := s.live[w := r.(active := r.active - 1, previews := r.previews - 1)])
    case Renew(w) =>
      s.(rows := Renewed(s.rows, w, s.now + LEASE_MS), live := s.live[w := s.live[w].(beat := s.now)])
    case Recover => s.(rows := Recovered(s.rows, maxAttempts, s.now))
    case Purge(before) =>
      var kept := Purged(s.rows, before);
      s.(rows := kept, purged := s.purged + |s.rows.Keys - kept.Keys|)
    case Stop(w) => s.(live := s.live[w := s.live[w].(stopping := true)])
  }

  // ---- runs ----

  ghost predicate LegalFrom(s: System, es: seq<Event>, maxAttempts: int)
    decreases |es|, 0
  {
    es == [] ||
    (LegalFrom(s, es[..|es| - 1], maxAttempts)
     && Enabled(RunFrom(s, es[..|es| - 1], maxAttempts), es[|es| - 1]))
  }

  ghost function RunFrom(s: System, es: seq<Event>, maxAttempts: int): System
    requires LegalFrom(s, es, maxAttempts)
    decreases |es|, 1
  {
    if es == [] then s
    else Step(RunFrom(s, es[..|es| - 1], maxAttempts), es[|es| - 1], maxAttempts)
  }

  const START := System(map[], map[], 0, {}, {}, 0)

  ghost predicate Legal(es: seq<Event>, maxAttempts: int) {
    LegalFrom(START, es, maxAttempts)
  }

  ghost function After(es: seq<Event>, maxAttempts: int): System
    requires Legal(es, maxAttempts)
  {
    RunFrom(START, es, maxAttempts)
  }

  lemma LastEvent(es: seq<Event>, maxAttempts: int)
    requires Legal(es, maxAttempts) && es != []
    ensures Legal(es[..|es| - 1], maxAttempts)
    ensures Enabled(After(es[..|es| - 1], maxAttempts), es[|es| - 1])
    ensures After(es, maxAttempts) == Step(After(es[..|es| - 1], maxAttempts), es[|es| - 1], maxAttempts)
  {
  }

  // ---- what every run keeps ----

  /** How often one job may be claimed: at least the once that finds out. */
  function Limit(maxAttempts: int): nat {
    if maxAttempts < 1 then 1 else maxAttempts
  }

  ghost predicate RowOk(r: Row, maxAttempts: int) {
    && (r.state.Running? <==> r.worker.Some?)
    && (r.state.Running? <==> r.lease.Some?)
    && (r.state.Queued? ==> r.attempts < Limit(maxAttempts))
    && r.attempts <= Limit(maxAttempts)
    && (r.state.Running? ==> r.attempts >= 1)
  }

  ghost predicate ReplicaOk(r: Replica) {
    && r.active == |r.converting| + r.leaving + r.previews
    && r.active <= (if r.concurrency < 0 then 0 else r.concurrency)
  }

  ghost predicate NamesOk(s: System) {
    && s.rows.Keys <= s.ids && s.live.Keys <= s.workers
    && (forall id, w :: id in s.rows && Held(s.rows[id], w) ==> w in s.workers)
    && |s.ids| == |s.rows.Keys| + s.purged
  }

  ghost predicate RowsOk(t: Table, maxAttempts: int) {
    forall id :: id in t ==> RowOk(t[id], maxAttempts)
  }

  ghost predicate ReplicasOk(s: System) {
    forall w :: w in s.live ==> ReplicaOk(s.live[w]) && s.live[w].beat <= s.now
  }

  /** A row recorded to a live replica has a conversion in flight there, under a lease no older than its last beat. */
  ghost predicate HoldingAt(s: System, w: Worker, id: Id) {
    w in s.live && id in s.rows && Held(s.rows[id], w) ==>
      id in s.live[w].converting
      && s.rows[id].lease.Some? && s.rows[id].lease.value >= s.live[w].beat + LEASE_MS
  }

  ghost predicate HoldingOk(s: System) {
    forall w, id :: HoldingAt(s, w, id)
  }

  ghost predicate Invariant(s: System, maxAttempts: int) {
    NamesOk(s) && RowsOk(s.rows, maxAttempts) && ReplicasOk(s) && HoldingOk(s)
  }

  lemma SubmitKeepsCount(s: System, e: Event, maxAttempts: int)
    requires s.rows.Keys <= s.ids && |s.ids| == |s.rows.Keys| + s.purged && Enabled(s, e) && e.Submit?
    ensures var s' := Step(s, e, maxAttempts); |s'.ids| == |s'.rows.Keys| + s'.purged && s'.rows.Keys <= s'.ids
  {
    assert Step(s, e, maxAttempts).rows.Keys == s.rows.Keys + {e.id};
  }

  lemma PurgeKeepsCount(s: System, e: Event, maxAttempts: int)
    requires s.rows.Keys <= s.ids && |s.ids| == |s.rows.Keys| + s.purged && Enabled(s, e) && e.Purge?
    ensures var s' := Step(s, e, maxAttempts); |s'.ids| == |s'.rows.Keys| + s'.purged && s'.rows.Keys <= s'.ids
  {
    KeysSplit(s.rows.Keys, Purged(s.rows, e.before).Keys);
  }

  lemma KeysSplit(all: set<Id>, kept: set<Id>)
    requires kept <= all
    ensures |all| == |kept| + |all - kept|
  {
    assert all == kept + (all - kept);
  }

  /** Only a submit and a purge change which rows there are. */
  lemma RowsStay(s: System, e: Event, maxAttempts: int)
    requires Enabled(s, e) && !e.Submit? && !e.Purge?
    ensures var s' := Step(s, e, maxAttempts); s'.rows.Keys == s.rows.Keys && s'.ids == s.ids && s'.purged == s.purged
  {
  }

  lemma StepKeepsCount(s: System, e: Event, maxAttempts: int)
    requires s.rows.Keys <= s.ids && |s.ids| == |s.rows.Keys| + s.purged && Enabled(s, e)
    ensures var s' := Step(s, e, maxAttempts); |s'.ids| == |s'.rows.Keys| + s'.purged && s'.rows.Keys <= s'.ids
  {
    if e.Submit? {
      SubmitKeepsCount(s, e, maxAttempts);
    } else if e.Purge? {
      PurgeKeepsCount(s, e, maxAttempts);
    } else {
      RowsStay(s, e, maxAttempts);
    }
  }

  lemma StepKeepsNames(s: System, e: Event, maxAttempts: int)
    requires NamesOk(s) && Enabled(s, e)
    ensures NamesOk(Step(s, e, maxAttempts))
  {
    var s' := Step(s, e, maxAttempts);
    StepKeepsCount(s, e, maxAttempts);
    assert s.workers <= s'.workers && s'.live.Keys <= s'.workers;
    forall id, w | id in s'.rows && Held(s'.rows[id], w) ensures w in s'.workers {
      if id in s.rows && Held(s.rows[id], w) {
        assert w in s.workers;
      } else {
        assert e.Claim? && e.worker == w;
      }
    }
  }

  lemma StepKeepsRows(s: System, e: Event, maxAttempts: int)
    requires RowsOk(s.rows, maxAttempts) && Enabled(s, e)
    ensures RowsOk(Step(s, e, maxAttempts).rows, maxAttempts)
  {
    var s' := Step(s, e, maxAttempts);
    forall id | id in s'.rows ensures RowOk(s'.rows[id], maxAttempts) {
      if id in s.rows { assert RowOk(s.rows[id], maxAttempts); }
    }
  }

  lemma StepKeepsReplicas(s: System, e: Event, maxAttempts: int)
    requires ReplicasOk(s) && Enabled(s, e)
    ensures ReplicasOk(Step(s, e, maxAttempts))
  {
    var s' := Step(s, e, maxAttempts);
    forall w | w in s'.live ensures ReplicaOk(s'.live[w]) && s'.live[w].beat <= s'.now {
      if w in s.live { assert ReplicaOk(s.live[w]) && s.live[w].beat <= s.now; }
    }
  }

  /** A new replica holds nothing, its name being new. */
  lemma JoinKeepsHolding(s: System, e: Event, maxAttempts: int, w: Worker, id: Id)
    requires NamesOk(s) && HoldingAt(s, w, id) && Enabled(s, e) && e.Join?
    ensures HoldingAt(Step(s, e, maxAttempts), w, id)
  {
    if id in s.rows && Held(s.rows[id], w) {
      assert w in s.workers;
    }
  }

  lemma RowsKeepHolding(s: System, e: Event, maxAttempts: int, w: Worker, id: Id)
    requires NamesOk(s) && HoldingAt(s, w, id) && Enabled(s, e) && (e.Submit? || e.Recover? || e.Purge? || e.Renew?)
    requires w in s.live ==> s.live[w].beat <= s.now
    ensures HoldingAt(Step(s, e, maxAttempts), w, id)
  {
  }

  lemma ClaimKeepsHolding(s: System, e: Event, maxAttempts: int, w: Worker, id: Id)
    requires HoldingAt(s, w, id) && Enabled(s, e) && (e.Claim? || e.Report?)
    requires w in s.live ==> s.live[w].beat <= s.now
    ensures HoldingAt(Step(s, e, maxAttempts), w, id)
  {
  }

  lemma QuietKeepsHolding(s: System, e: Event, maxAttempts: int, w: Worker, id: Id)
    requires HoldingAt(s, w, id) && Enabled(s, e)
    requires e.Tick? || e.Crash? || e.GiveBack? || e.PreviewBegins? || e.PreviewEnds? || e.Stop?
    ensures HoldingAt(Step(s, e, maxAttempts), w, id)
  {
  }

  lemma StepKeepsHolding(s: System, e: Event, maxAttempts: int)
    requires Invariant(s, maxAttempts) && Enabled(s, e)
    ensures HoldingOk(Step(s, e, maxAttempts))
  {
    forall w, id
      ensures HoldingAt(Step(s, e, maxAttempts), w, id)
    {
      assert HoldingAt(s, w, id);
      if e.Join? {
        JoinKeepsHolding(s, e, maxAttempts, w, id);
      } else if e.Submit? || e.Recover? || e.Purge? || e.Renew? {
        RowsKeepHolding(s, e, maxAttempts, w, id);
      } else if e.Claim? || e.Report? {
        ClaimKeepsHolding(s, e, maxAttempts, w, id);
      } else {
        QuietKeepsHolding(s, e, maxAttempts, w, id);
      }
    }
  }

  lemma {:induction false} RunsKeepInvariant(es: seq<Event>, maxAttempts: int)
    requires Legal(es, maxAttempts)
    ensures Invariant(After(es, maxAttempts), maxAttempts)
    decreases |es|
  {
    if es != [] {
      LastEvent(es, maxAttempts);
      RunsKeepInvariant(es[..|es| - 1], maxAttempts);
      var (s, e) := (After(es[..|es| - 1], maxAttempts), es[|es| - 1]);
      StepKeepsNames(s, e, maxAttempts);
      StepKeepsRows(s, e, maxAttempts);
      StepKeepsReplicas(s, e, maxAttempts);
      StepKeepsHolding(s, e, maxAttempts);
    }
  }

  // ---- capacity ----

  lemma {:induction false} DistinctMembersFit(held: set<Id>, all: multiset<Id>)
    requires forall id :: id in held ==> id in all
    ensures |held| <= |all|
    decreases |held|
  {
    if held != {} {
      var id :| id in held;
      DistinctMembersFit(held - {id}, all - multiset{id});
    }
  }

  ghost function RowsHeldBy(t: Table, w: Worker): set<Id> {
    set id | id in t && Held(t[id], w)
  }

  /**
   On every live replica the counter is exact and within the capacity, each row
   recorded to it has a conversion in flight there, and so it holds no more rows
   than its capacity, also when it has claimed a lapsed row of its own again.
   */
  lemma CapacityIsNeverExceeded(es: seq<Event>, maxAttempts: int, w: Worker)
    requires Legal(es, maxAttempts) && w in After(es, maxAttempts).live
    ensures var s := After(es, maxAttempts); var r := s.live[w];
            && r.active == |r.converting| + r.leaving + r.previews
            && r.active <= (if r.concurrency < 0 then 0 else r.concurrency)
            && (forall id :: id in RowsHeldBy(s.rows, w) ==> id in r.converting)
            && |RowsHeldBy(s.rows, w)| + r.leaving + r.previews <= r.active
  {
    RunsKeepInvariant(es, maxAttempts);
    var s := After(es, maxAttempts);
    forall id | id in RowsHeldBy(s.rows, w)
      ensures id in s.live[w].converting
    {
      assert HoldingAt(s, w, id);
    }
    DistinctMembersFit(RowsHeldBy(s.rows, w), s.live[w].converting);
  }

  // ---- leases ----

  /** When the run last set the lease of row `id`: its last claim, or the last renewal by the worker holding it. */
  ghost function LastTouch(es: seq<Event>, maxAttempts: int, id: Id): int
    requires Legal(es, maxAttempts)
    decreases |es|
  {
    if es == [] then 0
    else
      var before := After(es[..|es| - 1], maxAttempts);
      match es[|es| - 1]
      case Claim(_, claimed) =>
        if claimed == id then before.now else LastTouch(es[..|es| - 1], maxAttempts, id)
      case Renew(w) =>
        if id in before.rows && Held(before.rows[id], w) then before.now
        else LastTouch(es[..|es| - 1], maxAttempts, id)
      case _ => LastTouch(es[..|es| - 1], maxAttempts, id)
  }

  lemma StepSetsLease(s: System, e: Event, maxAttempts: int, id: Id)
    requires Enabled(s, e) && RowsOk(s.rows, maxAttempts)
    requires id in Step(s, e, maxAttempts).rows && Step(s, e, maxAttempts).rows[id].state.Running?
    ensures if SetsLease(s, e, id)
            then Step(s, e, maxAttempts).rows[id].lease == Some(s.now + LEASE_MS)
            else id in s.rows && s.rows[id].state.Running?
                 && Step(s, e, maxAttempts).rows[id].lease == s.rows[id].lease
  {
  }

  predicate SetsLease(s: System, e: Event, id: Id) {
    (e.Claim? && e.id == id) || (e.Renew? && id in s.rows && Held(s.rows[id], e.worker))
  }

  lemma LastTouchOf(es: seq<Event>, maxAttempts: int, id: Id)
    requires Legal(es, maxAttempts) && es != [] && Legal(es[..|es| - 1], maxAttempts)
    ensures var before := After(es[..|es| - 1], maxAttempts);
      LastTouch(es, maxAttempts, id)
        == if SetsLease(before, es[|es| - 1], id) then before.now else LastTouch(es[..|es| - 1], maxAttempts, id)
  {
  }

  lemma {:induction false} LeaseCountsFromLastTouch(es: seq<Event>, maxAttempts: int, id: Id)
    requires Legal(es, maxAttempts)
    requires id in After(es, maxAttempts).rows && After(es, maxAttempts).rows[id].state.Running?
    ensures After(es, maxAttempts).rows[id].lease == Some(LastTouch(es, maxAttempts, id) + LEASE_MS)
    decreases |es|
  {
    if es != [] {
      var prefix, e := es[..|es| - 1], es[|es| - 1];
      LastEvent(es, maxAttempts);
      var before := After(prefix, maxAttempts);
      assert After(es, maxAttempts) == Step(before, e, maxAttempts);
      assert RowsOk(before.rows, maxAttempts) by {
        RunsKeepInvariant(prefix, maxAttempts);
      }
      LastTouchOf(es, maxAttempts, id);
      StepSetsLease(before, e, maxAttempts, id);
      if !SetsLease(before, e, id) {
        LeaseCountsFromLastTouch(prefix, maxAttempts, id);
      }
    }
  }

  lemma StepTakesRow(s: System, e: Event, maxAttempts: int, id: Id, w: Worker)
    requires Enabled(s, e) && s.rows.Keys <= s.ids && id in s.rows && Held(s.rows[id], w)
    ensures var s' := Step(s, e, maxAttempts);
            id in s'.rows && (Held(s'.rows[id], w)
                              || (e.Report? && e.worker == w && e.id == id && Settled(s'.rows[id]))
                              || (e.Recover? && Lapsed(s.rows[id], s.now)))
  {
  }

  /**
   A running row leaves its worker in two ways only: that worker reports it, or a
   recover runs more than a lease after the worker last claimed it or renewed.
   */
  lemma RowIsTakenOnlyAfterItsLease(es: seq<Event>, e: Event, maxAttempts: int, id: Id, w: Worker)
    requires Legal(es, maxAttempts) && Enabled(After(es, maxAttempts), e)
    requires id in After(es, maxAttempts).rows && Held(After(es, maxAttempts).rows[id], w)
    ensures var s := After(es, maxAttempts); var s' := Step(s, e, maxAttempts);
            id in s'.rows && (Held(s'.rows[id], w)
                              || (e.Report? && e.worker == w && e.id == id && Settled(s'.rows[id]))
                              || (e.Recover? && s.now > LastTouch(es, maxAttempts, id) + LEASE_MS))
  {
    RunsKeepInvariant(es, maxAttempts);
    StepTakesRow(After(es, maxAttempts), e, maxAttempts, id, w);
    LeaseCountsFromLastTouch(es, maxAttempts, id);
  }

  /** A report by a worker the row is not recorded to changes no row. */
  lemma StaleReportChangesNothing(s: System, w: Worker, id: Id, outcome: Outcome, maxAttempts: int)
    requires Enabled(s, Report(w, id, outcome))
    ensures Step(s, Report(w, id, outcome), maxAttempts).rows == s.rows
         <==> !(id in s.rows && Held(s.rows[id], w))
  {
    if id in s.rows && Held(s.rows[id], w) {
      assert Step(s, Report(w, id, outcome), maxAttempts).rows[id] != s.rows[id];
    }
  }

  /** Every live replica renewed, or began, within one lease of each recover of the run. */
  ghost predicate Timely(es: seq<Event>, maxAttempts: int)
    requires Legal(es, maxAttempts)
    decreases |es|
  {
    es == [] ||
    (Timely(es[..|es| - 1], maxAttempts)
     && (es[|es| - 1].Recover? ==>
           var s := After(es[..|es| - 1], maxAttempts);
           forall w :: w in s.live ==> s.now <= s.live[w].beat + LEASE_MS))
  }

  /** The conversion of `id` in flight on `w` is of a row recorded to it, and the only one of that row there. */
  ghost predicate ExclusiveAt(s: System, w: Worker, id: Id) {
    w in s.live && id in s.live[w].converting ==>
      id in s.rows && Held(s.rows[id], w) && s.live[w].converting[id] == 1
  }

  ghost predicate Exclusive(s: System) {
    forall w, id :: ExclusiveAt(s, w, id)
  }

  lemma RecoverKeepsExclusive(s: System, maxAttempts: int)
    requires Invariant(s, maxAttempts) && Exclusive(s)
    requires forall w :: w in s.live ==> s.now <= s.live[w].beat + LEASE_MS
    ensures Exclusive(Step(s, Recover, maxAttempts))
  {
    forall w, id
      ensures ExclusiveAt(Step(s, Recover, maxAttempts), w, id)
    {
      assert ExclusiveAt(s, w, id) && HoldingAt(s, w, id);
    }
  }

  lemma ClaimKeepsExclusive(s: System, w: Worker, id: Id, maxAttempts: int)
    requires Exclusive(s) && Enabled(s, Claim(w, id))
    ensures Exclusive(Step(s, Claim(w, id), maxAttempts))
  {
    forall v, other
      ensures ExclusiveAt(Step(s, Claim(w, id), maxAttempts), v, other)
    {
      assert ExclusiveAt(s, v, other) && s.rows[id].state.Queued?;
    }
  }

  lemma ReportKeepsExclusive(s: System, w: Worker, id: Id, outcome: Outcome, maxAttempts: int)
    requires Exclusive(s) && Enabled(s, Report(w, id, outcome))
    ensures Exclusive(Step(s, Report(w, id, outcome), maxAttempts))
  {
    assert ExclusiveAt(s, w, id);
    forall v, other
      ensures ExclusiveAt(Step(s, Report(w, id, outcome), maxAttempts), v, other)
    {
      assert ExclusiveAt(s, v, other);
    }
  }

  lemma RowsOnlyKeepExclusive(s: System, e: Event, maxAttempts: int)
    requires Exclusive(s) && Enabled(s, e) && (e.Submit? || e.Renew? || e.Purge?)
    requires e.Submit? ==> e.id !in s.rows
    ensures Exclusive(Step(s, e, maxAttempts))
  {
    forall v, other
      ensures ExclusiveAt(Step(s, e, maxAttempts), v, other)
    {
      assert ExclusiveAt(s, v, other);
    }
  }

  lemma StepKeepsExclusive(s: System, e: Event, maxAttempts: int)
    requires Invariant(s, maxAttempts) && Exclusive(s) && Enabled(s, e)
    requires e.Recover? ==> forall w :: w in s.live ==> s.now <= s.live[w].beat + LEASE_MS
    ensures Exclusive(Step(s, e, maxAttempts))
  {
    if e.Recover? {
      RecoverKeepsExclusive(s, maxAttempts);
    } else if e.Claim? {
      ClaimKeepsExclusive(s, e.worker, e.id, maxAttempts);
    } else if e.Report? {
      ReportKeepsExclusive(s, e.worker, e.id, e.outcome, maxAttempts);
    } else if e.Submit? || e.Renew? || e.Purge? {
      RowsOnlyKeepExclusive(s, e, maxAttempts);
    } else {
      QuietKeepsExclusive(s, e, maxAttempts);
    }
  }

  lemma QuietKeepsExclusive(s: System, e: Event, maxAttempts: int)
    requires Exclusive(s) && Enabled(s, e)
    requires !e.Recover? && !e.Claim? && !e.Report? && !e.Submit? && !e.Renew? && !e.Purge?
    ensures Exclusive(Step(s, e, maxAttempts))
  {
    forall v, other
      ensures ExclusiveAt(Step(s, e, maxAttempts), v, other)
    {
      assert ExclusiveAt(s, v, other);
    }
  }

  lemma {:induction false} TimelyRunsAreExclusive(es: seq<Event>, maxAttempts: int)
    requires Legal(es, maxAttempts) && Timely(es, maxAttempts)
    ensures Exclusive(After(es, maxAttempts))
    decreases |es|
  {
    if es != [] {
      LastEvent(es, maxAttempts);
      TimelyRunsAreExclusive(es[..|es| - 1], maxAttempts);
      RunsKeepInvariant(es[..|es| - 1], maxAttempts);
      StepKeepsExclusive(After(es[..|es| - 1], maxAttempts), es[|es| - 1], maxAttempts);
    }
  }

  /** While live replicas renew in time, no job has two live replicas converting it. */
  lemma NoJobRunsTwice(es: seq<Event>, maxAttempts: int, v: Worker, w: Worker, id: Id)
    requires Legal(es, maxAttempts) && Timely(es, maxAttempts)
    requires v in After(es, maxAttempts).live && w in After(es, maxAttempts).live
    requires id in After(es, maxAttempts).live[v].converting
    requires id in After(es, maxAttempts).live[w].converting
    ensures v == w
  {
    TimelyRunsAreExclusive(es, maxAttempts);
    assert ExclusiveAt(After(es, maxAttempts), v, id) && ExclusiveAt(After(es, maxAttempts), w, id);
  }

  // ---- settled rows, conservation, progress ----

  ghost function InState(t: Table, queued: bool, running: bool): set<Id> {
    set id | id in t && t[id].state.Queued? == queued && t[id].state.Running? == running
  }

  /** Every job ever submitted is queued, running, settled or purged, and none is two of these. */
  lemma JobsAreConserved(es: seq<Event>, maxAttempts: int)
    requires Legal(es, maxAttempts)
    ensures var s := After(es, maxAttempts);
            |s.ids| == |InState(s.rows, true, false)| + |InState(s.rows, false, true)|
                       + |InState(s.rows, false, false)| + s.purged
  {
    RunsKeepInvariant(es, maxAttempts);
    var t := After(es, maxAttempts).rows;
    var (q, r, done) := (InState(t, true, false), InState(t, false, true), InState(t, false, false));
    assert t.Keys == q + r + done;
    assert |q + r| == |q| + |r|;
    assert |(q + r) + done| == |q + r| + |done|;
  }

  /** A settled row never changes while it is kept, however the run goes on. */
  lemma {:induction false} SettledRowsStay(es: seq<Event>, k: nat, maxAttempts: int, id: Id)
    requires Legal(es, maxAttempts) && k <= |es| && Legal(es[..k], maxAttempts)
    requires id in After(es[..k], maxAttempts).rows && Settled(After(es[..k], maxAttempts).rows[id])
    ensures id in After(es, maxAttempts).rows ==>
              After(es, maxAttempts).rows[id] == After(es[..k], maxAttempts).rows[id]
    ensures id in After(es, maxAttempts).ids
    decreases |es|
  {
    if k == |es| {
      assert es[..k] == es;
      RunsKeepInvariant(es, maxAttempts);
    } else {
      var prefix := es[..|es| - 1];
      assert prefix[..k] == es[..k];
      LastEvent(es, maxAttempts);
      SettledRowsStay(prefix, k, maxAttempts, id);
      StepKeepsSettled(After(prefix, maxAttempts), es[|es| - 1], maxAttempts, id);
    }
  }

  lemma StepKeepsSettled(s: System, e: Event, maxAttempts: int, id: Id)
    requires Enabled(s, e) && id in s.ids
    ensures id in Step(s, e, maxAttempts).ids
    ensures id in Step(s, e, maxAttempts).rows ==> id in s.rows
    ensures id in Step(s, e, maxAttempts).rows && Settled(s.rows[id]) ==>
              Step(s, e, maxAttempts).rows[id] == s.rows[id]
  {
  }

  /** The work a row can still cause: two steps for each claim it has left. */
  ghost function Rank(r: Row, maxAttempts: int): int {
    match r.state
    case Queued => 2 * (Limit(maxAttempts) - r.attempts)
    case Running => 2 * (Limit(maxAttempts) - r.attempts) + 1
    case Succeeded => 0
    case Failed => 0
  }

  ghost function Potential(t: Table, ids: set<Id>, maxAttempts: int): int
    requires ids <= t.Keys
    decreases |ids|
  {
    if ids == {} then 0
    else
      var id :| id in ids;
      Rank(t[id], maxAttempts) + Potential(t, ids - {id}, maxAttempts)
  }

  lemma {:induction false} PotentialWithout(t: Table, ids: set<Id>, id: Id, maxAttempts: int)
    requires ids <= t.Keys && id in ids
    ensures Potential(t, ids, maxAttempts) == Rank(t[id], maxAttempts) + Potential(t, ids - {id}, maxAttempts)
    decreases |ids|
  {
    var picked :| picked in ids
      && Potential(t, ids, maxAttempts) == Rank(t[picked], maxAttempts) + Potential(t, ids - {picked}, maxAttempts);
    if picked != id {
      PotentialWithout(t, ids - {picked}, id, maxAttempts);
      PotentialWithout(t, ids - {id}, picked, maxAttempts);
      assert ids - {picked} - {id} == ids - {id} - {picked};
    }
  }

  lemma {:induction false} PotentialFalls(t: Table, t': Table, ids: set<Id>, maxAttempts: int)
    requires ids <= t.Keys && ids <= t'.Keys
    requires forall id :: id in ids ==> Rank(t'[id], maxAttempts) <= Rank(t[id], maxAttempts)
    ensures Potential(t', ids, maxAttempts) <= Potential(t, ids, maxAttempts)
    ensures (exists id :: id in ids && Rank(t'[id], maxAttempts) < Rank(t[id], maxAttempts)) ==>
              Potential(t', ids, maxAttempts) < Potential(t, ids, maxAttempts)
    decreases |ids|
  {
    if ids != {} {
      var id :| id in ids;
      if exists fell :: fell in ids && Rank(t'[fell], maxAttempts) < Rank(t[fell], maxAttempts) {
        id :| id in ids && Rank(t'[id], maxAttempts) < Rank(t[id], maxAttempts);
      }
      PotentialWithout(t, ids, id, maxAttempts);
      PotentialWithout(t', ids, id, maxAttempts);
      PotentialFalls(t, t', ids - {id}, maxAttempts);
    }
  }

  lemma {:induction false} PotentialIsNatural(t: Table, ids: set<Id>, maxAttempts: int)
    requires ids <= t.Keys && forall id :: id in ids ==> RowOk(t[id], maxAttempts)
    ensures Potential(t, ids, maxAttempts) >= 0
    decreases |ids|
  {
    if ids != {} {
      var id :| id in ids;
      PotentialWithout(t, ids, id, maxAttempts);
      PotentialIsNatural(t, ids - {id}, maxAttempts);
    }
  }

  lemma StepLowersRank(s: System, e: Event, maxAttempts: int, id: Id)
    requires Enabled(s, e) && !e.Submit? && !e.Purge? && id in s.rows && RowOk(s.rows[id], maxAttempts)
    ensures id in Step(s, e, maxAttempts).rows
    ensures var (r, r') := (s.rows[id], Step(s, e, maxAttempts).rows[id]);
            Rank(r', maxAttempts) <= Rank(r, maxAttempts)
            && ((e.Claim? && e.id == id) || ((e.Report? || e.Recover?) && r' != r) ==>
                  Rank(r', maxAttempts) < Rank(r, maxAttempts))
  {
  }

  /**
   Over the rows kept, the work left never grows, and it falls with each claim and
   with each report or recover that changes a row; it is never negative.
   */
  lemma WorkLeftFalls(es: seq<Event>, e: Event, maxAttempts: int)
    requires Legal(es, maxAttempts) && Enabled(After(es, maxAttempts), e) && !e.Submit? && !e.Purge?
    ensures var s := After(es, maxAttempts); var s' := Step(s, e, maxAttempts);
            && s'.rows.Keys == s.rows.Keys
            && 0 <= Potential(s'.rows, s.rows.Keys, maxAttempts) <= Potential(s.rows, s.rows.Keys, maxAttempts)
            && (e.Claim? || ((e.Report? || e.Recover?) && s'.rows != s.rows) ==>
                  Potential(s'.rows, s.rows.Keys, maxAttempts) < Potential(s.rows, s.rows.Keys, maxAttempts))
  {
    RunsKeepInvariant(es, maxAttempts);
    var s := After(es, maxAttempts);
    WorkLeftFallsFrom(s, e, maxAttempts);
  }

  lemma WorkLeftFallsFrom(s: System, e: Event, maxAttempts: int)
    requires RowsOk(s.rows, maxAttempts) && Enabled(s, e) && !e.Submit? && !e.Purge?
    ensures var s' := Step(s, e, maxAttempts);
            && s'.rows.Keys == s.rows.Keys
            && 0 <= Potential(s'.rows, s.rows.Keys, maxAttempts) <= Potential(s.rows, s.rows.Keys, maxAttempts)
            && (e.Claim? || ((e.Report? || e.Recover?) && s'.rows != s.rows) ==>
                  Potential(s'.rows, s.rows.Keys, maxAttempts) < Potential(s.rows, s.rows.Keys, maxAttempts))
  {
    var s' := Step(s, e, maxAttempts);
    StepKeepsRows(s, e, maxAttempts);
    forall id | id in s.rows
      ensures id in s'.rows && Rank(s'.rows[id], maxAttempts) <= Rank(s.rows[id], maxAttempts)
      ensures (e.Claim? && e.id == id) || ((e.Report? || e.Recover?) && s'.rows[id] != s.rows[id]) ==>
                Rank(s'.rows[id], maxAttempts) < Rank(s.rows[id], maxAttempts)
    {
      StepLowersRank(s, e, maxAttempts, id);
    }
    assert s'.rows.Keys == s.rows.Keys;
    PotentialIsNatural(s'.rows, s.rows.Keys, maxAttempts);
    if (e.Report? || e.Recover?) && s'.rows != s.rows {
      var moved :| moved in s.rows && s'.rows[moved] != s.rows[moved];
    }
    PotentialFalls(s.rows, s'.rows, s.rows.Keys, maxAttempts);
  }

  ghost function ClaimsOf(es: seq<Event>, id: Id): nat {
    if es == [] then 0
    else
      var last := es[|es| - 1];
      ClaimsOf(es[..|es| - 1], id) + (if last.Claim? && last.id == id then 1 else 0)
  }

  /** `attempts` counts the row's claims, so no job is claimed more often than the limit, purged or not. */
  lemma {:induction false} AttemptsCountClaims(es: seq<Event>, maxAttempts: int, id: Id)
    requires Legal(es, maxAttempts)
    ensures id in After(es, maxAttempts).rows ==> ClaimsOf(es, id) == After(es, maxAttempts).rows[id].attempts
    ensures id !in After(es, maxAttempts).ids ==> ClaimsOf(es, id) == 0
    ensures ClaimsOf(es, id) <= Limit(maxAttempts)
    decreases |es|
  {
    RunsKeepInvariant(es, maxAttempts);
    if es != [] {
      LastEvent(es, maxAttempts);
      AttemptsCountClaims(es[..|es| - 1], maxAttempts, id);
      RunsKeepInvariant(es[..|es| - 1], maxAttempts);
      StepCountsClaim(After(es[..|es| - 1], maxAttempts), es[|es| - 1], maxAttempts, id);
    }
  }

  lemma StepCountsClaim(s: System, e: Event, maxAttempts: int, id: Id)
    requires Enabled(s, e) && s.rows.Keys <= s.ids
    ensures var s' := Step(s, e, maxAttempts);
            && s.ids <= s'.ids
            && (e.Claim? && e.id == id ==> id in s.rows && id in s'.rows)
            && (id in s'.rows ==>
                  if id in s.rows
                  then s'.rows[id].attempts == s.rows[id].attempts + (if e.Claim? && e.id == id then 1 else 0)
                  else id !in s.ids && s'.rows[id].attempts == 0)
  {
  }

  // ---- one replica's own code ----

  ghost function ClaimEvents(w: Worker, picks: seq<Id>): seq<Event> {
    seq(|picks|, i requires 0 <= i < |picks| => Claim(w, picks[i]))
  }

  lemma ClaimEventsExtend(w: Worker, picks: seq<Id>, id: Id)
    ensures ClaimEvents(w, picks + [id]) == ClaimEvents(w, picks) + [Claim(w, id)]
  {
  }

  lemma TwoEvents(s: System, a: Event, b: Event, maxAttempts: int)
    requires Enabled(s, a) && Enabled(Step(s, a, maxAttempts), b)
    ensures LegalFrom(s, [a, b], maxAttempts)
    ensures RunFrom(s, [a, b], maxAttempts) == Step(Step(s, a, maxAttempts), b, maxAttempts)
  {
    assert [] + [a] == [a] && [a] + [b] == [a, b];
    OneMoreEvent(s, [], a, maxAttempts);
    OneMoreEvent(s, [a], b, maxAttempts);
  }

  lemma OneMoreEvent(s: System, es: seq<Event>, e: Event, maxAttempts: int)
    requires LegalFrom(s, es, maxAttempts) && Enabled(RunFrom(s, es, maxAttempts), e)
    ensures LegalFrom(s, es + [e], maxAttempts)
    ensures RunFrom(s, es + [e], maxAttempts) == Step(RunFrom(s, es, maxAttempts), e, maxAttempts)
  {
    assert (es + [e])[..|es|] == es;
  }

  /** A report and the slot given back, as one change of the system. */
  lemma LeavingSteps(s: System, w: Worker, id: Id, outcome: Outcome, maxAttempts: int)
    requires Enabled(s, Report(w, id, outcome))
    ensures var reported := Step(s, Report(w, id, outcome), maxAttempts);
      && Enabled(reported, GiveBack(w))
      && Step(reported, GiveBack(w), maxAttempts) == Left(s, w, id, outcome)
  {
  }

  lemma OneEvent(s: System, e: Event, one: seq<Event>, maxAttempts: int)
    requires Enabled(s, e) && one == [e]
    ensures LegalFrom(s, one, maxAttempts) && RunFrom(s, one, maxAttempts) == Step(s, e, maxAttempts)
  {
    assert [] + [e] == one;
    OneMoreEvent(s, [], e, maxAttempts);
  }

  /** The state a renewal, a recovery and a purge leave: `freed` after the recovery, `rows` at the end. */
  function AfterRound(s: System, w: Worker, freed: Table, rows: Table): System
    requires w in s.live
  {
    s.(rows := rows, live := s.live[w := s.live[w].(beat := s.now)], purged := s.purged + |freed.Keys - rows.Keys|)
  }

  function Freed(s: System, w: Worker, maxAttempts: int): Table {
    Recovered(Renewed(s.rows, w, s.now + LEASE_MS), maxAttempts, s.now)
  }

  lemma FreedKeepsKeys(s: System, w: Worker, maxAttempts: int)
    ensures Freed(s, w, maxAttempts).Keys == s.rows.Keys
  {
    assert Renewed(s.rows, w, s.now + LEASE_MS).Keys == s.rows.Keys;
  }

  lemma RoundSteps(s: System, w: Worker, before: int, maxAttempts: int)
    requires w in s.live
    ensures var freed := Freed(s, w, maxAttempts);
      Step(Step(Step(s, Renew(w), maxAttempts), Recover, maxAttempts), Purge(before), maxAttempts)
        == AfterRound(s, w, freed, Purged(freed, before))
  {
  }

  lemma RoundRun(s: System, w: Worker, before: int, round: seq<Event>, maxAttempts: int)
    requires w in s.live && round == [Renew(w), Recover, Purge(before)]
    ensures LegalFrom(s, round, maxAttempts)
    ensures var freed := Freed(s, w, maxAttempts);
      RunFrom(s, round, maxAttempts) == AfterRound(s, w, freed, Purged(freed, before))
  {
    RoundSteps(s, w, before, maxAttempts);
    TwoEvents(s, Renew(w), Recover, maxAttempts);
    OneMoreEvent(s, [Renew(w), Recover], Purge(before), maxAttempts);
    assert [Renew(w), Recover] + [Purge(before)] == round;
  }

  lemma RoundInView(s: System, w: Worker, freed: Table, rows: Table, gone: set<Id>, view: System)
    requires s.live.Keys == {w} && s.live[w].beat == s.now && s.purged == 0
    requires freed.Keys == s.rows.Keys && gone == freed.Keys - rows.Keys
    requires view == s.(rows := rows, ids := rows.Keys)
    ensures AfterRound(s, w, freed, rows) == view.(ids := s.ids, purged := |gone|)
  {
    assert s.live[w := s.live[w].(beat := s.now)] == s.live;
  }

  /** The state after a report and the slot given back. */
  function Left(s: System, w: Worker, id: Id, outcome: Outcome): System
    requires w in s.live
  {
    var r := s.live[w];
    s.(rows := Finished(s.rows, id, w, outcome, s.now),
       live := s.live[w := r.(active := r.active - 1, converting := r.converting - multiset{id})])
  }

  lemma LeavingRun(s: System, w: Worker, id: Id, outcome: Outcome, both: seq<Event>, maxAttempts: int)
    requires Enabled(s, Report(w, id, outcome)) && both == [Report(w, id, outcome), GiveBack(w)]
    ensures LegalFrom(s, both, maxAttempts) && RunFrom(s, both, maxAttempts) == Left(s, w, id, outcome)
  {
    LeavingSteps(s, w, id, outcome, maxAttempts);
    TwoEvents(s, Report(w, id, outcome), GiveBack(w), maxAttempts);
  }

  /** The replica's synchronous pieces over the shared queue, with the fields they change. */
  class Server {
    const queue: Queue
    const worker: Worker
    const concurrency: int
    var active: int
    var stopping: bool
    ghost var converting: multiset<Id>
    ghost var leaving: nat
    ghost var previews: nat

    constructor (queue: Queue, worker: Worker, concurrency: int)
      ensures this.queue == queue && this.worker == worker && this.concurrency == concurrency
      ensures active == 0 && !stopping && converting == multiset{} && leaving == 0 && previews == 0
    {
      this.queue, this.worker, this.concurrency := queue, worker, concurrency;
      active, stopping := 0, false;
      converting, leaving, previews := multiset{}, 0, 0;
    }

    /** This replica and the table, as a system of one replica. */
    ghost function View(now: int): System
      reads this, queue
    {
      System(queue.rows,
             map[worker := Replica(concurrency, active, stopping, converting, leaving, previews, now)],
             now, {worker}, queue.rows.Keys, 0)
    }

    /** One turn of the pump: the machine's claim event, or nothing when nothing is queued. */
    method ClaimOne(now: int) returns (claimed: Option<Id>)
      requires !stopping && active < concurrency
      modifies this`active, this`converting, queue
      ensures claimed.None? ==> QueuedIds(queue.rows) == {} && View(now) == old(View(now)) && active == old(active)
      ensures claimed.Some? ==> active == old(active) + 1
      ensures claimed.Some? ==> Enabled(old(View(now)), Claim(worker, claimed.value))
      ensures claimed.Some? ==> View(now) == Step(old(View(now)), Claim(worker, claimed.value), queue.maxAttempts)
    {
      claimed := queue.Claim(worker, LEASE_MS, now);
      if claimed.Some? {
        active := active + 1;
        converting := converting + multiset{claimed.value};
        assert queue.rows.Keys == old(queue.rows).Keys;
      }
    }

    /** Fills the free slots: the run of claims the machine allows, until there is no room or nothing is queued. */
    method Pump(now: int) returns (ghost picks: seq<Id>)
      modifies this`active, this`converting, queue
      ensures LegalFrom(old(View(now)), ClaimEvents(worker, picks), queue.maxAttempts)
      ensures RunFrom(old(View(now)), ClaimEvents(worker, picks), queue.maxAttempts) == View(now)
      ensures stopping || active >= concurrency || QueuedIds(queue.rows) == {}
    {
      picks := [];
      while !stopping && active < concurrency
        invariant LegalFrom(old(View(now)), ClaimEvents(worker, picks), queue.maxAttempts)
        invariant RunFrom(old(View(now)), ClaimEvents(worker, picks), queue.maxAttempts) == View(now)
        decreases concurrency - active
      {
        var claimed := ClaimOne(now);
        if claimed.None? { return; }
        OneMoreEvent(old(View(now)), ClaimEvents(worker, picks), Claim(worker, claimed.value), queue.maxAttempts);
        ClaimEventsExtend(worker, picks, claimed.value);
        picks := picks + [claimed.value];
      }
    }

    method ReportAndGiveBack(id: Id, outcome: Outcome, now: int)
      requires id in converting
      modifies this`active, this`converting, queue
      ensures View(now) == Left(old(View(now)), worker, id, outcome)
    {
      ghost var s := View(now);
      queue.Finish(id, worker, outcome, now);
      converting := converting - multiset{id};
      active := active - 1;
      ghost var r := Replica(concurrency, active, stopping, converting, leaving, previews, now);
      assert s.live[worker := r] == map[worker := r];
      assert queue.rows.Keys == s.rows.Keys;
    }

    /**
     The conversion's last two effects: its outcome is written if the row is still this
     replica's, its slot is given back.
     */
    method Leave(id: Id, outcome: Outcome, now: int)
      requires id in converting
      modifies this`active, this`converting, queue
      ensures var both := [Report(worker, id, outcome), GiveBack(worker)];
              LegalFrom(old(View(now)), both, queue.maxAttempts)
              && RunFrom(old(View(now)), both, queue.maxAttempts) == View(now)
    {
      LeavingRun(View(now), worker, id, outcome, [Report(worker, id, outcome), GiveBack(worker)], queue.maxAttempts);
      ReportAndGiveBack(id, outcome, now);
    }

    /** A conversion ends, and the pump runs. */
    method ConversionEnds(id: Id, outcome: Outcome, now: int) returns (ghost picks: seq<Id>)
      requires id in converting
      modifies this`active, this`converting, queue
      ensures var ended := [Report(worker, id, outcome), GiveBack(worker)] + ClaimEvents(worker, picks);
              LegalFrom(old(View(now)), ended, queue.maxAttempts)
              && RunFrom(old(View(now)), ended, queue.maxAttempts) == View(now)
      ensures stopping || active >= concurrency || QueuedIds(queue.rows) == {}
    {
      Leave(id, outcome, now);
      ghost var left := View(now);
      picks := Pump(now);
      ghost var both := [Report(worker, id, outcome), GiveBack(worker)];
      RunsConcatenate(old(View(now)), both, left, ClaimEvents(worker, picks), both + ClaimEvents(worker, picks),
          queue.maxAttempts);
    }

    /** Answers whether the preview may run; it may only when a slot is free and nothing is queued. */
    method Preview() returns (admitted: bool)
      modifies this`active, this`previews
      ensures admitted <==> Enabled(old(View(0)), PreviewBegins(worker))
      ensures admitted ==> View(0) == Step(old(View(0)), PreviewBegins(worker), queue.maxAttempts)
      ensures !admitted ==> View(0) == old(View(0))
    {
      if stopping || active >= concurrency || QueuedIds(queue.rows) != {} { return false; }
      active := active + 1;
      previews := previews + 1;
      return true;
    }

    method GiveBackPreview(now: int)
      requires previews > 0
      modifies this`active, this`previews
      ensures Enabled(old(View(now)), PreviewEnds(worker))
      ensures View(now) == Step(old(View(now)), PreviewEnds(worker), queue.maxAttempts)
    {
      ghost var s := View(now);
      active := active - 1;
      previews := previews - 1;
      ghost var r := Replica(concurrency, active, stopping, converting, leaving, previews, now);
      assert s.live[worker := r] == map[worker := r];
    }

    /** A preview ends, and the pump runs. */
    method PreviewEnd(now: int) returns (ghost picks: seq<Id>)
      requires previews > 0
      modifies this`active, this`previews, this`converting, queue
      ensures var ended := [PreviewEnds(worker)] + ClaimEvents(worker, picks);
              LegalFrom(old(View(now)), ended, queue.maxAttempts)
              && RunFrom(old(View(now)), ended, queue.maxAttempts) == View(now)
      ensures stopping || active >= concurrency || QueuedIds(queue.rows) == {}
    {
      ghost var s, one := View(now), [PreviewEnds(worker)];
      GiveBackPreview(now);
      ghost var left := View(now);
      OneEvent(s, PreviewEnds(worker), one, queue.maxAttempts);
      picks := Pump(now);
      RunsConcatenate(s, one, left, ClaimEvents(worker, picks), one + ClaimEvents(worker, picks), queue.maxAttempts);
    }

    /**
     The lease loop's round is the machine's renewal, recovery and purge, in that order: none
     of this replica's own rows is freed by it. `View` counts no purged row, so the machine's
     count of them and the ids they had stand beside it.
     */
    method LeaseRound(now: int, retainMs: int) returns (gone: set<Id>)
      modifies queue
      ensures var round := [Renew(worker), Recover, Purge(now - retainMs)];
        LegalFrom(old(View(now)), round, queue.maxAttempts)
        && RunFrom(old(View(now)), round, queue.maxAttempts)
           == View(now).(ids := old(queue.rows).Keys, purged := |gone|)
      ensures gone == old(queue.rows).Keys - queue.rows.Keys
      ensures forall id :: id in old(queue.rows) && Held(old(queue.rows)[id], worker) ==>
                id in queue.rows && Held(queue.rows[id], worker)
    {
      ghost var s, round := View(now), [Renew(worker), Recover, Purge(now - retainMs)];
      gone := RunRound(now, retainMs);
      assert LegalFrom(s, round, queue.maxAttempts)
             && RunFrom(s, round, queue.maxAttempts)
                == View(now).(ids := old(queue.rows).Keys, purged := |gone|) by {
        RoundRun(s, worker, now - retainMs, round, queue.maxAttempts);
      }
    }

    method RunRound(now: int, retainMs: int) returns (gone: set<Id>)
      modifies queue
      ensures var freed := Freed(old(View(now)), worker, queue.maxAttempts);
        AfterRound(old(View(now)), worker, freed, Purged(freed, now - retainMs))
          == View(now).(ids := old(queue.rows).Keys, purged := |gone|)
      ensures gone == old(queue.rows).Keys - queue.rows.Keys
      ensures forall id :: id in old(queue.rows) && Held(old(queue.rows)[id], worker) ==>
                id in queue.rows && Held(queue.rows[id], worker)
    {
      ghost var s := View(now);
      ghost var freed := Freed(s, worker, queue.maxAttempts);
      FreedKeepsKeys(s, worker, queue.maxAttempts);
      gone := RenewRecoverPurge(now, retainMs);
      RoundInView(s, worker, freed, queue.rows, gone, View(now));
    }

    method RenewRecoverPurge(now: int, retainMs: int) returns (gone: set<Id>)
      modifies queue
      ensures queue.rows == Purged(Freed(old(View(now)), worker, queue.maxAttempts), now - retainMs)
      ensures View(now) == old(View(now)).(rows := queue.rows, ids := queue.rows.Keys)
      ensures gone == old(queue.rows).Keys - queue.rows.Keys
      ensures forall id :: id in old(queue.rows) && Held(old(queue.rows)[id], worker) ==>
                id in queue.rows && Held(queue.rows[id], worker)
    {
      queue.Renew(worker, LEASE_MS, now);
      queue.Recover(now);
      gone := queue.Purge(now - retainMs);
    }
  }

  /** `whole` runs from `s` to where `more` runs from `mid`. */
  ghost predicate GoesOn(s: System, mid: System, more: seq<Event>, whole: seq<Event>, maxAttempts: int) {
    && LegalFrom(mid, more, maxAttempts) && LegalFrom(s, whole, maxAttempts)
    && RunFrom(s, whole, maxAttempts) == RunFrom(mid, more, maxAttempts)
  }

  lemma GoesOnOneMore(s: System, mid: System, more: seq<Event>, whole: seq<Event>, maxAttempts: int)
    requires more != [] && whole != [] && more[|more| - 1] == whole[|whole| - 1] && LegalFrom(mid, more, maxAttempts)
    requires GoesOn(s, mid, more[..|more| - 1], whole[..|whole| - 1], maxAttempts)
    ensures GoesOn(s, mid, more, whole, maxAttempts)
  {
    var before := whole[..|whole| - 1];
    assert Enabled(RunFrom(mid, more[..|more| - 1], maxAttempts), more[|more| - 1]);
    OneMoreEvent(s, before, whole[|whole| - 1], maxAttempts);
    assert before + [whole[|whole| - 1]] == whole;
  }

  /** A run and then a run from where it ended is one run. */
  lemma {:induction false} RunsConcatenate(
      s: System, es: seq<Event>, mid: System, more: seq<Event>, whole: seq<Event>, maxAttempts: int)
    requires LegalFrom(s, es, maxAttempts) && RunFrom(s, es, maxAttempts) == mid && LegalFrom(mid, more, maxAttempts)
    requires whole == es + more
    ensures GoesOn(s, mid, more, whole, maxAttempts)
    decreases |more|
  {
    if more == [] {
      assert whole == es;
    } else {
      assert LegalFrom(mid, more[..|more| - 1], maxAttempts);
      assert whole[..|whole| - 1] == es + more[..|more| - 1];
      RunsConcatenate(s, es, mid, more[..|more| - 1], whole[..|whole| - 1], maxAttempts);
      GoesOnOneMore(s, mid, more, whole, maxAttempts);
    }
  }
}
