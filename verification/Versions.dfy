/**
 Versioned lineages: sealed versions whose periods share no day, shortened when a
 successor is sealed, voided at most once. Days are numbers: two ISO dates compare
 as their days do. A value is what a JSON field holds; null and absent are one.
 */
module Versions {
  import opened Texts
  import opened Wrappers

  type Id = string

  /** An inclusive period of days; no end is open. */
  datatype Period = Period(from: int, to: Option<int>)

  datatype Value = Null | Text(s: string) | Span(p: Period) | Other(n: int)

  type Input = map<string, Value>

  datatype Version = Version(period: Period, sealedAt: Value, voidedAt: Value, voidReason: Value, fields: Input)

  datatype Entry = Entry(id: Id, v: Version)

  datatype Write = Write(target: Id, period: Period, sealedAt: Option<Value>)

  datatype Refusal =
    | AlreadySealed | StartTaken
    | OnlyEarlier | Frozen(field: string)
    | VoidIsFinal | ReasonIsFinal | ReasonNeedsVoid | VoidNeedsReason

  predicate Live(v: Version) {
    !v.sealedAt.Null? && v.voidedAt.Null?
  }

  predicate Within(p: Period, day: int) {
    p.from <= day && (p.to.Some? ==> day <= p.to.value)
  }

  predicate Proper(p: Period) {
    p.to.Some? ==> p.from <= p.to.value
  }

  predicate Overlaps(a: Period, b: Period) {
    (a.to.Some? ==> b.from <= a.to.value) && (b.to.Some? ==> a.from <= b.to.value)
  }

  /** Two proper periods overlap when they share a day. */
  lemma OverlapIsASharedDay(a: Period, b: Period)
    requires Proper(a) && Proper(b)
    ensures Overlaps(a, b) <==> exists day :: Within(a, day) && Within(b, day)
  {
    if Overlaps(a, b) {
      var day := if a.from > b.from then a.from else b.from;
      assert Within(a, day) && Within(b, day);
    }
  }

  // ---- sealing ----

  predicate IsOther(e: Entry, draft: Id) {
    e.id != draft && Live(e.v)
  }

  predicate StartsOn(others: seq<Entry>, day: int) {
    exists i :: 0 <= i < |others| && others[i].v.period.from == day
  }

  function OthersOf(listed: seq<Entry>, draft: Id): (others: seq<Entry>)
    ensures forall e :: e in others <==> e in listed && IsOther(e, draft)
  {
    if listed == [] then []
    else (if IsOther(listed[0], draft) then [listed[0]] else []) + OthersOf(listed[1..], draft)
  }

  /** The first listed version that runs into the day from before it. */
  function RunningInto(others: seq<Entry>, day: int): (r: Option<Entry>)
    ensures r.Some? ==> r.value in others && r.value.v.period.from < day && Within(r.value.v.period, day)
    ensures r.None? ==> forall e :: e in others ==> !(e.v.period.from < day && Within(e.v.period, day))
  {
    if others == [] then None
    else
      var p := others[0].v.period;
      if p.from < day && Within(p, day) then Some(others[0]) else RunningInto(others[1..], day)
  }

  /** The first start after the day. */
  function NextStart(others: seq<Entry>, day: int): (r: Option<int>)
    ensures r.Some? ==> r.value > day && exists e :: e in others && e.v.period.from == r.value
    ensures forall e :: e in others && e.v.period.from > day ==> r.Some? && r.value <= e.v.period.from
  {
    if others == [] then None
    else
      var rest := NextStart(others[1..], day);
      var from := others[0].v.period.from;
      assert rest.Some? ==> exists e :: e in others[1..] && e.v.period.from == rest.value && e in others;
      if from > day && (rest.None? || from < rest.value) then
        assert others[0] in others;
        Some(from)
      else rest
  }

  function SealedEnd(to: Option<int>, next: Option<int>): Option<int> {
    if next.Some? && (to.None? || to.value >= next.value) then Some(next.value - 1) else to
  }

  /**
   The writes that seal a draft among the listed versions: its predecessor ends the day before
   it, and it ends before its successor.
   */
  function SealWrites(draft: Entry, listed: seq<Entry>, now: Value): Result<seq<Write>, Refusal> {
    var others := OthersOf(listed, draft.id);
    var day := draft.v.period.from;
    if !draft.v.sealedAt.Null? then Err(AlreadySealed)
    else if StartsOn(others, day) then Err(StartTaken)
    else
      var before := RunningInto(others, day);
      var own := Write(draft.id, Period(day, SealedEnd(draft.v.period.to, NextStart(others, day))), Some(now));
      Ok((if before.Some?
          then [Write(before.value.id, Period(before.value.v.period.from, Some(day - 1)), None)] else []) + [own])
  }

  type Store = map<Id, Version>

  function Written(v: Version, w: Write): Version {
    v.(period := w.period, sealedAt := if w.sealedAt.Some? then w.sealedAt.value else v.sealedAt)
  }

  /** The writes of one update list, in order; a row that is gone is not written. */
  function Applied(store: Store, ws: seq<Write>): Store {
    if ws == [] then store
    else
      var w := ws[0];
      Applied(if w.target in store then store[w.target := Written(store[w.target], w)] else store, ws[1..])
  }

  // ---- updates of a sealed version ----

  function FieldOf(v: Version, field: string): Value {
    if field == "period" then Span(v.period)
    else if field == "sealed_at" then v.sealedAt
    else if field == "voided_at" then v.voidedAt
    else if field == "void_reason" then v.voidReason
    else if field in v.fields then v.fields[field]
    else Null
  }

  predicate Shortens(before: Period, value: Value) {
    value.Span? && value.p.from == before.from
    && value.p.to.Some? && value.p.to.value >= value.p.from && (before.to.Some? ==> value.p.to.value <= before.to.value)
  }

  /** Whether a sealed version admits a value for a field; a void is another judge's. */
  predicate Admits(before: Version, field: string, value: Value) {
    field == "voided_at" || field == "void_reason" || value == FieldOf(before, field)
    || (field == "period" && Shortens(before.period, value))
  }

  predicate OnlyShortens(before: Version, input: Input) {
    forall field :: field in input ==> Admits(before, field, input[field])
  }

  /** The refusal of a sealed version's update, none when every change is an earlier end. */
  method CheckShortens(before: Version, input: Input) returns (refusal: Option<Refusal>)
    ensures refusal.None? <==> OnlyShortens(before, input)
    ensures refusal.Some? ==> refusal.value == OnlyEarlier || refusal.value.Frozen?
    ensures refusal == Some(OnlyEarlier) ==> "period" in input && !Admits(before, "period", input["period"])
    ensures refusal.Some? && refusal.value.Frozen? ==>
      refusal.value.field in input && refusal.value.field != "period"
      && !Admits(before, refusal.value.field, input[refusal.value.field])
  {
    var left := input.Keys;
    while left != {}
      invariant left <= input.Keys
      invariant forall field :: field in input && field !in left ==> Admits(before, field, input[field])
    {
      var field :| field in left;
      var value := input[field];
      left := left - {field};
      if field == "voided_at" || field == "void_reason" || value == FieldOf(before, field) { continue; }
      if field == "period" && Shortens(before.period, value) { continue; }
      return Some(if field == "period" then OnlyEarlier else Frozen(field));
    }
    return None;
  }

  predicate IsBlank(s: string) {
    forall i :: 0 <= i < |s| ==> IsSpace(s[i])
  }

  function Given(input: Input, field: string): Value {
    if field in input then input[field] else Null
  }

  /** The refusal of a void: once, with a reason, never undone or reworded. */
  function VoidOnce(before: Version, input: Input): Option<Refusal> {
    var voids, words := "voided_at" in input, "void_reason" in input;
    if !voids && !words then None
    else if !before.voidedAt.Null? then
      if voids && input["voided_at"] != before.voidedAt then Some(VoidIsFinal)
      else if words && input["void_reason"] != before.voidReason then Some(ReasonIsFinal)
      else None
    else if Given(input, "voided_at").Null? then
      if words && input["void_reason"] != before.voidReason then Some(ReasonNeedsVoid) else None
    else
      var reason := if words then input["void_reason"] else before.voidReason;
      if reason.Text? && !IsBlank(reason.s) then None else Some(VoidNeedsReason)
  }

  function Updated(v: Version, input: Input): Version {
    Version(
      if "period" in input && input["period"].Span? then input["period"].p else v.period,
      if "sealed_at" in input then input["sealed_at"] else v.sealedAt,
      if "voided_at" in input then input["voided_at"] else v.voidedAt,
      if "void_reason" in input then input["void_reason"] else v.voidReason,
      v.fields + input)
  }

  // ---- a lineage's history ----

  datatype Event =
    | NewDraft(id: Id, v: Version)
    | EditDraft(id: Id, v: Version)
    | Seal(id: Id, listed: seq<Entry>, now: Value)
    | Update(id: Id, input: Input)

  /** A listing of the store's rows that leaves out no live one, in any order. */
  ghost predicate Lists(listed: seq<Entry>, store: Store) {
    (forall e :: e in listed ==> e.id in store && store[e.id] == e.v)
    && (forall id :: id in store && Live(store[id]) ==> Entry(id, store[id]) in listed)
  }

  ghost predicate Enabled(store: Store, e: Event) {
    match e
    case NewDraft(id, v) => id !in store && v.sealedAt.Null?
    case EditDraft(id, v) => id in store && store[id].sealedAt.Null? && v.sealedAt.Null?
    case Seal(id, listed, now) =>
      id in store && Proper(store[id].period) && Lists(listed, store)
      && SealWrites(Entry(id, store[id]), listed, now).Ok?
    case Update(id, input) =>
      id in store && !store[id].sealedAt.Null? && OnlyShortens(store[id], input) && VoidOnce(store[id], input).None?
  }

  function Step(store: Store, e: Event): Store
    requires e.Seal? ==> e.id in store && SealWrites(Entry(e.id, store[e.id]), e.listed, e.now).Ok?
    requires e.Update? ==> e.id in store
  {
    match e
    case NewDraft(id, v) => store[id := v]
    case EditDraft(id, v) => store[id := v]
    case Seal(id, listed, now) => Applied(store, SealWrites(Entry(id, store[id]), listed, now).value)
    case Update(id, input) => store[id := Updated(store[id], input)]
  }

  ghost predicate Legal(es: seq<Event>)
    decreases |es|, 0
  {
    es == [] || (Legal(es[..|es| - 1]) && Enabled(After(es[..|es| - 1]), es[|es| - 1]))
  }

  ghost function After(es: seq<Event>): Store
    requires Legal(es)
    decreases |es|, 1
  {
    if es == [] then map[] else Step(After(es[..|es| - 1]), es[|es| - 1])
  }

  /** The live versions' periods are proper, and no two share a day. */
  ghost predicate Disjoint(store: Store) {
    (forall id :: id in store && Live(store[id]) ==> Proper(store[id].period))
    && (forall a, b :: a in store && b in store && a != b && Live(store[a]) && Live(store[b]) ==>
          !Overlaps(store[a].period, store[b].period))
  }

  /** What sealing leaves in place of each version. */
  lemma SealEffect(
      store: Store, id: Id, listed: seq<Entry>, now: Value)
      returns (before: Option<Entry>, next: Option<int>)
    requires Enabled(store, Seal(id, listed, now))
    ensures var day := store[id].period.from; var others := OthersOf(listed, id);
            && before == RunningInto(others, day) && next == NextStart(others, day) && !StartsOn(others, day)
            && (before.Some? ==> before.value.id in store && before.value.id != id
                                 && store[before.value.id] == before.value.v)
            && var own := store[id].(period := Period(day, SealedEnd(store[id].period.to, next)), sealedAt := now);
               Step(store, Seal(id, listed, now))
               == if before.Some?
                  then store[before.value.id :=
                               before.value.v.(period := Period(before.value.v.period.from, Some(day - 1)))]
                       [id := own]
                  else store[id := own]
  {
    var day, others := store[id].period.from, OthersOf(listed, id);
    before, next := RunningInto(others, day), NextStart(others, day);
    var own := Write(id, Period(day, SealedEnd(store[id].period.to, next)), Some(now));
    assert [own][1..] == [];
    if before.Some? {
      var e := before.value;
      var w := Write(e.id, Period(e.v.period.from, Some(day - 1)), None);
      assert e in others && e in listed;
      assert [w] + [own] == [w, own];
      assert SealWrites(Entry(id, store[id]), listed, now) == Ok([w, own]);
      assert [w, own][1..] == [own];
      var first := store[e.id := Written(store[e.id], w)];
      assert Applied(store, [w, own]) == Applied(first, [own]);
      assert Applied(first, [own]) == Applied(first[id := Written(first[id], own)], []);
    } else {
      assert [] + [own] == [own];
      assert SealWrites(Entry(id, store[id]), listed, now) == Ok([own]);
      assert Applied(store, [own]) == Applied(store[id := Written(store[id], own)], []);
    }
  }

  /** A live version is among those a seal looks at, and a seal is refused when it starts with the draft. */
  lemma OtherIsListed(store: Store, id: Id, listed: seq<Entry>, a: Id, day: int)
    requires Lists(listed, store) && a in store && Live(store[a]) && a != id
    ensures Entry(a, store[a]) in OthersOf(listed, id)
    ensures !StartsOn(OthersOf(listed, id), day) ==> store[a].period.from != day
  {
    var others := OthersOf(listed, id);
    assert Entry(a, store[a]) in others;
    var i :| 0 <= i < |others| && others[i] == Entry(a, store[a]);
  }

  /** Only one live version can run into a day. */
  lemma OneRunsInto(store: Store, id: Id, listed: seq<Entry>, a: Id, day: int)
    requires Disjoint(store) && Lists(listed, store) && a in store && Live(store[a]) && a != id
    requires store[a].period.from < day && Within(store[a].period, day)
    ensures RunningInto(OthersOf(listed, id), day) == Some(Entry(a, store[a]))
  {
    var before := RunningInto(OthersOf(listed, id), day);
    assert Entry(a, store[a]) in OthersOf(listed, id);
    assert before.Some? && before.value in listed && Live(store[before.value.id]);
    assert before.value.id != a ==> Overlaps(store[a].period, store[before.value.id].period);
  }

  /** A version that starts on another day, shortened where it runs into a draft's day, shares none with the draft. */
  lemma ShortenedApart(p: Period, own: Period, next: Option<int>, day: int, p': Period)
    requires Proper(p) && p.from != day && own.from == day
    requires p.from > day ==> next.Some? && next.value <= p.from
    requires p' == if p.from < day && Within(p, day) then Period(p.from, Some(day - 1)) else p
    requires next.Some? ==> own.to.Some? && own.to.value < next.value
    ensures Proper(p') && p'.from == p.from
    ensures p.to.Some? ==> p'.to.Some? && p'.to.value <= p.to.value
    ensures !Overlaps(p', own) && !Overlaps(own, p')
  {
  }

  /**
   What sealing makes of another live version: it was live, it is shortened at most, and it
   shares no day with the draft.
   */
  lemma OtherAfterSeal(store: Store, id: Id, listed: seq<Entry>, now: Value, a: Id)
    requires Disjoint(store) && Enabled(store, Seal(id, listed, now))
    requires var s' := Step(store, Seal(id, listed, now)); a in s' && a != id && Live(s'[a])
    ensures var s' := Step(store, Seal(id, listed, now));
            && a in store && Live(store[a]) && id in s' && Proper(s'[a].period)
            && s'[a].period.from == store[a].period.from
            && (store[a].period.to.Some? ==> s'[a].period.to.Some? && s'[a].period.to.value <= store[a].period.to.value)
            && !Overlaps(s'[a].period, s'[id].period) && !Overlaps(s'[id].period, s'[a].period)
  {
    var s' := Step(store, Seal(id, listed, now));
    var before, next, own := OthersInSeal(store, id, listed, now, a);
    ShortenedApart(store[a].period, own, next, store[id].period.from, s'[a].period);
  }

  lemma OthersInSeal(store: Store, id: Id, listed: seq<Entry>, now: Value, a: Id)
      returns (before: Option<Entry>, next: Option<int>, own: Period)
    requires Disjoint(store) && Enabled(store, Seal(id, listed, now))
    requires var s' := Step(store, Seal(id, listed, now)); a in s' && a != id && Live(s'[a])
    ensures var s' := Step(store, Seal(id, listed, now)); var day := store[id].period.from;
            && a in store && Live(store[a]) && id in s' && s'[id].period == own
            && own.from == day && store[a].period.from != day
            && (next.Some? ==> own.to.Some? && own.to.value < next.value)
            && (store[a].period.from > day ==> next.Some? && next.value <= store[a].period.from)
            && s'[a].period == if store[a].period.from < day && Within(store[a].period, day)
                               then Period(store[a].period.from, Some(day - 1)) else store[a].period
  {
    var day := store[id].period.from;
    before, next := SealEffect(store, id, listed, now);
    own := Period(day, SealedEnd(store[id].period.to, next));
    assert a in store && Live(store[a]);
    OtherIsListed(store, id, listed, a, day);
    if store[a].period.from < day && Within(store[a].period, day) {
      OneRunsInto(store, id, listed, a, day);
    }
  }

  lemma DraftAfterSeal(store: Store, id: Id, listed: seq<Entry>, now: Value)
    requires Enabled(store, Seal(id, listed, now))
    ensures id in Step(store, Seal(id, listed, now)) && Proper(Step(store, Seal(id, listed, now))[id].period)
  {
    var before, next := SealEffect(store, id, listed, now);
  }

  /** Sealing a draft among disjoint live versions leaves the live versions disjoint, and their periods proper. */
  lemma SealKeepsDisjoint(store: Store, id: Id, listed: seq<Entry>, now: Value)
    requires Disjoint(store) && Enabled(store, Seal(id, listed, now))
    ensures Disjoint(Step(store, Seal(id, listed, now)))
  {
    var s' := Step(store, Seal(id, listed, now));
    DraftAfterSeal(store, id, listed, now);
    forall a | a in s' && Live(s'[a]) ensures Proper(s'[a].period) {
      if a != id { OtherAfterSeal(store, id, listed, now, a); }
    }
    forall a, b | a in s' && b in s' && a != b && Live(s'[a]) && Live(s'[b])
      ensures !Overlaps(s'[a].period, s'[b].period)
    {
      if a != id { OtherAfterSeal(store, id, listed, now, a); }
      if b != id { OtherAfterSeal(store, id, listed, now, b); }
      if a != id && b != id { assert !Overlaps(store[a].period, store[b].period); }
    }
  }

  /** A draft is refused exactly when it is sealed, or another live version starts on its day. */
  lemma SealRefusedWhen(store: Store, id: Id, listed: seq<Entry>, now: Value)
    requires id in store && Lists(listed, store)
    ensures SealWrites(Entry(id, store[id]), listed, now).Err?
       <==> !store[id].sealedAt.Null?
            || exists other :: other in store && other != id && Live(store[other])
                               && store[other].period.from == store[id].period.from
  {
    var others, day := OthersOf(listed, id), store[id].period.from;
    if StartsOn(others, day) {
      var i :| 0 <= i < |others| && others[i].v.period.from == day;
      assert others[i] in others && others[i].id in store && Live(store[others[i].id]);
    }
    if other :| other in store && other != id && Live(store[other]) && store[other].period.from == day {
      assert Entry(other, store[other]) in others;
      var i :| 0 <= i < |others| && others[i] == Entry(other, store[other]);
    }
  }

  /** The write that shortens the predecessor is one a sealed version admits. */
  lemma SealOnlyShortens(store: Store, id: Id, listed: seq<Entry>, now: Value, w: Write)
    requires Disjoint(store) && Enabled(store, Seal(id, listed, now))
    requires w in SealWrites(Entry(id, store[id]), listed, now).value && w.target != id
    ensures w.target in store && Live(store[w.target]) && w.sealedAt.None?
    ensures OnlyShortens(store[w.target], map["period" := Span(w.period)])
    ensures VoidOnce(store[w.target], map["period" := Span(w.period)]).None?
    ensures Updated(store[w.target], map["period" := Span(w.period)]).(fields := store[w.target].fields)
         == Written(store[w.target], w)
  {
    var before, next := SealEffect(store, id, listed, now);
  }

  /**
   What becomes of a version over any history: sealed it stays, its start stays, its end only
   moves earlier, a void and its reason stay.
   */
  ghost predicate Evolves(v: Version, v': Version) {
    && (!v.sealedAt.Null? ==>
          v'.sealedAt == v.sealedAt && v'.period.from == v.period.from
          && (v.period.to.Some? ==> v'.period.to.Some? && v'.period.to.value <= v.period.to.value))
    && (!v.sealedAt.Null? && !v.voidedAt.Null? ==> v'.voidedAt == v.voidedAt && v'.voidReason == v.voidReason)
  }

  lemma UpdateKeeps(store: Store, id: Id, input: Input)
    requires Disjoint(store) && Enabled(store, Update(id, input))
    ensures Disjoint(Step(store, Update(id, input)))
    ensures Evolves(store[id], Updated(store[id], input))
  {
    var v, v' := store[id], Updated(store[id], input);
    assert "period" in input ==> Admits(v, "period", input["period"]);
    assert "sealed_at" in input ==> Admits(v, "sealed_at", input["sealed_at"]);
    if Live(v') {
      assert Live(v) && Proper(v.period) && Proper(v'.period);
      forall other | other in store && other != id && Live(store[other])
        ensures !Overlaps(v'.period, store[other].period) && !Overlaps(store[other].period, v'.period)
      {
        assert !Overlaps(v.period, store[other].period) && !Overlaps(store[other].period, v.period);
      }
    }
  }

  lemma SealEvolves(store: Store, id: Id, listed: seq<Entry>, now: Value)
    requires Disjoint(store) && Enabled(store, Seal(id, listed, now))
    ensures store.Keys <= Step(store, Seal(id, listed, now)).Keys
    ensures forall a :: a in store ==> Evolves(store[a], Step(store, Seal(id, listed, now))[a])
  {
    var before, next := SealEffect(store, id, listed, now);
    var s' := Step(store, Seal(id, listed, now));
    forall a | a in store
      ensures Evolves(store[a], s'[a])
    {
      if a != id && before.Some? && before.value.id == a {
        assert s'[a] == store[a].(period := Period(store[a].period.from, Some(store[id].period.from - 1)));
        ShortenedEvolves(store[a], store[id].period.from);
      } else if a != id {
        assert s'[a] == store[a];
      }
    }
  }

  lemma ShortenedEvolves(v: Version, day: int)
    requires Within(v.period, day)
    ensures Evolves(v, v.(period := Period(v.period.from, Some(day - 1))))
  {
  }

  lemma OthersEvolve(store: Store, e: Event)
    requires Disjoint(store) && Enabled(store, e) && !e.Seal? && !e.Update?
    ensures Disjoint(Step(store, e)) && store.Keys <= Step(store, e).Keys
    ensures forall a :: a in store ==> Evolves(store[a], Step(store, e)[a])
  {
  }

  lemma StepKeeps(store: Store, e: Event)
    requires Disjoint(store) && Enabled(store, e)
    ensures Disjoint(Step(store, e))
    ensures store.Keys <= Step(store, e).Keys
    ensures forall id :: id in store ==> Evolves(store[id], Step(store, e)[id])
  {
    if e.Seal? {
      SealKeepsDisjoint(store, e.id, e.listed, e.now);
      SealEvolves(store, e.id, e.listed, e.now);
    } else if e.Update? {
      UpdateKeeps(store, e.id, e.input);
    } else {
      OthersEvolve(store, e);
    }
  }

  /** Over any history the live versions stay disjoint. */
  lemma {:induction false} HistoryStaysDisjoint(es: seq<Event>)
    requires Legal(es)
    ensures Disjoint(After(es))
    decreases |es|
  {
    if es != [] {
      HistoryStaysDisjoint(es[..|es| - 1]);
      StepKeeps(After(es[..|es| - 1]), es[|es| - 1]);
    }
  }

  /** And each version only evolves: its end moves earlier, its void is final. */
  lemma {:induction false} HistoryOnlyEvolves(es: seq<Event>, k: nat, id: Id)
    requires Legal(es) && k <= |es| && Legal(es[..k]) && id in After(es[..k])
    ensures id in After(es) && Evolves(After(es[..k])[id], After(es)[id])
    decreases |es|
  {
    if k == |es| {
      assert es[..k] == es;
    } else {
      var prefix := es[..|es| - 1];
      assert prefix[..k] == es[..k];
      HistoryOnlyEvolves(prefix, k, id);
      HistoryStaysDisjoint(prefix);
      StepKeeps(After(prefix), es[|es| - 1]);
    }
  }
}
