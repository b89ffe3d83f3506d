/**
 What a ledger stands for. An accepted ledger is, entry for entry, one exact prefix of
 the committed files, or one baseline and the files after it; planning again after any
 part of a plan has run answers exactly the rest.
 */
module MigrationLedgers {
  import opened Wrappers
  import opened Migrations

  predicate Offered(src: Sources, base: Option<Baseline>) {
    base.Some? ==> base.value in src.baselines
  }

  /** The files a database has run once it stands at `covered`, from a baseline or from the first file. */
  function Route(src: Sources, base: Option<Baseline>, covered: nat): seq<File>
    requires Cutoff(base) <= covered <= |src.ordered|
  {
    (if base.Some? then [base.value.file] else []) + src.ordered[Cutoff(base)..covered]
  }

  function Standing(rules: Rules, src: Sources, base: Option<Baseline>, covered: nat): seq<Applied>
    requires Cutoff(base) <= covered <= |src.ordered|
  {
    Entries(rules, Route(src, base, covered))
  }

  /** The ledger holds just the entries of one route, in whatever order the database answers them. */
  predicate StandsFor(rules: Rules, src: Sources, applied: seq<Applied>, base: Option<Baseline>, covered: nat) {
    && Offered(src, base)
    && Cutoff(base) <= covered <= |src.ordered|
    && multiset(applied) == multiset(Standing(rules, src, base, covered))
  }

  // ---- a route is recognised ----

  lemma {:induction false} FindHeld(files: seq<File>, k: nat)
    requires k < |files| && forall i :: 0 <= i < k ==> files[i].name != files[k].name
    ensures Find(files, files[k].name) == Some(files[k])
  {
    if k > 0 {
      FindHeld(files[1..], k - 1);
    }
  }

  lemma FindOrdered(rules: Rules, ordered: seq<File>, k: nat)
    requires Gapless(rules, ordered) && k < |ordered|
    ensures Find(ordered, ordered[k].name) == Some(ordered[k])
  {
    forall i | 0 <= i < k
      ensures ordered[i].name != ordered[k].name
    {
      assert InPlace(rules, ordered, i) && InPlace(rules, ordered, k);
    }
    FindHeld(ordered, k);
  }

  lemma {:induction false} FindHeldBaseline(baselines: seq<Baseline>, k: nat)
    requires DistinctBaselines(baselines) && k < |baselines|
    ensures FindBaseline(baselines, baselines[k].file.name) == Some(baselines[k])
  {
    if k > 0 {
      FindHeldBaseline(baselines[1..], k - 1);
    }
  }

  lemma FindOffered(baselines: seq<Baseline>, b: Baseline)
    requires DistinctBaselines(baselines) && b in baselines
    ensures FindBaseline(baselines, b.file.name) == Some(b)
  {
    var k :| 0 <= k < |baselines| && baselines[k] == b;
    FindHeldBaseline(baselines, k);
  }

  lemma OriginalIsNoBaseline(rules: Rules, src: Sources, k: nat)
    requires Coherent(rules, src) && k < |src.ordered|
    ensures FindBaseline(src.baselines, src.ordered[k].name).None?
  {
    var found := FindBaseline(src.baselines, src.ordered[k].name);
    if found.Some? {
      assert Bound(rules, src.ordered, found.value);
      FindOrdered(rules, src.ordered, k);
      assert false;
    }
  }

  lemma RouteAt(src: Sources, base: Option<Baseline>, covered: nat, i: nat)
    requires Cutoff(base) <= covered <= |src.ordered|
    requires i < |Route(src, base, covered)|
    ensures var k := if base.Some? then 1 else 0;
      Route(src, base, covered)[i] ==
        if i < k then base.value.file else src.ordered[Cutoff(base) + i - k]
  {
  }

  lemma StandingAscends(rules: Rules, src: Sources, base: Option<Baseline>, covered: nat)
    requires Coherent(rules, src) && Offered(src, base)
    requires Cutoff(base) <= covered <= |src.ordered|
    ensures StrictlyAscending(Standing(rules, src, base, covered), EntryKey)
  {
    var s := Standing(rules, src, base, covered);
    var k := if base.Some? then 1 else 0;
    forall i | 0 <= i < |s|
      ensures EntryKey(s[i]) == Cutoff(base) + i + 1 - k
    {
      RouteAt(src, base, covered, i);
      if i < k {
        assert Bound(rules, src.ordered, base.value);
      } else {
        assert InPlace(rules, src.ordered, Cutoff(base) + i - k);
      }
    }
  }

  lemma StandingIsRecognised(rules: Rules, src: Sources, base: Option<Baseline>, covered: nat)
    requires Coherent(rules, src) && Offered(src, base)
    requires Cutoff(base) <= covered <= |src.ordered|
    ensures forall a :: a in Standing(rules, src, base, covered) ==> Recognised(rules, src, a)
  {
    var s := Standing(rules, src, base, covered);
    var k := if base.Some? then 1 else 0;
    forall i | 0 <= i < |s|
      ensures Recognised(rules, src, s[i])
    {
      RouteAt(src, base, covered, i);
      if i < k {
        assert Bound(rules, src.ordered, base.value);
        FindOffered(src.baselines, base.value);
      } else {
        FindOrdered(rules, src.ordered, Cutoff(base) + i - k);
      }
    }
  }

  lemma PartsOfOne(baselines: seq<Baseline>, before: seq<Applied>, last: Applied)
    ensures Used(baselines, before + [last])
         == Used(baselines, before) + if FindBaseline(baselines, last.name).Some? then [last] else []
    ensures NotUsed(baselines, before + [last])
         == NotUsed(baselines, before) + if FindBaseline(baselines, last.name).Some? then [] else [last]
  {
    assert (before + [last])[..|before|] == before;
  }

  lemma LastApart<T>(a: seq<T>, b: seq<T>)
    requires b != []
    ensures a + b == a + b[..|b| - 1] + [b[|b| - 1]]
  {
  }

  lemma {:induction false} PartsOfFiles(baselines: seq<Baseline>, base: seq<Applied>, entries: seq<Applied>)
    requires forall i :: 0 <= i < |entries| ==> FindBaseline(baselines, entries[i].name).None?
    ensures Used(baselines, base + entries) == Used(baselines, base)
    ensures NotUsed(baselines, base + entries) == NotUsed(baselines, base) + entries
  {
    if entries == [] {
      assert base + entries == base;
    } else {
      var (first, last) := (entries[..|entries| - 1], entries[|entries| - 1]);
      PartsOfFiles(baselines, base, first);
      LastApart(base, entries);
      PartsOfOne(baselines, base + first, last);
      LastApart(NotUsed(baselines, base), entries);
    }
  }

  lemma FilesAreNoBaselines(rules: Rules, src: Sources, from: nat, to: nat)
    requires Coherent(rules, src) && from <= to <= |src.ordered|
    ensures var es := Entries(rules, src.ordered[from..to]);
      forall i :: 0 <= i < |es| ==> FindBaseline(src.baselines, es[i].name).None?
  {
    var es := Entries(rules, src.ordered[from..to]);
    forall i | 0 <= i < |es|
      ensures FindBaseline(src.baselines, es[i].name).None?
    {
      OriginalIsNoBaseline(rules, src, from + i);
    }
  }

  lemma PartsOfBase(rules: Rules, src: Sources, base: Option<Baseline>)
    requires DistinctBaselines(src.baselines) && Offered(src, base) && Cutoff(base) <= |src.ordered|
    ensures Used(src.baselines, Standing(rules, src, base, Cutoff(base)))
         == if base.Some? then [Entry(rules, base.value.file)] else []
    ensures NotUsed(src.baselines, Standing(rules, src, base, Cutoff(base))) == []
  {
    if base.Some? {
      FindOffered(src.baselines, base.value);
      assert Standing(rules, src, base, Cutoff(base)) == [] + [Entry(rules, base.value.file)];
      PartsOfOne(src.baselines, [], Entry(rules, base.value.file));
    } else {
      assert Standing(rules, src, base, Cutoff(base)) == [];
    }
  }

  lemma PartsOfStanding(rules: Rules, src: Sources, base: Option<Baseline>, covered: nat)
    requires Coherent(rules, src) && Offered(src, base)
    requires Cutoff(base) <= covered <= |src.ordered|
    ensures Used(src.baselines, Standing(rules, src, base, covered))
         == if base.Some? then [Entry(rules, base.value.file)] else []
    ensures NotUsed(src.baselines, Standing(rules, src, base, covered))
         == Entries(rules, src.ordered[Cutoff(base)..covered])
  {
    var (start, rest) := (Standing(rules, src, base, Cutoff(base)), Entries(rules, src.ordered[Cutoff(base)..covered]));
    assert Standing(rules, src, base, covered) == start + rest;
    FilesAreNoBaselines(rules, src, Cutoff(base), covered);
    PartsOfBase(rules, src, base);
    PartsOfFiles(src.baselines, start, rest);
    assert [] + rest == rest;
  }

  lemma BaseOfStanding(rules: Rules, src: Sources, base: Option<Baseline>, covered: nat)
    requires Coherent(rules, src) && Offered(src, base)
    requires Cutoff(base) <= covered <= |src.ordered|
    ensures var s := Standing(rules, src, base, covered);
      BaseOf(src, s) == base && |Used(src.baselines, s)| <= 1
  {
    PartsOfStanding(rules, src, base, covered);
    if base.Some? {
      FindOffered(src.baselines, base.value);
    }
  }

  lemma StandingFollows(rules: Rules, src: Sources, base: Option<Baseline>, covered: nat)
    requires Cutoff(base) <= covered <= |src.ordered|
    ensures Follows(src.ordered, Cutoff(base), Entries(rules, src.ordered[Cutoff(base)..covered]))
  {
  }

  lemma JudgeStanding(rules: Rules, src: Sources, base: Option<Baseline>, covered: nat)
    requires Coherent(rules, src) && Offered(src, base)
    requires Cutoff(base) <= covered <= |src.ordered|
    ensures forall b :: b in src.baselines ==> |b.receipt.replaced| <= |src.ordered|
    ensures var s := Standing(rules, src, base, covered);
      JudgeOrdered(rules, src, s) == Ok(PlanAt(rules, src, base, covered, s == []))
  {
    assert forall b :: b in src.baselines ==> Bound(rules, src.ordered, b);
    var s := Standing(rules, src, base, covered);
    BaseOfStanding(rules, src, base, covered);
    assert NotUsed(src.baselines, s) == Entries(rules, src.ordered[Cutoff(base)..covered]) by {
      PartsOfStanding(rules, src, base, covered);
    }
    StandingFollows(rules, src, base, covered);
    assert AllRecognised(rules, src, s) by {
      StandingIsRecognised(rules, src, base, covered);
    }
    JudgeParts(rules, src, s, base, covered);
  }

  lemma JudgeParts(rules: Rules, src: Sources, s: seq<Applied>, base: Option<Baseline>, covered: nat)
    requires Coherent(rules, src) && covered <= |src.ordered|
    requires forall b :: b in src.baselines ==> |b.receipt.replaced| <= |src.ordered|
    requires BaseOf(src, s) == base && |Used(src.baselines, s)| <= 1 && AllRecognised(rules, src, s)
    requires Follows(src.ordered, Cutoff(base), NotUsed(src.baselines, s))
    requires covered == Cutoff(base) + |NotUsed(src.baselines, s)|
    ensures JudgeOrdered(rules, src, s) == Ok(PlanAt(rules, src, base, covered, s == []))
  {
  }

  lemma SortedStanding(rules: Rules, src: Sources, applied: seq<Applied>, base: Option<Baseline>, covered: nat)
    requires Coherent(rules, src) && StandsFor(rules, src, applied, base, covered)
    ensures Sorted(applied, EntryKey) == Standing(rules, src, base, covered)
    ensures applied == [] <==> Standing(rules, src, base, covered) == []
  {
    SortedKeeps(applied, EntryKey);
    StandingAscends(rules, src, base, covered);
    OneOrder(Standing(rules, src, base, covered), Sorted(applied, EntryKey), EntryKey);
    assert |applied| == |multiset(applied)| == |Standing(rules, src, base, covered)|;
  }

  /** Every ledger that holds one route's entries is accepted, and what is planned depends on the route alone. */
  lemma StandingIsAccepted(rules: Rules, src: Sources, applied: seq<Applied>, base: Option<Baseline>, covered: nat)
    requires Coherent(rules, src) && StandsFor(rules, src, applied, base, covered)
    ensures forall b :: b in src.baselines ==> |b.receipt.replaced| <= |src.ordered|
    ensures Judge(rules, src, applied) == Ok(PlanAt(rules, src, base, covered, applied == []))
  {
    SortedStanding(rules, src, applied, base, covered);
    JudgeStanding(rules, src, base, covered);
  }

  // ---- an accepted ledger is a route ----

  lemma {:induction false} PartsAreTheHistory(baselines: seq<Baseline>, history: seq<Applied>)
    ensures multiset(history) == multiset(Used(baselines, history)) + multiset(NotUsed(baselines, history))
    ensures forall a :: a in Used(baselines, history) ==> FindBaseline(baselines, a.name).Some?
    ensures forall a :: a in Used(baselines, history) || a in NotUsed(baselines, history) ==> a in history
  {
    if history != [] {
      var n := |history| - 1;
      PartsAreTheHistory(baselines, history[..n]);
      assert history == history[..n] + [history[n]];
    }
  }

  lemma OriginalsAreEntries(rules: Rules, src: Sources, base: Option<Baseline>, originals: seq<Applied>)
    requires Coherent(rules, src) && Follows(src.ordered, Cutoff(base), originals)
    requires forall a :: a in originals ==> Recognised(rules, src, a)
    ensures originals == Entries(rules, src.ordered[Cutoff(base)..Cutoff(base) + |originals|])
  {
    var files := src.ordered[Cutoff(base)..Cutoff(base) + |originals|];
    forall i | 0 <= i < |originals|
      ensures originals[i] == Entry(rules, files[i])
    {
      FindOrdered(rules, src.ordered, Cutoff(base) + i);
      assert Recognised(rules, src, originals[i]);
    }
  }

  lemma JudgedParts(rules: Rules, src: Sources, history: seq<Applied>)
    requires Coherent(rules, src) && JudgeOrdered(rules, src, history).Ok?
    ensures AllRecognised(rules, src, history) && |Used(src.baselines, history)| <= 1
    ensures Follows(src.ordered, Cutoff(BaseOf(src, history)), NotUsed(src.baselines, history))
    ensures Offered(src, BaseOf(src, history))
  {
  }

  lemma UsedIsTheBase(rules: Rules, src: Sources, history: seq<Applied>, base: Option<Baseline>)
    requires Coherent(rules, src) && AllRecognised(rules, src, history)
    requires |Used(src.baselines, history)| <= 1 && base == BaseOf(src, history)
    ensures Used(src.baselines, history) == if base.Some? then [Entry(rules, base.value.file)] else []
  {
    if |Used(src.baselines, history)| == 1 {
      UsedIsTheEntry(rules, src, history);
    }
  }

  lemma OriginalsAreRecognised(rules: Rules, src: Sources, history: seq<Applied>)
    requires AllRecognised(rules, src, history)
    ensures forall a :: a in NotUsed(src.baselines, history) ==> Recognised(rules, src, a)
  {
    PartsAreTheHistory(src.baselines, history);
  }

  lemma StandingParts(rules: Rules, src: Sources, base: Option<Baseline>, covered: nat)
    requires Cutoff(base) <= covered <= |src.ordered|
    ensures Standing(rules, src, base, covered)
         == (if base.Some? then [Entry(rules, base.value.file)] else [])
            + Entries(rules, src.ordered[Cutoff(base)..covered])
  {
  }

  lemma HistoryIsStanding(rules: Rules, src: Sources, history: seq<Applied>, base: Option<Baseline>, covered: nat)
    requires Coherent(rules, src) && JudgeOrdered(rules, src, history).Ok?
    requires base == BaseOf(src, history) && covered == Cutoff(base) + |NotUsed(src.baselines, history)|
    ensures Offered(src, base) && covered <= |src.ordered|
    ensures multiset(history) == multiset(Standing(rules, src, base, covered))
  {
    JudgedParts(rules, src, history);
    PartsStand(rules, src, history, base, covered);
  }

  lemma PartsStand(rules: Rules, src: Sources, history: seq<Applied>, base: Option<Baseline>, covered: nat)
    requires Coherent(rules, src) && AllRecognised(rules, src, history) && |Used(src.baselines, history)| <= 1
    requires base == BaseOf(src, history) && covered == Cutoff(base) + |NotUsed(src.baselines, history)|
    requires Follows(src.ordered, Cutoff(base), NotUsed(src.baselines, history))
    ensures multiset(history) == multiset(Standing(rules, src, base, covered))
  {
    var (used, originals) := (Used(src.baselines, history), NotUsed(src.baselines, history));
    var standing := Standing(rules, src, base, covered);
    assert standing == used + originals by {
      UsedIsTheBase(rules, src, history, base);
      OriginalsAreRecognised(rules, src, history);
      OriginalsAreEntries(rules, src, base, originals);
      StandingParts(rules, src, base, covered);
    }
    assert multiset(history) == multiset(used) + multiset(originals) by {
      PartsAreTheHistory(src.baselines, history);
    }
    SameBag(history, used, originals, standing);
  }

  lemma SameBag(history: seq<Applied>, used: seq<Applied>, originals: seq<Applied>, standing: seq<Applied>)
    requires multiset(history) == multiset(used) + multiset(originals) && standing == used + originals
    ensures multiset(history) == multiset(standing)
  {
  }

  lemma UsedIsTheEntry(rules: Rules, src: Sources, history: seq<Applied>)
    requires Coherent(rules, src) && AllRecognised(rules, src, history)
    requires |Used(src.baselines, history)| == 1
    ensures BaseOf(src, history).Some?
    ensures Used(src.baselines, history) == [Entry(rules, BaseOf(src, history).value.file)]
  {
    var a := Used(src.baselines, history)[0];
    PartsAreTheHistory(src.baselines, history);
    assert a in Used(src.baselines, history);
    assert a in history && Recognised(rules, src, a);
    assert Bound(rules, src.ordered, BaseOf(src, history).value);
  }

  /**
   An accepted ledger stands for an exact prefix: one baseline at most, then the files from its
   cutoff, and no others.
   */
  lemma AcceptedStands(rules: Rules, src: Sources, applied: seq<Applied>) returns (base: Option<Baseline>, covered: nat)
    requires Coherent(rules, src) && Judge(rules, src, applied).Ok?
    ensures StandsFor(rules, src, applied, base, covered)
  {
    var history := Sorted(applied, EntryKey);
    SortedKeeps(applied, EntryKey);
    base := BaseOf(src, history);
    covered := Cutoff(base) + |NotUsed(src.baselines, history)|;
    HistoryIsStanding(rules, src, history, base, covered);
  }

  /** Which ledgers are accepted. */
  lemma AcceptedWhen(rules: Rules, src: Sources, applied: seq<Applied>)
    requires Coherent(rules, src)
    ensures Judge(rules, src, applied).Ok?
       <==> exists base, covered :: StandsFor(rules, src, applied, base, covered)
  {
    if Judge(rules, src, applied).Ok? {
      var base, covered := AcceptedStands(rules, src, applied);
    } else if base, covered :| StandsFor(rules, src, applied, base, covered) {
      StandingIsAccepted(rules, src, applied, base, covered);
    }
  }

  // ---- planning again ----

  lemma RouteGoesOn(rules: Rules, src: Sources, base: Option<Baseline>, covered: nat, more: nat)
    requires Cutoff(base) <= covered <= covered + more <= |src.ordered|
    ensures Route(src, base, covered + more) == Route(src, base, covered) + src.ordered[covered..covered + more]
    ensures Standing(rules, src, base, covered + more)
         == Standing(rules, src, base, covered) + Entries(rules, src.ordered[covered..covered + more])
  {
  }

  lemma NothingRan(rules: Rules, src: Sources, applied: seq<Applied>, base: Option<Baseline>, covered: nat)
    requires StandsFor(rules, src, applied, base, covered) && applied == []
    ensures base == None && covered == 0
  {
    assert |multiset(applied)| == 0 == |Standing(rules, src, base, covered)|;
  }

  lemma AfterNothing(
      rules: Rules, src: Sources, applied: seq<Applied>, base: Option<Baseline>, covered: nat,
      later: seq<Applied>)
    requires StandsFor(rules, src, applied, base, covered)
    requires multiset(later) == multiset(applied) + multiset(Entries(rules, []))
    ensures StandsFor(rules, src, later, base, covered) && |later| == |applied|
  {
    assert multiset(later) == multiset(applied);
    assert |later| == |multiset(later)| == |multiset(applied)|;
  }

  lemma AfterOriginals(
      rules: Rules, src: Sources, applied: seq<Applied>, base: Option<Baseline>, covered: nat,
      done: seq<File>, rest: seq<File>, later: seq<Applied>)
    requires StandsFor(rules, src, applied, base, covered) && done + rest == src.ordered[covered..]
    requires multiset(later) == multiset(applied) + multiset(Entries(rules, done))
    ensures covered + |done| <= |src.ordered| && rest == src.ordered[covered + |done|..]
    ensures StandsFor(rules, src, later, base, covered + |done|)
  {
    assert |done + rest| == |src.ordered| - covered;
    assert done == src.ordered[covered..covered + |done|] by {
      assert (done + rest)[..|done|] == done;
    }
    assert rest == (done + rest)[|done|..];
    RouteGoesOn(rules, src, base, covered, |done|);
  }

  lemma AfterBaseline(rules: Rules, src: Sources, b: Baseline, done: seq<File>, rest: seq<File>, later: seq<Applied>)
    requires Coherent(rules, src) && b in src.baselines && |b.receipt.replaced| <= |src.ordered|
    requires done != [] && done + rest == [b.file] + src.ordered[|b.receipt.replaced|..]
    requires multiset(later) == multiset(Entries(rules, done))
    ensures |b.receipt.replaced| + |done| - 1 <= |src.ordered|
    ensures rest == src.ordered[|b.receipt.replaced| + |done| - 1..]
    ensures StandsFor(rules, src, later, Some(b), |b.receipt.replaced| + |done| - 1)
  {
    AfterTheBaseline(rules, src, b, done, rest);
  }

  lemma Size(rules: Rules, applied: seq<Applied>, done: seq<File>, later: seq<Applied>)
    requires multiset(later) == multiset(applied) + multiset(Entries(rules, done))
    ensures |later| == |applied| + |done|
  {
    assert |later| == |multiset(later)| == |multiset(applied)| + |multiset(Entries(rules, done))|;
  }

  /** What a plan answers, without the cases of the ledger it came from. */
  predicate Answers(rules: Rules, src: Sources, applied: seq<Applied>, strategy: Strategy, pending: seq<File>) {
    var plan := Judge(rules, src, applied);
    plan.Ok? && plan.value.ordered == src.ordered && plan.value.strategy == strategy && plan.value.pending == pending
  }

  lemma StandingAnswers(rules: Rules, src: Sources, applied: seq<Applied>, base: Option<Baseline>, covered: nat)
    requires Coherent(rules, src) && StandsFor(rules, src, applied, base, covered)
    ensures applied == [] && src.baselines != [] ==>
      var b := Longest(rules, src.baselines).value;
      |b.receipt.replaced| <= |src.ordered| &&
      Answers(rules, src, applied, Squash, [b.file] + src.ordered[|b.receipt.replaced|..])
    ensures applied != [] || src.baselines == [] ==>
      Answers(rules, src, applied, if base.None? then Originals else Squash, src.ordered[covered..])
  {
    StandingIsAccepted(rules, src, applied, base, covered);
  }

  lemma ReplanOriginals(
      rules: Rules, src: Sources, applied: seq<Applied>, base: Option<Baseline>, covered: nat,
      done: seq<File>, rest: seq<File>, later: seq<Applied>)
    requires Coherent(rules, src) && StandsFor(rules, src, applied, base, covered)
    requires multiset(later) == multiset(applied) + multiset(Entries(rules, done))
    requires done != [] && done + rest == src.ordered[covered..]
    ensures Answers(rules, src, later, if base.None? then Originals else Squash, rest)
  {
    var further := covered + |done|;
    assert further <= |src.ordered| && rest == src.ordered[further..]
        && StandsFor(rules, src, later, base, further) by {
      AfterOriginals(rules, src, applied, base, covered, done, rest, later);
    }
    assert later != [] by {
      Size(rules, applied, done, later);
    }
    StandingAnswers(rules, src, later, base, further);
  }

  lemma ReplanBaseline(rules: Rules, src: Sources, b: Baseline, done: seq<File>, rest: seq<File>, later: seq<Applied>)
    requires Coherent(rules, src) && b in src.baselines && |b.receipt.replaced| <= |src.ordered|
    requires done != [] && done + rest == [b.file] + src.ordered[|b.receipt.replaced|..]
    requires multiset(later) == multiset(Entries(rules, done))
    ensures Answers(rules, src, later, Squash, rest)
  {
    var further := |b.receipt.replaced| + |done| - 1;
    assert further <= |src.ordered| && rest == src.ordered[further..]
        && StandsFor(rules, src, later, Some(b), further) by {
      AfterBaseline(rules, src, b, done, rest, later);
    }
    assert later != [] by {
      Size(rules, [], done, later);
    }
    StandingAnswers(rules, src, later, Some(b), further);
  }

  lemma ReplanNothing(
      rules: Rules, src: Sources, applied: seq<Applied>, base: Option<Baseline>, covered: nat,
      done: seq<File>, rest: seq<File>, later: seq<Applied>)
    requires Coherent(rules, src) && StandsFor(rules, src, applied, base, covered)
    requires multiset(later) == multiset(applied) + multiset(Entries(rules, done))
    requires done == [] && Judge(rules, src, applied).Ok?
    ensures Judge(rules, src, later) == Judge(rules, src, applied)
  {
    AfterNothing(rules, src, applied, base, covered, later);
    StandingIsAccepted(rules, src, applied, base, covered);
    StandingIsAccepted(rules, src, later, base, covered);
  }

  lemma ReplanStanding(
      rules: Rules, src: Sources, applied: seq<Applied>, base: Option<Baseline>, covered: nat,
      done: seq<File>, rest: seq<File>, later: seq<Applied>)
    requires Coherent(rules, src) && StandsFor(rules, src, applied, base, covered)
    requires multiset(later) == multiset(applied) + multiset(Entries(rules, done))
    requires Judge(rules, src, applied).Ok? && Judge(rules, src, applied).value.pending == done + rest
    ensures Answers(rules, src, later, Judge(rules, src, applied).value.strategy, rest)
  {
    StandingAnswers(rules, src, applied, base, covered);
    if done == [] {
      ReplanNothing(rules, src, applied, base, covered, done, rest, later);
      assert done + rest == rest;
    } else if applied == [] && src.baselines != [] {
      ReplanBaseline(rules, src, Longest(rules, src.baselines).value, done, rest, later);
    } else {
      ReplanOriginals(rules, src, applied, base, covered, done, rest, later);
    }
  }

  lemma AfterTheBaseline(rules: Rules, src: Sources, b: Baseline, done: seq<File>, rest: seq<File>)
    requires Coherent(rules, src) && b in src.baselines && |b.receipt.replaced| <= |src.ordered|
    requires done != [] && done + rest == [b.file] + src.ordered[|b.receipt.replaced|..]
    ensures |b.receipt.replaced| + |done| - 1 <= |src.ordered|
    ensures Route(src, Some(b), |b.receipt.replaced| + |done| - 1) == done
    ensures rest == src.ordered[|b.receipt.replaced| + |done| - 1..]
  {
    var all := [b.file] + src.ordered[|b.receipt.replaced|..];
    assert done == all[..|done|] && rest == all[|done|..];
    assert |done| <= |all|;
  }

  /** Planning again after any part of a plan has run answers exactly the rest of it, in order. */
  lemma ReplanIsTheRest(
      rules: Rules, files: seq<File>, lock: Lock, snapshot: Option<string>, squashes: seq<File>,
      applied: seq<Applied>, done: seq<File>, rest: seq<File>, later: seq<Applied>)
    requires var plan := History(rules, files, lock, applied, snapshot, squashes);
      plan.Ok? && plan.value.pending == done + rest
    requires multiset(later) == multiset(applied) + multiset(Entries(rules, done))
    ensures var again := History(rules, files, lock, later, snapshot, squashes);
      && again.Ok?
      && again.value.pending == rest
      && again.value.strategy == History(rules, files, lock, applied, snapshot, squashes).value.strategy
      && again.value.ordered == History(rules, files, lock, applied, snapshot, squashes).value.ordered
  {
    var src := CheckedSources(rules, files, lock, snapshot, squashes).value;
    CheckedIsCoherent(rules, files, lock, snapshot, squashes, src);
    var base, covered := AcceptedStands(rules, src, applied);
    ReplanStanding(rules, src, applied, base, covered, done, rest, later);
  }

  // ---- every route reaches one schema ----

  type Schema = set<string>

  /** The schema a database holds after running files in order; running one file is the parameter. */
  function Replay(run: (Schema, string) -> Schema, from: Schema, files: seq<File>): Schema {
    if files == [] then from
    else run(Replay(run, from, files[..|files| - 1]), files[|files| - 1].sql)
  }

  lemma {:induction false} ReplayInTwo(run: (Schema, string) -> Schema, from: Schema, a: seq<File>, b: seq<File>)
    ensures Replay(run, from, a + b) == Replay(run, Replay(run, from, a), b)
  {
    if b == [] {
      assert a + b == a;
    } else {
      var n := |b| - 1;
      assert (a + b)[..|a + b| - 1] == a + b[..n];
      ReplayInTwo(run, from, a, b[..n]);
    }
  }

  ghost predicate CollisionFree(rules: Rules) {
    && (forall a, b :: rules.digest(a) == rules.digest(b) ==> a == b)
    && (forall a, b :: rules.lines(a) == rules.lines(b) ==> a == b)
  }

  /** The receipt was issued over two real replays on empty databases. */
  ghost predicate Proven(rules: Rules, run: (Schema, string) -> Schema, receipt: Receipt) {
    exists originals, file ::
      VerifySquash(rules, originals, file, Replay(run, {}, Sorted(originals, FileKey)), Replay(run, {}, [file]))
        == Ok(receipt)
  }

  lemma SameFiles(rules: Rules, a: seq<File>, b: seq<File>)
    requires CollisionFree(rules) && Entries(rules, a) == Entries(rules, b)
    ensures a == b
  {
    assert |a| == |Entries(rules, a)| == |b|;
    forall i | 0 <= i < |a|
      ensures a[i] == b[i]
    {
      assert Entries(rules, a)[i] == Entries(rules, b)[i];
    }
  }

  lemma BaselineIsItsPrefix(rules: Rules, run: (Schema, string) -> Schema, src: Sources, b: Baseline)
    requires CollisionFree(rules) && Coherent(rules, src) && b in src.baselines
    requires Proven(rules, run, b.receipt)
    ensures |b.receipt.replaced| <= |src.ordered|
    ensures Replay(run, {}, [b.file]) == Replay(run, {}, src.ordered[..|b.receipt.replaced|])
  {
    assert Bound(rules, src.ordered, b);
    var originals, file :|
      VerifySquash(rules, originals, file, Replay(run, {}, Sorted(originals, FileKey)), Replay(run, {}, [file]))
        == Ok(b.receipt);
    SameFiles(rules, Sorted(originals, FileKey), src.ordered[..|b.receipt.replaced|]);
    assert Entries(rules, [file]) == Entries(rules, [b.file]);
    SameFiles(rules, [file], [b.file]);
  }

  lemma BaselineRouteReaches(
      rules: Rules, run: (Schema, string) -> Schema, ordered: seq<File>, file: File, n: nat, covered: nat)
    requires n <= covered <= |ordered|
    requires Replay(run, {}, [file]) == Replay(run, {}, ordered[..n])
    ensures Replay(run, {}, [file] + ordered[n..covered]) == Replay(run, {}, ordered[..covered])
  {
    ReplayInTwo(run, {}, [file], ordered[n..covered]);
    ReplayInTwo(run, {}, ordered[..n], ordered[n..covered]);
    assert ordered[..covered] == ordered[..n] + ordered[n..covered];
  }

  lemma RouteReaches(rules: Rules, run: (Schema, string) -> Schema, src: Sources, base: Option<Baseline>, covered: nat)
    requires CollisionFree(rules) && Coherent(rules, src) && Offered(src, base)
    requires base.Some? ==> Proven(rules, run, base.value.receipt)
    requires Cutoff(base) <= covered <= |src.ordered|
    ensures Replay(run, {}, Route(src, base, covered)) == Replay(run, {}, src.ordered[..covered])
  {
    if base.Some? {
      BaselineIsItsPrefix(rules, run, src, base.value);
      BaselineRouteReaches(rules, run, src.ordered, base.value.file, Cutoff(base), covered);
    } else {
      assert Route(src, base, covered) == src.ordered[..covered];
    }
  }

  lemma RouteIsDistinct(rules: Rules, src: Sources, base: Option<Baseline>, covered: nat)
    requires Coherent(rules, src) && Offered(src, base) && Cutoff(base) <= covered <= |src.ordered|
    ensures DistinctNames(Route(src, base, covered))
  {
    StandingAscends(rules, src, base, covered);
    var (s, route) := (Standing(rules, src, base, covered), Route(src, base, covered));
    forall i, j | 0 <= i < j < |route|
      ensures route[i].name != route[j].name
    {
      assert EntryKey(s[i]) < EntryKey(s[j]);
    }
  }

  /**
   What ran and what is pending are together one whole route, so no file runs twice and none
   after the cutoff is skipped.
   */
  lemma PlanCompletesARoute(rules: Rules, src: Sources, applied: seq<Applied>, base: Option<Baseline>, covered: nat)
      returns (target: Option<Baseline>)
    requires Coherent(rules, src) && StandsFor(rules, src, applied, base, covered)
    ensures Judge(rules, src, applied).Ok?
    ensures Offered(src, target) && Cutoff(target) <= |src.ordered|
    ensures Route(src, base, covered) + Judge(rules, src, applied).value.pending == Route(src, target, |src.ordered|)
    ensures applied != [] ==> target == base
    ensures DistinctNames(Route(src, target, |src.ordered|))
  {
    if applied == [] && src.baselines != [] {
      target := Longest(rules, src.baselines);
      FreshPlanCompletes(rules, src, applied, base, covered, target);
    } else {
      target := base;
      PlanGoesOn(rules, src, applied, base, covered);
    }
    RouteIsDistinct(rules, src, target, |src.ordered|);
  }

  lemma FreshPlanCompletes(
      rules: Rules, src: Sources, applied: seq<Applied>, base: Option<Baseline>, covered: nat, target: Option<Baseline>)
    requires Coherent(rules, src) && StandsFor(rules, src, applied, base, covered)
    requires applied == [] && src.baselines != [] && target == Longest(rules, src.baselines)
    ensures Judge(rules, src, applied).Ok? && Cutoff(target) <= |src.ordered|
    ensures Route(src, base, covered) + Judge(rules, src, applied).value.pending == Route(src, target, |src.ordered|)
  {
    StandingAnswers(rules, src, applied, base, covered);
    NothingRan(rules, src, applied, base, covered);
    FreshRoute(src, base, covered, target);
  }

  lemma PlanGoesOn(rules: Rules, src: Sources, applied: seq<Applied>, base: Option<Baseline>, covered: nat)
    requires Coherent(rules, src) && StandsFor(rules, src, applied, base, covered)
    requires applied != [] || src.baselines == []
    ensures Judge(rules, src, applied).Ok?
    ensures Route(src, base, covered) + Judge(rules, src, applied).value.pending == Route(src, base, |src.ordered|)
  {
    StandingAnswers(rules, src, applied, base, covered);
    RouteGoesOn(rules, src, base, covered, |src.ordered| - covered);
  }

  lemma FreshRoute(src: Sources, base: Option<Baseline>, covered: nat, target: Option<Baseline>)
    requires base == None && covered == 0 && target.Some? && Cutoff(target) <= |src.ordered|
    ensures Route(src, base, covered) + ([target.value.file] + src.ordered[Cutoff(target)..])
         == Route(src, target, |src.ordered|)
  {
  }

  /**
   A database that holds what its accepted ledger says it ran arrives, once the plan has
   run, at the schema of the whole chain of originals, whatever baseline it went through.
   */
  lemma EveryRouteReachesTheSchema(
      rules: Rules, run: (Schema, string) -> Schema, files: seq<File>, lock: Lock, snapshot: Option<string>,
      squashes: seq<File>, applied: seq<Applied>, src: Sources, base: Option<Baseline>, covered: nat)
    requires CollisionFree(rules)
    requires forall receipt :: receipt in lock.squashes ==> Proven(rules, run, receipt)
    requires CheckedSources(rules, files, lock, snapshot, squashes) == Ok(src)
    requires StandsFor(rules, src, applied, base, covered)
    ensures History(rules, files, lock, applied, snapshot, squashes).Ok?
    ensures var pending := History(rules, files, lock, applied, snapshot, squashes).value.pending;
      Replay(run, Replay(run, {}, Route(src, base, covered)), pending) == Replay(run, {}, src.ordered)
  {
    CheckedIsCoherent(rules, files, lock, snapshot, squashes, src);
    var target := PlanCompletesARoute(rules, src, applied, base, covered);
    var pending := Judge(rules, src, applied).value.pending;
    ReplayInTwo(run, {}, Route(src, base, covered), pending);
    RouteReaches(rules, run, src, target, |src.ordered|);
    assert src.ordered[..|src.ordered|] == src.ordered;
  }

  // ---- what is issued is accepted ----

  lemma {:induction false} SortedAscending<T>(xs: seq<T>, key: T -> int)
    requires Ascending(xs, key)
    ensures Sorted(xs, key) == xs
  {
    if xs != [] {
      SortedAscending(xs[1..], key);
    }
  }

  lemma PrefixIsOrdered(rules: Rules, ordered: seq<File>, n: nat)
    requires Gapless(rules, ordered) && n <= |ordered|
    ensures OrderedFiles(rules, ordered[..n]) == Ok(ordered[..n])
  {
    var prefix := ordered[..n];
    forall i | 0 <= i < n
      ensures InPlace(rules, prefix, i)
    {
      assert InPlace(rules, ordered, i);
    }
    forall i, j | 0 <= i < j < n
      ensures FileKey(prefix[i]) <= FileKey(prefix[j])
    {
      assert InPlace(rules, prefix, i) && InPlace(rules, prefix, j);
    }
    SortedAscending(prefix, FileKey);
  }

  /**
   A receipt issued for an exact prefix is accepted beside those files, unless its name is taken
   or the lock disputes its proof.
   */
  lemma IssuedReceiptsAreAccepted(
      rules: Rules, ordered: seq<File>, n: nat, file: File, archived: set<string>, baseline: set<string>,
      lock: Lock, squashes: seq<File>, held: seq<Baseline>, receipt: Receipt)
    requires forall text :: IsProof(rules.digest(text))
    requires Gapless(rules, ordered) && n <= |ordered|
    requires VerifySquash(rules, ordered[..n], file, archived, baseline) == Ok(receipt)
    requires Find(squashes, file.name) == Some(file)
    ensures Examine(rules, ordered, lock, squashes, held, receipt) == Ok(Baseline(file, receipt))
       <==> FindBaseline(held, file.name).None? && Find(ordered, file.name).None?
            && (file.name in lock.physical ==> lock.physical[file.name] == receipt.proof)
  {
    PrefixIsOrdered(rules, ordered, n);
    assert Prefix(ordered, n) == ordered[..n];
    assert |receipt.replaced| == n;
  }
}
