/**
 The migration planner: from the committed files, the lock that verified them and the
 ledger of what a database ran, the files still to run. A squash baseline is another
 way to reach the end of one exact prefix of the files.

 The text rules (`lawful`, `schemaOnly`), the digest, canonical JSON and the locale's
 order of names are parameters. A schema is the set of its physical definition lines.
 */
module Migrations {
  import opened Wrappers

  datatype File = File(name: string, sql: string)

  datatype Applied = Applied(name: string, checksum: string)

  datatype Receipt = Receipt(file: string, checksum: string, archive: string, replaced: seq<Applied>, proof: string)

  datatype Lock = Lock(
    snapshot: string,
    files: map<string, string>,
    squashes: seq<Receipt>,
    physical: map<string, string>)

  datatype Baseline = Baseline(file: File, receipt: Receipt)

  /** What the committed files and the lock hold once they agree. */
  datatype Sources = Sources(ordered: seq<File>, baselines: seq<Baseline>)

  datatype Strategy = Originals | Squash

  datatype Plan = Plan(ordered: seq<File>, covered: nat, strategy: Strategy, pending: seq<File>)

  datatype Refusal = Invalid | Changed

  datatype Rules = Rules(
    lawful: string -> bool,
    schemaOnly: string -> bool,
    digest: string -> string,
    canonical: seq<Applied> -> string,
    lines: set<string> -> string,
    precedes: (string, string) -> bool)

  // ---- names and numbers ----

  predicate IsDigit(c: char) {
    '0' <= c <= '9'
  }

  /** The file names `NNNN_<name>.sql`. */
  predicate WellNamed(name: string) {
    && |name| >= 10
    && (forall i :: 0 <= i < 4 ==> IsDigit(name[i]))
    && name[4] == '_'
    && (forall i :: 5 <= i < |name| - 4 ==> IsDigit(name[i]) || 'a' <= name[i] <= 'z' || name[i] == '_')
    && name[|name| - 4..] == ".sql"
  }

  function Digit(c: char): int
    requires IsDigit(c)
  {
    c as int - '0' as int
  }

  function Number(name: string): int {
    if WellNamed(name)
    then ((Digit(name[0]) * 10 + Digit(name[1])) * 10 + Digit(name[2])) * 10 + Digit(name[3])
    else 0
  }

  function FileKey(f: File): int {
    Number(f.name)
  }

  function EntryKey(a: Applied): int {
    Number(a.name)
  }

  // ---- a stable sort ----

  function Insert<T>(x: T, xs: seq<T>, key: T -> int): seq<T> {
    if xs == [] || key(x) <= key(xs[0]) then [x] + xs else [xs[0]] + Insert(x, xs[1..], key)
  }

  function Sorted<T>(xs: seq<T>, key: T -> int): seq<T> {
    if xs == [] then [] else Insert(xs[0], Sorted(xs[1..], key), key)
  }

  predicate Ascending<T>(xs: seq<T>, key: T -> int) {
    forall i, j :: 0 <= i < j < |xs| ==> key(xs[i]) <= key(xs[j])
  }

  predicate StrictlyAscending<T>(xs: seq<T>, key: T -> int) {
    forall i, j :: 0 <= i < j < |xs| ==> key(xs[i]) < key(xs[j])
  }

  lemma {:induction false} InsertHolds<T>(x: T, xs: seq<T>, key: T -> int)
    ensures multiset(Insert(x, xs, key)) == multiset([x]) + multiset(xs)
  {
    if xs != [] && key(x) > key(xs[0]) {
      InsertHolds(x, xs[1..], key);
      assert xs == [xs[0]] + xs[1..];
    }
  }

  predicate AllFrom<T(==)>(least: int, xs: seq<T>, key: T -> int) {
    forall y :: y in xs ==> least <= key(y)
  }

  lemma {:induction false} InsertFrom<T>(least: int, x: T, xs: seq<T>, key: T -> int)
    requires AllFrom(least, xs, key) && least <= key(x)
    ensures AllFrom(least, Insert(x, xs, key), key)
  {
    if xs != [] && key(x) > key(xs[0]) {
      InsertFrom(least, x, xs[1..], key);
    }
  }

  lemma HeadIsLeast<T>(xs: seq<T>, key: T -> int)
    requires xs != []
    ensures Ascending(xs, key) <==> Ascending(xs[1..], key) && AllFrom(key(xs[0]), xs[1..], key)
  {
    var tail := xs[1..];
    assert forall i :: 0 <= i < |tail| ==> tail[i] == xs[i + 1];
    if Ascending(xs, key) {
      forall y | y in tail
        ensures key(xs[0]) <= key(y)
      {
        var i :| 0 <= i < |tail| && tail[i] == y;
      }
    } else if Ascending(tail, key) && AllFrom(key(xs[0]), tail, key) {
      forall i, j | 0 <= i < j < |xs|
        ensures key(xs[i]) <= key(xs[j])
      {
        assert xs[j] == tail[j - 1];
        if i > 0 {
          assert xs[i] == tail[i - 1];
        }
      }
    }
  }

  lemma {:induction false} InsertKeeps<T>(x: T, xs: seq<T>, key: T -> int)
    requires Ascending(xs, key)
    ensures Ascending(Insert(x, xs, key), key)
  {
    if xs == [] {
    } else if key(x) <= key(xs[0]) {
      HeadIsLeast(xs, key);
      var all := [x] + xs;
      assert all[1..] == xs && xs == [xs[0]] + xs[1..];
      HeadIsLeast(all, key);
    } else {
      HeadIsLeast(xs, key);
      InsertKeeps(x, xs[1..], key);
      InsertFrom(key(xs[0]), x, xs[1..], key);
      var all := [xs[0]] + Insert(x, xs[1..], key);
      assert all[1..] == Insert(x, xs[1..], key);
      HeadIsLeast(all, key);
    }
  }

  lemma {:induction false} SortedKeeps<T>(xs: seq<T>, key: T -> int)
    ensures Ascending(Sorted(xs, key), key)
    ensures multiset(Sorted(xs, key)) == multiset(xs)
  {
    if xs != [] {
      SortedKeeps(xs[1..], key);
      InsertKeeps(xs[0], Sorted(xs[1..], key), key);
      InsertHolds(xs[0], Sorted(xs[1..], key), key);
      assert xs == [xs[0]] + xs[1..];
    }
  }

  lemma TailBag<T>(xs: seq<T>)
    requires xs != []
    ensures multiset(xs[1..]) == multiset(xs) - multiset([xs[0]])
  {
    assert xs == [xs[0]] + xs[1..];
  }

  lemma SameHead<T>(a: seq<T>, b: seq<T>, key: T -> int)
    requires StrictlyAscending(a, key) && Ascending(b, key) && multiset(a) == multiset(b)
    requires a != [] && b != []
    ensures a[0] == b[0]
  {
    assert b[0] in multiset(a) && a[0] in multiset(b);
    var i :| 0 <= i < |a| && a[i] == b[0];
    var j :| 0 <= j < |b| && b[j] == a[0];
    assert key(b[0]) <= key(b[j]);
  }

  /** Only one ordering of a bag of distinct keys ascends. */
  lemma {:induction false} OneOrder<T>(a: seq<T>, b: seq<T>, key: T -> int)
    requires StrictlyAscending(a, key) && Ascending(b, key) && multiset(a) == multiset(b)
    ensures a == b
  {
    assert |a| == |multiset(a)| == |multiset(b)| == |b|;
    if a != [] {
      SameHead(a, b, key);
      TailBag(a);
      TailBag(b);
      var x, y := a[1..], b[1..];
      assert forall i :: 0 <= i < |x| ==> x[i] == a[i + 1];
      assert forall i :: 0 <= i < |y| ==> y[i] == b[i + 1];
      OneOrder(x, y, key);
    }
  }

  // ---- the checks of the committed files ----

  function Checksum(rules: Rules, f: File): string {
    rules.digest(f.sql)
  }

  function Entry(rules: Rules, f: File): Applied {
    Applied(f.name, Checksum(rules, f))
  }

  function Entries(rules: Rules, files: seq<File>): (r: seq<Applied>)
    ensures |r| == |files|
    ensures forall i :: 0 <= i < |files| ==> r[i] == Entry(rules, files[i])
  {
    seq(|files|, i requires 0 <= i < |files| => Entry(rules, files[i]))
  }

  function ArchiveOf(rules: Rules, files: seq<File>): string {
    rules.digest(rules.canonical(Entries(rules, files)))
  }

  function PhysicalHash(rules: Rules, lines: set<string>): string {
    rules.digest(rules.lines(lines))
  }

  predicate FileChecks(rules: Rules, f: File) {
    WellNamed(f.name) && Number(f.name) >= 1 && rules.lawful(f.sql)
  }

  /** The file at `i` is checked, and numbered by its place. */
  predicate InPlace(rules: Rules, ordered: seq<File>, i: nat) {
    i < |ordered| && FileChecks(rules, ordered[i]) && FileKey(ordered[i]) == i + 1
  }

  predicate Gapless(rules: Rules, ordered: seq<File>) {
    forall i :: 0 <= i < |ordered| ==> InPlace(rules, ordered, i)
  }

  function OrderedFiles(rules: Rules, files: seq<File>): Result<seq<File>, Refusal> {
    var ordered := Sorted(files, FileKey);
    if Gapless(rules, ordered) then Ok(ordered) else Err(Invalid)
  }

  predicate SchemaOnly(rules: Rules, files: seq<File>) {
    forall i :: 0 <= i < |files| ==> rules.schemaOnly(files[i].sql)
  }

  function SquashSources(rules: Rules, files: seq<File>): Result<seq<File>, Refusal> {
    match OrderedFiles(rules, files)
    case Err(e) => Err(e)
    case Ok(ordered) => if ordered != [] && SchemaOnly(rules, ordered) then Ok(ordered) else Err(Invalid)
  }

  predicate BaselineChecks(rules: Rules, f: File) {
    FileChecks(rules, f) && SquashSources(rules, [File("0001_baseline.sql", f.sql)]).Ok?
  }

  predicate IsProof(text: string) {
    |text| == 64 && forall i :: 0 <= i < 64 ==> IsDigit(text[i]) || 'a' <= text[i] <= 'f'
  }

  /** Binding an edited baseline to the prefix it was replayed against. */
  function VerifySquash(rules: Rules, originals: seq<File>, file: File, archived: set<string>, baseline: set<string>):
      Result<Receipt, Refusal>
  {
    match SquashSources(rules, originals)
    case Err(e) => Err(e)
    case Ok(ordered) =>
      if !BaselineChecks(rules, file) then Err(Invalid)
      else if Number(file.name) != |ordered| || Find(ordered, file.name).Some? then Err(Invalid)
      else if PhysicalHash(rules, archived) != PhysicalHash(rules, baseline) then Err(Invalid)
      else Ok(Receipt(file.name, Checksum(rules, file), ArchiveOf(rules, ordered), Entries(rules, ordered),
                      PhysicalHash(rules, baseline)))
  }

  function Find(files: seq<File>, name: string): (r: Option<File>)
    ensures r.Some? ==> r.value in files && r.value.name == name
    ensures r.None? ==> forall f :: f in files ==> f.name != name
  {
    if files == [] then None else if files[0].name == name then Some(files[0]) else Find(files[1..], name)
  }

  function FindBaseline(baselines: seq<Baseline>, name: string): (r: Option<Baseline>)
    ensures r.Some? ==> r.value in baselines && r.value.file.name == name
    ensures r.None? ==> forall b :: b in baselines ==> b.file.name != name
  {
    if baselines == [] then None
    else if baselines[0].file.name == name then Some(baselines[0])
    else FindBaseline(baselines[1..], name)
  }

  function Prefix(ordered: seq<File>, n: nat): seq<File> {
    if n <= |ordered| then ordered[..n] else ordered
  }

  predicate ReplacesPrefix(rules: Rules, ordered: seq<File>, receipt: Receipt) {
    var prefix := Prefix(ordered, |receipt.replaced|);
    && receipt.replaced != []
    && Number(receipt.file) == |receipt.replaced|
    && receipt.replaced == Entries(rules, prefix)
    && receipt.archive == ArchiveOf(rules, prefix)
  }

  predicate ProofHolds(lock: Lock, receipt: Receipt) {
    IsProof(receipt.proof) && (receipt.file in lock.physical ==> lock.physical[receipt.file] == receipt.proof)
  }

  /** One receipt of the lock, after the baselines already `held`. */
  function Examine(
      rules: Rules, ordered: seq<File>, lock: Lock, squashes: seq<File>, held: seq<Baseline>,
      receipt: Receipt):
      Result<Baseline, Refusal>
  {
    if FindBaseline(held, receipt.file).Some? || Find(ordered, receipt.file).Some? then Err(Invalid)
    else match Find(squashes, receipt.file)
      case None => Err(Changed)
      case Some(file) =>
        if !BaselineChecks(rules, file) then Err(Invalid)
        else if !ReplacesPrefix(rules, ordered, receipt) then Err(Invalid)
        else if SquashSources(rules, Prefix(ordered, |receipt.replaced|)).Err? then Err(Invalid)
        else if receipt.checksum != Checksum(rules, file) then Err(Changed)
        else if !ProofHolds(lock, receipt) then Err(Invalid)
        else Ok(Baseline(file, receipt))
  }

  function ExamineAll(rules: Rules, ordered: seq<File>, lock: Lock, squashes: seq<File>, receipts: seq<Receipt>):
      Result<seq<Baseline>, Refusal>
  {
    if receipts == [] then Ok([])
    else
      var n := |receipts| - 1;
      match ExamineAll(rules, ordered, lock, squashes, receipts[..n])
      case Err(e) => Err(e)
      case Ok(held) =>
        match Examine(rules, ordered, lock, squashes, held, receipts[n])
        case Err(e) => Err(e)
        case Ok(b) => Ok(held + [b])
  }

  predicate LockHolds(rules: Rules, ordered: seq<File>, lock: Lock) {
    && (forall f :: f in ordered ==> f.name in lock.files && lock.files[f.name] == Checksum(rules, f))
    && (forall name :: name in lock.files ==> Find(ordered, name).Some?)
  }

  predicate DistinctNames(files: seq<File>) {
    forall i, j :: 0 <= i < j < |files| ==> files[i].name != files[j].name
  }

  predicate AllBound(squashes: seq<File>, baselines: seq<Baseline>) {
    forall f :: f in squashes ==> FindBaseline(baselines, f.name).Some?
  }

  function CheckedSources(rules: Rules, files: seq<File>, lock: Lock, snapshot: Option<string>, squashes: seq<File>):
      Result<Sources, Refusal>
  {
    match OrderedFiles(rules, files)
    case Err(e) => Err(e)
    case Ok(ordered) =>
      if snapshot.Some? && rules.digest(snapshot.value) != lock.snapshot then Err(Changed)
      else if !LockHolds(rules, ordered, lock) then Err(Changed)
      else if !DistinctNames(squashes) then Err(Invalid)
      else match ExamineAll(rules, ordered, lock, squashes, lock.squashes)
        case Err(e) => Err(e)
        case Ok(baselines) =>
          if AllBound(squashes, baselines) then Ok(Sources(ordered, baselines)) else Err(Changed)
  }

  // ---- the ledger ----

  function Used(baselines: seq<Baseline>, history: seq<Applied>): seq<Applied> {
    if history == [] then []
    else
      var n := |history| - 1;
      Used(baselines, history[..n]) + if FindBaseline(baselines, history[n].name).Some? then [history[n]] else []
  }

  function NotUsed(baselines: seq<Baseline>, history: seq<Applied>): seq<Applied> {
    if history == [] then []
    else
      var n := |history| - 1;
      NotUsed(baselines, history[..n]) + if FindBaseline(baselines, history[n].name).Some? then [] else [history[n]]
  }

  function Cutoff(base: Option<Baseline>): nat {
    if base.Some? then |base.value.receipt.replaced| else 0
  }

  function FileOf(src: Sources, name: string): Option<File> {
    match Find(src.ordered, name)
    case Some(f) => Some(f)
    case None =>
      match FindBaseline(src.baselines, name)
      case Some(b) => Some(b.file)
      case None => None
  }

  predicate Recognised(rules: Rules, src: Sources, a: Applied) {
    var f := FileOf(src, a.name);
    f.Some? && Checksum(rules, f.value) == a.checksum
  }

  predicate Follows(ordered: seq<File>, cutoff: nat, originals: seq<Applied>) {
    && cutoff + |originals| <= |ordered|
    && forall i :: 0 <= i < |originals| ==> ordered[cutoff + i].name == originals[i].name
  }

  /** The longest baseline, by name where two are as long. */
  predicate Better(rules: Rules, a: Baseline, b: Baseline) {
    var (m, n) := (|a.receipt.replaced|, |b.receipt.replaced|);
    m > n || (m == n && rules.precedes(a.file.name, b.file.name))
  }

  function Longest(rules: Rules, baselines: seq<Baseline>): (r: Option<Baseline>)
    ensures r.None? <==> baselines == []
    ensures r.Some? ==> r.value in baselines
    ensures r.Some? ==> forall b :: b in baselines ==> |b.receipt.replaced| <= |r.value.receipt.replaced|
  {
    if baselines == [] then None
    else
      var n := |baselines| - 1;
      match Longest(rules, baselines[..n])
      case None => Some(baselines[n])
      case Some(best) => if Better(rules, baselines[n], best) then Some(baselines[n]) else Some(best)
  }

  /** The files from the one numbered `n + 1` on, if any. */
  function FilesFrom(ordered: seq<File>, n: nat): seq<File> {
    if n <= |ordered| then ordered[n..] else []
  }

  function PlanAt(rules: Rules, src: Sources, base: Option<Baseline>, covered: nat, empty: bool): Plan {
    var longest := Longest(rules, src.baselines);
    if empty && longest.Some?
    then Plan(src.ordered, covered, Squash,
              [longest.value.file] + FilesFrom(src.ordered, |longest.value.receipt.replaced|))
    else Plan(src.ordered, covered, if base.None? then Originals else Squash, FilesFrom(src.ordered, covered))
  }

  /** The baseline a history used; no history uses two. */
  function BaseOf(src: Sources, history: seq<Applied>): Option<Baseline> {
    var used := Used(src.baselines, history);
    if used == [] then None else FindBaseline(src.baselines, used[0].name)
  }

  predicate AllRecognised(rules: Rules, src: Sources, history: seq<Applied>) {
    forall a :: a in history ==> Recognised(rules, src, a)
  }

  function JudgeOrdered(rules: Rules, src: Sources, history: seq<Applied>): Result<Plan, Refusal> {
    var base := BaseOf(src, history);
    var originals := NotUsed(src.baselines, history);
    if |Used(src.baselines, history)| > 1 then Err(Invalid)
    else if !AllRecognised(rules, src, history) then Err(Changed)
    else if !Follows(src.ordered, Cutoff(base), originals) then Err(Invalid)
    else Ok(PlanAt(rules, src, base, Cutoff(base) + |originals|, history == []))
  }

  function Judge(rules: Rules, src: Sources, applied: seq<Applied>): Result<Plan, Refusal> {
    JudgeOrdered(rules, src, Sorted(applied, EntryKey))
  }

  function History(
      rules: Rules, files: seq<File>, lock: Lock, applied: seq<Applied>, snapshot: Option<string>,
      squashes: seq<File>):
      Result<Plan, Refusal>
  {
    match CheckedSources(rules, files, lock, snapshot, squashes)
    case Err(e) => Err(e)
    case Ok(src) => Judge(rules, src, applied)
  }

  // ---- what checked sources are ----

  predicate Bound(rules: Rules, ordered: seq<File>, b: Baseline) {
    && b.receipt.file == b.file.name
    && Find(ordered, b.file.name).None?
    && WellNamed(b.file.name)
    && 0 < |b.receipt.replaced| <= |ordered|
    && Number(b.file.name) == |b.receipt.replaced|
    && b.receipt.replaced == Entries(rules, ordered[..|b.receipt.replaced|])
    && b.receipt.checksum == Checksum(rules, b.file)
  }

  predicate DistinctBaselines(baselines: seq<Baseline>) {
    forall i, j :: 0 <= i < j < |baselines| ==> baselines[i].file.name != baselines[j].file.name
  }

  predicate Coherent(rules: Rules, src: Sources) {
    && Gapless(rules, src.ordered)
    && (forall b {:trigger Bound(rules, src.ordered, b)} :: b in src.baselines ==> Bound(rules, src.ordered, b))
    && DistinctBaselines(src.baselines)
  }

  lemma ExaminedIsBound(
      rules: Rules, ordered: seq<File>, lock: Lock, squashes: seq<File>, held: seq<Baseline>, receipt: Receipt)
    requires Examine(rules, ordered, lock, squashes, held, receipt).Ok?
    ensures Bound(rules, ordered, Examine(rules, ordered, lock, squashes, held, receipt).value)
    ensures Examine(rules, ordered, lock, squashes, held, receipt).value.receipt == receipt
    ensures forall b :: b in held ==> b.file.name != receipt.file
  {
  }

  lemma AddDistinct(held: seq<Baseline>, b: Baseline)
    requires DistinctBaselines(held) && forall h :: h in held ==> h.file.name != b.file.name
    ensures DistinctBaselines(held + [b])
  {
  }

  lemma {:induction false} AllExaminedAreBound(
      rules: Rules, ordered: seq<File>, lock: Lock, squashes: seq<File>, receipts: seq<Receipt>, held: seq<Baseline>)
    requires ExamineAll(rules, ordered, lock, squashes, receipts) == Ok(held)
    ensures forall b :: b in held ==> Bound(rules, ordered, b) && b.receipt in receipts
    ensures DistinctBaselines(held)
  {
    if receipts != [] {
      var n := |receipts| - 1;
      var before := ExamineAll(rules, ordered, lock, squashes, receipts[..n]).value;
      AllExaminedAreBound(rules, ordered, lock, squashes, receipts[..n], before);
      ExaminedIsBound(rules, ordered, lock, squashes, before, receipts[n]);
      var b := Examine(rules, ordered, lock, squashes, before, receipts[n]).value;
      assert held == before + [b];
      AddDistinct(before, b);
    }
  }

  lemma CheckedIsCoherent(
      rules: Rules, files: seq<File>, lock: Lock, snapshot: Option<string>, squashes: seq<File>, src: Sources)
    requires CheckedSources(rules, files, lock, snapshot, squashes) == Ok(src)
    ensures Coherent(rules, src)
    ensures forall b :: b in src.baselines ==> b.receipt in lock.squashes
  {
    AllExaminedAreBound(rules, src.ordered, lock, squashes, lock.squashes, src.baselines);
  }

  // ---- the planner ----

  method OrderFiles(rules: Rules, files: seq<File>) returns (r: Result<seq<File>, Refusal>)
    ensures r == OrderedFiles(rules, files)
  {
    var ordered := Sorted(files, FileKey);
    for i := 0 to |ordered|
      invariant forall k :: 0 <= k < i ==> InPlace(rules, ordered, k)
    {
      if !FileChecks(rules, ordered[i]) || FileKey(ordered[i]) != i + 1 {
        assert !InPlace(rules, ordered, i);
        return Err(Invalid);
      }
    }
    return Ok(ordered);
  }

  method CheckLock(rules: Rules, ordered: seq<File>, lock: Lock) returns (holds: bool)
    ensures holds == LockHolds(rules, ordered, lock)
  {
    for i := 0 to |ordered|
      invariant forall j :: 0 <= j < i ==>
        ordered[j].name in lock.files && lock.files[ordered[j].name] == Checksum(rules, ordered[j])
    {
      if ordered[i].name !in lock.files || lock.files[ordered[i].name] != Checksum(rules, ordered[i]) {
        return false;
      }
    }
    var names := lock.files.Keys;
    while names != {}
      invariant names <= lock.files.Keys
      invariant forall name :: name in lock.files && name !in names ==> Find(ordered, name).Some?
      decreases |names|
    {
      var name :| name in names;
      if Find(ordered, name).None? {
        return false;
      }
      names := names - {name};
    }
    return true;
  }

  method CheckNames(squashes: seq<File>) returns (distinct: bool)
    ensures distinct == DistinctNames(squashes)
  {
    for i := 0 to |squashes|
      invariant DistinctNames(squashes[..i])
    {
      var taken := Find(squashes[..i], squashes[i].name);
      if taken.Some? {
        assert !DistinctNames(squashes) by {
          var j :| 0 <= j < i && squashes[..i][j] == taken.value;
          assert squashes[j].name == squashes[i].name;
        }
        return false;
      }
      assert squashes[..i + 1] == squashes[..i] + [squashes[i]];
    }
    assert squashes[..|squashes|] == squashes;
    return true;
  }

  method ExamineReceipts(rules: Rules, ordered: seq<File>, lock: Lock, squashes: seq<File>)
      returns (r: Result<seq<Baseline>, Refusal>)
    ensures r == ExamineAll(rules, ordered, lock, squashes, lock.squashes)
  {
    var receipts := lock.squashes;
    var baselines: seq<Baseline> := [];
    for i := 0 to |receipts|
      invariant ExamineAll(rules, ordered, lock, squashes, receipts[..i]) == Ok(baselines)
    {
      ExamineOneMore(rules, ordered, lock, squashes, receipts, i, baselines);
      var bound := Examine(rules, ordered, lock, squashes, baselines, receipts[i]);
      if bound.Err? {
        RefusedStaysRefused(rules, ordered, lock, squashes, receipts, i + 1);
        return Err(bound.error);
      }
      baselines := baselines + [bound.value];
    }
    assert receipts[..|receipts|] == receipts;
    return Ok(baselines);
  }

  method CheckBound(squashes: seq<File>, baselines: seq<Baseline>) returns (bound: bool)
    ensures bound == AllBound(squashes, baselines)
  {
    for i := 0 to |squashes|
      invariant AllBound(squashes[..i], baselines)
    {
      if FindBaseline(baselines, squashes[i].name).None? {
        return false;
      }
      assert squashes[..i + 1] == squashes[..i] + [squashes[i]];
    }
    assert squashes[..|squashes|] == squashes;
    return true;
  }

  lemma ExamineOneMore(
      rules: Rules, ordered: seq<File>, lock: Lock, squashes: seq<File>, receipts: seq<Receipt>, i: nat,
      held: seq<Baseline>)
    requires i < |receipts| && ExamineAll(rules, ordered, lock, squashes, receipts[..i]) == Ok(held)
    ensures var bound := Examine(rules, ordered, lock, squashes, held, receipts[i]);
      ExamineAll(rules, ordered, lock, squashes, receipts[..i + 1])
        == if bound.Err? then Err(bound.error) else Ok(held + [bound.value])
  {
    assert receipts[..i + 1][..i] == receipts[..i];
  }

  lemma {:induction false} RefusedStaysRefused(
      rules: Rules, ordered: seq<File>, lock: Lock, squashes: seq<File>, receipts: seq<Receipt>, i: nat)
    requires i <= |receipts| && ExamineAll(rules, ordered, lock, squashes, receipts[..i]).Err?
    ensures ExamineAll(rules, ordered, lock, squashes, receipts)
        == ExamineAll(rules, ordered, lock, squashes, receipts[..i])
  {
    if i == |receipts| {
      assert receipts[..i] == receipts;
    } else {
      var n := |receipts| - 1;
      assert receipts[..n][..i] == receipts[..i];
      RefusedStaysRefused(rules, ordered, lock, squashes, receipts[..n], i);
    }
  }

  method CheckRecognised(rules: Rules, src: Sources, history: seq<Applied>) returns (recognised: bool)
    ensures recognised == AllRecognised(rules, src, history)
  {
    for i := 0 to |history|
      invariant AllRecognised(rules, src, history[..i])
    {
      if !Recognised(rules, src, history[i]) {
        return false;
      }
      assert history[..i + 1] == history[..i] + [history[i]];
    }
    assert history[..|history|] == history;
    return true;
  }

  method CheckFollows(ordered: seq<File>, cutoff: nat, originals: seq<Applied>) returns (follows: bool)
    requires cutoff <= |ordered|
    ensures follows == Follows(ordered, cutoff, originals)
  {
    for i := 0 to |originals|
      invariant cutoff + i <= |ordered|
      invariant forall j :: 0 <= j < i ==> ordered[cutoff + j].name == originals[j].name
    {
      if cutoff + i >= |ordered| || ordered[cutoff + i].name != originals[i].name {
        return false;
      }
    }
    return true;
  }

  method JudgeLedger(rules: Rules, src: Sources, applied: seq<Applied>) returns (r: Result<Plan, Refusal>)
    requires Coherent(rules, src)
    ensures r == Judge(rules, src, applied)
  {
    var history := Sorted(applied, EntryKey);
    var used := Used(src.baselines, history);
    if |used| > 1 {
      return Err(Invalid);
    }
    var base := BaseOf(src, history);
    var originals := NotUsed(src.baselines, history);
    var recognised := CheckRecognised(rules, src, history);
    if !recognised {
      return Err(Changed);
    }
    assert base.Some? ==> Bound(rules, src.ordered, base.value);
    var follows := CheckFollows(src.ordered, Cutoff(base), originals);
    if !follows {
      return Err(Invalid);
    }
    return Ok(PlanAt(rules, src, base, Cutoff(base) + |originals|, history == []));
  }

  method MigrationHistory(
      rules: Rules, files: seq<File>, lock: Lock, applied: seq<Applied>, snapshot: Option<string>, squashes: seq<File>)
      returns (r: Result<Plan, Refusal>)
    ensures r == History(rules, files, lock, applied, snapshot, squashes)
  {
    var ordered := OrderFiles(rules, files);
    if ordered.Err? {
      return Err(ordered.error);
    }
    if snapshot.Some? && rules.digest(snapshot.value) != lock.snapshot {
      return Err(Changed);
    }
    var locked := CheckLock(rules, ordered.value, lock);
    if !locked {
      return Err(Changed);
    }
    var distinct := CheckNames(squashes);
    if !distinct {
      return Err(Invalid);
    }
    var baselines := ExamineReceipts(rules, ordered.value, lock, squashes);
    if baselines.Err? {
      return Err(baselines.error);
    }
    var bound := CheckBound(squashes, baselines.value);
    if !bound {
      return Err(Changed);
    }
    var src := Sources(ordered.value, baselines.value);
    CheckedIsCoherent(rules, files, lock, snapshot, squashes, src);
    r := JudgeLedger(rules, src, applied);
  }
}
