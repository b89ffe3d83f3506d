/**
 Pay and billing cycles. Each rule divides the calendar: every day is in exactly one
 cycle, and the cycles that share a day with a period are listed in order, without gaps.
 */
module Cycles {
  import opened Wrappers
  import opened Arithmetic
  import opened Dates

  /** A rule; an opening day left out takes the rule's default. */
  datatype Rule =
    | Month(opensOn: Option<int>)
    | SemiMonth(secondOpensOn: Option<int>)
    | Week(first: Weekday)
    | Every(n: int, anchor: Date)

  datatype Cycle = Cycle(from: Date, to: Date)

  /** A period; no end is open. */
  datatype Period = Period(from: Date, to: Option<Date>)

  datatype Problem = OpensOnIsADay | SecondOpensOnIsADay | WholeDays | OpenPeriod

  function Or(o: Option<int>, otherwise: int): int {
    if o.Some? then o.value else otherwise
  }

  predicate Accepted(rule: Rule) {
    match rule
    case Month(o) => 1 <= Or(o, 1) <= 28
    case SemiMonth(o) => 2 <= Or(o, 16) <= 28
    case Week(_) => true
    case Every(n, _) => n >= 1
  }

  function Refusal(rule: Rule): Problem {
    match rule
    case Month(_) => OpensOnIsADay
    case SemiMonth(_) => SecondOpensOnIsADay
    case Week(_) => WholeDays
    case Every(_, _) => WholeDays
  }

  function MonthCycle(opens: int, d: Date): Cycle
    requires 1 <= opens <= 28
  {
    var here: Date := Day(d.year, d.month, opens);
    var from := if UpTo(here, d) then here else AddMonths(here, -1);
    Cycle(from, AddDays(AddMonths(from, 1), -1))
  }

  function SemiMonthCycle(second: int, d: Date): Cycle
    requires 2 <= second <= 28
  {
    var mid: Date := Day(d.year, d.month, second);
    var first: Date := Day(d.year, d.month, 1);
    if Before(d, mid) then Cycle(first, AddDays(mid, -1)) else Cycle(mid, AddDays(AddMonths(first, 1), -1))
  }

  /** The `n` days from a day on. */
  function Span(from: Date, n: int): (r: Cycle)
    ensures r.from == from && Number(r.to) == Number(from) + n - 1
  {
    Cycle(from, AddDays(from, n - 1))
  }

  function DaysBack(opens: Weekday, weekday: Weekday): int {
    (weekday - opens + 7) % 7
  }

  function WeekCycle(opens: Weekday, d: Date): Cycle {
    Span(AddDays(d, -DaysBack(opens, WeekdayOf(d))), 7)
  }

  function EveryCycle(n: int, anchor: Date, d: Date): Cycle
    requires n >= 1
  {
    var from := AddDays(anchor, ((Number(d) - Number(anchor)) / n) * n);
    Span(from, n)
  }

  /** The cycle that holds `d`. */
  function CycleOf(rule: Rule, d: Date): Result<Cycle, Problem> {
    if !Accepted(rule) then Err(Refusal(rule))
    else match rule
      case Month(o) => Ok(MonthCycle(Or(o, 1), d))
      case SemiMonth(o) => Ok(SemiMonthCycle(Or(o, 16), d))
      case Week(first) => Ok(WeekCycle(first, d))
      case Every(n, anchor) => Ok(EveryCycle(n, anchor, d))
  }

  // ---- a cycle by its day numbers ----

  predicate Holds(c: Cycle, d: Date) {
    UpTo(c.from, d) && UpTo(d, c.to)
  }

  lemma HoldsByNumber(c: Cycle, d: Date)
    ensures Holds(c, d) <==> Number(c.from) <= Number(d) <= Number(c.to)
  {
    NumberIsOrder(c.from, d);
    NumberIsOrder(d, c.to);
  }

  lemma SameByNumber(a: Cycle, b: Cycle)
    requires Number(a.from) == Number(b.from) && Number(a.to) == Number(b.to)
    ensures a == b
  {
    NumberIsOrder(a.from, b.from);
    NumberIsOrder(a.to, b.to);
  }

  /** A cycle whose end is the day before `opening` holds the days from its start that come before it. */
  lemma HoldsUpTo(from: Date, opening: Date, d: Date)
    ensures Holds(Cycle(from, AddDays(opening, -1)), d) <==> UpTo(from, d) && Before(d, opening)
  {
    HoldsByNumber(Cycle(from, AddDays(opening, -1)), d);
    NumberIsOrder(from, d);
    NumberIsOrder(d, opening);
  }

  // ---- one cycle each ----

  function MonthIndex(d: Date): int {
    d.year * 12 + d.month - 1
  }

  lemma AddMonthsIndex(d: Date, n: int)
    requires d.day <= 28
    ensures AddMonths(d, n).day == d.day && MonthIndex(AddMonths(d, n)) == MonthIndex(d) + n
  {
  }

  lemma SameMonth(a: Date, b: Date)
    ensures MonthIndex(a) == MonthIndex(b) <==> a.year == b.year && a.month == b.month
    ensures Before(a, b) <==> MonthIndex(a) < MonthIndex(b) || (MonthIndex(a) == MonthIndex(b) && a.day < b.day)
  {
  }

  /** The opening of a day's monthly cycle: the last `opens` of a month that is not after it. */
  lemma MonthCycleIs(opens: int, d: Date, c: Cycle)
    requires 1 <= opens <= 28 && c == MonthCycle(opens, d)
    ensures c.from.day == opens
    ensures MonthIndex(c.from) == if d.day >= opens then MonthIndex(d) else MonthIndex(d) - 1
    ensures c.to == AddDays(AddMonths(c.from, 1), -1)
  {
    AddMonthsIndex(Day(d.year, d.month, opens), -1);
  }

  lemma MonthsDivide(opens: int, d: Date, e: Date)
    requires 1 <= opens <= 28
    ensures Holds(MonthCycle(opens, d), e) <==> MonthCycle(opens, e) == MonthCycle(opens, d)
  {
    var (c, f) := (MonthCycle(opens, d), MonthCycle(opens, e));
    MonthCycleIs(opens, d, c);
    MonthCycleIs(opens, e, f);
    var opening := AddMonths(c.from, 1);
    AddMonthsIndex(c.from, 1);
    HoldsUpTo(c.from, opening, e);
    SameMonth(c.from, e);
    SameMonth(e, opening);
    SameMonth(c.from, f.from);
  }

  lemma SemiMonthsDivide(second: int, d: Date, e: Date)
    requires 2 <= second <= 28
    ensures Holds(SemiMonthCycle(second, d), e) <==> SemiMonthCycle(second, e) == SemiMonthCycle(second, d)
  {
    var mid: Date := Day(d.year, d.month, second);
    var first: Date := Day(d.year, d.month, 1);
    var opening := AddMonths(first, 1);
    AddMonthsIndex(first, 1);
    SameMonth(first, e);
    SameMonth(e, mid);
    SameMonth(e, opening);
    SameMonth(d, mid);
    HoldsUpTo(first, mid, e);
    HoldsUpTo(mid, opening, e);
  }

  /** Cycles of one length divide the calendar when their first days' numbers do. */
  lemma NumbersDivide(c: Cycle, f: Cycle, e: Date, start: int, other: int, length: int)
    requires Number(c.from) == start && Number(c.to) == start + length
    requires Number(f.from) == other && Number(f.to) == other + length
    requires start <= Number(e) <= start + length <==> other == start
    ensures Holds(c, e) <==> f == c
  {
    HoldsByNumber(c, e);
    if other == start {
      SameByNumber(c, f);
    }
  }

  function WeekStart(opens: Weekday, n: int): int {
    n - DaysBack(opens, WeekdayOfNumber(n))
  }

  /** The first day of the week that holds day `n`, as a multiple of seven off the first opening. */
  lemma WeekStartIs(opens: Weekday, n: int) returns (k: int)
    ensures WeekStart(opens, n) == 7 * k - 13 + opens && WeekStart(opens, n) <= n <= WeekStart(opens, n) + 6
  {
    k := (n + 13 - opens) / 7;
    var (q, r) := ((n + 5) / 7, (n + 5) % 7);
    assert n + 5 == 7 * q + r;
    assert (WeekdayOfNumber(n) - opens + 7) % 7 == (r + 8 - opens) % 7 == (n + 13 - opens) % 7;
  }

  /** Weeks that many sevens from one opening are one when a day of the one is in the other. */
  lemma SevenApart(k: int, j: int, c: int, m: int)
    requires 7 * j + c <= m <= 7 * j + c + 6
    ensures 7 * k + c <= m <= 7 * k + c + 6 <==> 7 * k + c == 7 * j + c
  {
  }

  lemma WeekCycleIs(opens: Weekday, d: Date, n: int) returns (k: int)
    requires n == Number(d)
    ensures Number(WeekCycle(opens, d).from) == 7 * k - 13 + opens <= n
    ensures Number(WeekCycle(opens, d).to) == 7 * k - 13 + opens + 6 >= n
  {
    assert WeekdayOf(d) == WeekdayOfNumber(n);
    k := WeekStartIs(opens, n);
  }

  lemma WeeksDivide(opens: Weekday, d: Date, e: Date)
    ensures Holds(WeekCycle(opens, d), e) <==> WeekCycle(opens, e) == WeekCycle(opens, d)
  {
    var k := WeekCycleIs(opens, d, Number(d));
    var j := WeekCycleIs(opens, e, Number(e));
    SevenApart(k, j, opens - 13, Number(e));
    NumbersDivide(WeekCycle(opens, d), WeekCycle(opens, e), e, 7 * k - 13 + opens, 7 * j - 13 + opens, 6);
  }

  lemma Between(x: int, q: int, n: int)
    requires n >= 1
    ensures q * n <= x < q * n + n <==> x / n == q
  {
    assert x == (x / n) * n + x % n;
    if q * n <= x < q * n + n {
      OneQuotient(x / n, x % n, q, x - q * n, n);
    }
  }

  lemma EveryStart(n: int, anchor: Date, d: Date, q: int)
    requires n >= 1 && q == (Number(d) - Number(anchor)) / n
    ensures Number(EveryCycle(n, anchor, d).from) == Number(anchor) + q * n
    ensures Number(EveryCycle(n, anchor, d).to) == Number(anchor) + q * n + (n - 1)
  {
  }

  lemma EveryDivides(n: int, anchor: Date, d: Date, e: Date)
    requires n >= 1
    ensures Holds(EveryCycle(n, anchor, d), e) <==> EveryCycle(n, anchor, e) == EveryCycle(n, anchor, d)
  {
    var a := Number(anchor);
    var (q, p) := ((Number(d) - a) / n, (Number(e) - a) / n);
    EveryStart(n, anchor, d, q);
    EveryStart(n, anchor, e, p);
    Between(Number(e) - a, q, n);
    if p * n == q * n {
      OneQuotient(p, 0, q, 0, n);
    }
    NumbersDivide(EveryCycle(n, anchor, d), EveryCycle(n, anchor, e), e, a + q * n, a + p * n, n - 1);
  }

  /** The cycles of a rule divide the calendar: a day is in a cycle exactly when that is its own cycle. */
  lemma CyclesDivideTheCalendar(rule: Rule, d: Date, e: Date)
    requires Accepted(rule)
    ensures Holds(CycleOf(rule, d).value, e) <==> CycleOf(rule, e) == CycleOf(rule, d)
  {
    match rule {
      case Month(o) => MonthsDivide(Or(o, 1), d, e);
      case SemiMonth(o) => SemiMonthsDivide(Or(o, 16), d, e);
      case Week(first) => WeeksDivide(first, d, e);
      case Every(n, anchor) => EveryDivides(n, anchor, d, e);
    }
  }

  lemma OwnCycle(rule: Rule, d: Date)
    requires Accepted(rule)
    ensures Holds(CycleOf(rule, d).value, d)
  {
    CyclesDivideTheCalendar(rule, d, d);
  }

  // ---- the cycles of a period ----

  predicate Meets(c: Cycle, within: Cycle) {
    UpTo(c.from, within.to) && UpTo(within.from, c.to)
  }

  predicate Consecutive(cycles: seq<Cycle>) {
    forall i :: 0 < i < |cycles| ==> cycles[i].from == AddDays(cycles[i - 1].to, 1)
  }

  ghost predicate IsCycle(rule: Rule, c: Cycle) {
    exists d: Date :: CycleOf(rule, d) == Ok(c)
  }

  /** A period that does not end before it starts meets the cycles it shares a day with. */
  lemma MeetingIsASharedDay(c: Cycle, within: Cycle)
    requires UpTo(c.from, c.to) && UpTo(within.from, within.to)
    ensures Meets(c, within) <==> exists d: Date :: Holds(c, d) && Holds(within, d)
  {
    NumberIsOrder(c.from, within.from);
    NumberIsOrder(c.from, within.to);
    NumberIsOrder(within.from, c.to);
    NumberIsOrder(c.from, c.to);
    NumberIsOrder(within.from, within.to);
    if Meets(c, within) {
      var d := if Before(c.from, within.from) then within.from else c.from;
      HoldsByNumber(c, d);
      HoldsByNumber(within, d);
      assert Holds(c, d) && Holds(within, d);
    } else if d: Date :| Holds(c, d) && Holds(within, d) {
      HoldsByNumber(c, d);
      HoldsByNumber(within, d);
    }
  }

  /** The next cycle opens the day after this one ends. */
  lemma NextCycle(rule: Rule, d: Date, c: Cycle, next: Cycle)
    requires CycleOf(rule, d) == Ok(c) && CycleOf(rule, AddDays(c.to, 1)) == Ok(next)
    ensures next.from == AddDays(c.to, 1)
    ensures Number(next.from) == Number(c.to) + 1 && Number(c.from) <= Number(c.to)
  {
    var after := AddDays(c.to, 1);
    OwnCycle(rule, d);
    OwnCycle(rule, after);
    HoldsByNumber(c, d);
    HoldsByNumber(next, after);
    if Number(next.from) <= Number(c.to) {
      HoldsByNumber(next, c.to);
      CyclesDivideTheCalendar(rule, after, c.to);
      HoldsByNumber(c, c.to);
      CyclesDivideTheCalendar(rule, d, c.to);
      HoldsByNumber(c, after);
      assert false;
    }
    NumberIsOrder(next.from, after);
  }

  ghost predicate AllMeet(rule: Rule, within: Cycle, cycles: seq<Cycle>) {
    forall c :: c in cycles ==> IsCycle(rule, c) && Meets(c, within)
  }

  /** What the loop has listed, from the cycle `first`, once it stands at the cycle `c`. */
  ghost predicate Listed(rule: Rule, within: Cycle, first: Cycle, cycles: seq<Cycle>, c: Cycle) {
    && Consecutive(cycles)
    && AllMeet(rule, within, cycles)
    && (cycles != [] ==> cycles[0] == first && c.from == AddDays(cycles[|cycles| - 1].to, 1))
    && (cycles == [] ==> c == first)
  }

  lemma ConsecutiveMore(cycles: seq<Cycle>, c: Cycle)
    requires Consecutive(cycles)
    requires cycles != [] ==> c.from == AddDays(cycles[|cycles| - 1].to, 1)
    ensures Consecutive(cycles + [c])
  {
  }

  lemma ListOneMore(rule: Rule, within: Cycle, first: Cycle, cycles: seq<Cycle>, c: Cycle, next: Cycle)
    requires Listed(rule, within, first, cycles, c) && IsCycle(rule, c)
    requires Meets(c, within) && next.from == AddDays(c.to, 1)
    ensures Listed(rule, within, first, cycles + [c], next)
  {
    ConsecutiveMore(cycles, c);
    assert AllMeet(rule, within, cycles + [c]);
  }

  lemma LaterNext(rule: Rule, d: Date, c: Cycle, next: Cycle, start: Date)
    requires Accepted(rule) && CycleOf(rule, d) == Ok(c) && CycleOf(rule, AddDays(c.to, 1)) == Ok(next)
    requires UpTo(start, c.to)
    ensures next.from == AddDays(c.to, 1) && Number(next.from) > Number(c.from) && UpTo(start, next.to)
  {
    NextCycle(rule, d, c, next);
    OwnCycle(rule, AddDays(c.to, 1));
    HoldsByNumber(next, AddDays(c.to, 1));
    NumberIsOrder(start, c.to);
    NumberIsOrder(start, next.to);
  }

  /** The days a run of consecutive cycles covers are the days from its start to its end. */
  lemma {:induction false} RunCovers(cycles: seq<Cycle>, d: Date)
    requires cycles != [] && Consecutive(cycles)
    requires Number(cycles[0].from) <= Number(d) <= Number(cycles[|cycles| - 1].to)
    ensures exists i :: 0 <= i < |cycles| && Holds(cycles[i], d)
  {
    var n := |cycles| - 1;
    HoldsByNumber(cycles[n], d);
    if Number(d) < Number(cycles[n].from) {
      RunCovers(cycles[..n], d);
      var i :| 0 <= i < n && Holds(cycles[..n][i], d);
      assert Holds(cycles[i], d);
    }
  }

  lemma SameCycle(rule: Rule, d: Date, c: Cycle, day: Date)
    requires CycleOf(rule, d) == Ok(c) && Holds(c, day)
    ensures CycleOf(rule, day) == Ok(c)
  {
    CyclesDivideTheCalendar(rule, d, day);
  }

  /** Two cycles that hold one day are one. */
  lemma SharedDay(rule: Rule, a: Cycle, b: Cycle, day: Date)
    requires IsCycle(rule, a) && IsCycle(rule, b) && Holds(a, day) && Holds(b, day)
    ensures a == b
  {
    var d: Date :| CycleOf(rule, d) == Ok(a);
    var e: Date :| CycleOf(rule, e) == Ok(b);
    SameCycle(rule, d, a, day);
    SameCycle(rule, e, b, day);
  }

  /** The first day of a cycle that meets the period, or the period's first day when that is later. */
  lemma MeetingDay(rule: Rule, within: Cycle, first: Cycle, end: Cycle, c: Cycle) returns (day: Date)
    requires Meets(c, within) && Number(c.from) <= Number(c.to)
    requires Holds(first, within.from) && !UpTo(end.from, within.to)
    ensures Holds(c, day) && Number(first.from) <= Number(day)
    ensures day == within.from || Number(day) < Number(end.from)
  {
    NumberIsOrder(c.from, within.to);
    NumberIsOrder(end.from, within.to);
    NumberIsOrder(within.from, c.to);
    HoldsByNumber(first, within.from);
    day := if Number(c.from) < Number(within.from) then within.from else c.from;
    HoldsByNumber(c, day);
  }

  /** A cycle that meets the period is in the list: none is left out between its ends. */
  lemma NoneLeftOut(rule: Rule, within: Cycle, first: Cycle, cycles: seq<Cycle>, end: Cycle, c: Cycle)
    requires Listed(rule, within, first, cycles, end) && IsCycle(rule, first)
    requires Holds(first, within.from) && !UpTo(end.from, within.to)
    requires IsCycle(rule, c) && Meets(c, within) && Number(c.from) <= Number(c.to)
    ensures c in cycles
  {
    var day := MeetingDay(rule, within, first, end, c);
    if cycles == [] {
      Empty(rule, within, first, c, day);
    } else {
      HoldsByNumber(first, within.from);
      if Number(day) < Number(end.from) {
        RunCovers(cycles, day);
        var i :| 0 <= i < |cycles| && Holds(cycles[i], day);
        SharedDay(rule, cycles[i], c, day);
      } else {
        SharedDay(rule, first, c, day);
      }
    }
  }

  /** With nothing listed, no cycle meets the period. */
  lemma Empty(rule: Rule, within: Cycle, first: Cycle, c: Cycle, day: Date)
    requires IsCycle(rule, first) && IsCycle(rule, c) && Holds(first, within.from) && !UpTo(first.from, within.to)
    requires Holds(c, day) && Number(first.from) <= Number(day)
    requires day == within.from || Number(day) < Number(first.from)
    ensures !Meets(c, within)
  {
    SharedDay(rule, first, c, within.from);
  }

  lemma CycleIsProper(rule: Rule, c: Cycle)
    requires IsCycle(rule, c)
    ensures Number(c.from) <= Number(c.to)
  {
    var d: Date :| CycleOf(rule, d) == Ok(c);
    OwnCycle(rule, d);
    HoldsByNumber(c, d);
  }

  /**
   Every cycle that shares a day with a closed period, in order: consecutive cycles, each
   opening the day after the one before it ends, and exactly those that meet the period.
   */
  method CyclesOf(rule: Rule, within: Period) returns (r: Result<seq<Cycle>, Problem>)
    ensures within.to.None? ==> r == Err(OpenPeriod)
    ensures within.to.Some? && !Accepted(rule) ==> r == Err(Refusal(rule))
    ensures within.to.Some? && Accepted(rule) ==>
      && r.Ok? && Consecutive(r.value)
      && forall c :: c in r.value <==> IsCycle(rule, c) && Meets(c, Cycle(within.from, within.to.value))
  {
    if within.to.None? {
      return Err(OpenPeriod);
    }
    var closed := Cycle(within.from, within.to.value);
    var start := CycleOf(rule, closed.from);
    if start.Err? {
      return Err(start.error);
    }
    var out: seq<Cycle> := [];
    var c := start.value;
    OwnCycle(rule, closed.from);
    ghost var day := closed.from;
    while UpTo(c.from, closed.to)
      invariant CycleOf(rule, day) == Ok(c) && UpTo(closed.from, c.to)
      invariant Listed(rule, closed, start.value, out, c)
      decreases Number(closed.to) - Number(c.from) + 1
    {
      NumberIsOrder(c.from, closed.to);
      var next := CycleOf(rule, AddDays(c.to, 1)).value;
      LaterNext(rule, day, c, next, closed.from);
      ListOneMore(rule, closed, start.value, out, c, next);
      day := AddDays(c.to, 1);
      out := out + [c];
      c := next;
    }
    forall other | IsCycle(rule, other) && Meets(other, closed)
      ensures other in out
    {
      CycleIsProper(rule, other);
      NoneLeftOut(rule, closed, start.value, out, c, other);
    }
    return Ok(out);
  }
}
