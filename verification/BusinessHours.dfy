/**
 Business-hour deadlines over a work week and holidays, in a zone whose clock keeps one
 offset: the search walks at most ten years of days.
 */
module BusinessHours {
  import opened Wrappers
  import opened Dates
  import opened WorkingTime

  const HORIZON: int := 3_660

  datatype RawCalendar = RawCalendar(offset: int, week: seq<Option<Hours>>, holidays: set<Date>)

  type WorkCalendar = c: RawCalendar | |c.week| == 7 witness RawCalendar(0, seq(7, _ => None), {})

  datatype Problem = NegativeHours | NoHoursWithinTenYears

  lemma EveryNumberIsADate(some: Date, n: int)
    ensures exists d: Date :: Number(d) == n
  {
    var d := AddDays(some, n - Number(some));
    assert Number(d) == n;
  }

  /** The date with a number. */
  ghost function DateOf(n: int): Date {
    var some: Date :| true;
    EveryNumberIsADate(some, n);
    var d: Date :| Number(d) == n;
    d
  }

  lemma DateOfNumber(d: Date)
    ensures DateOf(Number(d)) == d
  {
    NumberIsOrder(DateOf(Number(d)), d);
  }

  function HoursOn(cal: WorkCalendar, d: Date): Option<Hours> {
    if d in cal.holidays then None else cal.week[WeekdayOf(d) - 1]
  }

  /** The calendar's hours, by day number. */
  ghost function PlanOf(cal: WorkCalendar): Plan {
    n => HoursOn(cal, DateOf(n))
  }

  /** The end of the days the search looks at. */
  function Horizon(cal: WorkCalendar, from: int): int {
    Midnight(cal.offset, Local(cal.offset, from) / DAY_MS + HORIZON)
  }

  function Today(cal: WorkCalendar, from: int): (d: Date)
    ensures Number(d) == Local(cal.offset, from) / DAY_MS
  {
    EpochIsThursday();
    AddDays(Day(1970, 1, 1), Local(cal.offset, from) / DAY_MS - EPOCH)
  }

  /** One day of the search: the deadline when it falls in this day's hours, else what is left after them. */
  method SearchDay(cal: WorkCalendar, date: Date, msOfDay: int, left: int, ghost from: int, ghost amount: int)
      returns (due: Option<int>, rest: int)
    requires Placed(PlanOf(cal), cal.offset, from, amount, Number(date), msOfDay, left)
    ensures due.Some? ==>
      && Due(PlanOf(cal), cal.offset, from, amount, due.value)
      && due.value < Midnight(cal.offset, Number(date) + 1)
    ensures due.None? ==> Placed(PlanOf(cal), cal.offset, from, amount, Number(date) + 1, 0, rest)
  {
    ghost var plan, day := PlanOf(cal), Number(date);
    DateOfNumber(date);
    rest := left;
    var hours := HoursOn(cal, date);
    assert plan(day) == hours;
    if hours.None? {
      DayDone(plan, cal.offset, from, amount, day, msOfDay, left, 0);
      return None, rest;
    }
    var start, end := Max(hours.value.start * MINUTE_MS, msOfDay), hours.value.end * MINUTE_MS;
    if start >= end {
      DayDone(plan, cal.offset, from, amount, day, msOfDay, left, 0);
      return None, rest;
    }
    if left <= end - start {
      Found(plan, cal.offset, from, amount, day, msOfDay, left, start);
      return Some(Midnight(cal.offset, Number(date)) + (start + left)), rest;
    }
    DayDone(plan, cal.offset, from, amount, day, msOfDay, left, end - start);
    return None, left - (end - start);
  }

  lemma DueBefore(cal: WorkCalendar, from: int, amount: int, t: int, day: int)
    requires Due(PlanOf(cal), cal.offset, from, amount, t) && t < Midnight(cal.offset, day)
    requires day <= Local(cal.offset, from) / DAY_MS + HORIZON
    ensures Worked(PlanOf(cal), cal.offset, from, Horizon(cal, from)) >= Max(amount, 1)
  {
    DueInTime(PlanOf(cal), cal.offset, from, amount, t, Horizon(cal, from));
  }

  lemma NotDue(cal: WorkCalendar, from: int, amount: int, left: int)
    requires Placed(PlanOf(cal), cal.offset, from, amount, Local(cal.offset, from) / DAY_MS + HORIZON, 0, left)
    ensures Worked(PlanOf(cal), cal.offset, from, Horizon(cal, from)) < Max(amount, 1)
  {
  }

  /** One turn of the search over the days. */
  method SearchOn(cal: WorkCalendar, date: Date, msOfDay: int, left: int, ghost from: int, ghost amount: int)
      returns (due: Option<int>, tomorrow: Date, rest: int)
    requires Placed(PlanOf(cal), cal.offset, from, amount, Number(date), msOfDay, left)
    requires Number(date) < Local(cal.offset, from) / DAY_MS + HORIZON
    ensures due.Some? ==> Reached(cal, from, amount, due.value)
    ensures due.None? ==> Number(tomorrow) == Number(date) + 1
    ensures due.None? ==> Placed(PlanOf(cal), cal.offset, from, amount, Number(tomorrow), 0, rest)
  {
    due, rest := SearchDay(cal, date, msOfDay, left, from, amount);
    tomorrow := AddDays(date, 1);
    if due.Some? {
      DueBefore(cal, from, amount, due.value, Number(date) + 1);
    }
  }

  ghost predicate Reached(cal: WorkCalendar, from: int, amount: int, t: int) {
    && Due(PlanOf(cal), cal.offset, from, amount, t)
    && Worked(PlanOf(cal), cal.offset, from, Horizon(cal, from)) >= Max(amount, 1)
  }

  ghost predicate OutOfReach(cal: WorkCalendar, from: int, amount: int) {
    Worked(PlanOf(cal), cal.offset, from, Horizon(cal, from)) < Max(amount, 1)
  }

  method Search(cal: WorkCalendar, today: Date, ms: int, ghost from: int, amount: int) returns (due: Option<int>)
    requires Number(today) == Local(cal.offset, from) / DAY_MS
    requires Placed(PlanOf(cal), cal.offset, from, amount, Number(today), ms, amount)
    ensures due.Some? ==> Reached(cal, from, amount, due.value)
    ensures due.None? ==> OutOfReach(cal, from, amount)
  {
    var date, msOfDay, left := today, ms, amount;
    for i := 0 to HORIZON
      invariant Number(date) == Number(today) + i
      invariant i > 0 ==> msOfDay == 0
      invariant Placed(PlanOf(cal), cal.offset, from, amount, Number(date), msOfDay, left)
    {
      due, date, left := SearchOn(cal, date, msOfDay, left, from, amount);
      if due.Some? {
        return;
      }
      msOfDay := 0;
    }
    NotDue(cal, from, amount, left);
    return None;
  }

  /**
   The instant the amount of working time after `from`, found exactly when the days
   searched hold that much, or for no time at all hold any.
   */
  method AddBusinessHours(from: int, amount: int, cal: WorkCalendar) returns (r: Result<int, Problem>)
    ensures amount < 0 ==> r == Err(NegativeHours)
    ensures r.Ok? ==> Due(PlanOf(cal), cal.offset, from, amount, r.value)
    ensures r.Ok? <==> amount >= 0 && Worked(PlanOf(cal), cal.offset, from, Horizon(cal, from)) >= Max(amount, 1)
  {
    if amount < 0 {
      return Err(NegativeHours);
    }
    Start(PlanOf(cal), cal.offset, from, amount);
    var due := Search(cal, Today(cal, from), Local(cal.offset, from) % DAY_MS, from, amount);
    r := if due.Some? then Ok(due.value) else Err(NoHoursWithinTenYears);
  }
}
