/**
 Working time as a count of milliseconds: a clock with one offset, a plan that says the
 hours of each day number, and deadlines. An instant is a number of milliseconds since 1970.
 */
module WorkingTime {
  import opened Wrappers

  const DAY_MS: int := 86_400_000
  const MINUTE_MS: int := 60_000
  const EPOCH: int := 719_528

  /** A working day's hours, in minutes since midnight. */
  datatype RawHours = Hours(start: int, end: int)

  type Hours = h: RawHours | 0 <= h.start < h.end < 1440 witness Hours(0, 1)

  /** The hours of every day, by the day's number; a day off has none. */
  type Plan = int -> Option<Hours>

  // ---- the local clock ----

  /** Milliseconds since the local midnight that begins year 0. */
  function Local(offset: int, t: int): int {
    t + offset + EPOCH * DAY_MS
  }

  /** The instant of a local midnight. */
  function Midnight(offset: int, day: int): int {
    (day - EPOCH) * DAY_MS - offset
  }

  lemma ClockReads(offset: int, day: int, ms: int)
    requires 0 <= ms < DAY_MS
    ensures Local(offset, Midnight(offset, day) + ms) / DAY_MS == day
    ensures Local(offset, Midnight(offset, day) + ms) % DAY_MS == ms
  {
  }

  // ---- counting ----

  /** Where a day's working time begins and ends; a day off has none. */
  function Opens(hours: Option<Hours>): int {
    if hours.Some? then hours.value.start * MINUTE_MS else 0
  }

  function Closes(hours: Option<Hours>): int {
    if hours.Some? then hours.value.end * MINUTE_MS else 0
  }

  predicate Working(plan: Plan, offset: int, t: int) {
    var local := Local(offset, t);
    var hours := plan(local / DAY_MS);
    Opens(hours) <= local % DAY_MS < Closes(hours)
  }

  /** The working milliseconds from `a` up to `b`. */
  function Worked(plan: Plan, offset: int, a: int, b: int): nat
    decreases b - a
  {
    if a >= b then 0 else Worked(plan, offset, a, b - 1) + if Working(plan, offset, b - 1) then 1 else 0
  }

  lemma {:induction false} WorkedAdds(plan: Plan, offset: int, a: int, b: int, c: int)
    requires a <= b <= c
    ensures Worked(plan, offset, a, c) == Worked(plan, offset, a, b) + Worked(plan, offset, b, c)
    decreases c - b
  {
    if b < c {
      WorkedAdds(plan, offset, a, b, c - 1);
    }
  }

  function Max(a: int, b: int): int { if a >= b then a else b }
  function Min(a: int, b: int): int { if a <= b then a else b }

  lemma WorkingAt(plan: Plan, offset: int, day: int, ms: int)
    requires 0 <= ms < DAY_MS
    ensures Working(plan, offset, Midnight(offset, day) + ms) <==> Opens(plan(day)) <= ms < Closes(plan(day))
  {
    ClockReads(offset, day, ms);
  }

  /** Inside a day, the working time of a stretch is its overlap with the day's hours. */
  lemma {:induction false} WorkedInADay(plan: Plan, offset: int, day: int, p: int, q: int)
    requires 0 <= p <= q <= DAY_MS
    ensures Worked(plan, offset, Midnight(offset, day) + p, Midnight(offset, day) + q)
         == Max(0, Min(q, Closes(plan(day))) - Max(p, Opens(plan(day))))
    decreases q - p
  {
    if p < q {
      WorkedInADay(plan, offset, day, p, q - 1);
      WorkingAt(plan, offset, day, q - 1);
    }
  }

  // ---- deadlines ----

  /**
   `t` is due: just the amount of working time lies before it, and it is the first such
   instant; for no time at all it is the first working instant.
   */
  predicate Due(plan: Plan, offset: int, from: int, amount: int, t: int) {
    && from <= t
    && Worked(plan, offset, from, t) == amount
    && (amount > 0 ==> Working(plan, offset, t - 1))
    && (amount == 0 ==> Working(plan, offset, t))
  }

  lemma NoLaterDeadline(plan: Plan, offset: int, from: int, amount: int, s: int, t: int)
    requires Due(plan, offset, from, amount, s) && s < t
    ensures !Due(plan, offset, from, amount, t)
  {
    if amount == 0 {
      WorkedAdds(plan, offset, from, s + 1, t);
    } else {
      WorkedAdds(plan, offset, from, s, t - 1);
    }
  }

  /** There is at most one deadline. */
  lemma OneDeadline(plan: Plan, offset: int, from: int, amount: int, s: int, t: int)
    requires Due(plan, offset, from, amount, s) && Due(plan, offset, from, amount, t)
    ensures s == t
  {
    if s < t {
      NoLaterDeadline(plan, offset, from, amount, s, t);
    } else if t < s {
      NoLaterDeadline(plan, offset, from, amount, t, s);
    }
  }

  /** Working time added in two parts, the second not nothing, is due when the whole is. */
  lemma DeadlinesAdd(plan: Plan, offset: int, from: int, a: int, b: int, mid: int, end: int, whole: int)
    requires b > 0
    requires Due(plan, offset, from, a, mid) && Due(plan, offset, mid, b, end)
    requires Due(plan, offset, from, a + b, whole)
    ensures end == whole
  {
    WorkedAdds(plan, offset, from, mid, end);
    assert a == Worked(plan, offset, from, mid) >= 0;
    OneDeadline(plan, offset, from, a + b, end, whole);
  }

  lemma DueInTime(plan: Plan, offset: int, from: int, amount: int, t: int, end: int)
    requires Due(plan, offset, from, amount, t) && (if amount == 0 then t < end else t <= end)
    ensures Worked(plan, offset, from, end) >= Max(amount, 1)
  {
    if amount == 0 {
      WorkedAdds(plan, offset, from, t + 1, end);
    } else {
      WorkedAdds(plan, offset, from, t, end);
    }
  }

  // ---- the search ----

  /** The search stands at `ms` of a day, with `left` still to place. */
  predicate Placed(plan: Plan, offset: int, from: int, amount: int, day: int, ms: int, left: int) {
    var at := Midnight(offset, day) + ms;
    && 0 <= ms < DAY_MS && from <= at
    && Worked(plan, offset, from, at) == amount - left
    && 0 <= left && (amount > 0 ==> left > 0)
  }

  lemma Start(plan: Plan, offset: int, from: int, amount: int)
    requires amount >= 0
    ensures Placed(plan, offset, from, amount, Local(offset, from) / DAY_MS, Local(offset, from) % DAY_MS, amount)
    ensures Midnight(offset, Local(offset, from) / DAY_MS) + Local(offset, from) % DAY_MS == from
  {
  }

  lemma Found(plan: Plan, offset: int, from: int, amount: int, day: int, ms: int, left: int, start: int)
    requires Placed(plan, offset, from, amount, day, ms, left)
    requires start == Max(Opens(plan(day)), ms) && start < Closes(plan(day)) && left <= Closes(plan(day)) - start
    ensures Due(plan, offset, from, amount, Midnight(offset, day) + (start + left))
  {
    var base := Midnight(offset, day);
    WorkedInADay(plan, offset, day, ms, start + left);
    WorkedAdds(plan, offset, from, base + ms, base + (start + left));
    if left > 0 {
      WorkingAt(plan, offset, day, start + left - 1);
    } else {
      WorkingAt(plan, offset, day, start);
    }
  }

  lemma DayDone(plan: Plan, offset: int, from: int, amount: int, day: int, ms: int, left: int, placed: int)
    requires Placed(plan, offset, from, amount, day, ms, left)
    requires placed == Max(0, Closes(plan(day)) - Max(Opens(plan(day)), ms)) && (placed == 0 || placed < left)
    ensures Placed(plan, offset, from, amount, day + 1, 0, left - placed)
  {
    var base := Midnight(offset, day);
    WorkedInADay(plan, offset, day, ms, DAY_MS);
    WorkedAdds(plan, offset, from, base + ms, base + DAY_MS);
    assert Midnight(offset, day + 1) + 0 == base + DAY_MS;
  }
}
