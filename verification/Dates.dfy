/**
 Calendar days of the Gregorian calendar, run both ways without end, and their day
 numbers. The program reads and writes years as four digits; years here are unbounded.
 */
module Dates {
  import opened Arithmetic

  datatype Day = Day(year: int, month: int, day: int)

  predicate Leap(year: int) {
    year % 4 == 0 && (year % 100 != 0 || year % 400 == 0)
  }

  function DaysInMonth(year: int, month: int): int {
    if month == 2 then if Leap(year) then 29 else 28
    else if month == 4 || month == 6 || month == 9 || month == 11 then 30
    else 31
  }

  predicate IsDate(d: Day) {
    1 <= d.month <= 12 && 1 <= d.day <= DaysInMonth(d.year, d.month)
  }

  type Date = d: Day | IsDate(d) witness Day(0, 1, 1)

  // ---- order ----

  predicate Before(a: Date, b: Date) {
    a.year < b.year
    || (a.year == b.year && (a.month < b.month || (a.month == b.month && a.day < b.day)))
  }

  predicate UpTo(a: Date, b: Date) {
    a == b || Before(a, b)
  }

  // ---- day numbers ----

  /** The days before a year, counted from the start of year 0. */
  function DaysBeforeYear(year: int): int {
    365 * year + (year + 3) / 4 - (year + 99) / 100 + (year + 399) / 400
  }

  function DaysBeforeMonth(year: int, month: int): int
    requires 1 <= month <= 12
    decreases month
  {
    if month == 1 then 0 else DaysBeforeMonth(year, month - 1) + DaysInMonth(year, month - 1)
  }

  function Number(d: Date): int {
    DaysBeforeYear(d.year) + DaysBeforeMonth(d.year, d.month) + d.day - 1
  }

  function YearLength(year: int): int {
    if Leap(year) then 366 else 365
  }

  lemma YearsAdd(year: int)
    ensures DaysBeforeYear(year + 1) == DaysBeforeYear(year) + YearLength(year)
  {
    assert (year + 4) / 4 == (year + 3) / 4 + if year % 4 == 0 then 1 else 0;
    assert (year + 100) / 100 == (year + 99) / 100 + if year % 100 == 0 then 1 else 0;
    assert (year + 400) / 400 == (year + 399) / 400 + if year % 400 == 0 then 1 else 0;
    Centuries(year);
  }

  lemma Centuries(year: int)
    ensures year % 400 == 0 ==> year % 100 == 0
    ensures year % 100 == 0 ==> year % 4 == 0
  {
    if year % 400 == 0 {
      Remainder(year, 4 * (year / 400), 100, 0);
    }
    if year % 100 == 0 {
      Remainder(year, 25 * (year / 100), 4, 0);
    }
  }

  lemma MonthsFillTheYear(year: int)
    ensures DaysBeforeMonth(year, 12) + 31 == YearLength(year)
  {
    assert DaysBeforeMonth(year, 4) == 59 + YearLength(year) - 365 + 31;
    assert DaysBeforeMonth(year, 8) == DaysBeforeMonth(year, 4) + 122;
  }

  function Next(d: Date): Date {
    if d.day < DaysInMonth(d.year, d.month) then Day(d.year, d.month, d.day + 1)
    else if d.month < 12 then Day(d.year, d.month + 1, 1)
    else Day(d.year + 1, 1, 1)
  }

  function Previous(d: Date): Date {
    if d.day > 1 then Day(d.year, d.month, d.day - 1)
    else if d.month > 1 then Day(d.year, d.month - 1, DaysInMonth(d.year, d.month - 1))
    else Day(d.year - 1, 12, 31)
  }

  lemma NextNumber(d: Date)
    ensures Number(Next(d)) == Number(d) + 1
  {
    YearsAdd(d.year);
    MonthsFillTheYear(d.year);
  }

  lemma PreviousUndone(d: Date)
    ensures Next(Previous(d)) == d
    ensures Number(Previous(d)) == Number(d) - 1
  {
    NextNumber(Previous(d));
  }

  /** The day `n` days after `d`, or before it when `n` is negative. */
  function AddDays(d: Date, n: int): (r: Date)
    ensures Number(r) == Number(d) + n
    decreases if n < 0 then -n else n
  {
    if n == 0 then d
    else if n > 0 then NextNumber(d); AddDays(Next(d), n - 1)
    else PreviousUndone(d); AddDays(Previous(d), n + 1)
  }

  lemma {:induction false} MonthsAscend(year: int, a: int, b: int)
    requires 1 <= a < b <= 12
    ensures DaysBeforeMonth(year, a) + DaysInMonth(year, a) <= DaysBeforeMonth(year, b)
    decreases b
  {
    if a < b - 1 {
      MonthsAscend(year, a, b - 1);
    }
  }

  lemma InsideTheYear(d: Date)
    ensures DaysBeforeYear(d.year) <= Number(d) < DaysBeforeYear(d.year + 1)
  {
    YearsAdd(d.year);
    MonthsFillTheYear(d.year);
    if d.month < 12 {
      MonthsAscend(d.year, d.month, 12);
    }
    if d.month > 1 {
      MonthsAscend(d.year, 1, d.month);
    }
  }

  lemma {:induction false} YearsAscend(a: int, b: int)
    requires a <= b
    ensures DaysBeforeYear(a) <= DaysBeforeYear(b)
    decreases b - a
  {
    if a < b {
      YearsAdd(b - 1);
      YearsAscend(a, b - 1);
    }
  }

  /** Dates come in the order of their numbers, so a number is one date's. */
  lemma NumberIsOrder(a: Date, b: Date)
    ensures Before(a, b) <==> Number(a) < Number(b)
    ensures a == b <==> Number(a) == Number(b)
  {
    if Before(a, b) {
      Earlier(a, b);
    } else if Before(b, a) {
      Earlier(b, a);
    }
  }

  lemma Earlier(a: Date, b: Date)
    requires Before(a, b)
    ensures Number(a) < Number(b)
  {
    if a.year < b.year {
      InsideTheYear(a);
      InsideTheYear(b);
      YearsAscend(a.year + 1, b.year);
    } else if a.month < b.month {
      MonthsAscend(a.year, a.month, b.month);
    }
  }

  /** Going `m` days on and then `n` is going `m + n`. */
  lemma AddDaysAdds(d: Date, m: int, n: int)
    ensures AddDays(AddDays(d, m), n) == AddDays(d, m + n)
  {
    NumberIsOrder(AddDays(AddDays(d, m), n), AddDays(d, m + n));
  }

  // ---- weekdays ----

  type Weekday = w: int | 1 <= w <= 7 witness 1

  /** The ISO weekday: Monday is 1, and 1 January 1970 is a Thursday. */
  function WeekdayOf(d: Date): Weekday {
    WeekdayOfNumber(Number(d))
  }

  function WeekdayOfNumber(n: int): Weekday {
    (n + 5) % 7 + 1
  }

  lemma EpochIsThursday()
    ensures Number(Day(1970, 1, 1)) == 719528 && WeekdayOf(Day(1970, 1, 1)) == 4
  {
  }

  // ---- months ----

  function Least(a: int, b: int): int {
    if a <= b then a else b
  }

  /** The same day `n` months on, or the last day of that month when it has none. */
  function AddMonths(d: Date, n: int): Date {
    var index := d.year * 12 + (d.month - 1 + n);
    var year, month := index / 12, index % 12 + 1;
    Day(year, month, Least(d.day, DaysInMonth(year, month)))
  }
}
