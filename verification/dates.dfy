/** Proleptic Gregorian calendar arithmetic on whole days: the date
    primitives the liturgical generators take from date-fns, without time of
    day or time zones. A day is an integer day number (Rata Die): 1 January
    of year 1 is day 1, a Monday, so `n % 7` is the JavaScript `getDay()`
    numbering (0 = Sunday .. 6 = Saturday). */
module Dates {

  datatype Date = Date(year: int, month: int, day: int)

  predicate IsLeapYear(y: int) {
    (y % 4 == 0 && y % 100 != 0) || y % 400 == 0
  }

  function YearLength(y: int): int {
    if IsLeapYear(y) then 366 else 365
  }

  function DaysInMonth(y: int, m: int): int
    requires 1 <= m <= 12
  {
    if m == 2 then (if IsLeapYear(y) then 29 else 28)
    else if m == 4 || m == 6 || m == 9 || m == 11 then 30
    else 31
  }

  /** A real calendar date: month 1..12 and a day that exists in that month. */
  predicate ValidDate(dt: Date) {
    1 <= dt.month <= 12 && 1 <= dt.day <= DaysInMonth(dt.year, dt.month)
  }

  /** Days of year `y` before the first of month `m`; `m == 13` gives the whole year. */
  function DaysBeforeMonth(y: int, m: int): int
    requires 1 <= m <= 13
  {
    (if m > 2 && IsLeapYear(y) then 1 else 0) +
    (if m == 1 then 0 else if m == 2 then 31 else if m == 3 then 59
     else if m == 4 then 90 else if m == 5 then 120 else if m == 6 then 151
     else if m == 7 then 181 else if m == 8 then 212 else if m == 9 then 243
     else if m == 10 then 273 else if m == 11 then 304 else if m == 12 then 334
     else 365)
  }

  lemma DaysBeforeMonthStep(y: int, m: int)
    requires 1 <= m <= 12
    ensures DaysBeforeMonth(y, m + 1) == DaysBeforeMonth(y, m) + DaysInMonth(y, m)
    ensures DaysBeforeMonth(y, 13) == YearLength(y)
  {
  }

  lemma DaysBeforeMonthMonotone(y: int, m1: int, m2: int)
    requires 1 <= m1 < m2 <= 13
    ensures DaysBeforeMonth(y, m1 + 1) <= DaysBeforeMonth(y, m2)
  {
  }

  /** Days of all years before year `y` (years 1 .. y-1, extended to every integer). */
  function DaysBeforeYear(y: int): int {
    365 * (y - 1) + (y - 1) / 4 - (y - 1) / 100 + (y - 1) / 400
  }

  function DayNumber(dt: Date): int
    requires 1 <= dt.month <= 12
  {
    DaysBeforeYear(dt.year) + DaysBeforeMonth(dt.year, dt.month) + dt.day
  }

  lemma DivisionStep(y: int)
    ensures y / 4 - (y - 1) / 4 == (if y % 4 == 0 then 1 else 0)
    ensures y / 100 - (y - 1) / 100 == (if y % 100 == 0 then 1 else 0)
    ensures y / 400 - (y - 1) / 400 == (if y % 400 == 0 then 1 else 0)
  {
  }

  lemma LeapDivisibility(y: int)
    ensures y % 400 == 0 ==> y % 100 == 0
    ensures y % 100 == 0 ==> y % 4 == 0
  {
  }

  /** The leap years up to and including `y` are those up to `y - 1` plus `y` itself if it is one. */
  lemma LeapCount(y: int)
    ensures (y - 1) / 4 - (y - 1) / 100 + (y - 1) / 400 + (if IsLeapYear(y) then 1 else 0)
            == y / 4 - y / 100 + y / 400
  {
    DivisionStep(y);
    LeapDivisibility(y);
  }

  lemma YearStep(y: int)
    ensures DaysBeforeYear(y + 1) == DaysBeforeYear(y) + YearLength(y)
  {
    LeapCount(y);
  }

  lemma {:induction false} DaysBeforeYearMonotone(a: int, b: int)
    requires a < b
    ensures DaysBeforeYear(a) + 365 <= DaysBeforeYear(a + 1) <= DaysBeforeYear(b)
    decreases b - a
  {
    YearStep(a);
    if a + 1 < b {
      DaysBeforeYearMonotone(a + 1, b);
    }
  }

  /** A valid date's day number lies inside its own year. */
  lemma DayNumberWithinYear(dt: Date)
    requires ValidDate(dt)
    ensures DaysBeforeYear(dt.year) < DayNumber(dt) <= DaysBeforeYear(dt.year + 1)
  {
    DaysBeforeMonthStep(dt.year, dt.month);
    DaysBeforeMonthMonotone(dt.year, dt.month, 13);
    YearStep(dt.year);
  }

  /** The year containing day `n`, searched from the guess `y`. */
  function YearOf(n: int, y: int): (r: int)
    ensures DaysBeforeYear(r) < n <= DaysBeforeYear(r + 1)
    decreases if n <= DaysBeforeYear(y) then DaysBeforeYear(y) - n + 1
              else if n > DaysBeforeYear(y + 1) then n - DaysBeforeYear(y + 1)
              else 0
  {
    if n <= DaysBeforeYear(y) then
      YearStep(y - 1);
      YearOf(n, y - 1)
    else if n > DaysBeforeYear(y + 1) then
      YearStep(y + 1);
      YearOf(n, y + 1)
    else
      y
  }

  /** The month of year `y` containing day `doy` of that year, searched downwards from `m`. */
  function MonthOf(y: int, doy: int, m: int): (r: int)
    requires 1 <= m <= 12
    requires 0 < doy <= DaysBeforeMonth(y, m + 1)
    ensures 1 <= r <= m
    ensures DaysBeforeMonth(y, r) < doy <= DaysBeforeMonth(y, r + 1)
  {
    if DaysBeforeMonth(y, m) < doy then m else MonthOf(y, doy, m - 1)
  }

  /** The calendar date of day number `n` (date-fns builds this from a JavaScript Date). */
  function FromDayNumber(n: int): (dt: Date)
    ensures ValidDate(dt)
    ensures DayNumber(dt) == n
  {
    var y := YearOf(n, n / 366);
    YearStep(y);
    DaysBeforeMonthStep(y, 12);
    var doy := n - DaysBeforeYear(y);
    var m := MonthOf(y, doy, 12);
    DaysBeforeMonthStep(y, m);
    Date(y, m, doy - DaysBeforeMonth(y, m))
  }

  /** Two valid dates with the same day number are the same date. */
  lemma DayNumberInjective(a: Date, b: Date)
    requires ValidDate(a) && ValidDate(b)
    requires DayNumber(a) == DayNumber(b)
    ensures a == b
  {
    DayNumberWithinYear(a);
    DayNumberWithinYear(b);
    if a.year < b.year {
      DaysBeforeYearMonotone(a.year, b.year);
    } else if b.year < a.year {
      DaysBeforeYearMonotone(b.year, a.year);
    } else {
      var y := a.year;
      DaysBeforeMonthStep(y, a.month);
      DaysBeforeMonthStep(y, b.month);
      if a.month < b.month {
        DaysBeforeMonthMonotone(y, a.month, b.month);
      } else if b.month < a.month {
        DaysBeforeMonthMonotone(y, b.month, a.month);
      }
    }
  }

  /** Date -> day number -> date is the identity on valid dates; the other
      direction is `FromDayNumber`'s own postcondition. */
  lemma FromDayNumberRoundTrip(dt: Date)
    requires ValidDate(dt)
    ensures FromDayNumber(DayNumber(dt)) == dt
  {
    DayNumberInjective(FromDayNumber(DayNumber(dt)), dt);
  }

  /** 31 December of one year is followed by 1 January of the next. */
  lemma NewYear(y: int)
    ensures DayNumber(Date(y + 1, 1, 1)) == DayNumber(Date(y, 12, 31)) + 1
  {
    YearStep(y);
  }

  // ----- weekdays -----

  const Sunday := 0
  const Monday := 1
  const Wednesday := 3
  const Thursday := 4
  const Friday := 5
  const Saturday := 6

  /** JavaScript `getDay()` of day `n`: 0 = Sunday .. 6 = Saturday. */
  function Weekday(n: int): (w: int)
    ensures 0 <= w < 7
  {
    n % 7
  }

  predicate IsSunday(n: int) {
    Weekday(n) == Sunday
  }

  /** Day 1 (1 January of year 1, proleptic Gregorian) was a Monday. */
  lemma EpochIsMonday()
    ensures DayNumber(Date(1, 1, 1)) == 1
    ensures Weekday(DayNumber(Date(1, 1, 1))) == Monday
  {
    assert DaysBeforeYear(1) == 365 * 0 + 0 / 4 - 0 / 100 + 0 / 400 == 0;
    assert DaysBeforeMonth(1, 1) == 0;
    assert Weekday(1) == 1 % 7 == 1;
  }

  /** date-fns `nextDay`: the first day strictly after `n` falling on weekday `w`. */
  function NextDay(n: int, w: int): (r: int)
    requires 0 <= w < 7
    ensures n < r <= n + 7
    ensures Weekday(r) == w
    ensures forall k :: n < k < r ==> Weekday(k) != w
  {
    var delta := w - Weekday(n);
    n + (if delta <= 0 then delta + 7 else delta)
  }

  /** date-fns `previousDay`: the last day strictly before `n` falling on weekday `w`. */
  function PreviousDay(n: int, w: int): (r: int)
    requires 0 <= w < 7
    ensures n - 7 <= r < n
    ensures Weekday(r) == w
    ensures forall k :: r < k < n ==> Weekday(k) != w
  {
    var delta := Weekday(n) - w;
    n - (if delta <= 0 then delta + 7 else delta)
  }

  function NextSunday(n: int): int { NextDay(n, Sunday) }
  function NextMonday(n: int): int { NextDay(n, Monday) }
  function NextFriday(n: int): int { NextDay(n, Friday) }
  function NextSaturday(n: int): int { NextDay(n, Saturday) }
  function PreviousSunday(n: int): int { PreviousDay(n, Sunday) }
  function PreviousWednesday(n: int): int { PreviousDay(n, Wednesday) }
  function PreviousThursday(n: int): int { PreviousDay(n, Thursday) }

  /** The weekday `k` days after a Sunday. */
  lemma SundayOffset(n: int, k: int)
    requires IsSunday(n)
    ensures Weekday(n + k) == k % 7
  {
    var q := n / 7;
    assert n == 7 * q;
    assert n + k == 7 * (q + k / 7) + k % 7;
  }

  lemma WeekdayPeriodic(n: int, k: int)
    ensures Weekday(n + 7 * k) == Weekday(n)
  {
    assert n + 7 * k == 7 * (n / 7 + k) + n % 7;
  }

  /** Two days with the same weekday less than a week apart are the same day. */
  lemma SameWeekdayWithinWeek(a: int, b: int)
    requires Weekday(a) == Weekday(b) && a <= b < a + 7
    ensures a == b
  {
    assert a == 7 * (a / 7) + a % 7;
    assert b == 7 * (b / 7) + b % 7;
  }

  /** Distinct Sundays are at least a week apart. */
  lemma SundaysApart(a: int, b: int)
    requires IsSunday(a) && IsSunday(b) && a < b
    ensures a + 7 <= b
  {
    assert a == 7 * (a / 7) && b == 7 * (b / 7);
  }

  /** `isSunday(n - 1) ? n - 1 : previousSunday(n)` is the last Sunday before `n`. */
  lemma LastSundayBefore(n: int)
    ensures var r := if IsSunday(n - 1) then n - 1 else PreviousSunday(n);
      && IsSunday(r) && n - 7 <= r < n
      && forall k :: r < k < n ==> !IsSunday(k)
  {
  }

  /** Next to a Sunday the neighbouring weekdays are fixed offsets. */
  lemma NeighboursOfSunday(n: int)
    requires IsSunday(n)
    ensures NextSunday(n) == n + 7 && PreviousSunday(n) == n - 7
    ensures NextMonday(n) == n + 1 && NextFriday(n) == n + 5 && NextSaturday(n) == n + 6
    ensures PreviousWednesday(n) == n - 4 && PreviousThursday(n) == n - 3
  {
  }

  /** The next Sunday after any day of the week before Sunday `s` is `s`. */
  lemma NextSundayIs(n: int, s: int)
    requires IsSunday(s) && s - 7 <= n < s
    ensures NextSunday(n) == s
  {
    var r := NextSunday(n);
    if r < s {
      SundaysApart(r, s);
    }
  }

  /** The last Sunday before any day of the week after Sunday `s` is `s`. */
  lemma PreviousSundayIs(n: int, s: int)
    requires IsSunday(s) && s < n <= s + 7
    ensures PreviousSunday(n) == s
  {
    var r := PreviousSunday(n);
    if s < r {
      SundaysApart(s, r);
    }
  }

  // ----- intervals -----

  /** date-fns `eachDayOfInterval`: every day from `start` to `end`, both
      included, in increasing order; empty when `start` is after `end`. */
  function EachDay(start: int, end: int): (days: seq<int>)
    ensures |days| == if start <= end then end - start + 1 else 0
    ensures forall i :: 0 <= i < |days| ==> days[i] == start + i
    ensures forall d :: d in days <==> start <= d <= end
  {
    if start <= end then
      var days := seq(end - start + 1, i requires 0 <= i <= end - start => start + i);
      forall d | start <= d <= end
        ensures d in days
      {
        assert days[d - start] == d;
      }
      days
    else
      []
  }

  /** date-fns `startOfWeek` with weeks starting on Sunday. */
  function StartOfWeek(n: int): (s: int)
    ensures IsSunday(s)
    ensures s <= n < s + 7
  {
    n - Weekday(n)
  }

  /** date-fns `eachWeekOfInterval` (weeks starting on Sunday): the Sunday
      starting every week that touches [start, end]. */
  function EachWeekOfInterval(start: int, end: int): (weeks: seq<int>)
    ensures |weeks| == if start <= end then (StartOfWeek(end) - StartOfWeek(start)) / 7 + 1 else 0
    ensures forall s :: s in weeks <==> start <= end && IsSunday(s) && StartOfWeek(start) <= s <= end
  {
    if start <= end then
      var first := StartOfWeek(start);
      var count := (StartOfWeek(end) - first) / 7 + 1;
      var weeks := seq(count, i requires 0 <= i < count => first + 7 * i);
      forall s | IsSunday(s) && first <= s <= end
        ensures s in weeks
      {
        assert weeks[(s - first) / 7] == s;
      }
      weeks
    else
      []
  }
}
