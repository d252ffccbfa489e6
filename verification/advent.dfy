/** Advent of the liturgical year `year`: every day from the First Sunday of
    Advent to Christmas Eve of the civil year `year - 1`. */
module AdventSeason {
  import opened Wrappers
  import opened Dates
  import opened DateFormat
  import opened Schema
  import opened Selection
  import opened Walk
  import opened Anchors

  /** The rows of the days 17 .. 24 December, keyed by day and month. */
  function PreChristmasRule(k: KeySet, day: int): Pred {
    And(Is(WeekOrderTag, k.preChristmas), Is(WeekdayTypeTag, FormatDayOfMonth(day)))
  }

  predicate IsPreChristmas(year: int, day: int) {
    Day(year - 1, 12, 17) <= day <= Day(year - 1, 12, 24)
  }

  /** The rows of one day of Advent in week `order`. */
  function AdventDay(k: KeySet, t: Tables, year: int, day: int, order: int): (r: seq<CalendarEntryData>)
    ensures DatedOn(r, day)
  {
    var cycle := YearCycleOf(year);
    if IsSunday(day) then Pick(t.adventSunday, NumberedSunday(order), cycle, day)
    else if IsPreChristmas(year, day) then Pick(t.adventWeekday, PreChristmasRule(k, day), cycle, day)
    else Pick(t.adventWeekday, NumberedWeekday(order, day), cycle, day)
  }

  function Days(year: int): seq<int> {
    EachDay(Advent1(year - 1), Day(year - 1, 12, 24))
  }

  /** One group per day of `a .. c`, the week counter starting at 0 and going
      up on each Sunday. */
  function Weeks(k: KeySet, t: Tables, year: int, a: int, c: int): (r: seq<seq<CalendarEntryData>>)
    ensures |r| == |EachDay(a, c)|
  {
    var days := EachDay(a, c);
    var orders := WeekOrders(days, 0);
    seq(|days|, i requires 0 <= i < |days| => AdventDay(k, t, year, days[i], orders[i]))
  }

  /** `generateAdvent`: one group per day of Advent. */
  function Generate(k: KeySet, t: Tables, year: int): (r: seq<seq<CalendarEntryData>>)
    ensures |r| == |Days(year)|
  {
    Weeks(k, t, year, Advent1(year - 1), Day(year - 1, 12, 24))
  }

  /** Group `i` of Advent is dated the `i`-th day of `Days(year)`. */
  lemma GenerateDates(k: KeySet, t: Tables, year: int)
    ensures |Generate(k, t, year)| == |Days(year)|
    ensures forall i :: 0 <= i < |Days(year)| ==> DatedOn(Generate(k, t, year)[i], Days(year)[i])
  {
  }

  /** Advent lasts from three weeks and a day (when Christmas Eve is the
      Fourth Sunday) to four full weeks. */
  lemma AdventLength(year: int)
    ensures |Days(year)| == Day(year - 1, 12, 24) - Advent1(year - 1) + 1
    ensures 22 <= |Days(year)| <= 28
  {
    Advent4IsLastSundayBeforeChristmas(year - 1);
    assert Day(year - 1, 12, 24) == Day(year - 1, 12, 18) + 6;
  }

  /** Day `d` of a walk from Sunday `a` is in week `WeekFrom(a, d)`. */
  lemma WeeksAt(k: KeySet, t: Tables, year: int, a: int, c: int, d: int)
    requires IsSunday(a) && a <= d <= c
    ensures |Weeks(k, t, year, a, c)| == c - a + 1
    ensures Weeks(k, t, year, a, c)[d - a] == AdventDay(k, t, year, d, WeekFrom(a, d))
  {
    WeeksOrder(a, c, d);
    WeeksElement(k, t, year, a, c, d - a, d, WeekFrom(a, d));
  }

  /** Group `i` is day `d` of the walk, in week `o`. */
  lemma WeeksElement(k: KeySet, t: Tables, year: int, a: int, c: int, i: int, d: int, o: int)
    requires 0 <= i < |EachDay(a, c)|
    requires EachDay(a, c)[i] == d && WeekOrders(EachDay(a, c), 0)[i] == o
    ensures |Weeks(k, t, year, a, c)| == |EachDay(a, c)|
    ensures Weeks(k, t, year, a, c)[i] == AdventDay(k, t, year, d, o)
  {
  }

  lemma WeeksOrder(a: int, c: int, d: int)
    requires IsSunday(a) && a <= d <= c
    ensures |EachDay(a, c)| == c - a + 1
    ensures EachDay(a, c)[d - a] == d
    ensures WeekOrders(EachDay(a, c), 0)[d - a] == WeekFrom(a, d)
  {
    WeekOrdersFromSunday(a, c, 0, d - a);
  }

  /** Advent is the walk from the First Sunday of Advent to Christmas Eve,
      which falls three to four weeks after it. */
  lemma GenerateIsWeeks(k: KeySet, t: Tables, year: int)
    ensures Generate(k, t, year) == Weeks(k, t, year, Advent1(year - 1), Day(year - 1, 12, 24))
    ensures IsSunday(Advent1(year - 1))
    ensures Advent1(year - 1) + 21 <= Day(year - 1, 12, 24) <= Advent1(year - 1) + 27
  {
    Advent1Placement(year - 1);
    AdventLength(year);
  }

  /** On a walk from Sunday `a` to at most four weeks later, the `i`-th day
      is in week `i / 7 + 1`, one to four, and its group is dated with that
      very day. */
  lemma WeeksByDay(k: KeySet, t: Tables, year: int, a: int, c: int)
    requires IsSunday(a) && a <= c <= a + 27
    ensures |Weeks(k, t, year, a, c)| == |EachDay(a, c)| == c - a + 1
    ensures forall i :: 0 <= i < |Weeks(k, t, year, a, c)| ==>
      && Weeks(k, t, year, a, c)[i] == AdventDay(k, t, year, EachDay(a, c)[i], i / 7 + 1)
      && 1 <= i / 7 + 1 <= 4
      && DatedOn(Weeks(k, t, year, a, c)[i], EachDay(a, c)[i])
  {
    forall i | 0 <= i < |Weeks(k, t, year, a, c)|
      ensures Weeks(k, t, year, a, c)[i] == AdventDay(k, t, year, EachDay(a, c)[i], i / 7 + 1)
      ensures 1 <= i / 7 + 1 <= 4
    {
      WeeksIndex(k, t, year, a, c, i);
    }
  }

  lemma WeeksIndex(k: KeySet, t: Tables, year: int, a: int, c: int, i: int)
    requires IsSunday(a) && 0 <= i <= c - a <= 27
    ensures Weeks(k, t, year, a, c)[i] == AdventDay(k, t, year, EachDay(a, c)[i], i / 7 + 1)
    ensures 1 <= i / 7 + 1 <= 4
  {
    WeekOrdersFromSunday(a, c, 0, i);
    WeeksElement(k, t, year, a, c, i, EachDay(a, c)[i], i / 7 + 1);
  }

  /** The Sundays take the Sunday rows of their week of the year's cycle. */
  lemma SundaysOfAdvent(k: KeySet, t: Tables, year: int, a: int, c: int, d: int)
    requires IsSunday(a) && IsSunday(d) && a <= d <= c
    ensures Weeks(k, t, year, a, c)[d - a] ==
      Pick(t.adventSunday, NumberedSunday(WeekFrom(a, d)), YearCycleOf(year), d)
  {
    WeeksAt(k, t, year, a, c, d);
  }

  /** The weekdays from 17 to 24 December take the rows keyed by their day
      and month instead of their week; every other weekday takes its week's
      rows. */
  lemma WeekdaysOfAdvent(k: KeySet, t: Tables, year: int, a: int, c: int, d: int)
    requires IsSunday(a) && !IsSunday(d) && a <= d <= c
    ensures IsPreChristmas(year, d) ==>
      Weeks(k, t, year, a, c)[d - a] == Pick(t.adventWeekday, PreChristmasRule(k, d), YearCycleOf(year), d)
    ensures !IsPreChristmas(year, d) ==>
      Weeks(k, t, year, a, c)[d - a] == Pick(t.adventWeekday, NumberedWeekday(WeekFrom(a, d), d), YearCycleOf(year), d)
  {
    WeeksAt(k, t, year, a, c, d);
  }
}
