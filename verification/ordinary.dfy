/** Ordinary Time of the liturgical year `year`: the weeks from the day after
    the Baptism of the Lord to the eve of Ash Wednesday, and those from the
    day after Pentecost to the eve of the First Sunday of Advent of the civil
    year `year`. */
module OrdinaryTime {
  import opened Wrappers
  import opened Text
  import opened Dates
  import opened DateFormat
  import opened Schema
  import opened Selection
  import opened Walk
  import opened Anchors

  /** Weekday rows also carry the weekday cycle of the year (1 or 2). */
  function WeekdayRule(year: int, order: int, day: int): Pred {
    And(NumberedWeekday(order, day), NumberEquals(YearNumberTag, YearNumberOf(year)))
  }

  /** The rows of one day of week `order`. */
  function OrdinaryDay(t: Tables, year: int, day: int, order: int): (r: seq<CalendarEntryData>)
    ensures DatedOn(r, day)
  {
    if IsSunday(day) then Pick(t.otSunday, NumberedSunday(order), YearCycleOf(year), day)
    else Pick(t.otWeekday, WeekdayRule(year, order, day), YearCycleOf(year), day)
  }

  /** The walk of the first part, from the Baptism of the Lord itself (which
      is counted in week 1 when it is a Monday) to the eve of Ash Wednesday;
      the Baptism's own day gives no group. */
  function FirstPart(t: Tables, year: int, onJan6: bool): (r: seq<seq<CalendarEntryData>>)
  {
    FirstWalk(t, year, Baptism(year, onJan6), AshWednesday(year) - 1)
  }

  /** The week counter of the first walk before its first day: a Baptism
      on Sunday starts week 1 itself, one on Monday is already in week 1. */
  function FirstCounter(b: int): int {
    if IsSunday(b) then 0 else 1
  }

  function FirstWalk(t: Tables, year: int, b: int, end: int): (r: seq<seq<CalendarEntryData>>)
  {
    var days := EachDay(b, end);
    var orders := WeekOrders(days, FirstCounter(b));
    if |days| == 0 then []
    else seq(|days| - 1, i requires 0 <= i < |days| - 1 => OrdinaryDay(t, year, days[i + 1], orders[i + 1]))
  }

  /** The week counter before the second part: chosen so that the last week
      before Advent is the 34th. */
  function SecondPartStart(year: int): int {
    var p := Pentecost(year);
    34 - |EachWeekOfInterval(p, Advent1(year))| + 1 + (if IsSunday(p) then 1 else 0)
  }

  function SecondPart(t: Tables, year: int): (r: seq<seq<CalendarEntryData>>)
  {
    SecondWalk(t, year, Pentecost(year) + 1, Advent1(year) - 1, SecondPartStart(year))
  }

  function SecondWalk(t: Tables, year: int, start: int, end: int, order: int): (r: seq<seq<CalendarEntryData>>)
  {
    var days := EachDay(start, end);
    var orders := WeekOrders(days, order);
    seq(|days|, i requires 0 <= i < |days| => OrdinaryDay(t, year, days[i], orders[i]))
  }

  /** `generateOT`. */
  function Generate(t: Tables, year: int, onJan6: bool): seq<seq<CalendarEntryData>> {
    FirstPart(t, year, onJan6) + SecondPart(t, year)
  }

  lemma MondayFollowsSunday(n: int)
    requires Weekday(n) == Monday
    ensures IsSunday(n - 1)
  {
  }

  lemma SundayStartsItsWeek(s: int)
    requires IsSunday(s)
    ensures StartOfWeek(s) == s
  {
    var w := StartOfWeek(s);
    SameWeekdayWithinWeek(w, s);
  }

  lemma FirstPartIsWalk(t: Tables, year: int, onJan6: bool)
    ensures FirstPart(t, year, onJan6) == FirstWalk(t, year, Baptism(year, onJan6), AshWednesday(year) - 1)
  {
  }

  lemma SecondPartIsWalk(t: Tables, year: int)
    ensures SecondPart(t, year) == SecondWalk(t, year, Pentecost(year) + 1, Advent1(year) - 1, SecondPartStart(year))
  {
  }

  lemma BaptismWeekday(year: int, onJan6: bool)
    ensures IsSunday(Baptism(year, onJan6)) || Weekday(Baptism(year, onJan6)) == Monday
  {
    BaptismPlacement(year, onJan6);
  }

  /** The first part covers the days strictly between the Baptism `b` and Ash
      Wednesday; a day `d` there is in week `(d - s) / 7 + 1`, where `s` is
      the Sunday starting the Baptism's week: the week of the Baptism is the
      first week of Ordinary Time, and the Sunday after it the second. The
      Baptism is a Sunday or a Monday (`BaptismWeekday`), and the first part
      is this walk (`FirstPartIsWalk`). */
  lemma FirstWalkAt(t: Tables, year: int, b: int, end: int, d: int)
    requires IsSunday(b) || Weekday(b) == Monday
    requires b < d <= end
    ensures |FirstWalk(t, year, b, end)| == end - b
    ensures FirstWalk(t, year, b, end)[d - b - 1] == OrdinaryDay(t, year, d, (d - StartOfWeek(b)) / 7 + 1)
  {
    var j := d - b;
    var days := EachDay(b, end);
    var o := (d - StartOfWeek(b)) / 7 + 1;
    FirstWalkOrder(b, end, d);
    assert days[j] == d && WeekOrders(days, FirstCounter(b))[j] == o;
    FirstWalkElement(t, year, b, end, j);
  }

  /** Group `j - 1` of a first-part walk is day `j` of the walk. */
  lemma FirstWalkElement(t: Tables, year: int, b: int, end: int, j: int)
    requires 1 <= j < |EachDay(b, end)|
    ensures |FirstWalk(t, year, b, end)| == |EachDay(b, end)| - 1
    ensures FirstWalk(t, year, b, end)[j - 1] ==
      OrdinaryDay(t, year, EachDay(b, end)[j], WeekOrders(EachDay(b, end), FirstCounter(b))[j])
  {
  }

  /** Group `i` of a first-part walk is dated the `i`-th day after the Baptism. */
  lemma FirstWalkDates(t: Tables, year: int, b: int, end: int)
    requires b <= end
    ensures |FirstWalk(t, year, b, end)| == |EachDay(b, end)[1..]|
    ensures forall i :: 0 <= i < |FirstWalk(t, year, b, end)| ==>
      DatedOn(FirstWalk(t, year, b, end)[i], EachDay(b, end)[1..][i])
  {
    var days := EachDay(b, end);
    forall i | 0 <= i < |FirstWalk(t, year, b, end)| ensures DatedOn(FirstWalk(t, year, b, end)[i], days[1..][i]) {
      FirstWalkDated(t, year, b, end, i + 1);
      assert days[1..][i] == days[i + 1];
    }
  }

  lemma FirstWalkDated(t: Tables, year: int, b: int, end: int, j: int)
    requires 1 <= j < |EachDay(b, end)|
    ensures |FirstWalk(t, year, b, end)| == |EachDay(b, end)| - 1
    ensures DatedOn(FirstWalk(t, year, b, end)[j - 1], EachDay(b, end)[j])
  {
    FirstWalkElement(t, year, b, end, j);
  }

  /** Day `d` of a walk from the Baptism `b` is in week `(d - s) / 7 + 1`,
      `s` the Sunday starting the Baptism's week. */
  lemma FirstWalkOrder(b: int, end: int, d: int)
    requires IsSunday(b) || Weekday(b) == Monday
    requires b < d <= end
    ensures |EachDay(b, end)| == end - b + 1
    ensures EachDay(b, end)[d - b] == d
    ensures WeekOrders(EachDay(b, end), FirstCounter(b))[d - b] == (d - StartOfWeek(b)) / 7 + 1
  {
    var j := d - b;
    if IsSunday(b) {
      SundayStartsItsWeek(b);
      WeekOrdersFromSunday(b, end, 0, j);
    } else {
      MondayFollowsSunday(b);
      assert StartOfWeek(b) == b - 1 by {
        SameWeekdayWithinWeek(StartOfWeek(b), b - 1);
      }
      WeekOrdersFromMonday(b, end, 1, j);
      assert (d - (b - 1)) / 7 + 1 == 1 + (j + 1) / 7;
    }
  }

  /** Both parts are non-empty: the Baptism (7 .. 13 January) comes before the
      eve of Ash Wednesday (3 February at the earliest), and Pentecost
      (14 June at the latest) long before Advent (27 November at the
      earliest). */
  lemma PartsWellFormed(year: int, onJan6: bool)
    ensures Baptism(year, onJan6) + 20 < AshWednesday(year)
    ensures Pentecost(year) + 150 < Advent1(year)
    ensures IsSunday(Pentecost(year)) && IsSunday(Advent1(year))
  {
    BaptismBeforeLent(year, onJan6);
    PentecostBeforeAdvent(year);
    EasterOffsets(year);
    Advent1Placement(year);
  }

  lemma BaptismBeforeLent(year: int, onJan6: bool)
    ensures Baptism(year, onJan6) + 20 < AshWednesday(year)
  {
    var b, e := Baptism(year, onJan6), Easter(year);
    BaptismPlacement(year, onJan6);
    EasterWindow(year);
    assert AshWednesday(year) == e - 46;
    assert Day(year, 3, 22) >= Day(year, 1, 13) + 68;
  }

  lemma PentecostBeforeAdvent(year: int)
    ensures Pentecost(year) + 150 < Advent1(year)
  {
    var e := Easter(year);
    EasterWindow(year);
    Advent1Placement(year);
    assert Pentecost(year) == e + 49;
    assert Day(year, 11, 27) == Day(year, 4, 25) + 216;
  }

  /** The second part starts its count at `35 - w`, where `w` is the number
      of weeks from Pentecost to Advent. */
  lemma SecondPartStartValue(year: int)
    ensures (Advent1(year) - Pentecost(year)) % 7 == 0
    ensures SecondPartStart(year) == 35 - (Advent1(year) - Pentecost(year)) / 7
  {
    var p, a := Pentecost(year), Advent1(year);
    PartsWellFormed(year, false);
    SundaysApart(p, a);
    SundayStartsItsWeek(p);
    SundayStartsItsWeek(a);
    SundayDifference(p, a);
  }

  lemma SundayDifference(p: int, a: int)
    requires IsSunday(p) && IsSunday(a)
    ensures (a - p) % 7 == 0
  {
    var qp, qa := p / 7, a / 7;
    assert p == 7 * qp;
    assert a == 7 * qa;
    assert a - p == 7 * (qa - qp);
  }

  /** The week of a day `d` before the First Sunday of Advent `a`, counted
      back from Advent: the last full week before it is the 34th. */
  function WeekBack(a: int, d: int): int {
    34 - (a - 1 - d) / 7
  }

  /** A day `d` of the second part is in week `WeekBack(a, d)`, where `a` is
      the First Sunday of Advent. */
  lemma SecondPartByDay(t: Tables, year: int, d: int)
    requires Pentecost(year) < d < Advent1(year)
    ensures |SecondPart(t, year)| == Advent1(year) - Pentecost(year) - 1
    ensures SecondPart(t, year)[d - Pentecost(year) - 1] == OrdinaryDay(t, year, d, WeekBack(Advent1(year), d))
  {
    PartsWellFormed(year, false);
    SecondPartStartValue(year);
    SecondPartIsWalk(t, year);
    SecondWalkOrder(Pentecost(year), Advent1(year), SecondPartStart(year), d);
    SecondWalkAt(t, year, Pentecost(year) + 1, Advent1(year) - 1, SecondPartStart(year),
                 d - Pentecost(year) - 1, d, WeekBack(Advent1(year), d));
  }

  /** Group `i` of a second-part walk is day `d` in week `o`. */
  lemma SecondWalkAt(t: Tables, year: int, from: int, to: int, start: int, i: int, d: int, o: int)
    requires 0 <= i < |EachDay(from, to)|
    requires EachDay(from, to)[i] == d && WeekOrders(EachDay(from, to), start)[i] == o
    ensures SecondWalk(t, year, from, to, start)[i] == OrdinaryDay(t, year, d, o)
  {
    SecondWalkElement(t, year, from, to, start, i);
  }

  /** Group `i` of a second-part walk is day `i` of the walk. */
  lemma SecondWalkElement(t: Tables, year: int, from: int, to: int, order: int, i: int)
    requires 0 <= i < |EachDay(from, to)|
    ensures |SecondWalk(t, year, from, to, order)| == |EachDay(from, to)|
    ensures SecondWalk(t, year, from, to, order)[i] ==
      OrdinaryDay(t, year, EachDay(from, to)[i], WeekOrders(EachDay(from, to), order)[i])
  {
  }

  /** Group `i` of a second-part walk is dated the walk's `i`-th day. */
  lemma SecondWalkDates(t: Tables, year: int, from: int, to: int, order: int)
    ensures |SecondWalk(t, year, from, to, order)| == |EachDay(from, to)|
    ensures forall i :: 0 <= i < |EachDay(from, to)| ==>
      DatedOn(SecondWalk(t, year, from, to, order)[i], EachDay(from, to)[i])
  {
    forall i | 0 <= i < |EachDay(from, to)| ensures DatedOn(SecondWalk(t, year, from, to, order)[i], EachDay(from, to)[i]) {
      SecondWalkElement(t, year, from, to, order, i);
    }
  }

  /** Counting from `35 - w` on the Monday after Pentecost `p`, `w` the weeks
      to Advent `a`, day `d` is in week `WeekBack(a, d)`. */
  lemma SecondWalkOrder(p: int, a: int, start: int, d: int)
    requires IsSunday(p) && p < d < a
    requires (a - p) % 7 == 0 && start == 35 - (a - p) / 7
    ensures |EachDay(p + 1, a - 1)| == a - p - 1
    ensures EachDay(p + 1, a - 1)[d - p - 1] == d
    ensures WeekOrders(EachDay(p + 1, a - 1), start)[d - p - 1] == WeekBack(a, d)
  {
    var w := (a - p) / 7;
    assert a - p == 7 * w;
    WeekOrdersFromMonday(p + 1, a - 1, start, d - p - 1);
    BackwardCount(p, a, w, d);
  }

  lemma BackwardCount(p: int, a: int, w: int, d: int)
    requires a - p == 7 * w && p < d < a
    ensures 35 - w + (d - p) / 7 == WeekBack(a, d)
  {
    var q, r := (d - p) / 7, (d - p) % 7;
    assert d - p == 7 * q + r;
    assert a - 1 - d == 7 * (w - q - 1) + (6 - r);
    assert (a - 1 - d) / 7 == w - q - 1;
  }

  /** The days of the week before Advent, its Sunday included, are in week 34. */
  lemma LastWeekIsThirtyFourth(t: Tables, year: int, d: int)
    requires Advent1(year) - 7 <= d < Advent1(year)
    ensures Pentecost(year) < d
    ensures SecondPart(t, year)[d - Pentecost(year) - 1] == OrdinaryDay(t, year, d, 34)
  {
    PartsWellFormed(year, false);
    SecondPartByDay(t, year, d);
    LastWeekBack(Advent1(year), d);
  }

  lemma LastWeekBack(a: int, d: int)
    requires a - 7 <= d < a
    ensures WeekBack(a, d) == 34
  {
  }

  /** An Ordinary Time weekday holds exactly the weekday rows of its week
      order, of its weekday and of the year's weekday cycle (2 in even
      years, 1 in odd ones), each dated that day. */
  lemma WeekdayCycle(t: Tables, year: int, day: int, order: int)
    requires !IsSunday(day)
    ensures forall x :: x in OrdinaryDay(t, year, day, order) <==>
      && x.entry in t.otWeekday
      && NumberIs(x.entry.weekOrder, order) && x.entry.weekdayType == DayName(day)
      && NumberIs(x.entry.yearNumber, if year % 2 == 0 then 2 else 1)
      && x.weekday == DayName(day) && x.date == FormatDay(day)
  {
    var rule, cycle := WeekdayRule(year, order, day), YearCycleOf(year);
    var n := if year % 2 == 0 then 2 else 1;
    assert OrdinaryDay(t, year, day, order) == Pick(t.otWeekday, rule, cycle, day);
    assert YearNumberOf(year) == n;
    forall e ensures Holds(rule, e, cycle) <==>
      NumberIs(e.weekOrder, order) && e.weekdayType == DayName(day) && NumberIs(e.yearNumber, n)
    {
      var week := NumberedWeekday(order, day);
      assert rule == And(week, NumberEquals(YearNumberTag, n));
      assert Holds(week, e, cycle) <==> NumberIs(e.weekOrder, order) && e.weekdayType == DayName(day);
    }
    PickSpec(t.otWeekday, rule, cycle, day);
  }
}
