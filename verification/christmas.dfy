/** The Christmas season of the liturgical year `year`: from Christmas Day of
    the civil year `year - 1` to the Baptism of the Lord in January of
    `year`. */
module ChristmasSeason {
  import opened Wrappers
  import opened Dates
  import opened DateFormat
  import opened Schema
  import opened Selection
  import opened Anchors

  /** The weekday rows of 26 December .. the eve of the Epiphany, keyed by
      day and month. */
  function OctaveRule(k: KeySet, day: int): Pred {
    And(Is(WeekdayTypeTag, FormatDayOfMonth(day)), Or(Is(WeekOrderTag, k.beforeEpiphany), Is(WeekOrderTag, "christmas")))
  }

  /** 26 December .. the eve of the Epiphany. */
  function DaysBeforeEpiphany(year: int, onJan6: bool): seq<int> {
    EachDay(Day(year - 1, 12, 26), Epiphany(year, onJan6) - 1)
  }

  function WeekdaysBeforeEpiphany(k: KeySet, t: Tables, year: int, onJan6: bool): (r: seq<seq<CalendarEntryData>>)
    ensures |r| == |DaysBeforeEpiphany(year, onJan6)|
    ensures forall i :: 0 <= i < |r| ==> DatedOn(r[i], DaysBeforeEpiphany(year, onJan6)[i])
  {
    var days := DaysBeforeEpiphany(year, onJan6);
    seq(|days|, i requires 0 <= i < |days| =>
      Pick(t.christmasWeekday, OctaveRule(k, days[i]), YearCycleOf(year), days[i]))
  }

  /** The rows of one weekday after the Epiphany. The second guard is the
      generator's `!(e == 7 Jan) || !(e == 8 Jan)`, which no Epiphany falsifies. */
  function AfterEpiphanyDay(k: KeySet, t: Tables, year: int, onJan6: bool, day: int): (r: seq<CalendarEntryData>)
    ensures DatedOn(r, day)
  {
    var e := Epiphany(year, onJan6);
    if onJan6 then
      Pick(t.christmasWeekday, And(Is(WeekOrderTag, k.afterEpiphanyFromJan6), Is(WeekdayTypeTag, FormatDayOfMonth(day))),
           YearCycleOf(year), day)
    else if !onJan6 && (e != Day(year, 1, 7) || e != Day(year, 1, 8)) then
      Pick(t.christmasWeekday, And(Is(WeekOrderTag, k.afterEpiphany), Is(WeekdayTypeTag, DayName(day))),
           YearCycleOf(year), day)
    else
      []
  }

  /** The days strictly between the Epiphany and the Baptism of the Lord. */
  function AfterEpiphanyDays(year: int, onJan6: bool): seq<int> {
    var e, b := Epiphany(year, onJan6), Baptism(year, onJan6);
    if e + 1 <= b - 1 then EachDay(e + 1, b - 1) else []
  }

  function WeekdaysAfterEpiphany(k: KeySet, t: Tables, year: int, onJan6: bool): (r: seq<seq<CalendarEntryData>>)
    ensures |r| == |AfterEpiphanyDays(year, onJan6)|
    ensures forall i :: 0 <= i < |r| ==> DatedOn(r[i], AfterEpiphanyDays(year, onJan6)[i])
  {
    var days := AfterEpiphanyDays(year, onJan6);
    seq(|days|, i requires 0 <= i < |days| => AfterEpiphanyDay(k, t, year, onJan6, days[i]))
  }

  /** The Second Sunday after Christmas, when it falls before the Epiphany. */
  function SecondSunday(t: Tables, year: int, onJan6: bool): (r: seq<seq<CalendarEntryData>>)
    ensures |r| <= 1
    ensures forall i :: 0 <= i < |r| ==> DatedOn(r[i], SecondSundayAfterChristmas(year - 1))
  {
    if HasSecondSundayAfterChristmas(year, onJan6) then
      [Pick(t.christmasSunday, Is(WeekOrderTag, "2ndAfterChristmas"), YearCycleOf(year), SecondSundayAfterChristmas(year - 1))]
    else []
  }

  /** `generateChristmas`. */
  function Generate(k: KeySet, t: Tables, year: int, onJan6: bool): seq<seq<CalendarEntryData>> {
    Feast(t, k.nativity, year, Christmas(year - 1))
    + WeekdaysBeforeEpiphany(k, t, year, onJan6)
    + Feast(t, k.holyFamily, year, HolyFamily(year - 1))
    + Feast(t, k.maryMotherOfGod, year, Day(year, 1, 1))
    + SecondSunday(t, year, onJan6)
    + Feast(t, k.epiphany, year, Epiphany(year, onJan6))
    + WeekdaysAfterEpiphany(k, t, year, onJan6)
    + Feast(t, k.baptism, year, Baptism(year, onJan6))
  }

  function SecondSundayDays(year: int, onJan6: bool): seq<int> {
    if HasSecondSundayAfterChristmas(year, onJan6) then [SecondSundayAfterChristmas(year - 1)] else []
  }

  /** The day each group of `Generate` is dated. */
  function GroupDays(year: int, onJan6: bool): seq<int> {
    [Christmas(year - 1)]
    + DaysBeforeEpiphany(year, onJan6)
    + [HolyFamily(year - 1)]
    + [Day(year, 1, 1)]
    + SecondSundayDays(year, onJan6)
    + [Epiphany(year, onJan6)]
    + AfterEpiphanyDays(year, onJan6)
    + [Baptism(year, onJan6)]
  }

  /** Group `i` of the season is dated `GroupDays(year, onJan6)[i]`. */
  lemma GenerateDates(k: KeySet, t: Tables, year: int, onJan6: bool)
    ensures |Generate(k, t, year, onJan6)| == |GroupDays(year, onJan6)|
    ensures forall i :: 0 <= i < |GroupDays(year, onJan6)| ==>
      DatedOn(Generate(k, t, year, onJan6)[i], GroupDays(year, onJan6)[i])
  {
    var g0 := Feast(t, k.nativity, year, Christmas(year - 1));
    var g1 := WeekdaysBeforeEpiphany(k, t, year, onJan6);
    var g2 := Feast(t, k.holyFamily, year, HolyFamily(year - 1));
    var g3 := Feast(t, k.maryMotherOfGod, year, Day(year, 1, 1));
    var g4 := SecondSunday(t, year, onJan6);
    var g5 := Feast(t, k.epiphany, year, Epiphany(year, onJan6));
    var g6 := WeekdaysAfterEpiphany(k, t, year, onJan6);
    var g7 := Feast(t, k.baptism, year, Baptism(year, onJan6));
    var d0 := [Christmas(year - 1)];
    var d1 := DaysBeforeEpiphany(year, onJan6);
    var d2 := [HolyFamily(year - 1)];
    var d3 := [Day(year, 1, 1)];
    var d4 := SecondSundayDays(year, onJan6);
    var d5 := [Epiphany(year, onJan6)];
    var d6 := AfterEpiphanyDays(year, onJan6);
    var d7 := [Baptism(year, onJan6)];
    DatedConcat(g0, d0, g1, d1);
    DatedConcat(g0 + g1, d0 + d1, g2, d2);
    DatedConcat(g0 + g1 + g2, d0 + d1 + d2, g3, d3);
    DatedConcat(g0 + g1 + g2 + g3, d0 + d1 + d2 + d3, g4, d4);
    DatedConcat(g0 + g1 + g2 + g3 + g4, d0 + d1 + d2 + d3 + d4, g5, d5);
    DatedConcat(g0 + g1 + g2 + g3 + g4 + g5, d0 + d1 + d2 + d3 + d4 + d5, g6, d6);
    DatedConcat(g0 + g1 + g2 + g3 + g4 + g5 + g6, d0 + d1 + d2 + d3 + d4 + d5 + d6, g7, d7);
  }

  /** The season runs from Christmas Day to the Baptism of the Lord: every
      group is dated inside that span and every day of it has a group. */
  lemma SeasonSpan(year: int, onJan6: bool)
    ensures forall d :: d in GroupDays(year, onJan6) ==> Christmas(year - 1) <= d <= Baptism(year, onJan6)
    ensures forall d :: Christmas(year - 1) <= d <= Baptism(year, onJan6) ==> d in GroupDays(year, onJan6)
  {
    var c, e, b := Christmas(year - 1), Epiphany(year, onJan6), Baptism(year, onJan6);
    NewYear(year - 1);
    assert Day(year - 1, 12, 26) == c + 1;
    assert Day(year, 1, 1) == Day(year - 1, 12, 31) + 1;
    assert Day(year - 1, 12, 31) == c + 6;
    EpiphanyPlacement(year, onJan6);
    BaptismPlacement(year, onJan6);
    HolyFamilyPlacement(year - 1);
    SecondSundayAfterChristmasPlacement(year, onJan6);
    var days := GroupDays(year, onJan6);
    forall d | c <= d <= b ensures d in days {
      if d == c {
        assert days[0] == d;
      } else if d < e {
        assert d in DaysBeforeEpiphany(year, onJan6);
      } else if d == e {
        assert d in [e];
      } else if d < b {
        assert d in AfterEpiphanyDays(year, onJan6);
      } else {
        assert d in [b];
      }
    }
  }

  /** With the Epiphany on its Sunday, the second guard of the weekday rule
      always holds: every weekday after the Epiphany takes the rows of its
      weekday name. */
  lemma AfterEpiphanyGuardAlwaysHolds(k: KeySet, t: Tables, year: int, day: int)
    ensures AfterEpiphanyDay(k, t, year, false, day) ==
      Pick(t.christmasWeekday, And(Is(WeekOrderTag, k.afterEpiphany), Is(WeekdayTypeTag, DayName(day))),
           YearCycleOf(year), day)
  {
    assert Day(year, 1, 8) == Day(year, 1, 7) + 1;
  }

  /** When the Epiphany falls on 7 or 8 January the Baptism is the next day,
      so there are no weekdays after the Epiphany, as the generator's comment
      intends; otherwise they run to the Saturday before the Baptism. */
  lemma AfterEpiphanySpan(year: int, onJan6: bool)
    ensures var e := Epiphany(year, onJan6);
      !onJan6 && (e == Day(year, 1, 7) || e == Day(year, 1, 8)) ==> AfterEpiphanyDays(year, onJan6) == []
    ensures forall d :: d in AfterEpiphanyDays(year, onJan6) <==>
      Epiphany(year, onJan6) < d < Baptism(year, onJan6)
  {
    BaptismPlacement(year, onJan6);
  }
}
