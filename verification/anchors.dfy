/** The days every season is built around: Easter by the closed-form
    Gregorian computus, the feasts at fixed offsets from it, the Sundays of
    Advent, and the Christmas-cycle feasts whose placement depends on the
    weekday and on the Epiphany option. Every day is a day number. */
module Anchors {
  import opened Dates

  /** `new Date(y, m - 1, d)` for a day that exists in that month. */
  function Day(y: int, m: int, d: int): int
    requires 1 <= m <= 12
  {
    DayNumber(Date(y, m, d))
  }

  // ----- the computus -----

  /** The corrected epact term `i` of the computus (days from 21 March to the
      paschal full moon), after both reductions. */
  function EpactTerm(y: int): (i: int)
    ensures 0 <= i <= 28
  {
    var c := y / 100;
    var n := y - 19 * (y / 19);
    var k := (c - 17) / 25;
    var i0 := c - c / 4 - (c - k) / 3 + 19 * n + 15;
    var i1 := i0 - 30 * (i0 / 30);
    i1 - (i1 / 28) * (1 - (i1 / 28) * (29 / (i1 + 1)) * ((21 - n) / 11))
  }

  /** The weekday term `j` of the computus: the weekday of the paschal full moon. */
  function WeekdayTerm(y: int): (j: int)
    ensures 0 <= j < 7
  {
    var c := y / 100;
    var j0 := y + y / 4 + EpactTerm(y) + 2 - c + c / 4;
    j0 - 7 * (j0 / 7)
  }

  /** `easterDate(y)`: month `3 + (l + 40) / 44` and day `l + 28 - 31 * (m / 4)`
      with `l = i - j`. */
  function EasterDate(y: int): (dt: Date)
    ensures ValidDate(dt) && dt.year == y
    ensures (dt.month == 3 && 22 <= dt.day) || (dt.month == 4 && dt.day <= 25)
  {
    var l := EpactTerm(y) - WeekdayTerm(y);
    var m := 3 + (l + 40) / 44;
    var d := l + 28 - 31 * (m / 4);
    Date(y, m, d)
  }

  function Easter(y: int): int {
    DayNumber(EasterDate(y))
  }

  /** Easter is 28 March moved by the paschal-moon offset less its weekday. */
  lemma EasterFromMarch28(y: int)
    ensures Easter(y) == Day(y, 3, 28) + EpactTerm(y) - WeekdayTerm(y)
  {
    var l := EpactTerm(y) - WeekdayTerm(y);
    var dt := EasterDate(y);
    var m := 3 + (l + 40) / 44;
    assert dt == Date(y, m, l + 28 - 31 * (m / 4));
    if m == 3 {
      assert dt.day == l + 28;
    } else {
      assert m == 4 && dt.day == l + 28 - 31;
      assert DaysBeforeMonth(y, 4) == DaysBeforeMonth(y, 3) + 31;
    }
  }

  lemma CenturyQuarter(y: int)
    ensures (y / 100) / 4 == y / 400
  {
    var c := y / 100;
    var q := c / 4;
    assert y == 100 * c + y % 100;
    assert c == 4 * q + c % 4;
    assert y == 400 * q + (100 * (c % 4) + y % 100);
    assert 0 <= 100 * (c % 4) + y % 100 < 400;
  }

  /** 28 March of year `y`, counted from day 1. */
  lemma March28(y: int)
    ensures Day(y, 3, 28) == 365 * y - 278 + y / 4 - y / 100 + y / 400
  {
    LeapCount(y);
  }

  /** The congruence behind the computus, over plain integers: 28 March plus
      `i` less `j` is a multiple of 7 when `j` is the weekday term. */
  lemma SundayCongruence(e: int, m28: int, y: int, q: int, i: int, j0: int, jq: int)
    requires m28 == 365 * y - 278 + q
    requires j0 == y + q + 2 + i
    requires e == m28 + i - (j0 - 7 * jq)
    ensures e % 7 == 0
  {
    assert e == 7 * (52 * y - 40 + jq);
  }

  /** The computus lands on a Sunday in every year. */
  lemma EasterIsSunday(y: int)
    ensures IsSunday(Easter(y))
  {
    var c := y / 100;
    var i := EpactTerm(y);
    var j0 := y + y / 4 + i + 2 - c + c / 4;
    EasterFromMarch28(y);
    March28(y);
    CenturyQuarter(y);
    assert WeekdayTerm(y) == j0 - 7 * (j0 / 7);
    SundayCongruence(Easter(y), Day(y, 3, 28), y, y / 4 - y / 100 + y / 400, i, j0, j0 / 7);
  }

  /** Easter falls between 22 March and 25 April. */
  lemma EasterWindow(y: int)
    ensures Day(y, 3, 22) <= Easter(y) <= Day(y, 4, 25)
  {
  }

  lemma EasterKnownYears()
    ensures EasterDate(2024) == Date(2024, 3, 31)
    ensures EasterDate(2025) == Date(2025, 4, 20)
  {
    Easter2024();
    Easter2025();
  }

  lemma Easter2024()
    ensures EasterDate(2024) == Date(2024, 3, 31)
  {
    EpactOf2024();
    var j0 := 2024 + 2024 / 4 + 4 + 2 - 20 + 20 / 4;
    assert j0 == 2521 && j0 - 7 * (j0 / 7) == 1;
    assert WeekdayTerm(2024) == 1;
  }

  lemma Easter2025()
    ensures EasterDate(2025) == Date(2025, 4, 20)
  {
    EpactOf2025();
    var j0 := 2025 + 2025 / 4 + 23 + 2 - 20 + 20 / 4;
    assert j0 == 2541 && j0 - 7 * (j0 / 7) == 0;
    assert WeekdayTerm(2025) == 0;
  }

  lemma EpactOf2024()
    ensures EpactTerm(2024) == 4
  {
    var c, n, k := 20, 10, 0;
    assert 2024 / 100 == c && 2024 - 19 * (2024 / 19) == n && (c - 17) / 25 == k;
    var i0 := c - c / 4 - (c - k) / 3 + 19 * n + 15;
    assert i0 == 214 && i0 - 30 * (i0 / 30) == 4;
  }

  lemma EpactOf2025()
    ensures EpactTerm(2025) == 23
  {
    var c, n, k := 20, 11, 0;
    assert 2025 / 100 == c && 2025 - 19 * (2025 / 19) == n && (c - 17) / 25 == k;
    var i0 := c - c / 4 - (c - k) / 3 + 19 * n + 15;
    assert i0 == 233 && i0 - 30 * (i0 / 30) == 23;
  }

  // ----- the year as JavaScript's Date constructor reads it -----

  /** The year `new Date(y, m, d)` builds: JavaScript reads a year in
      0 .. 99 as 1900 + y. */
  function JsYear(y: int): int {
    if 0 <= y <= 99 then 1900 + y else y
  }

  /** `easterDate(y)` as written: the computus of year `y`, placed by
      `new Date(y, m - 1, d)`, which moves the years 0 .. 99 to the 1900s.
      The rest of the model uses `Easter`, which keeps every year. */
  function JsEaster(y: int): int {
    var dt := EasterDate(y);
    Day(JsYear(y), dt.month, dt.day)
  }

  /** Outside the years 0 .. 99 the code as written and `Easter` agree. */
  lemma JsEasterAgrees(y: int)
    requires y < 0 || 99 < y
    ensures JsEaster(y) == Easter(y)
  {
  }

  /** Year 50 as written: the computus gives Sunday 27 March of year 50, but
      `new Date(50, 2, 27)` is 27 March 1950, a Monday. */
  lemma JsEasterOfYear50()
    ensures EasterDate(50) == Date(50, 3, 27) && IsSunday(Easter(50))
    ensures FromDayNumber(JsEaster(50)) == Date(1950, 3, 27)
    ensures Weekday(JsEaster(50)) == Monday && !IsSunday(JsEaster(50))
  {
    Easter50();
    EasterIsSunday(50);
    assert JsYear(50) == 1950;
    assert JsEaster(50) == Day(1950, 3, 27);
    March27Of1950();
  }

  lemma Easter50()
    ensures EasterDate(50) == Date(50, 3, 27)
  {
    EpactOf50();
    var j0 := 50 + 50 / 4 + 3 + 2 - 0 + 0 / 4;
    assert j0 == 67 && j0 - 7 * (j0 / 7) == 4;
    assert WeekdayTerm(50) == 4;
  }

  lemma EpactOf50()
    ensures EpactTerm(50) == 3
  {
    var c, n, k := 0, 12, -1;
    assert 50 / 100 == c && 50 - 19 * (50 / 19) == n && (c - 17) / 25 == k;
    var i0 := c - c / 4 - (c - k) / 3 + 19 * n + 15;
    assert i0 == 243 && i0 - 30 * (i0 / 30) == 3;
  }

  lemma March27Of1950()
    ensures Day(1950, 3, 27) == 711943 && Weekday(711943) == Monday
    ensures FromDayNumber(711943) == Date(1950, 3, 27)
  {
    DayOfMarch27Of1950();
    assert 711943 == 7 * 101706 + 1;
    assert ValidDate(Date(1950, 3, 27)) by {
      assert DaysInMonth(1950, 3) == 31;
    }
    FromDayNumberRoundTrip(Date(1950, 3, 27));
  }

  lemma DayOfMarch27Of1950()
    ensures Day(1950, 3, 27) == 711943
  {
    assert 1949 / 4 == 487 && 1949 / 100 == 19 && 1949 / 400 == 4;
    assert DaysBeforeYear(1950) == 711857;
    assert !IsLeapYear(1950);
    assert DaysBeforeMonth(1950, 3) == 59;
  }

  // ----- feasts at fixed offsets from Easter -----

  /** `subDays(subWeeks(easterDay, 6), 4)`. */
  function AshWednesday(y: int): int {
    Easter(y) - 6 * 7 - 4
  }

  function Pentecost(y: int): int {
    Easter(y) + 49
  }

  function AscensionOn40th(y: int): int {
    Easter(y) + 39
  }

  function HolyThursday(y: int): int {
    Easter(y) - 3
  }

  function GoodFriday(y: int): int {
    Easter(y) - 2
  }

  function EasterVigil(y: int): int {
    Easter(y) - 1
  }

  /** `previousThursday(easterDay)`. */
  function ChrismMass(y: int): int {
    PreviousThursday(Easter(y))
  }

  /** The offsets from Easter, with the weekday each feast keeps. */
  lemma EasterOffsets(y: int)
    ensures AshWednesday(y) == Easter(y) - 46 && Weekday(AshWednesday(y)) == Wednesday
    ensures IsSunday(Pentecost(y))
    ensures Weekday(AscensionOn40th(y)) == Thursday
    ensures Weekday(HolyThursday(y)) == Thursday && Weekday(GoodFriday(y)) == Friday
    ensures Weekday(EasterVigil(y)) == Saturday
    ensures ChrismMass(y) == HolyThursday(y)
  {
    var e := Easter(y);
    EasterIsSunday(y);
    NeighboursOfSunday(e);
    SundayOffset(e, -46);
    SundayOffset(e, 49);
    SundayOffset(e, 39);
    SundayOffset(e, -3);
    SundayOffset(e, -2);
    SundayOffset(e, -1);
  }

  // ----- Advent -----

  /** Advent 4 of the Advent that starts in December of `y`: 24 December when
      that is a Sunday, otherwise the Sunday before Christmas. */
  function Advent4(y: int): int {
    if IsSunday(Day(y, 12, 24)) then Day(y, 12, 24) else PreviousSunday(Day(y, 12, 25))
  }

  /** `subWeeks(advent4, 3)`. */
  function Advent1(y: int): int {
    Advent4(y) - 3 * 7
  }

  /** Advent 4 is the last Sunday on or before 24 December. */
  lemma Advent4IsLastSundayBeforeChristmas(y: int)
    ensures IsSunday(Advent4(y))
    ensures Day(y, 12, 18) <= Advent4(y) <= Day(y, 12, 24)
    ensures forall k :: Advent4(y) < k <= Day(y, 12, 24) ==> !IsSunday(k)
  {
    var n := Day(y, 12, 25);
    assert Day(y, 12, 24) == n - 1 && Day(y, 12, 18) == n - 7;
    LastSundayBefore(n);
  }

  /** Advent 1 is a Sunday between 27 November and 3 December, four Sundays
      before Christmas. */
  lemma Advent1Placement(y: int)
    ensures IsSunday(Advent1(y))
    ensures Day(y, 11, 27) <= Advent1(y) <= Day(y, 12, 3)
  {
    Advent4IsLastSundayBeforeChristmas(y);
    var n := Day(y, 12, 24);
    assert Day(y, 11, 27) == n - 27 && Day(y, 12, 3) == n - 21 && Day(y, 12, 18) == n - 6;
    WeekdayPeriodic(Advent4(y), -3);
  }

  // ----- the Christmas cycle -----

  function Christmas(y: int): int {
    Day(y, 12, 25)
  }

  /** The Epiphany of year `y`: 6 January under the option, otherwise the
      first Sunday after 1 January. */
  function Epiphany(y: int, onJan6: bool): int {
    if onJan6 then Day(y, 1, 6) else NextSunday(Day(y, 1, 1))
  }

  /** The Baptism of the Lord: the Monday after the Epiphany when the Epiphany
      falls on 7 or 8 January without the option, otherwise the Sunday after it. */
  function Baptism(y: int, onJan6: bool): int {
    var epiphany := Epiphany(y, onJan6);
    if !onJan6 && (epiphany == Day(y, 1, 7) || epiphany == Day(y, 1, 8)) then NextMonday(epiphany)
    else NextSunday(epiphany)
  }

  lemma EpiphanyPlacement(y: int, onJan6: bool)
    ensures Day(y, 1, 2) <= Epiphany(y, onJan6) <= Day(y, 1, 8)
    ensures !onJan6 ==> IsSunday(Epiphany(y, onJan6))
    ensures !onJan6 ==> forall k :: Day(y, 1, 1) < k < Epiphany(y, onJan6) ==> !IsSunday(k)
  {
    var n := Day(y, 1, 1);
    assert Day(y, 1, 2) == n + 1 && Day(y, 1, 6) == n + 5 && Day(y, 1, 8) == n + 7;
  }

  /** The Baptism follows the Epiphany within a week, between 7 and 13
      January, on a Monday exactly when it was moved off the Sunday. */
  lemma BaptismPlacement(y: int, onJan6: bool)
    ensures Epiphany(y, onJan6) < Baptism(y, onJan6) <= Epiphany(y, onJan6) + 7
    ensures Day(y, 1, 7) <= Baptism(y, onJan6) <= Day(y, 1, 13)
    ensures IsSunday(Baptism(y, onJan6)) || Weekday(Baptism(y, onJan6)) == Monday
    ensures Weekday(Baptism(y, onJan6)) == Monday <==>
      !onJan6 && Day(y, 1, 7) <= Epiphany(y, onJan6) <= Day(y, 1, 8)
  {
    EpiphanyPlacement(y, onJan6);
    var e := Epiphany(y, onJan6);
    var n := Day(y, 1, 1);
    assert Day(y, 1, 6) == n + 5 && Day(y, 1, 7) == n + 6 && Day(y, 1, 8) == n + 7 && Day(y, 1, 13) == n + 12;
    if !onJan6 {
      NeighboursOfSunday(e);
    }
  }

  /** The Holy Family after the Christmas of year `y`: 30 December when
      Christmas is a Sunday, otherwise the Sunday after Christmas. */
  function HolyFamily(y: int): int {
    if IsSunday(Christmas(y)) then Day(y, 12, 30) else NextSunday(Christmas(y))
  }

  /** The Holy Family falls within the octave of Christmas; it is the Sunday
      of the octave unless Christmas itself is the Sunday. */
  lemma HolyFamilyPlacement(y: int)
    ensures Christmas(y) < HolyFamily(y) <= Day(y, 12, 31)
    ensures IsSunday(Christmas(y)) ==> HolyFamily(y) == Christmas(y) + 5 && Weekday(HolyFamily(y)) == Friday
    ensures !IsSunday(Christmas(y)) ==> IsSunday(HolyFamily(y))
  {
    var c := Christmas(y);
    assert Day(y, 12, 30) == c + 5 && Day(y, 12, 31) == c + 6;
    if IsSunday(c) {
      SundayOffset(c, 5);
    } else {
      WeekdayPeriodic(c, 1);
      assert NextSunday(c) != c + 7;
    }
  }

  /** `addDays(nextSunday(christmasDay), 7)` for the Christmas of year `y`. */
  function SecondSundayAfterChristmas(y: int): int {
    NextSunday(Christmas(y)) + 7
  }

  /** Whether the Christmas season of year `y` has a 2nd Sunday after
      Christmas: only under the option, and only before the Epiphany. */
  predicate HasSecondSundayAfterChristmas(y: int, onJan6: bool) {
    onJan6 && SecondSundayAfterChristmas(y - 1) < Epiphany(y, onJan6)
  }

  /** When it exists, the 2nd Sunday after Christmas is a Sunday from 2 to
      5 January; under the option, a Sunday from 2 to 5 January is always it. */
  lemma SecondSundayAfterChristmasPlacement(y: int, onJan6: bool)
    ensures HasSecondSundayAfterChristmas(y, onJan6) ==>
      IsSunday(SecondSundayAfterChristmas(y - 1)) &&
      Day(y, 1, 2) <= SecondSundayAfterChristmas(y - 1) <= Day(y, 1, 5)
    ensures onJan6 ==> forall k :: Day(y, 1, 2) <= k <= Day(y, 1, 5) && IsSunday(k) ==>
      HasSecondSundayAfterChristmas(y, onJan6) && SecondSundayAfterChristmas(y - 1) == k
  {
    var c := Christmas(y - 1);
    var n := Day(y, 1, 1);
    NewYear(y - 1);
    assert Day(y - 1, 12, 31) == c + 6;
    assert n == c + 7;
    assert Day(y, 1, 2) == n + 1 && Day(y, 1, 5) == n + 4 && Day(y, 1, 6) == n + 5;
    var ss := SecondSundayAfterChristmas(y - 1);
    WeekdayPeriodic(NextSunday(c), 1);
    if onJan6 {
      forall k | Day(y, 1, 2) <= k <= Day(y, 1, 5) && IsSunday(k)
        ensures HasSecondSundayAfterChristmas(y, onJan6) && ss == k
      {
        WeekdayPeriodic(k, -1);
        assert NextSunday(c) <= k - 7;
        SameWeekdayWithinWeek(ss, k);
      }
    }
  }

  // ----- movable celebrations -----

  /** The Annunciation: 25 March, moved to the 26th when it is a Sunday of
      Lent before Palm Sunday, and to the Monday after the second Sunday of
      Easter when it falls from Palm Sunday to that Sunday. */
  function Annunciation(y: int): int {
    var easter := Easter(y);
    var march25 := Day(y, 3, 25);
    if IsSunday(march25) && AshWednesday(y) <= march25 <= PreviousSunday(PreviousSunday(easter)) then
      Day(y, 3, 26)
    else if PreviousSunday(easter) <= march25 <= NextSunday(easter) then
      NextMonday(NextSunday(easter))
    else
      march25
  }

  /** The Annunciation is never kept on a Sunday of Lent nor from Palm Sunday
      to the second Sunday of Easter; when moved it lands on a Monday. */
  lemma AnnunciationPlacement(y: int)
    ensures var a := Annunciation(y); var e := Easter(y);
      && !(AshWednesday(y) <= a < e && IsSunday(a))
      && !(e - 7 <= a <= e + 7)
      && (a == Day(y, 3, 25) || Weekday(a) == Monday)
    ensures Easter(y) - 7 <= Day(y, 3, 25) <= Easter(y) + 7 ==> Annunciation(y) == Easter(y) + 8
  {
    var e := Easter(y);
    var march25 := Day(y, 3, 25);
    assert Day(y, 3, 26) == march25 + 1;
    EasterIsSunday(y);
    NeighboursOfSunday(e);
    NeighboursOfSunday(e - 7);
    NeighboursOfSunday(e + 7);
    assert PreviousSunday(PreviousSunday(e)) == e - 14;
    assert NextMonday(NextSunday(e)) == e + 8;
    SundayOffset(e, 8);
    if IsSunday(march25) {
      SundayOffset(march25, 1);
      if march25 < e {
        SundaysApart(march25, e);
      }
    }
  }

  /** The Annunciation is kept on 25 or 26 March or on the Monday after the
      Second Sunday of Easter. */
  lemma AnnunciationDays(y: int)
    ensures Annunciation(y) == Day(y, 3, 25) || Annunciation(y) == Day(y, 3, 26) || Annunciation(y) == Easter(y) + 8
  {
    var e := Easter(y);
    EasterIsSunday(y);
    NeighboursOfSunday(e);
    WeekdayPeriodic(e, 1);
    NeighboursOfSunday(e + 7);
  }

  function TrinitySunday(y: int): int {
    NextSunday(Pentecost(y))
  }

  function BodyAndBloodOfChrist(y: int): int {
    NextSunday(TrinitySunday(y))
  }

  function SacredHeart(y: int): int {
    NextFriday(BodyAndBloodOfChrist(y))
  }

  /** Trinity Sunday, Corpus Christi and the Sacred Heart follow Pentecost by
      one week, two weeks and 19 days. */
  lemma PostPentecostOffsets(y: int)
    ensures TrinitySunday(y) == Pentecost(y) + 7 && IsSunday(TrinitySunday(y))
    ensures BodyAndBloodOfChrist(y) == Pentecost(y) + 14 && IsSunday(BodyAndBloodOfChrist(y))
    ensures SacredHeart(y) == Pentecost(y) + 19 && Weekday(SacredHeart(y)) == Friday
  {
    EasterOffsets(y);
    NeighboursOfSunday(Pentecost(y));
    NeighboursOfSunday(Pentecost(y) + 7);
    NeighboursOfSunday(Pentecost(y) + 14);
  }
}
