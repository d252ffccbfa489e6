/** The celebrations outside the seasonal walks: the saints and movable
    celebrations kept on a fixed day and month, the Annunciation of the
    Lord, and the solemnities after Pentecost. */
module Celebrations {
  import opened Wrappers
  import opened Text
  import opened Dates
  import opened DateFormat
  import opened Schema
  import opened Selection
  import opened Anchors

  /** `setYear(parse(dd/MM), year)`: JavaScript's `setFullYear` keeps the day
      and month and lets a day past the month's end roll into the next month
      (29 February in a common year becomes 1 March). */
  function SetYear(year: int, day: int, month: int): int
    requires 1 <= month <= 12
  {
    Day(year, month, 1) + day - 1
  }

  /** On a date that exists in `year`, `SetYear` is that date. */
  lemma SetYearValid(year: int, day: int, month: int)
    requires ValidDate(Date(year, month, day))
    ensures SetYear(year, day, month) == Day(year, month, day)
    ensures FromDayNumber(SetYear(year, day, month)) == Date(year, month, day)
  {
    FromDayNumberRoundTrip(Date(year, month, day));
  }

  /** The entries one fixed-date row gives: none when its weekday-type tag is
      not a day and month of the reference year (the year the generator runs
      in), otherwise the row dated that day and month of `year`. */
  function CelebrationEntry(e: CalendarEntry, year: int, referenceYear: int): (r: seq<CalendarEntryData>)
    ensures |r| <= 1
    ensures |r| == 1 <==> ParseDayMonth(e.weekdayType, referenceYear).Some?
    ensures forall x :: x in r ==> x.entry == e
  {
    match ParseDayMonth(e.weekdayType, referenceYear)
    case None => []
    case Some((day, month)) =>
      var n := SetYear(year, day, month);
      [CalendarEntryData(e, DayName(n), FormatDay(n))]
  }

  /** `rows.flatMap(...)`. */
  function CelebrationRows(rows: seq<CalendarEntry>, year: int, referenceYear: int): (r: seq<CalendarEntryData>)
    ensures |r| <= |rows|
  {
    if rows == [] then []
    else CelebrationEntry(rows[0], year, referenceYear) + CelebrationRows(rows[1..], year, referenceYear)
  }

  /** `generateCelebration`: one group of the saints' rows then the movable
      celebrations' rows. */
  function Generate(t: Tables, year: int, referenceYear: int): (r: seq<seq<CalendarEntryData>>)
    ensures |r| == 1
  {
    [CelebrationRows(t.saint + t.movable, year, referenceYear)]
  }

  predicate HasDayMonth(e: CalendarEntry, referenceYear: int) {
    ParseDayMonth(e.weekdayType, referenceYear).Some?
  }

  /** The rows with a day-and-month tag, in table order. */
  function Dated(rows: seq<CalendarEntry>, referenceYear: int): (r: seq<CalendarEntry>)
    ensures forall e :: e in r <==> e in rows && HasDayMonth(e, referenceYear)
  {
    if rows == [] then []
    else if HasDayMonth(rows[0], referenceYear) then [rows[0]] + Dated(rows[1..], referenceYear)
    else Dated(rows[1..], referenceYear)
  }

  /** The group keeps, in table order, exactly the rows with a day-and-month
      tag: entry `i` comes from the `i`-th such row. */
  lemma {:induction false} CelebrationRowsKeepDated(rows: seq<CalendarEntry>, year: int, referenceYear: int)
    ensures |CelebrationRows(rows, year, referenceYear)| == |Dated(rows, referenceYear)|
    ensures forall i :: 0 <= i < |Dated(rows, referenceYear)| ==>
      CelebrationRows(rows, year, referenceYear)[i].entry == Dated(rows, referenceYear)[i]
  {
    if rows != [] {
      CelebrationRowsKeepDated(rows[1..], year, referenceYear);
      var head := CelebrationEntry(rows[0], year, referenceYear);
      var tail := CelebrationRows(rows[1..], year, referenceYear);
      var r := CelebrationRows(rows, year, referenceYear);
      var dated := Dated(rows, referenceYear);
      var rest := Dated(rows[1..], referenceYear);
      assert r == head + tail;
      if HasDayMonth(rows[0], referenceYear) {
        assert dated == [rows[0]] + rest;
        EntriesCons(head, tail, rows[0], rest);
      } else {
        assert head == [];
        assert dated == rest;
      }
    }
  }

  /** One entry of row `x` in front of entries that follow `rest` row by row. */
  lemma EntriesCons(head: seq<CalendarEntryData>, tail: seq<CalendarEntryData>, x: CalendarEntry, rest: seq<CalendarEntry>)
    requires |head| == 1 && head[0].entry == x
    requires |tail| == |rest| && forall i :: 0 <= i < |rest| ==> tail[i].entry == rest[i]
    ensures |head + tail| == |[x] + rest|
    ensures forall i :: 0 <= i < |[x] + rest| ==> (head + tail)[i].entry == ([x] + rest)[i]
  {
  }

  /** Every entry is dated `SetYear` of its own row's day and month. */
  lemma {:induction false} CelebrationRowsDates(rows: seq<CalendarEntry>, year: int, referenceYear: int)
    ensures forall x :: x in CelebrationRows(rows, year, referenceYear) ==>
      && ParseDayMonth(x.entry.weekdayType, referenceYear).Some?
      && var (day, month) := ParseDayMonth(x.entry.weekdayType, referenceYear).value;
         x.date == FormatDay(SetYear(year, day, month)) && x.weekday == DayName(SetYear(year, day, month))
  {
    if rows != [] {
      CelebrationRowsDates(rows[1..], year, referenceYear);
    }
  }

  /** A row tagged with a day and month that exists in `year` is dated that
      very day: its date reads the row's own tag followed by the year. */
  lemma CelebrationDate(e: CalendarEntry, year: int, referenceYear: int)
    requires ParseDayMonth(e.weekdayType, referenceYear).Some?
    requires var (day, month) := ParseDayMonth(e.weekdayType, referenceYear).value;
      ValidDate(Date(year, month, day))
    ensures CelebrationEntry(e, year, referenceYear)[0].date == e.weekdayType + "/" + FormatYear(year)
  {
    var s := e.weekdayType;
    var (day, month) := ParseDayMonth(s, referenceYear).value;
    SetYearValid(year, day, month);
    TwoDigitsCanonical(s[0..2]);
    TwoDigitsCanonical(s[3..5]);
    assert s == s[0..2] + "/" + s[3..5];
  }

  /** When the generator runs in a leap year, a row tagged 29 February is kept
      on 1 March of a common year. */
  lemma LeapDayRollsOver(e: CalendarEntry, year: int, referenceYear: int)
    requires e.weekdayType == "29/02" && IsLeapYear(referenceYear) && !IsLeapYear(year)
    ensures CelebrationEntry(e, year, referenceYear) ==
      [CalendarEntryData(e, DayName(Day(year, 3, 1)), FormatDay(Day(year, 3, 1)))]
  {
    ParseLeapDay(referenceYear);
    LeapDayOfCommonYear(year);
  }

  lemma ParseLeapDay(referenceYear: int)
    requires IsLeapYear(referenceYear)
    ensures ParseDayMonth("29/02", referenceYear) == Some((29, 2))
  {
    var s := "29/02";
    assert s[0..2] == "29" && s[3..5] == "02";
    DigitsValueOfTwo(s[0..2]);
    DigitsValueOfTwo(s[3..5]);
  }

  lemma LeapDayOfCommonYear(year: int)
    requires !IsLeapYear(year)
    ensures SetYear(year, 29, 2) == Day(year, 3, 1)
  {
    DaysBeforeMonthStep(year, 2);
  }

  /** A row whose weekday-type tag is not a day and month gives nothing. */
  lemma UndatedRowDropped(e: CalendarEntry, year: int, referenceYear: int)
    requires |e.weekdayType| != 5
    ensures CelebrationEntry(e, year, referenceYear) == []
  {
  }

  // ----- the Annunciation of the Lord -----

  /** `generateAnnunciationOfTheLord`: one group, dated the Annunciation. */
  function AnnunciationGroup(k: KeySet, t: Tables, year: int): (r: seq<seq<CalendarEntryData>>)
    ensures |r| == 1 && DatedOn(r[0], Annunciation(year))
  {
    Feast(t, k.annunciation, year, Annunciation(year))
  }

  // ----- the solemnities after Pentecost -----

  /** `generatePostPentecostSolemnity`: Trinity Sunday, the Body and Blood of
      Christ and the Sacred Heart, each from the rows of the year's cycle. */
  function PostPentecost(k: KeySet, t: Tables, year: int): (r: seq<seq<CalendarEntryData>>)
    ensures |r| == 3
  {
    Feast(t, k.trinitySunday, year, TrinitySunday(year))
    + Feast(t, k.bodyAndBlood, year, BodyAndBloodOfChrist(year))
    + Feast(t, k.sacredHeart, year, SacredHeart(year))
  }

  /** The three solemnities after a Pentecost `p`, dates resolved. */
  function AfterPentecost(k: KeySet, t: Tables, year: int, p: int): seq<seq<CalendarEntryData>> {
    Feast(t, k.trinitySunday, year, p + 7)
    + Feast(t, k.bodyAndBlood, year, p + 14)
    + Feast(t, k.sacredHeart, year, p + 19)
  }

  /** The days of the three solemnities after a Pentecost `p`. */
  function AfterPentecostDays(p: int): seq<int> {
    [p + 7, p + 14, p + 19]
  }

  lemma AfterPentecostDates(k: KeySet, t: Tables, year: int, p: int)
    ensures |AfterPentecost(k, t, year, p)| == |AfterPentecostDays(p)|
    ensures forall i :: 0 <= i < |AfterPentecostDays(p)| ==>
      DatedOn(AfterPentecost(k, t, year, p)[i], AfterPentecostDays(p)[i])
  {
    var g0 := Feast(t, k.trinitySunday, year, p + 7);
    var g1 := Feast(t, k.bodyAndBlood, year, p + 14);
    var g2 := Feast(t, k.sacredHeart, year, p + 19);
    DatedConcat(g0, [p + 7], g1, [p + 14]);
    DatedConcat(g0 + g1, [p + 7] + [p + 14], g2, [p + 19]);
    assert [p + 7] + [p + 14] + [p + 19] == AfterPentecostDays(p);
  }

  lemma PostPentecostIsAfter(k: KeySet, t: Tables, year: int)
    ensures PostPentecost(k, t, year) == AfterPentecost(k, t, year, Pentecost(year))
  {
    PostPentecostOffsets(year);
  }

  /** Trinity Sunday is the Sunday after Pentecost, Corpus Christi the Sunday
      after that, and the Sacred Heart the Friday after Corpus Christi. */
  lemma PostPentecostDates(k: KeySet, t: Tables, year: int)
    ensures |PostPentecost(k, t, year)| == 3
    ensures DatedOn(PostPentecost(k, t, year)[0], Pentecost(year) + 7) && IsSunday(Pentecost(year) + 7)
    ensures DatedOn(PostPentecost(k, t, year)[1], Pentecost(year) + 14) && IsSunday(Pentecost(year) + 14)
    ensures DatedOn(PostPentecost(k, t, year)[2], Pentecost(year) + 19) && Weekday(Pentecost(year) + 19) == Friday
  {
    PostPentecostOffsets(year);
    var p := Pentecost(year);
    PostPentecostIsAfter(k, t, year);
    AfterPentecostDates(k, t, year, p);
    var days := AfterPentecostDays(p);
    assert days[0] == p + 7 && days[1] == p + 14 && days[2] == p + 19;
  }
}
