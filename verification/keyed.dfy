/** Every row the seasonal generators write carries a date that reads back
    as the day it was written for, in the liturgical years 2 .. 9999 (their
    days fall in the civil years `year - 1` and `year`, which 'yyyy' prints
    as four digits). The calendar's sort therefore sees a key on every
    generated row. */
module CalendarDates {
  import opened Wrappers
  import opened Dates
  import opened DateFormat
  import opened Schema
  import opened Selection
  import opened Anchors
  import opened Sorting
  import opened Calendar
  import AdventSeason
  import ChristmasSeason
  import OrdinaryTime
  import LentSeason
  import EasterSeason
  import Celebrations

  predicate GroupsKeyed(groups: seq<seq<CalendarEntryData>>) {
    forall i :: 0 <= i < |groups| ==> AllKeyed(groups[i], DayKey)
  }

  /** A day between the first day of year `lo` and the last of year `hi` is in one of those years. */
  lemma YearWithin(n: int, lo: int, hi: int)
    requires DaysBeforeYear(lo) < n <= DaysBeforeYear(hi + 1)
    ensures lo <= FromDayNumber(n).year <= hi
  {
    var dt := FromDayNumber(n);
    DayNumberWithinYear(dt);
    if dt.year < lo {
      DaysBeforeYearMonotone(dt.year, lo);
      if dt.year + 1 < lo {
        DaysBeforeYearMonotone(dt.year + 1, lo);
      }
    }
    if dt.year > hi {
      DaysBeforeYearMonotone(hi, dt.year);
      if hi + 1 < dt.year {
        DaysBeforeYearMonotone(hi + 1, dt.year);
      }
    }
  }

  /** A group dated on a day of the civil years `year - 1` and `year` has a key on every row. */
  lemma WindowGroupKeyed(year: int, g: seq<CalendarEntryData>, d: int)
    requires 2 <= year <= 9999 && DatedOn(g, d)
    requires Day(year - 1, 1, 1) <= d <= Day(year, 12, 31)
    ensures AllKeyed(g, DayKey)
  {
    YearStep(year);
    YearWithin(d, year - 1, year);
    DatedGroupKeyed(g, d);
  }

  lemma {:induction false} FlattenKeyed(groups: seq<seq<CalendarEntryData>>)
    requires GroupsKeyed(groups)
    ensures AllKeyed(Flatten(groups), DayKey)
  {
    if groups != [] {
      var rest := groups[1..];
      assert GroupsKeyed(rest) by {
        forall i | 0 <= i < |rest| ensures AllKeyed(rest[i], DayKey) {
          assert rest[i] == groups[i + 1];
        }
      }
      FlattenKeyed(rest);
      var r := Flatten(groups);
      assert r == groups[0] + Flatten(rest);
      assert AllKeyed(groups[0], DayKey);
      forall i | 0 <= i < |r| ensures DayKey(r[i]).Some? {
        if i >= |groups[0]| {
          assert r[i] == Flatten(rest)[i - |groups[0]|];
        }
      }
    }
  }

  lemma KeyedConcat(a: seq<seq<CalendarEntryData>>, b: seq<seq<CalendarEntryData>>)
    requires GroupsKeyed(a) && GroupsKeyed(b)
    ensures GroupsKeyed(a + b)
  {
    forall i | 0 <= i < |a + b| ensures AllKeyed((a + b)[i], DayKey) {
      if i >= |a| {
        assert (a + b)[i] == b[i - |a|];
      }
    }
  }

  // ----- season by season -----

  lemma AdventKeyed(k: KeySet, t: Tables, year: int)
    requires 2 <= year <= 9999
    ensures GroupsKeyed(AdventSeason.Generate(k, t, year))
  {
    var g := AdventSeason.Generate(k, t, year);
    var a1 := Advent1(year - 1);
    var days := AdventSeason.Days(year);
    AdventSeason.GenerateDates(k, t, year);
    AdventSeason.AdventLength(year);
    assert forall i :: 0 <= i < |days| ==> days[i] == a1 + i;
    AdventWindow(year);
    DaysKeyed(year, g, days);
  }

  lemma AdventWindow(year: int)
    ensures Day(year - 1, 1, 1) <= Advent1(year - 1)
    ensures Day(year - 1, 12, 24) < Day(year, 12, 31)
  {
    Advent1Placement(year - 1);
    NewYear(year - 1);
  }

  /** Groups dated on any days inside the window all have keys. */
  lemma DaysKeyed(year: int, g: seq<seq<CalendarEntryData>>, days: seq<int>)
    requires 2 <= year <= 9999 && |g| == |days|
    requires forall i :: 0 <= i < |g| ==> DatedOn(g[i], days[i])
    requires forall i :: 0 <= i < |days| ==> Day(year - 1, 1, 1) <= days[i] <= Day(year, 12, 31)
    ensures GroupsKeyed(g)
  {
    forall i | 0 <= i < |g| ensures AllKeyed(g[i], DayKey) {
      WindowGroupKeyed(year, g[i], days[i]);
    }
  }

  lemma ChristmasKeyed(k: KeySet, t: Tables, year: int, onJan6: bool)
    requires 2 <= year <= 9999
    ensures GroupsKeyed(ChristmasSeason.Generate(k, t, year, onJan6))
  {
    var days := ChristmasSeason.GroupDays(year, onJan6);
    ChristmasSeason.GenerateDates(k, t, year, onJan6);
    ChristmasSeason.SeasonSpan(year, onJan6);
    ChristmasWindow(year, onJan6);
    assert forall i :: 0 <= i < |days| ==> days[i] in days;
    DaysKeyed(year, ChristmasSeason.Generate(k, t, year, onJan6), days);
  }

  lemma ChristmasWindow(year: int, onJan6: bool)
    ensures Day(year - 1, 1, 1) <= Christmas(year - 1)
    ensures Baptism(year, onJan6) <= Day(year, 12, 31)
  {
    BaptismPlacement(year, onJan6);
  }

  lemma OrdinaryKeyed(t: Tables, year: int, onJan6: bool)
    requires 2 <= year <= 9999
    ensures GroupsKeyed(OrdinaryTime.Generate(t, year, onJan6))
  {
    FirstPartKeyed(t, year, onJan6);
    SecondPartKeyed(t, year);
    KeyedConcat(OrdinaryTime.FirstPart(t, year, onJan6), OrdinaryTime.SecondPart(t, year));
  }

  lemma FirstPartKeyed(t: Tables, year: int, onJan6: bool)
    requires 2 <= year <= 9999
    ensures GroupsKeyed(OrdinaryTime.FirstPart(t, year, onJan6))
  {
    OrdinaryTime.PartsWellFormed(year, onJan6);
    OrdinaryWindow(year, onJan6);
    FirstWalkKeyed(t, year, Baptism(year, onJan6), AshWednesday(year) - 1);
  }

  lemma FirstWalkKeyed(t: Tables, year: int, b: int, end: int)
    requires 2 <= year <= 9999 && b <= end
    requires Day(year - 1, 1, 1) <= b && end <= Day(year, 12, 31)
    ensures GroupsKeyed(OrdinaryTime.FirstWalk(t, year, b, end))
  {
    var days := EachDay(b, end);
    assert forall i :: 0 <= i < |days[1..]| ==> days[1..][i] in days;
    OrdinaryTime.FirstWalkDates(t, year, b, end);
    DaysKeyed(year, OrdinaryTime.FirstWalk(t, year, b, end), days[1..]);
  }

  lemma SecondPartKeyed(t: Tables, year: int)
    requires 2 <= year <= 9999
    ensures GroupsKeyed(OrdinaryTime.SecondPart(t, year))
  {
    OrdinaryTime.PartsWellFormed(year, false);
    OrdinaryWindow(year, false);
    OrdinaryTime.SecondPartIsWalk(t, year);
    SecondWalkKeyed(t, year, Pentecost(year), Advent1(year), OrdinaryTime.SecondPartStart(year));
  }

  /** The walk over the days strictly between `p` and `a`, inside the window. */
  lemma SecondWalkKeyed(t: Tables, year: int, p: int, a: int, order: int)
    requires 2 <= year <= 9999 && p < a
    requires Day(year - 1, 1, 1) <= p && a <= Day(year, 12, 31)
    ensures GroupsKeyed(OrdinaryTime.SecondWalk(t, year, p + 1, a - 1, order))
  {
    var days := EachDay(p + 1, a - 1);
    assert forall i :: 0 <= i < |days| ==> days[i] in days;
    OrdinaryTime.SecondWalkDates(t, year, p + 1, a - 1, order);
    DaysKeyed(year, OrdinaryTime.SecondWalk(t, year, p + 1, a - 1, order), days);
  }

  lemma OrdinaryWindow(year: int, onJan6: bool)
    ensures Day(year - 1, 1, 1) <= Baptism(year, onJan6)
    ensures AshWednesday(year) <= Day(year, 12, 31)
    ensures Day(year - 1, 1, 1) <= Pentecost(year)
    ensures Advent1(year) <= Day(year, 12, 31)
  {
    BaptismPlacement(year, onJan6);
    EasterWindow(year);
    Advent1Placement(year);
    NewYear(year - 1);
  }

  lemma LentKeyed(k: KeySet, t: Tables, year: int)
    requires 2 <= year <= 9999
    ensures GroupsKeyed(LentSeason.Generate(k, t, year))
  {
    var days := LentSeason.GroupDays(year);
    LentSeason.GenerateDates(k, t, year);
    LentSeason.SeasonSpan(year);
    LentWindow(year);
    assert forall i :: 0 <= i < |days| ==> days[i] in days;
    DaysKeyed(year, LentSeason.Generate(k, t, year), days);
  }

  lemma LentWindow(year: int)
    ensures Day(year - 1, 1, 1) <= AshWednesday(year)
    ensures ChrismMass(year) <= Day(year, 12, 31)
  {
    EasterWindow(year);
    LentSeason.EasterAnchors(year);
    NewYear(year - 1);
  }

  lemma EasterKeyed(k: KeySet, t: Tables, year: int, onThe40th: bool)
    requires 2 <= year <= 9999
    ensures GroupsKeyed(EasterSeason.Generate(k, t, year, onThe40th))
  {
    var days := EasterSeason.GroupDays(year, onThe40th);
    EasterSeason.GenerateDates(k, t, year, onThe40th);
    EasterSeason.SeasonSpan(year, onThe40th);
    EasterTimeWindow(year);
    assert forall i :: 0 <= i < |days| ==> days[i] in days;
    DaysKeyed(year, EasterSeason.Generate(k, t, year, onThe40th), days);
  }

  lemma EasterTimeWindow(year: int)
    ensures Day(year - 1, 1, 1) <= HolyThursday(year)
    ensures Pentecost(year) <= Day(year, 12, 31)
  {
    EasterWindow(year);
    NewYear(year - 1);
  }

  /** A fixed-date row lands in the civil year `year`, 29 February of a
      common year included (it rolls over to 1 March). */
  lemma SetYearWindow(year: int, day: int, month: int)
    requires 1 <= month <= 12 && 1 <= day <= 31
    ensures Day(year - 1, 1, 1) <= Celebrations.SetYear(year, day, month) <= Day(year, 12, 31)
  {
    YearStep(year - 1);
    DaysBeforeMonthStep(year, month);
    if month < 12 {
      DaysBeforeMonthMonotone(year, month, 12);
    }
  }

  lemma CelebrationsKeyed(t: Tables, year: int, referenceYear: int)
    requires 2 <= year <= 9999
    ensures GroupsKeyed(Celebrations.Generate(t, year, referenceYear))
  {
    var rows := t.saint + t.movable;
    var g := Celebrations.CelebrationRows(rows, year, referenceYear);
    Celebrations.CelebrationRowsDates(rows, year, referenceYear);
    forall i | 0 <= i < |g| ensures DayKey(g[i]).Some? {
      assert g[i] in g;
      CelebrationKeyed(g[i], year, referenceYear);
    }
    assert Celebrations.Generate(t, year, referenceYear) == [g];
  }

  lemma CelebrationKeyed(x: CalendarEntryData, year: int, referenceYear: int)
    requires 2 <= year <= 9999
    requires ParseDayMonth(x.entry.weekdayType, referenceYear).Some?
    requires var (day, month) := ParseDayMonth(x.entry.weekdayType, referenceYear).value;
      x.date == FormatDay(Celebrations.SetYear(year, day, month))
    ensures DayKey(x).Some?
  {
    var (day, month) := ParseDayMonth(x.entry.weekdayType, referenceYear).value;
    var n := Celebrations.SetYear(year, day, month);
    SetYearWindow(year, day, month);
    YearStep(year);
    YearWithin(n, year - 1, year);
    ParseFormatDay(n);
  }

  lemma AnnunciationKeyed(k: KeySet, t: Tables, year: int)
    requires 2 <= year <= 9999
    ensures GroupsKeyed(Celebrations.AnnunciationGroup(k, t, year))
  {
    AnnunciationWindow(year);
    DaysKeyed(year, Celebrations.AnnunciationGroup(k, t, year), [Annunciation(year)]);
  }

  lemma AnnunciationWindow(year: int)
    ensures Day(year - 1, 1, 1) <= Annunciation(year) <= Day(year, 12, 31)
  {
    AnnunciationDays(year);
    EasterWindow(year);
    NewYear(year - 1);
    assert Day(year, 3, 26) == Day(year, 3, 25) + 1 && Day(year, 4, 25) + 8 <= Day(year, 12, 31);
  }

  lemma PostPentecostKeyed(k: KeySet, t: Tables, year: int)
    requires 2 <= year <= 9999
    ensures GroupsKeyed(Celebrations.PostPentecost(k, t, year))
  {
    Celebrations.PostPentecostIsAfter(k, t, year);
    PostPentecostWindow(year);
    AfterPentecostKeyed(k, t, year, Pentecost(year));
  }

  lemma AfterPentecostKeyed(k: KeySet, t: Tables, year: int, p: int)
    requires 2 <= year <= 9999
    requires Day(year - 1, 1, 1) <= p && p + 19 <= Day(year, 12, 31)
    ensures GroupsKeyed(Celebrations.AfterPentecost(k, t, year, p))
  {
    var days := Celebrations.AfterPentecostDays(p);
    Celebrations.AfterPentecostDates(k, t, year, p);
    assert days[0] == p + 7 && days[1] == p + 14 && days[2] == p + 19;
    DaysKeyed(year, Celebrations.AfterPentecost(k, t, year, p), days);
  }

  lemma PostPentecostWindow(year: int)
    ensures Day(year - 1, 1, 1) <= Pentecost(year) && Pentecost(year) + 19 <= Day(year, 12, 31)
  {
    EasterWindow(year);
    NewYear(year - 1);
  }

  /** Every row of every generator has a date that parses. */
  lemma SeasonsKeyed(k: KeySet, t: Tables, year: int, onJan6: bool, onThe40th: bool, referenceYear: int)
    requires 2 <= year <= 9999
    ensures GroupsKeyed(Seasons(k, t, year, onJan6, onThe40th, referenceYear))
  {
    var g0 := AdventSeason.Generate(k, t, year);
    var g1 := ChristmasSeason.Generate(k, t, year, onJan6);
    var g2 := OrdinaryTime.Generate(t, year, onJan6);
    var g3 := LentSeason.Generate(k, t, year);
    var g4 := EasterSeason.Generate(k, t, year, onThe40th);
    var g5 := Celebrations.Generate(t, year, referenceYear);
    var g6 := Celebrations.AnnunciationGroup(k, t, year);
    var g7 := Celebrations.PostPentecost(k, t, year);
    AdventKeyed(k, t, year);
    ChristmasKeyed(k, t, year, onJan6);
    OrdinaryKeyed(t, year, onJan6);
    LentKeyed(k, t, year);
    EasterKeyed(k, t, year, onThe40th);
    CelebrationsKeyed(t, year, referenceYear);
    AnnunciationKeyed(k, t, year);
    PostPentecostKeyed(k, t, year);
    KeyedConcat(g0, g1);
    KeyedConcat(g0 + g1, g2);
    KeyedConcat(g0 + g1 + g2, g3);
    KeyedConcat(g0 + g1 + g2 + g3, g4);
    KeyedConcat(g0 + g1 + g2 + g3 + g4, g5);
    KeyedConcat(g0 + g1 + g2 + g3 + g4 + g5, g6);
    KeyedConcat(g0 + g1 + g2 + g3 + g4 + g5 + g6, g7);
  }

  /** The groups with one more group of keyed rows flatten to keyed rows. */
  lemma WithExtraKeyed(groups: seq<seq<CalendarEntryData>>, extra: seq<CalendarEntryData>)
    requires GroupsKeyed(groups) && AllKeyed(extra, DayKey)
    ensures AllKeyed(Flatten(groups + [extra]), DayKey)
  {
    KeyedConcat(groups, [extra]);
    FlattenKeyed(groups + [extra]);
  }

  /** Ascending by parsed date, every date parsing. */
  predicate Ascending(r: seq<CalendarEntryData>) {
    forall i, j :: 0 <= i < j < |r| ==>
      DayKey(r[i]).Some? && DayKey(r[j]).Some? && DayKey(r[i]).value <= DayKey(r[j]).value
  }

  lemma KeyedSortedAscending(r: seq<CalendarEntryData>)
    requires AllKeyed(r, DayKey) && SortedByKey(r, DayKey)
    ensures Ascending(r)
  {
  }

  /** For the years 2 .. 9999, and extra rows of the caller whose dates
      parse, the calendar is in ascending date order. */
  lemma CalendarAscendingForYear(year: int, input: OptionsInput, load: Loader, referenceYear: int, render: Render)
    requires ResolveOptions(input).Success? && 2 <= year <= 9999
    requires AllKeyed(Additional(ResolveOptions(input).value.additionalCalendar, year, input.fields), DayKey)
    ensures Ascending(GenerateLiturgicalCalendar(year, input, load, referenceYear, render).value)
  {
    EntriesKeyed(ResolveOptions(input).value, year, input, load, referenceYear);
    KeyedCalendarAscending(year, input, load, referenceYear, render);
  }

  lemma EntriesKeyed(o: Options, year: int, input: OptionsInput, load: Loader, referenceYear: int)
    requires 2 <= year <= 9999 && AllKeyed(Additional(o.additionalCalendar, year, input.fields), DayKey)
    ensures AllKeyed(Entries(o, year, input, load, referenceYear), DayKey)
  {
    var t := load(o.locale, o.liturgicalDataPath);
    SeasonsKeyed(Current, t, year, o.isEpiphanyOn6thJan, o.isAscensionOfTheLordOn40th, referenceYear);
    WithExtraKeyed(Seasons(Current, t, year, o.isEpiphanyOn6thJan, o.isAscensionOfTheLordOn40th, referenceYear),
                   Additional(o.additionalCalendar, year, input.fields));
  }

  /** When every row before sorting has a date that parses, the calendar
      is ascending. */
  lemma KeyedCalendarAscending(year: int, input: OptionsInput, load: Loader, referenceYear: int, render: Render)
    requires ResolveOptions(input).Success?
    requires AllKeyed(Entries(ResolveOptions(input).value, year, input, load, referenceYear), DayKey)
    ensures Ascending(GenerateLiturgicalCalendar(year, input, load, referenceYear, render).value)
  {
    var o := ResolveOptions(input).value;
    var r := GenerateLiturgicalCalendar(year, input, load, referenceYear, render).value;
    CalendarAscending(year, input, load, referenceYear, render);
    CalendarContents(year, input, load, referenceYear, render);
    var all := Entries(o, year, input, load, referenceYear);
    forall i | 0 <= i < |r| ensures DayKey(r[i]).Some? {
      assert r[i] in r;
      var x :| x in all && r[i] == Fill(x, o.locale, render);
      FillKeepsKey(x, o.locale, render);
    }
    KeyedSortedAscending(r);
  }

  /** The same for the legacy generator. */
  lemma LegacyAscendingForYear(year: int, options: Option<LegacyOptions>, t: Tables, referenceYear: int)
    requires 2 <= year <= 9999
    requires var o := options.GetOr(LegacyOptions(None, None, None));
      o.additionalCalendar.Some? ==>
        AllKeyed(o.additionalCalendar.value(year, o.isEpiphanyOn6thJan, o.isAscensionOfTheLordOn40th), DayKey)
    ensures Ascending(GenerateCalendar(year, options, t, referenceYear))
  {
    LegacyEntriesKeyed(year, options, t, referenceYear);
    LegacyAscending(year, options, t, referenceYear);
    SortSorted(LegacyEntries(year, options, t, referenceYear), DayKey);
    KeyedSortedAscending(GenerateCalendar(year, options, t, referenceYear));
  }

  lemma LegacyEntriesKeyed(year: int, options: Option<LegacyOptions>, t: Tables, referenceYear: int)
    requires 2 <= year <= 9999
    requires var o := options.GetOr(LegacyOptions(None, None, None));
      o.additionalCalendar.Some? ==>
        AllKeyed(o.additionalCalendar.value(year, o.isEpiphanyOn6thJan, o.isAscensionOfTheLordOn40th), DayKey)
    ensures AllKeyed(LegacyEntries(year, options, t, referenceYear), DayKey)
  {
    var o := options.GetOr(LegacyOptions(None, None, None));
    var onJan6 := o.isEpiphanyOn6thJan.GetOr(false);
    var onThe40th := o.isAscensionOfTheLordOn40th.GetOr(false);
    var extra := if o.additionalCalendar.Some? then
                   o.additionalCalendar.value(year, o.isEpiphanyOn6thJan, o.isAscensionOfTheLordOn40th)
                 else [];
    LegacyRowsKeyed(t, year, onJan6, onThe40th, referenceYear, extra);
  }

  lemma LegacyRowsKeyed(t: Tables, year: int, onJan6: bool, onThe40th: bool, referenceYear: int, extra: seq<CalendarEntryData>)
    requires 2 <= year <= 9999 && AllKeyed(extra, DayKey)
    ensures AllKeyed(LegacyRows(t, year, onJan6, onThe40th, referenceYear, extra), DayKey)
  {
    SeasonsKeyed(Legacy, t, year, onJan6, onThe40th, referenceYear);
    WithExtraKeyed(Seasons(Legacy, t, year, onJan6, onThe40th, referenceYear), extra);
  }
}
