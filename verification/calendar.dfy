/** The assembled calendar of a liturgical year: the groups of every season,
    the fixed-date celebrations, the Annunciation, the solemnities after
    Pentecost and the caller's extra rows, flattened into one list and
    sorted by date. The current generator then fills in every empty
    description; the legacy one returns the sorted list as it is. */
module Calendar {
  import opened Wrappers
  import opened Dates
  import opened DateFormat
  import opened Schema
  import opened Selection
  import opened Anchors
  import opened Sorting
  import AdventSeason
  import ChristmasSeason
  import OrdinaryTime
  import LentSeason
  import EasterSeason
  import Celebrations

  /** `.flat()` of a list of groups. */
  function Flatten<T>(groups: seq<seq<T>>): (r: seq<T>)
  {
    if groups == [] then [] else groups[0] + Flatten(groups[1..])
  }

  /** An element is in the flattened list exactly when it is in one of the groups. */
  lemma {:induction false} FlattenMembership<T>(groups: seq<seq<T>>, x: T)
    ensures x in Flatten(groups) <==> exists i :: 0 <= i < |groups| && x in groups[i]
  {
    if groups != [] {
      FlattenMembership(groups[1..], x);
      if exists i :: 0 <= i < |groups[1..]| && x in groups[1..][i] {
        var i :| 0 <= i < |groups[1..]| && x in groups[1..][i];
        assert x in groups[i + 1];
      }
      if exists i :: 0 <= i < |groups| && x in groups[i] {
        var i :| 0 <= i < |groups| && x in groups[i];
        if i > 0 {
          assert x in groups[1..][i - 1];
        }
      }
    }
  }

  lemma FlattenContains<T>(groups: seq<seq<T>>, g: seq<T>, x: T)
    requires g in groups && x in g
    ensures x in Flatten(groups)
  {
    FlattenMembership(groups, x);
    var i :| 0 <= i < |groups| && groups[i] == g;
  }

  /** `parse(date, 'dd/MM/yyyy', ...)` as a day number; `None` for an Invalid Date. */
  function DayKey(x: CalendarEntryData): (r: Option<int>)
    ensures r.Some? <==> ParseDate(x.date).Some?
  {
    match ParseDate(x.date)
    case None => None
    case Some(dt) => Some(DayNumber(dt))
  }

  /** Every entry of a group dated on day `d` of the years 1 .. 9999 sorts
      under the key `d`. */
  lemma DatedGroupKeyed(g: seq<CalendarEntryData>, d: int)
    requires DatedOn(g, d) && 1 <= FromDayNumber(d).year <= 9999
    ensures AllKeyed(g, DayKey)
    ensures forall x :: x in g ==> DayKey(x) == Some(d)
  {
    ParseFormatDay(d);
  }

  // ----- the description of a row without one -----

  /** The i18n text written for a row with an empty description, from the
      row's week order, mass type, weekday, season and period of the day in
      the given locale. The translations are not part of this model. */
  type Render = (CalendarEntryData, string) -> string

  /** A row keeps its description unless it is empty, which the rendered
      text replaces; nothing else about the row changes. */
  function Fill(x: CalendarEntryData, locale: string, render: Render): (r: CalendarEntryData)
    ensures r.date == x.date && r.weekday == x.weekday
    ensures r.entry == x.entry.(description := r.entry.description)
    ensures x.entry.description != "" ==> r == x
    ensures x.entry.description == "" ==> r.entry.description == render(x, locale)
  {
    if x.entry.description == "" then
      x.(entry := x.entry.(description := render(x, locale)))
    else
      x
  }

  /** Filling never changes the date a row sorts under. */
  lemma FillKeepsKey(x: CalendarEntryData, locale: string, render: Render)
    ensures DayKey(Fill(x, locale, render)) == DayKey(x)
  {
  }

  /** Filling is idempotent when the rendered text is never empty, and the
      filled row then has a description. */
  lemma FillIdempotent(x: CalendarEntryData, locale: string, render: Render)
    requires render(x, locale) != ""
    ensures Fill(x, locale, render).entry.description != ""
    ensures Fill(Fill(x, locale, render), locale, render) == Fill(x, locale, render)
  {
  }

  function FillAll(s: seq<CalendarEntryData>, locale: string, render: Render): (r: seq<CalendarEntryData>)
    ensures |r| == |s|
    ensures forall i :: 0 <= i < |s| ==> r[i] == Fill(s[i], locale, render)
  {
    MapSeq(s, x => Fill(x, locale, render))
  }

  // ----- the groups -----

  /** The groups of every generator, in the order they are concatenated. */
  function Seasons(k: KeySet, t: Tables, year: int, onJan6: bool, onThe40th: bool, referenceYear: int): seq<seq<CalendarEntryData>> {
    AdventSeason.Generate(k, t, year)
    + ChristmasSeason.Generate(k, t, year, onJan6)
    + OrdinaryTime.Generate(t, year, onJan6)
    + LentSeason.Generate(k, t, year)
    + EasterSeason.Generate(k, t, year, onThe40th)
    + Celebrations.Generate(t, year, referenceYear)
    + Celebrations.AnnunciationGroup(k, t, year)
    + Celebrations.PostPentecost(k, t, year)
  }

  // ----- generateLiturgicalCalendar -----

  /** The tables read from `liturgicalDataPath/locale`. */
  type Loader = (string, string) -> Tables

  /** The caller's extra rows: the hook's result when there is a hook, else none. */
  function Additional(hook: Option<AdditionalCalendar>, year: int, fields: map<string, Json>): seq<CalendarEntryData> {
    if hook.Some? then hook.value(year, fields) else []
  }

  /** The rows before sorting, for resolved options `o`. */
  function Entries(o: Options, year: int, input: OptionsInput, load: Loader, referenceYear: int): seq<CalendarEntryData> {
    var t := load(o.locale, o.liturgicalDataPath);
    Flatten(Seasons(Current, t, year, o.isEpiphanyOn6thJan, o.isAscensionOfTheLordOn40th, referenceYear)
            + [Additional(o.additionalCalendar, year, input.fields)])
  }

  /** `generateLiturgicalCalendar(year, options)`: the calendar, or the
      options' validation error. `referenceYear` is the year of the clock
      the generator runs under, `render` the i18n description. */
  function GenerateLiturgicalCalendar(year: int, input: OptionsInput, load: Loader, referenceYear: int, render: Render)
    : (r: Result<seq<CalendarEntryData>, OptionsError>)
    ensures r.Failure? <==> ResolveOptions(input).Failure?
    ensures r.Failure? ==> r.error == ResolveOptions(input).error
    ensures r.Success? ==> |r.value| == |Entries(ResolveOptions(input).value, year, input, load, referenceYear)|
  {
    var o :- ResolveOptions(input);
    var all := Entries(o, year, input, load, referenceYear);
    Success(FillAll(SortByKey(all, DayKey), o.locale, render))
  }

  /** Filling descriptions after sorting is the same as filling them first:
      the calendar is a stable sort of the filled rows, hence a permutation
      of them. */
  lemma CalendarIsSortedFill(year: int, input: OptionsInput, load: Loader, referenceYear: int, render: Render)
    requires ResolveOptions(input).Success?
    ensures var o := ResolveOptions(input).value;
      var all := FillAll(Entries(o, year, input, load, referenceYear), o.locale, render);
      && GenerateLiturgicalCalendar(year, input, load, referenceYear, render).value == SortByKey(all, DayKey)
      && multiset(GenerateLiturgicalCalendar(year, input, load, referenceYear, render).value) == multiset(all)
  {
    var o := ResolveOptions(input).value;
    var f := x => Fill(x, o.locale, render);
    forall y ensures DayKey(f(y)) == DayKey(y) {
      FillKeepsKey(y, o.locale, render);
    }
    SortMap(Entries(o, year, input, load, referenceYear), DayKey, f);
  }

  /** Every row of every group and of the hook is in the calendar, filled,
      and every row of the calendar is such a row. */
  lemma CalendarContents(year: int, input: OptionsInput, load: Loader, referenceYear: int, render: Render)
    requires ResolveOptions(input).Success?
    ensures var o := ResolveOptions(input).value;
      var r := GenerateLiturgicalCalendar(year, input, load, referenceYear, render).value;
      var all := Entries(o, year, input, load, referenceYear);
      && (forall x :: x in all ==> Fill(x, o.locale, render) in r)
      && (forall y :: y in r ==> exists x :: x in all && y == Fill(x, o.locale, render))
  {
    var o := ResolveOptions(input).value;
    var r := GenerateLiturgicalCalendar(year, input, load, referenceYear, render).value;
    var all := Entries(o, year, input, load, referenceYear);
    CalendarIsSortedFill(year, input, load, referenceYear, render);
    assert r == SortByKey(FillAll(all, o.locale, render), DayKey);
    SortedFillContents(all, o.locale, render);
  }

  /** The rows of the sorted, filled list are the filled rows. */
  lemma SortedFillContents(all: seq<CalendarEntryData>, locale: string, render: Render)
    ensures forall x :: x in all ==> Fill(x, locale, render) in SortByKey(FillAll(all, locale, render), DayKey)
    ensures forall y :: y in SortByKey(FillAll(all, locale, render), DayKey) ==>
      exists x :: x in all && y == Fill(x, locale, render)
  {
    var filled := FillAll(all, locale, render);
    var r := SortByKey(filled, DayKey);
    assert multiset(r) == multiset(filled);
    forall x | x in all ensures Fill(x, locale, render) in r {
      var i :| 0 <= i < |all| && all[i] == x;
      assert filled[i] in multiset(filled);
    }
    forall y | y in r ensures exists x :: x in all && y == Fill(x, locale, render) {
      assert y in multiset(filled);
      var i :| 0 <= i < |filled| && filled[i] == y;
      assert all[i] in all;
    }
  }

  /** When every date parses (as the generated dates of the years 1 .. 9999
      do, by `DatedGroupKeyed`), the calendar is in ascending date order. */
  lemma CalendarAscending(year: int, input: OptionsInput, load: Loader, referenceYear: int, render: Render)
    requires ResolveOptions(input).Success?
    requires AllKeyed(Entries(ResolveOptions(input).value, year, input, load, referenceYear), DayKey)
    ensures SortedByKey(GenerateLiturgicalCalendar(year, input, load, referenceYear, render).value, DayKey)
  {
    var o := ResolveOptions(input).value;
    var all := Entries(o, year, input, load, referenceYear);
    var filled := FillAll(all, o.locale, render);
    CalendarIsSortedFill(year, input, load, referenceYear, render);
    forall i | 0 <= i < |filled| ensures DayKey(filled[i]).Some? {
      FillKeepsKey(all[i], o.locale, render);
    }
    SortSorted(filled, DayKey);
  }

  /** Rows sharing a date keep the order the generators gave them. */
  lemma CalendarStable(year: int, input: OptionsInput, load: Loader, referenceYear: int, render: Render, k: Option<int>)
    requires ResolveOptions(input).Success?
    ensures var o := ResolveOptions(input).value;
      Filter(GenerateLiturgicalCalendar(year, input, load, referenceYear, render).value, DayKey, k)
      == FillAll(Filter(Entries(o, year, input, load, referenceYear), DayKey, k), o.locale, render)
  {
    var o := ResolveOptions(input).value;
    var all := Entries(o, year, input, load, referenceYear);
    var f := x => Fill(x, o.locale, render);
    forall y ensures DayKey(f(y)) == DayKey(y) {
      FillKeepsKey(y, o.locale, render);
    }
    CalendarIsSortedFill(year, input, load, referenceYear, render);
    SortStable(MapSeq(all, f), DayKey, k);
    FilterMap(all, DayKey, k, f);
  }

  /** A filled row is its source row with the description kept when there
      is one and the rendered text otherwise. */
  predicate FilledFrom(y: CalendarEntryData, x: CalendarEntryData, locale: string, render: Render) {
    && y.date == x.date && y.weekday == x.weekday
    && y.entry == x.entry.(description := y.entry.description)
    && y.entry.description == (if x.entry.description == "" then render(x, locale) else x.entry.description)
  }

  /** Every row of the sorted, filled list is filled from a row of `all`. */
  lemma SortedFillDescriptions(all: seq<CalendarEntryData>, locale: string, render: Render)
    ensures forall y :: y in SortByKey(FillAll(all, locale, render), DayKey) ==>
      exists x :: x in all && FilledFrom(y, x, locale, render)
  {
    SortedFillContents(all, locale, render);
    forall y | y in SortByKey(FillAll(all, locale, render), DayKey)
      ensures exists x :: x in all && FilledFrom(y, x, locale, render)
    {
      var x :| x in all && y == Fill(x, locale, render);
      assert FilledFrom(y, x, locale, render);
    }
  }

  /** Every row of the calendar is a generated row with its date, weekday
      and tags unchanged, whose description is kept when it has one and is
      otherwise the text rendered for that row in the chosen locale. */
  lemma CalendarRowDescriptions(year: int, input: OptionsInput, load: Loader, referenceYear: int, render: Render)
    requires ResolveOptions(input).Success?
    ensures var o := ResolveOptions(input).value;
      forall y :: y in GenerateLiturgicalCalendar(year, input, load, referenceYear, render).value ==>
        exists x :: x in Entries(o, year, input, load, referenceYear) && FilledFrom(y, x, o.locale, render)
  {
    var o := ResolveOptions(input).value;
    var all := Entries(o, year, input, load, referenceYear);
    CalendarIsSortedFill(year, input, load, referenceYear, render);
    SortedFillDescriptions(all, o.locale, render);
  }

  /** With a renderer that never yields empty text, no row of the calendar
      is left without a description. */
  lemma CalendarDescriptions(year: int, input: OptionsInput, load: Loader, referenceYear: int, render: Render)
    requires ResolveOptions(input).Success?
    requires forall x, locale :: render(x, locale) != ""
    ensures forall y :: y in GenerateLiturgicalCalendar(year, input, load, referenceYear, render).value ==>
      y.entry.description != ""
  {
    CalendarContents(year, input, load, referenceYear, render);
  }

  /** With `isEpiphanyOn6thJan`, the Epiphany's rows are in the calendar dated
      6 January of `year`. */
  lemma EpiphanyOn6thJanuary(year: int, input: OptionsInput, load: Loader, referenceYear: int, render: Render)
    requires ResolveOptions(input).Success? && ResolveOptions(input).value.isEpiphanyOn6thJan
    ensures var o := ResolveOptions(input).value;
      var g := Feast(load(o.locale, o.liturgicalDataPath), Current.epiphany, year, Epiphany(year, true))[0];
      forall x :: x in g ==>
        && Fill(x, o.locale, render) in GenerateLiturgicalCalendar(year, input, load, referenceYear, render).value
        && Fill(x, o.locale, render).date == "06/01/" + FormatYear(year)
  {
    var o := ResolveOptions(input).value;
    var t := load(o.locale, o.liturgicalDataPath);
    var g := Feast(t, Current.epiphany, year, Epiphany(year, true));
    var groups := Seasons(Current, t, year, true, o.isAscensionOfTheLordOn40th, referenceYear)
                  + [Additional(o.additionalCalendar, year, input.fields)];
    assert g[0] in ChristmasSeason.Generate(Current, t, year, true);
    assert g[0] in groups;
    CalendarContents(year, input, load, referenceYear, render);
    Epiphany6thJanuaryDate(year);
    forall x | x in g[0] ensures x in Entries(o, year, input, load, referenceYear) {
      FlattenContains(groups, g[0], x);
    }
  }

  /** The sixth of January is written `06/01/yyyy`. */
  lemma Epiphany6thJanuaryDate(year: int)
    ensures FormatDay(Epiphany(year, true)) == "06/01/" + FormatYear(year)
  {
    var dt := Date(year, 1, 6);
    FromDayNumberRoundTrip(dt);
    FormatDayIs(Epiphany(year, true), dt);
    JanuarySixth(year);
  }

  lemma FormatDayIs(n: int, dt: Date)
    requires ValidDate(dt) && FromDayNumber(n) == dt
    ensures FormatDay(n) == FormatDate(dt)
  {
  }

  lemma JanuarySixth(year: int)
    ensures FormatDate(Date(year, 1, 6)) == "06/01/" + FormatYear(year)
  {
    assert TwoDigits(6) == "06" && TwoDigits(1) == "01";
  }

  // ----- generateCalendar (legacy) -----

  /** The legacy hook receives the year and the two flags as the caller gave them. */
  type LegacyHook = (int, Option<bool>, Option<bool>) -> seq<CalendarEntryData>

  /** The legacy `Options`: every field optional. */
  datatype LegacyOptions = LegacyOptions(
    isEpiphanyOn6thJan: Option<bool>,
    isAscensionOfTheLordOn40th: Option<bool>,
    additionalCalendar: Option<LegacyHook>)

  /** The legacy rows before sorting; a missing flag is `false`. */
  function LegacyEntries(year: int, options: Option<LegacyOptions>, t: Tables, referenceYear: int): (r: seq<CalendarEntryData>) {
    var o := options.GetOr(LegacyOptions(None, None, None));
    var onJan6 := o.isEpiphanyOn6thJan.GetOr(false);
    var onThe40th := o.isAscensionOfTheLordOn40th.GetOr(false);
    var extra := if o.additionalCalendar.Some? then
                   o.additionalCalendar.value(year, o.isEpiphanyOn6thJan, o.isAscensionOfTheLordOn40th)
                 else [];
    LegacyRows(t, year, onJan6, onThe40th, referenceYear, extra)
  }

  /** The season groups and the hook's rows, flattened. */
  function LegacyRows(t: Tables, year: int, onJan6: bool, onThe40th: bool, referenceYear: int, extra: seq<CalendarEntryData>)
    : seq<CalendarEntryData>
  {
    Flatten(Seasons(Legacy, t, year, onJan6, onThe40th, referenceYear) + [extra])
  }

  /** `generateCalendar(year, options)`: the rows sorted by date. */
  function GenerateCalendar(year: int, options: Option<LegacyOptions>, t: Tables, referenceYear: int): (r: seq<CalendarEntryData>)
    ensures multiset(r) == multiset(LegacyEntries(year, options, t, referenceYear))
  {
    SortByKey(LegacyEntries(year, options, t, referenceYear), DayKey)
  }

  /** When every date parses, the legacy calendar is in ascending date order. */
  lemma LegacyAscending(year: int, options: Option<LegacyOptions>, t: Tables, referenceYear: int)
    requires AllKeyed(LegacyEntries(year, options, t, referenceYear), DayKey)
    ensures SortedByKey(GenerateCalendar(year, options, t, referenceYear), DayKey)
  {
    SortSorted(LegacyEntries(year, options, t, referenceYear), DayKey);
  }

  /** No options and options without any field give the same calendar. */
  lemma LegacyDefaults(year: int, t: Tables, referenceYear: int)
    ensures GenerateCalendar(year, None, t, referenceYear)
         == GenerateCalendar(year, Some(LegacyOptions(None, None, None)), t, referenceYear)
  {
  }

  /** Without options both flags are off and there is no hook. */
  lemma LegacyDefaultFlags(year: int, t: Tables, referenceYear: int)
    ensures LegacyEntries(year, None, t, referenceYear)
         == Flatten(Seasons(Legacy, t, year, false, false, referenceYear) + [[]])
  {
  }

  /** The legacy calendar is stable too: rows sharing a date keep their order. */
  lemma LegacyStable(year: int, options: Option<LegacyOptions>, t: Tables, referenceYear: int, k: Option<int>)
    ensures Filter(GenerateCalendar(year, options, t, referenceYear), DayKey, k)
         == Filter(LegacyEntries(year, options, t, referenceYear), DayKey, k)
  {
    SortStable(LegacyEntries(year, options, t, referenceYear), DayKey, k);
  }
}
