/** Lent of the liturgical year `year`: Ash Wednesday, the Chrism Mass, the
    days after Ash Wednesday, the five Sundays of Lent and Palm Sunday with
    their weeks, and Holy Week up to Wednesday. */
module LentSeason {
  import opened Wrappers
  import opened Dates
  import opened DateFormat
  import opened Schema
  import opened Selection
  import opened Walk
  import opened Anchors

  /** The rows of one day of the numbered weeks; the sixth Sunday is Palm
      Sunday and takes the Palm Sunday rule. */
  function LentDay(k: KeySet, t: Tables, year: int, day: int, order: int): (r: seq<CalendarEntryData>)
    ensures DatedOn(r, day)
  {
    var cycle := YearCycleOf(year);
    if IsSunday(day) then
      if order == 6 then PickRule(t, k.palmSunday, cycle, day)
      else Pick(t.lentSunday, NumberedSunday(order), cycle, day)
    else Pick(t.lentWeekday, NumberedWeekday(order, day), cycle, day)
  }

  /** The rows of a weekday tagged `tag` for the weekday of `day`. */
  function TaggedWeekday(t: Tables, year: int, tag: string, day: int): (r: seq<CalendarEntryData>)
    ensures DatedOn(r, day)
  {
    Pick(t.lentWeekday, And(Is(WeekOrderTag, tag), Is(WeekdayTypeTag, DayName(day))), YearCycleOf(year), day)
  }

  /** One group per day of `from .. to`, each from the weekday rows tagged `tag`. */
  function TaggedDays(t: Tables, year: int, tag: string, from: int, to: int): (r: seq<seq<CalendarEntryData>>)
    ensures |r| == |EachDay(from, to)|
    ensures forall i :: 0 <= i < |r| ==> DatedOn(r[i], EachDay(from, to)[i])
  {
    var days := EachDay(from, to);
    seq(|days|, i requires 0 <= i < |days| => TaggedWeekday(t, year, tag, days[i]))
  }

  /** The numbered weeks: the counter starts at 0 and goes up on each Sunday. */
  function NumberedWeeks(k: KeySet, t: Tables, year: int, from: int, to: int): (r: seq<seq<CalendarEntryData>>)
    ensures |r| == |EachDay(from, to)|
    ensures forall i :: 0 <= i < |r| ==> DatedOn(r[i], EachDay(from, to)[i])
  {
    var days := EachDay(from, to);
    var orders := WeekOrders(days, 0);
    seq(|days|, i requires 0 <= i < |days| => LentDay(k, t, year, days[i], orders[i]))
  }

  function ChrismMassGroup(t: Tables, year: int): (r: seq<seq<CalendarEntryData>>)
    ensures |r| == 1 && DatedOn(r[0], ChrismMass(year))
  {
    [Pick(t.lentWeekday, Is(WeekdayTypeTag, "chrismMass"), YearCycleOf(year), ChrismMass(year))]
  }

  /** `generateLent`. */
  function Generate(k: KeySet, t: Tables, year: int): seq<seq<CalendarEntryData>> {
    var aw, e := AshWednesday(year), Easter(year);
    Feast(t, k.ashWednesday, year, aw)
    + ChrismMassGroup(t, year)
    + TaggedDays(t, year, k.afterAshWednesday, aw + 1, NextSunday(aw) - 1)
    + NumberedWeeks(k, t, year, NextSunday(aw), PreviousSunday(e))
    + TaggedDays(t, year, "holyWeek", PreviousSunday(e) + 1, PreviousWednesday(e))
  }

  /** Around a Sunday Easter `e`: Ash Wednesday is `e - 46`, the First Sunday
      of Lent `e - 42`, Palm Sunday `e - 7`, and the Chrism Mass is kept on
      Holy Thursday `e - 3`. */
  lemma LentAnchors(e: int)
    requires IsSunday(e)
    ensures NextSunday(e - 46) == e - 42
    ensures PreviousSunday(e) == e - 7 && PreviousWednesday(e) == e - 4 && PreviousThursday(e) == e - 3
    ensures IsSunday(e - 42) && IsSunday(e - 7)
  {
    NeighboursOfSunday(e);
    WeekdayPeriodic(e, -6);
    WeekdayPeriodic(e, -1);
    NextSundayIs(e - 46, e - 42);
  }

  lemma EasterAnchors(year: int)
    ensures AshWednesday(year) == Easter(year) - 46
    ensures ChrismMass(year) == Easter(year) - 3
    ensures NextSunday(AshWednesday(year)) == Easter(year) - 42
    ensures PreviousSunday(Easter(year)) == Easter(year) - 7
    ensures PreviousWednesday(Easter(year)) == Easter(year) - 4
    ensures IsSunday(Easter(year) - 42)
  {
    EasterIsSunday(year);
    LentAnchors(Easter(year));
  }

  /** The groups of Lent around a Sunday Easter `e`, anchors resolved. */
  function Resolved(k: KeySet, t: Tables, year: int, e: int): seq<seq<CalendarEntryData>> {
    Feast(t, k.ashWednesday, year, e - 46)
    + [Pick(t.lentWeekday, Is(WeekdayTypeTag, "chrismMass"), YearCycleOf(year), e - 3)]
    + TaggedDays(t, year, k.afterAshWednesday, e - 45, e - 43)
    + NumberedWeeks(k, t, year, e - 42, e - 7)
    + TaggedDays(t, year, "holyWeek", e - 6, e - 4)
  }

  /** The days each group is dated, in order, around Easter `e`. */
  function DaysAround(e: int): seq<int> {
    [e - 46, e - 3] + EachDay(e - 45, e - 43) + EachDay(e - 42, e - 7) + EachDay(e - 6, e - 4)
  }

  /** `Generate` with its anchors resolved. */
  lemma GenerateResolved(k: KeySet, t: Tables, year: int)
    ensures Generate(k, t, year) == Resolved(k, t, year, Easter(year))
  {
    EasterAnchors(year);
  }

  /** Day `d` of the numbered weeks from Sunday `s` is in week
      `(d - s) / 7 + 1`. */
  lemma NumberedWeeksAt(k: KeySet, t: Tables, year: int, s: int, to: int, d: int, i: int, o: int)
    requires IsSunday(s) && to == s + 35 && s <= d <= to && i == d - s && o == i / 7 + 1
    ensures |NumberedWeeks(k, t, year, s, to)| == 36
    ensures NumberedWeeks(k, t, year, s, to)[i] == LentDay(k, t, year, d, o)
  {
    var days := EachDay(s, to);
    NumberedWeeksOrder(s, to, d);
    assert days[i] == d && WeekOrders(days, 0)[i] == o;
    NumberedWeeksElement(k, t, year, s, to, i);
  }

  lemma NumberedWeeksElement(k: KeySet, t: Tables, year: int, from: int, to: int, i: int)
    requires 0 <= i < |EachDay(from, to)|
    ensures |NumberedWeeks(k, t, year, from, to)| == |EachDay(from, to)|
    ensures NumberedWeeks(k, t, year, from, to)[i] ==
      LentDay(k, t, year, EachDay(from, to)[i], WeekOrders(EachDay(from, to), 0)[i])
  {
  }

  lemma NumberedWeeksOrder(s: int, to: int, d: int)
    requires IsSunday(s) && to == s + 35 && s <= d <= to
    ensures |EachDay(s, to)| == 36
    ensures EachDay(s, to)[d - s] == d
    ensures WeekOrders(EachDay(s, to), 0)[d - s] == (d - s) / 7 + 1
  {
    WeekOrdersFromSunday(s, to, 0, d - s);
  }

  /** Around a Sunday Easter `e` the numbered weeks run from the First Sunday
      of Lent `e - 42` to Palm Sunday `e - 7`: day `d` is in week
      `(d - (e - 42)) / 7 + 1`, one to six. */
  lemma WeeksOfLent(k: KeySet, t: Tables, year: int, e: int, d: int)
    requires IsSunday(e) && e - 42 <= d <= e - 7
    ensures |NumberedWeeks(k, t, year, e - 42, e - 7)| == 36
    ensures NumberedWeeks(k, t, year, e - 42, e - 7)[d - (e - 42)] ==
      LentDay(k, t, year, d, (d - (e - 42)) / 7 + 1)
    ensures 1 <= (d - (e - 42)) / 7 + 1 <= 6
  {
    FirstSundayOfLent(e);
    NumberedWeeksAt(k, t, year, e - 42, e - 7, d, d - (e - 42), (d - (e - 42)) / 7 + 1);
    WeekInRange(e - 42, d);
  }

  lemma WeekInRange(s: int, d: int)
    requires s <= d <= s + 35
    ensures 1 <= (d - s) / 7 + 1 <= 6
  {
  }

  lemma FirstSundayOfLent(e: int)
    requires IsSunday(e)
    ensures IsSunday(e - 42)
  {
    WeekdayPeriodic(e, -6);
  }

  /** The Sundays of the numbered weeks from Sunday `s`: Sunday `d` takes the
      Lent Sunday rows of its week, except the sixth, Palm Sunday `s + 35`,
      which takes the Palm Sunday rule. */
  lemma SundaysOfLent(k: KeySet, t: Tables, year: int, s: int, d: int)
    requires IsSunday(s) && IsSunday(d) && s <= d <= s + 35
    ensures NumberedWeeks(k, t, year, s, s + 35)[d - s] ==
      if d == s + 35 then PickRule(t, k.palmSunday, YearCycleOf(year), d)
      else Pick(t.lentSunday, NumberedSunday((d - s) / 7 + 1), YearCycleOf(year), d)
  {
    NumberedWeeksAt(k, t, year, s, s + 35, d, d - s, (d - s) / 7 + 1);
    LastWeekOfLent(s, d);
    var order := (d - s) / 7 + 1;
    assert LentDay(k, t, year, d, order) ==
      if order == 6 then PickRule(t, k.palmSunday, YearCycleOf(year), d)
      else Pick(t.lentSunday, NumberedSunday(order), YearCycleOf(year), d);
  }

  /** Of the Sundays from `s` to `s + 35`, only the last is in week six. */
  lemma LastWeekOfLent(s: int, d: int)
    requires IsSunday(s) && IsSunday(d) && s <= d <= s + 35
    ensures (d - s) / 7 + 1 == 6 <==> d == s + 35
  {
    var q := d / 7 - s / 7;
    assert s == 7 * (s / 7) && d == 7 * (d / 7);
    assert d - s == 7 * q;
  }

  /** The days each group is dated, in order. */
  function GroupDays(year: int): seq<int> {
    DaysAround(Easter(year))
  }

  /** Around any Easter day `e`, group `i` is dated `DaysAround(e)[i]`. */
  lemma ResolvedDates(k: KeySet, t: Tables, year: int, e: int)
    ensures |Resolved(k, t, year, e)| == |DaysAround(e)|
    ensures forall i :: 0 <= i < |DaysAround(e)| ==> DatedOn(Resolved(k, t, year, e)[i], DaysAround(e)[i])
  {
    var g0 := Feast(t, k.ashWednesday, year, e - 46);
    var g1 := [Pick(t.lentWeekday, Is(WeekdayTypeTag, "chrismMass"), YearCycleOf(year), e - 3)];
    var g2 := TaggedDays(t, year, k.afterAshWednesday, e - 45, e - 43);
    var g3 := NumberedWeeks(k, t, year, e - 42, e - 7);
    var g4 := TaggedDays(t, year, "holyWeek", e - 6, e - 4);
    var d2, d3, d4 := EachDay(e - 45, e - 43), EachDay(e - 42, e - 7), EachDay(e - 6, e - 4);
    DatedConcat(g0, [e - 46], g1, [e - 3]);
    assert [e - 46] + [e - 3] == [e - 46, e - 3];
    DatedConcat(g0 + g1, [e - 46, e - 3], g2, d2);
    DatedConcat(g0 + g1 + g2, [e - 46, e - 3] + d2, g3, d3);
    DatedConcat(g0 + g1 + g2 + g3, [e - 46, e - 3] + d2 + d3, g4, d4);
  }

  /** Group `i` of Lent is dated `GroupDays(year)[i]`. */
  lemma GenerateDates(k: KeySet, t: Tables, year: int)
    ensures |Generate(k, t, year)| == |GroupDays(year)|
    ensures forall i :: 0 <= i < |GroupDays(year)| ==> DatedOn(Generate(k, t, year)[i], GroupDays(year)[i])
  {
    GenerateResolved(k, t, year);
    ResolvedDates(k, t, year, Easter(year));
  }

  /** Lent runs from Ash Wednesday to Holy Thursday: every group is dated in
      that span and every day of it has a group. */
  lemma SeasonSpan(year: int)
    ensures forall d :: d in GroupDays(year) <==> AshWednesday(year) <= d <= ChrismMass(year)
  {
    EasterAnchors(year);
    DaysAroundSpan(Easter(year));
  }

  lemma DaysAroundSpan(e: int)
    ensures forall d :: d in DaysAround(e) <==> e - 46 <= d <= e - 3
  {
  }
}
