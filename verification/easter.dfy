/** The Easter Triduum and Eastertide of the liturgical year `year`: Holy
    Thursday to Easter Sunday, the octave weekdays, the weeks of Easter up
    to Pentecost, and the Ascension of the Lord, either on its Thursday or
    on the Seventh Sunday of Easter. */
module EasterSeason {
  import opened Wrappers
  import opened Dates
  import opened DateFormat
  import opened Schema
  import opened Selection
  import opened Walk
  import opened Anchors

  /** The rows of a weekday of the octave of Easter. */
  function OctaveDay(t: Tables, year: int, day: int): (r: seq<CalendarEntryData>)
    ensures DatedOn(r, day)
  {
    Pick(t.easterWeekday, And(Is(WeekOrderTag, "octaveOfEaster"), Is(WeekdayTypeTag, DayName(day))), YearCycleOf(year), day)
  }

  function Octave(t: Tables, year: int, from: int, to: int): (r: seq<seq<CalendarEntryData>>)
    ensures |r| == |EachDay(from, to)|
    ensures forall i :: 0 <= i < |r| ==> DatedOn(r[i], EachDay(from, to)[i])
  {
    var days := EachDay(from, to);
    seq(|days|, i requires 0 <= i < |days| => OctaveDay(t, year, days[i]))
  }

  /** The rows of one day of week `order`: the eighth Sunday is Pentecost,
      and the seventh the Ascension unless it is kept on its Thursday. */
  function EasterDay(k: KeySet, t: Tables, year: int, onThe40th: bool, day: int, order: int): (r: seq<CalendarEntryData>)
    ensures DatedOn(r, day)
  {
    var cycle := YearCycleOf(year);
    if IsSunday(day) then
      if order == 8 then PickRule(t, k.pentecost, cycle, day)
      else if !onThe40th && order == 7 then PickRule(t, k.ascension, cycle, day)
      else Pick(t.triduumSunday, NumberedSunday(order), cycle, day)
    else Pick(t.easterWeekday, NumberedWeekday(order, day), cycle, day)
  }

  /** The weeks after the octave: the counter starts at 1, Easter week
      being the first, and goes up on each Sunday. */
  function Weeks(k: KeySet, t: Tables, year: int, onThe40th: bool, from: int, to: int): (r: seq<seq<CalendarEntryData>>)
    ensures |r| == |EachDay(from, to)|
    ensures forall i :: 0 <= i < |r| ==> DatedOn(r[i], EachDay(from, to)[i])
  {
    var days := EachDay(from, to);
    var orders := WeekOrders(days, 1);
    seq(|days|, i requires 0 <= i < |days| => EasterDay(k, t, year, onThe40th, days[i], orders[i]))
  }

  /** The Ascension on its Thursday, appended last when so kept. */
  function AscensionGroup(k: KeySet, t: Tables, year: int, onThe40th: bool, day: int): (r: seq<seq<CalendarEntryData>>)
    ensures |r| == (if onThe40th then 1 else 0)
    ensures forall i :: 0 <= i < |r| ==> DatedOn(r[i], day)
  {
    if onThe40th then Feast(t, k.ascension, year, day) else []
  }

  /** `generateEaster`. */
  function Generate(k: KeySet, t: Tables, year: int, onThe40th: bool): seq<seq<CalendarEntryData>> {
    var e := Easter(year);
    Feast(t, k.holyThursday, year, HolyThursday(year))
    + Feast(t, k.goodFriday, year, GoodFriday(year))
    + Feast(t, k.easterVigil, year, EasterVigil(year))
    + Feast(t, k.easterDay, year, e)
    + Octave(t, year, NextMonday(e), NextSaturday(e))
    + Weeks(k, t, year, onThe40th, NextSunday(e), Pentecost(year))
    + AscensionGroup(k, t, year, onThe40th, AscensionOn40th(year))
  }

  /** The groups of the season around a Sunday Easter `e`, anchors resolved. */
  function Resolved(k: KeySet, t: Tables, year: int, onThe40th: bool, e: int): seq<seq<CalendarEntryData>> {
    Feast(t, k.holyThursday, year, e - 3)
    + Feast(t, k.goodFriday, year, e - 2)
    + Feast(t, k.easterVigil, year, e - 1)
    + Feast(t, k.easterDay, year, e)
    + Octave(t, year, e + 1, e + 6)
    + Weeks(k, t, year, onThe40th, e + 7, e + 49)
    + AscensionGroup(k, t, year, onThe40th, e + 39)
  }

  /** The days each group is dated, in order, around Easter `e`. */
  function DaysAround(e: int, onThe40th: bool): seq<int> {
    [e - 3, e - 2, e - 1, e] + EachDay(e + 1, e + 6) + EachDay(e + 7, e + 49) + (if onThe40th then [e + 39] else [])
  }

  function GroupDays(year: int, onThe40th: bool): seq<int> {
    DaysAround(Easter(year), onThe40th)
  }

  lemma GenerateResolved(k: KeySet, t: Tables, year: int, onThe40th: bool)
    ensures Generate(k, t, year, onThe40th) == Resolved(k, t, year, onThe40th, Easter(year))
  {
    var e := Easter(year);
    EasterNeighbours(year);
    ResolvedFrom(k, t, year, onThe40th, e, NextMonday(e), NextSaturday(e), NextSunday(e));
  }

  lemma EasterNeighbours(year: int)
    ensures NextMonday(Easter(year)) == Easter(year) + 1 && NextSaturday(Easter(year)) == Easter(year) + 6
    ensures NextSunday(Easter(year)) == Easter(year) + 7
  {
    EasterIsSunday(year);
    NeighboursOfSunday(Easter(year));
  }

  /** The season's groups with the octave and the weeks starting on the
      days `m`, `sa` and `su` after Easter `e`. */
  lemma ResolvedFrom(k: KeySet, t: Tables, year: int, onThe40th: bool, e: int, m: int, sa: int, su: int)
    requires e == Easter(year) && m == e + 1 && sa == e + 6 && su == e + 7
    ensures Feast(t, k.holyThursday, year, HolyThursday(year))
      + Feast(t, k.goodFriday, year, GoodFriday(year))
      + Feast(t, k.easterVigil, year, EasterVigil(year))
      + Feast(t, k.easterDay, year, e)
      + Octave(t, year, m, sa)
      + Weeks(k, t, year, onThe40th, su, Pentecost(year))
      + AscensionGroup(k, t, year, onThe40th, AscensionOn40th(year)) == Resolved(k, t, year, onThe40th, e)
  {
  }

  /** Around any Easter day `e`, group `i` is dated `DaysAround(e)[i]`. */
  lemma ResolvedDates(k: KeySet, t: Tables, year: int, onThe40th: bool, e: int)
    ensures |Resolved(k, t, year, onThe40th, e)| == |DaysAround(e, onThe40th)|
    ensures forall i :: 0 <= i < |DaysAround(e, onThe40th)| ==>
      DatedOn(Resolved(k, t, year, onThe40th, e)[i], DaysAround(e, onThe40th)[i])
  {
    var g0 := Feast(t, k.holyThursday, year, e - 3);
    var g1 := Feast(t, k.goodFriday, year, e - 2);
    var g2 := Feast(t, k.easterVigil, year, e - 1);
    var g3 := Feast(t, k.easterDay, year, e);
    var g4 := Octave(t, year, e + 1, e + 6);
    var g5 := Weeks(k, t, year, onThe40th, e + 7, e + 49);
    var g6 := AscensionGroup(k, t, year, onThe40th, e + 39);
    var d4, d5 := EachDay(e + 1, e + 6), EachDay(e + 7, e + 49);
    var d6 := if onThe40th then [e + 39] else [];
    DatedConcat(g0, [e - 3], g1, [e - 2]);
    assert [e - 3] + [e - 2] == [e - 3, e - 2];
    DatedConcat(g0 + g1, [e - 3, e - 2], g2, [e - 1]);
    assert [e - 3, e - 2] + [e - 1] == [e - 3, e - 2, e - 1];
    DatedConcat(g0 + g1 + g2, [e - 3, e - 2, e - 1], g3, [e]);
    assert [e - 3, e - 2, e - 1] + [e] == [e - 3, e - 2, e - 1, e];
    DatedConcat(g0 + g1 + g2 + g3, [e - 3, e - 2, e - 1, e], g4, d4);
    DatedConcat(g0 + g1 + g2 + g3 + g4, [e - 3, e - 2, e - 1, e] + d4, g5, d5);
    DatedConcat(g0 + g1 + g2 + g3 + g4 + g5, [e - 3, e - 2, e - 1, e] + d4 + d5, g6, d6);
  }

  /** Group `i` of the season is dated `GroupDays(year, onThe40th)[i]`. */
  lemma GenerateDates(k: KeySet, t: Tables, year: int, onThe40th: bool)
    ensures |Generate(k, t, year, onThe40th)| == |GroupDays(year, onThe40th)|
    ensures forall i :: 0 <= i < |GroupDays(year, onThe40th)| ==>
      DatedOn(Generate(k, t, year, onThe40th)[i], GroupDays(year, onThe40th)[i])
  {
    GenerateResolved(k, t, year, onThe40th);
    ResolvedDates(k, t, year, onThe40th, Easter(year));
  }

  /** The season runs from Holy Thursday to Pentecost: every group is dated
      in that span and every day of it has a group; the season has 53 groups,
      or 54 with the Ascension on its Thursday, which is then dated twice. */
  lemma SeasonSpan(year: int, onThe40th: bool)
    ensures forall d :: d in GroupDays(year, onThe40th) <==> HolyThursday(year) <= d <= Pentecost(year)
    ensures |GroupDays(year, onThe40th)| == if onThe40th then 54 else 53
  {
    DaysAroundSpan(Easter(year), onThe40th);
  }

  lemma DaysAroundSpan(e: int, onThe40th: bool)
    ensures forall d :: d in DaysAround(e, onThe40th) <==> e - 3 <= d <= e + 49
    ensures |DaysAround(e, onThe40th)| == if onThe40th then 54 else 53
  {
  }

  /** Day `d` of the weeks from the Second Sunday of Easter `s` is in week
      `(d - s) / 7 + 2`. */
  lemma WeeksAt(k: KeySet, t: Tables, year: int, onThe40th: bool, s: int, d: int)
    requires IsSunday(s) && s <= d <= s + 42
    ensures |Weeks(k, t, year, onThe40th, s, s + 42)| == 43
    ensures Weeks(k, t, year, onThe40th, s, s + 42)[d - s] == EasterDay(k, t, year, onThe40th, d, (d - s) / 7 + 2)
  {
    var days := EachDay(s, s + 42);
    var o := (d - s) / 7 + 2;
    WeeksOrder(s, d);
    assert days[d - s] == d && WeekOrders(days, 1)[d - s] == o;
    WeeksElement(k, t, year, onThe40th, s, s + 42, d - s);
  }

  lemma WeeksElement(k: KeySet, t: Tables, year: int, onThe40th: bool, from: int, to: int, i: int)
    requires 0 <= i < |EachDay(from, to)|
    ensures |Weeks(k, t, year, onThe40th, from, to)| == |EachDay(from, to)|
    ensures Weeks(k, t, year, onThe40th, from, to)[i] ==
      EasterDay(k, t, year, onThe40th, EachDay(from, to)[i], WeekOrders(EachDay(from, to), 1)[i])
  {
  }

  lemma WeeksOrder(s: int, d: int)
    requires IsSunday(s) && s <= d <= s + 42
    ensures |EachDay(s, s + 42)| == 43
    ensures EachDay(s, s + 42)[d - s] == d
    ensures WeekOrders(EachDay(s, s + 42), 1)[d - s] == (d - s) / 7 + 2
  {
    WeekOrdersFromSunday(s, s + 42, 1, d - s);
  }

  /** The Second to Sixth Sundays of Easter: a Sunday `d` before the seventh
      takes the Sunday rows of its week `(d - s) / 7 + 2`. */
  lemma SundaysOfEaster(k: KeySet, t: Tables, year: int, onThe40th: bool, s: int, d: int)
    requires IsSunday(s) && IsSunday(d) && s <= d < s + 35
    ensures Weeks(k, t, year, onThe40th, s, s + 42)[d - s] ==
      Pick(t.triduumSunday, NumberedSunday((d - s) / 7 + 2), YearCycleOf(year), d)
  {
    WeeksAt(k, t, year, onThe40th, s, d);
    var order := (d - s) / 7 + 2;
    assert EasterDay(k, t, year, onThe40th, d, order) == Pick(t.triduumSunday, NumberedSunday(order), YearCycleOf(year), d);
  }

  /** The Seventh Sunday of Easter is the Ascension of the Lord unless the
      Ascension is kept on its Thursday; then it takes the Sunday rows of
      week 7. */
  lemma SeventhSunday(k: KeySet, t: Tables, year: int, onThe40th: bool, s: int)
    requires IsSunday(s)
    ensures !onThe40th ==> Weeks(k, t, year, onThe40th, s, s + 42)[35] == PickRule(t, k.ascension, YearCycleOf(year), s + 35)
    ensures onThe40th ==>
      Weeks(k, t, year, onThe40th, s, s + 42)[35] == Pick(t.triduumSunday, NumberedSunday(7), YearCycleOf(year), s + 35)
  {
    LaterSundays(s);
    WeeksAt(k, t, year, onThe40th, s, s + 35);
    assert Weeks(k, t, year, onThe40th, s, s + 42)[35] == EasterDay(k, t, year, onThe40th, s + 35, 7);
  }

  /** The eighth Sunday, the last day of the season, is Pentecost. */
  lemma PentecostSunday(k: KeySet, t: Tables, year: int, onThe40th: bool, s: int)
    requires IsSunday(s)
    ensures Weeks(k, t, year, onThe40th, s, s + 42)[42] == PickRule(t, k.pentecost, YearCycleOf(year), s + 42)
  {
    LaterSundays(s);
    WeeksAt(k, t, year, onThe40th, s, s + 42);
    assert Weeks(k, t, year, onThe40th, s, s + 42)[42] == EasterDay(k, t, year, onThe40th, s + 42, 8);
  }

  lemma LaterSundays(s: int)
    requires IsSunday(s)
    ensures IsSunday(s + 35) && IsSunday(s + 42)
  {
    WeekdayPeriodic(s, 5);
    WeekdayPeriodic(s, 6);
  }

  /** The weekdays after the octave take the weekday rows of their week. */
  lemma WeekdaysOfEaster(k: KeySet, t: Tables, year: int, onThe40th: bool, s: int, d: int)
    requires IsSunday(s) && s <= d <= s + 42 && !IsSunday(d)
    ensures Weeks(k, t, year, onThe40th, s, s + 42)[d - s] ==
      Pick(t.easterWeekday, NumberedWeekday((d - s) / 7 + 2, d), YearCycleOf(year), d)
  {
    WeeksAt(k, t, year, onThe40th, s, d);
  }

  /** In the generated season the weeks start on the Second Sunday of
      Easter, a week after Easter, and reach Pentecost on their last day. */
  lemma WeeksOfGenerate(year: int)
    ensures NextSunday(Easter(year)) == Easter(year) + 7
    ensures Pentecost(year) == NextSunday(Easter(year)) + 42
    ensures IsSunday(Easter(year) + 7)
  {
    EasterIsSunday(year);
    NeighboursOfSunday(Easter(year));
    WeekdayPeriodic(Easter(year), 1);
  }
}
