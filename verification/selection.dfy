/** How a generator picks table rows for a day: exact comparisons of a row's
    tags with literal keys, with the year's cycle, or, through JavaScript's
    unary `+`, with the running week order. The literal keys differ between
    the current generator and the legacy one, so they are gathered in a
    `KeySet` with one instance per file. */
module Selection {
  import opened Wrappers
  import opened Text
  import opened Dates
  import opened DateFormat
  import opened Schema

  /** The string-valued tags a selection compares. */
  datatype Tag = WeekOrderTag | WeekdayTypeTag | YearCycleTag | YearNumberTag | SlugTag | PeriodOfDayTag

  function TagOf(e: CalendarEntry, t: Tag): string {
    match t
    case WeekOrderTag => e.weekOrder
    case WeekdayTypeTag => e.weekdayType
    case YearCycleTag => e.yearCycle
    case YearNumberTag => e.yearNumber
    case SlugTag => e.slug
    case PeriodOfDayTag => e.periodOfDay
  }

  /** A filter predicate over one row. */
  datatype Pred =
    | Is(tag: Tag, value: string)       // d.tag === 'value'
    | NumberEquals(tag: Tag, n: int)    // +d.tag === n
    | SameCycle                         // d.yearCycle === yearCycle
    | And(left: Pred, right: Pred)
    | Or(left: Pred, right: Pred)

  /** Whether row `e` passes `p` in a year whose cycle letter is `cycle`; a
      year without a cycle letter (JavaScript `undefined`) matches no row. */
  predicate Holds(p: Pred, e: CalendarEntry, cycle: Option<string>) {
    match p
    case Is(t, v) => TagOf(e, t) == v
    case NumberEquals(t, n) => NumberIs(TagOf(e, t), n)
    case SameCycle => cycle.Some? && e.yearCycle == cycle.value
    case And(l, r) => Holds(l, e, cycle) && Holds(r, e, cycle)
    case Or(l, r) => Holds(l, e, cycle) || Holds(r, e, cycle)
  }

  /** `rows.filter(...)`: the rows passing `p`, in table order. */
  function Select(rows: seq<CalendarEntry>, p: Pred, cycle: Option<string>): (r: seq<CalendarEntry>)
    ensures |r| <= |rows|
    ensures forall e :: e in r <==> e in rows && Holds(p, e, cycle)
  {
    if rows == [] then []
    else if Holds(p, rows[0], cycle) then [rows[0]] + Select(rows[1..], p, cycle)
    else Select(rows[1..], p, cycle)
  }

  /** Row `i` of `r` is row `ix[i]` of `rows`, the positions increasing: `r`
      is `rows` with some rows left out and the others kept in their order,
      repeats included. */
  predicate InOrderAt<T(==)>(r: seq<T>, rows: seq<T>, ix: seq<int>) {
    && |ix| == |r|
    && (forall i :: 0 <= i < |ix| ==> 0 <= ix[i] < |rows| && r[i] == rows[ix[i]])
    && (forall i, j :: 0 <= i < j < |ix| ==> ix[i] < ix[j])
  }

  /** Putting `x` in front of `tail`, and in front of `r` when it is kept. */
  lemma InOrderCons<T>(x: T, r: seq<T>, tail: seq<T>, rest: seq<int>, keep: bool) returns (ix: seq<int>)
    requires InOrderAt(r, tail, rest)
    ensures InOrderAt(if keep then [x] + r else r, [x] + tail, ix)
    ensures 0 in ix <==> keep
    ensures forall j :: 1 <= j <= |tail| ==> (j in ix <==> j - 1 in rest)
  {
    var shifted := InOrderShift(x, r, tail, rest);
    if keep {
      ix := [0] + shifted;
      InOrderKeep(x, r, tail, shifted);
    } else {
      ix := shifted;
    }
  }

  /** Every position moves up by one when `x` is put in front of `tail`. */
  lemma InOrderShift<T>(x: T, r: seq<T>, tail: seq<T>, rest: seq<int>) returns (shifted: seq<int>)
    requires InOrderAt(r, tail, rest)
    ensures InOrderAt(r, [x] + tail, shifted)
    ensures forall i :: 0 <= i < |shifted| ==> shifted[i] >= 1
    ensures forall j :: 1 <= j <= |tail| ==> (j in shifted <==> j - 1 in rest)
  {
    var rows := [x] + tail;
    shifted := seq(|rest|, i requires 0 <= i < |rest| => rest[i] + 1);
    forall i | 0 <= i < |shifted| ensures r[i] == rows[shifted[i]] {
      assert rows[rest[i] + 1] == tail[rest[i]];
    }
    forall j | 1 <= j <= |tail| ensures j in shifted <==> j - 1 in rest {
      if j in shifted {
        var i :| 0 <= i < |shifted| && shifted[i] == j;
        assert rest[i] == j - 1;
      }
      if j - 1 in rest {
        var i :| 0 <= i < |rest| && rest[i] == j - 1;
        assert shifted[i] == j;
      }
    }
  }

  /** A kept `x` takes position 0, in front of all the others. */
  lemma InOrderKeep<T>(x: T, r: seq<T>, tail: seq<T>, shifted: seq<int>)
    requires InOrderAt(r, [x] + tail, shifted)
    requires forall i :: 0 <= i < |shifted| ==> shifted[i] >= 1
    ensures InOrderAt([x] + r, [x] + tail, [0] + shifted)
  {
    var ix := [0] + shifted;
    forall i | 1 <= i < |ix| ensures ix[i] == shifted[i - 1] && ([x] + r)[i] == r[i - 1] { }
  }

  /** The positions of the rows `Select` keeps. */
  lemma {:induction false} SelectPositions(rows: seq<CalendarEntry>, p: Pred, cycle: Option<string>) returns (ix: seq<int>)
    ensures InOrderAt(Select(rows, p, cycle), rows, ix)
    ensures forall j :: 0 <= j < |rows| ==> (j in ix <==> Holds(p, rows[j], cycle))
  {
    if rows == [] {
      ix := [];
    } else {
      var tail := rows[1..];
      var rest := SelectPositions(tail, p, cycle);
      var keep := Holds(p, rows[0], cycle);
      ix := InOrderCons(rows[0], Select(tail, p, cycle), tail, rest, keep);
      assert rows == [rows[0]] + tail;
      assert Select(rows, p, cycle) == if keep then [rows[0]] + Select(tail, p, cycle) else Select(tail, p, cycle);
      forall j | 1 <= j < |rows| ensures j in ix <==> Holds(p, rows[j], cycle) {
        assert rows[j] == tail[j - 1];
      }
    }
  }

  /** `rows.filter(...)` keeps table order and repeated rows: the selection
      is the table with exactly the rows failing `p` left out. */
  lemma SelectKeepsOrder(rows: seq<CalendarEntry>, p: Pred, cycle: Option<string>)
    ensures exists ix :: (InOrderAt(Select(rows, p, cycle), rows, ix)
      && forall j :: 0 <= j < |rows| ==> (j in ix <==> Holds(p, rows[j], cycle)))
  {
    var ix := SelectPositions(rows, p, cycle);
  }

  /** Filtering a concatenation filters each part in turn. */
  lemma {:induction false} SelectAppend(a: seq<CalendarEntry>, b: seq<CalendarEntry>, p: Pred, cycle: Option<string>)
    ensures Select(a + b, p, cycle) == Select(a, p, cycle) + Select(b, p, cycle)
  {
    if a == [] {
      assert a + b == b;
    } else {
      assert (a + b)[0] == a[0];
      assert (a + b)[1..] == a[1..] + b;
      SelectAppend(a[1..], b, p, cycle);
      if Holds(p, a[0], cycle) {
        assert Select(a + b, p, cycle) == [a[0]] + Select(a[1..] + b, p, cycle);
        assert Select(a, p, cycle) == [a[0]] + Select(a[1..], p, cycle);
      } else {
        assert Select(a + b, p, cycle) == Select(a[1..] + b, p, cycle);
      }
    }
  }

  /** Filtering by `p && q` is filtering by `p` then by `q`. */
  lemma {:induction false} SelectAnd(rows: seq<CalendarEntry>, p: Pred, q: Pred, cycle: Option<string>)
    ensures Select(rows, And(p, q), cycle) == Select(Select(rows, p, cycle), q, cycle)
  {
    if rows != [] {
      SelectAnd(rows[1..], p, q, cycle);
    }
  }

  // ----- the year's cycle letter and number -----

  /** JavaScript `%`: the remainder takes the sign of the dividend. */
  function JsRemainder(a: int, b: int): (r: int)
    requires b > 0
    ensures -b < r < b
    ensures a >= 0 ==> r == a % b
    ensures a < 0 ==> r <= 0
  {
    if a >= 0 then a % b else -((-a) % b)
  }

  /** `YEAR_CYCLE_MAP[year % 3]`: "C", "A", "B" for remainders 0, 1, 2; a
      negative remainder has no entry. */
  function YearCycleOf(year: int): (r: Option<string>)
    ensures year >= 0 ==> r.Some?
  {
    var k := JsRemainder(year, 3);
    if k == 0 then Some("C") else if k == 1 then Some("A") else if k == 2 then Some("B") else None
  }

  /** The Sunday cycle repeats every three years and runs A, B, C. */
  lemma YearCycleOfSequence(year: int)
    requires year >= 0
    ensures YearCycleOf(year + 3) == YearCycleOf(year)
    ensures YearCycleOf(year) == Some("A") ==> YearCycleOf(year + 1) == Some("B")
    ensures YearCycleOf(year) == Some("B") ==> YearCycleOf(year + 1) == Some("C")
    ensures YearCycleOf(year) == Some("C") ==> YearCycleOf(year + 1) == Some("A")
  {
  }

  /** `year % 2 === 0 ? 2 : 1`, the weekday cycle of Ordinary Time. */
  function YearNumberOf(year: int): (r: int)
    ensures r == 1 || r == 2
    ensures r == 2 <==> year % 2 == 0
  {
    if JsRemainder(year, 2) == 0 then 2 else 1
  }

  // ----- resolving rows against a day -----

  /** `rows.map(d => ({ ...d, weekday: format(day, 'EEEE').toLowerCase(), date: format(day, 'dd/MM/yyyy') }))`. */
  function Attach(rows: seq<CalendarEntry>, day: int): (r: seq<CalendarEntryData>)
    ensures |r| == |rows|
    ensures forall i :: 0 <= i < |r| ==> r[i].entry == rows[i]
    ensures forall i :: 0 <= i < |r| ==> r[i].weekday == DayName(day) && r[i].date == FormatDay(day)
  {
    seq(|rows|, i requires 0 <= i < |rows| => CalendarEntryData(rows[i], DayName(day), FormatDay(day)))
  }

  /** The rows dated `day` carry its weekday name and a date that reads back
      to `day` in the years 1 .. 9999. */
  lemma AttachDatesRow(rows: seq<CalendarEntry>, day: int, i: int)
    requires 0 <= i < |rows|
    requires 1 <= FromDayNumber(day).year <= 9999
    ensures WeekdayIndex(Attach(rows, day)[i].weekday) == Some(Weekday(day))
    ensures ParseDate(Attach(rows, day)[i].date).Some?
    ensures DayNumber(ParseDate(Attach(rows, day)[i].date).value) == day
  {
    WeekdayNameRoundTrip(Weekday(day));
    ParseFormatDay(day);
  }

  /** Every entry of `group` is dated `day` and carries that day's name. */
  predicate DatedOn(group: seq<CalendarEntryData>, day: int) {
    forall e :: e in group ==> e.date == FormatDay(day) && e.weekday == DayName(day)
  }

  /** The rows chosen by `p` from `rows`, dated `day`. */
  function Pick(rows: seq<CalendarEntry>, p: Pred, cycle: Option<string>, day: int): (r: seq<CalendarEntryData>)
    ensures DatedOn(r, day)
  {
    Attach(Select(rows, p, cycle), day)
  }

  /** The rows a group was picked from, in group order. */
  function EntriesOf(g: seq<CalendarEntryData>): (r: seq<CalendarEntry>)
    ensures |r| == |g| && forall i :: 0 <= i < |g| ==> r[i] == g[i].entry
  {
    seq(|g|, i requires 0 <= i < |g| => g[i].entry)
  }

  /** A day's group holds exactly the rows passing the filter, each stamped
      with the day, in table order and with repeated rows repeated. */
  lemma PickSpec(rows: seq<CalendarEntry>, p: Pred, cycle: Option<string>, day: int)
    ensures forall e :: e in rows && Holds(p, e, cycle) <==> exists x :: x in Pick(rows, p, cycle, day) && x.entry == e
    ensures forall x :: x in Pick(rows, p, cycle, day) <==>
      x.entry in rows && Holds(p, x.entry, cycle) && x.weekday == DayName(day) && x.date == FormatDay(day)
    ensures exists ix :: (InOrderAt(EntriesOf(Pick(rows, p, cycle, day)), rows, ix)
      && forall j :: 0 <= j < |rows| ==> (j in ix <==> Holds(p, rows[j], cycle)))
  {
    var chosen := Select(rows, p, cycle);
    var r := Pick(rows, p, cycle, day);
    forall e | e in chosen ensures exists x :: x in r && x.entry == e {
      var i :| 0 <= i < |chosen| && chosen[i] == e;
      assert r[i] in r;
    }
    forall x: CalendarEntryData | x.entry in chosen && x.weekday == DayName(day) && x.date == FormatDay(day)
      ensures x in r
    {
      var i :| 0 <= i < |chosen| && chosen[i] == x.entry;
      assert r[i] == x;
    }
    assert EntriesOf(r) == chosen;
    var ix := SelectPositions(rows, p, cycle);
  }

  /** The Sunday rows of week `order` in the year's cycle. */
  function NumberedSunday(order: int): Pred {
    And(NumberEquals(WeekOrderTag, order), SameCycle)
  }

  /** The weekday rows of week `order` for the weekday of `day`. */
  function NumberedWeekday(order: int, day: int): Pred {
    And(NumberEquals(WeekOrderTag, order), Is(WeekdayTypeTag, DayName(day)))
  }

  /** Gluing two runs of groups keeps every group on its day. */
  lemma {:induction false} DatedConcat(a: seq<seq<CalendarEntryData>>, da: seq<int>, b: seq<seq<CalendarEntryData>>, db: seq<int>)
    requires |a| == |da| && |b| == |db|
    requires forall i :: 0 <= i < |a| ==> DatedOn(a[i], da[i])
    requires forall i :: 0 <= i < |b| ==> DatedOn(b[i], db[i])
    ensures |a + b| == |da + db|
    ensures forall i :: 0 <= i < |a + b| ==> DatedOn((a + b)[i], (da + db)[i])
  {
    forall i | 0 <= i < |a + b| ensures DatedOn((a + b)[i], (da + db)[i]) {
      if i >= |a| {
        assert (a + b)[i] == b[i - |a|];
        assert (da + db)[i] == db[i - |a|];
      }
    }
  }

  // ----- the tables and the keys -----

  /** The liturgical tables a generator reads. */
  datatype Tables = Tables(
    adventSunday: seq<CalendarEntry>,
    adventWeekday: seq<CalendarEntry>,
    christmasSunday: seq<CalendarEntry>,
    christmasWeekday: seq<CalendarEntry>,
    otSunday: seq<CalendarEntry>,
    otWeekday: seq<CalendarEntry>,
    lentSunday: seq<CalendarEntry>,
    lentWeekday: seq<CalendarEntry>,
    triduumSunday: seq<CalendarEntry>,
    easterWeekday: seq<CalendarEntry>,
    solemnity: seq<CalendarEntry>,
    saint: seq<CalendarEntry>,
    movable: seq<CalendarEntry>)

  datatype TableId =
    | AdventSunday | AdventWeekday | ChristmasSunday | ChristmasWeekday | OTSunday | OTWeekday
    | LentSunday | LentWeekday | TriduumSunday | EasterWeekday | Solemnity | Saint | Movable

  function Table(t: Tables, id: TableId): seq<CalendarEntry> {
    match id
    case AdventSunday => t.adventSunday
    case AdventWeekday => t.adventWeekday
    case ChristmasSunday => t.christmasSunday
    case ChristmasWeekday => t.christmasWeekday
    case OTSunday => t.otSunday
    case OTWeekday => t.otWeekday
    case LentSunday => t.lentSunday
    case LentWeekday => t.lentWeekday
    case TriduumSunday => t.triduumSunday
    case EasterWeekday => t.easterWeekday
    case Solemnity => t.solemnity
    case Saint => t.saint
    case Movable => t.movable
  }

  /** Where a feast's rows come from: a table and a filter on it. */
  datatype Rule = Rule(table: TableId, pred: Pred)

  function PickRule(t: Tables, rule: Rule, cycle: Option<string>, day: int): seq<CalendarEntryData> {
    Pick(Table(t, rule.table), rule.pred, cycle, day)
  }

  /** The one group of a feast kept on `day`. */
  function Feast(t: Tables, rule: Rule, year: int, day: int): (r: seq<seq<CalendarEntryData>>)
    ensures |r| == 1 && DatedOn(r[0], day)
  {
    [PickRule(t, rule, YearCycleOf(year), day)]
  }

  /** The literal keys one version of the generator selects with. */
  datatype KeySet = KeySet(
    preChristmas: string,
    beforeEpiphany: string,
    afterEpiphanyFromJan6: string,
    afterEpiphany: string,
    afterAshWednesday: string,
    nativity: Rule,
    holyFamily: Rule,
    maryMotherOfGod: Rule,
    epiphany: Rule,
    baptism: Rule,
    ashWednesday: Rule,
    palmSunday: Rule,
    holyThursday: Rule,
    goodFriday: Rule,
    easterVigil: Rule,
    easterDay: Rule,
    pentecost: Rule,
    ascension: Rule,
    annunciation: Rule,
    trinitySunday: Rule,
    bodyAndBlood: Rule,
    sacredHeart: Rule)

  /** The keys of the current generator: feasts come from the solemnity and
      movable-celebration tables by slug. */
  const Current := KeySet(
    "beforeChristmas",
    "beforeEpiphany",
    "afterEpiphanyFromJan6",
    "afterEpiphany",
    "afterAshWednesday",
    Rule(Solemnity, Is(SlugTag, "nativityOfTheLord")),
    Rule(Solemnity, And(Is(SlugTag, "theHolyFamily"), SameCycle)),
    Rule(Solemnity, Is(SlugTag, "maryMotherOfGod")),
    Rule(Solemnity, Is(SlugTag, "theEpiphanyOfTheLord")),
    Rule(Solemnity, And(Is(SlugTag, "baptismOfTheLord"), SameCycle)),
    Rule(Solemnity, Is(SlugTag, "ashWednesday")),
    Rule(Solemnity, And(Is(SlugTag, "palmSunday"), SameCycle)),
    Rule(Solemnity, Is(SlugTag, "holyThursday")),
    Rule(Solemnity, Is(SlugTag, "goodFriday")),
    Rule(Solemnity, And(Is(SlugTag, "easterVigil"), SameCycle)),
    Rule(Solemnity, Is(SlugTag, "easter")),
    Rule(Solemnity, Or(Or(And(Is(SlugTag, "pentecost"), SameCycle), Is(SlugTag, "pentecostVigil")),
                       Is(SlugTag, "pentecostVigilExtended"))),
    Rule(Solemnity, And(Is(SlugTag, "ascensionOfTheLord"), SameCycle)),
    Rule(Movable, Is(SlugTag, "annunciationOfTheLord")),
    Rule(Movable, And(Is(SlugTag, "trinitySunday"), SameCycle)),
    Rule(Movable, And(Is(SlugTag, "bodyAndBloodOfChrist"), SameCycle)),
    Rule(Movable, And(Is(SlugTag, "sacredHeart"), SameCycle)))

  /** The keys of the legacy generator: feasts come from the season tables by
      their week-order or weekday-type tag. */
  const Legacy := KeySet(
    "preChristmas",
    "preEpiphany",
    "postEpiphanyFromJan6",
    "postEpiphany",
    "postAshWednesday",
    Rule(ChristmasSunday, Is(WeekOrderTag, "nativityOfTheLord")),
    Rule(ChristmasSunday, And(Is(WeekOrderTag, "theHolyFamily"), SameCycle)),
    Rule(ChristmasSunday, Is(WeekOrderTag, "maryMotherOfGod")),
    Rule(ChristmasSunday, Is(WeekOrderTag, "theEpiphanyOfTheLord")),
    Rule(ChristmasSunday, And(Is(WeekOrderTag, "baptismOfTheLord"), SameCycle)),
    Rule(LentWeekday, Is(WeekdayTypeTag, "ashWednesday")),
    Rule(LentSunday, And(Is(WeekOrderTag, "palmSunday"), SameCycle)),
    Rule(TriduumSunday, Is(WeekOrderTag, "holyThursday")),
    Rule(TriduumSunday, Is(WeekOrderTag, "goodFriday")),
    Rule(TriduumSunday, And(And(Is(WeekOrderTag, "easter"), Is(PeriodOfDayTag, "theEasterVirgil")), SameCycle)),
    Rule(TriduumSunday, And(Is(WeekOrderTag, "easter"), Is(PeriodOfDayTag, "day"))),
    Rule(TriduumSunday, And(Is(WeekOrderTag, "pentecost"), Or(SameCycle, Is(YearCycleTag, "")))),
    Rule(TriduumSunday, And(Is(WeekOrderTag, "ascensionOfTheLord"), SameCycle)),
    Rule(Movable, Is(WeekdayTypeTag, "annunciationOfTheLord")),
    Rule(Movable, And(Is(WeekdayTypeTag, "trinitySunday"), SameCycle)),
    Rule(Movable, And(Is(WeekdayTypeTag, "bodyAndBloodOfChrist"), SameCycle)),
    Rule(Movable, And(Is(WeekdayTypeTag, "sacredHeart"), SameCycle)))

  /** A numbered week-order filter never picks a row whose week-order tag is
      a word, one holding a letter no spelling of a finite number holds: the
      symbolic feast tags of the legacy tables stay out of the numbered
      weeks. */
  lemma NumberedWeekSkipsSymbolicTags(e: CalendarEntry, n: int, cycle: Option<string>)
    requires exists i :: 0 <= i < |e.weekOrder| && IsWordLetter(e.weekOrder[i])
    ensures !Holds(NumberEquals(WeekOrderTag, n), e, cycle)
  {
    SymbolicTagIsNotANumber(e.weekOrder, n);
  }

  /** The legacy Pentecost rule takes every 'pentecost' row of the year's
      cycle or of no cycle; the current rule takes the cycle's day row and
      both vigil rows whatever their cycle. */
  lemma PentecostRules(e: CalendarEntry, cycle: Option<string>)
    requires cycle.Some?
    ensures Holds(Legacy.pentecost.pred, e, cycle) <==>
      e.weekOrder == "pentecost" && (e.yearCycle == cycle.value || e.yearCycle == "")
    ensures Holds(Current.pentecost.pred, e, cycle) <==>
      (e.slug == "pentecost" && e.yearCycle == cycle.value) || e.slug == "pentecostVigil" || e.slug == "pentecostVigilExtended"
  {
    var l := Or(SameCycle, Is(YearCycleTag, ""));
    assert Legacy.pentecost.pred == And(Is(WeekOrderTag, "pentecost"), l);
    assert Holds(l, e, cycle) <==> e.yearCycle == cycle.value || e.yearCycle == "";
    var c1 := And(Is(SlugTag, "pentecost"), SameCycle);
    var c2 := Or(c1, Is(SlugTag, "pentecostVigil"));
    assert Current.pentecost.pred == Or(c2, Is(SlugTag, "pentecostVigilExtended"));
    assert Holds(c1, e, cycle) <==> e.slug == "pentecost" && e.yearCycle == cycle.value;
    assert Holds(c2, e, cycle) <==> Holds(c1, e, cycle) || e.slug == "pentecostVigil";
  }
}
