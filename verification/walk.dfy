/** The week counter the seasonal generators keep while they walk the days of
    an interval: it starts at some value and goes up by one on every Sunday,
    before that Sunday's rows are chosen. */
module Walk {
  import opened Dates

  /** The counter's value on each day of `days`, starting from `order`. */
  function WeekOrders(days: seq<int>, order: int): (r: seq<int>)
    ensures |r| == |days|
  {
    if days == [] then []
    else
      var o := if IsSunday(days[0]) then order + 1 else order;
      [o] + WeekOrders(days[1..], o)
  }

  /** The week of day `d`, counting the week that starts on Sunday `s` as
      the first. */
  function WeekFrom(s: int, d: int): int {
    (d - s) / 7 + 1
  }

  /** `a / 7 - (a - 1) / 7` counts whether `a` itself is a Sunday. */
  lemma SundayStep(a: int)
    ensures a / 7 - (a - 1) / 7 == if IsSunday(a) then 1 else 0
  {
  }

  /** On the `i`-th day of the walk from `a` the counter has gone up once for
      every Sunday in `a .. a + i`, and there are `(a + i) / 7 - (a - 1) / 7`
      of those. */
  lemma {:induction false} WeekOrdersClosedForm(a: int, b: int, order: int, i: int)
    requires 0 <= i <= b - a
    ensures WeekOrders(EachDay(a, b), order)[i] == order + (a + i) / 7 - (a - 1) / 7
    decreases i
  {
    var days := EachDay(a, b);
    var o := if IsSunday(a) then order + 1 else order;
    SundayStep(a);
    assert days[0] == a;
    if i > 0 {
      assert days[1..] == EachDay(a + 1, b);
      WeekOrdersClosedForm(a + 1, b, o, i - 1);
    }
  }

  /** A walk that starts on a Sunday counts whole weeks from its first day. */
  lemma WeekOrdersFromSunday(a: int, b: int, order: int, i: int)
    requires IsSunday(a) && 0 <= i <= b - a
    ensures WeekOrders(EachDay(a, b), order)[i] == order + i / 7 + 1
  {
    WeekOrdersClosedForm(a, b, order, i);
    SundayQuotients(a, i);
  }

  /** A walk that starts on a Monday counts the weeks from the Sunday before. */
  lemma WeekOrdersFromMonday(a: int, b: int, order: int, i: int)
    requires IsSunday(a - 1) && 0 <= i <= b - a
    ensures WeekOrders(EachDay(a, b), order)[i] == order + (i + 1) / 7
  {
    WeekOrdersClosedForm(a, b, order, i);
    SundayQuotients(a - 1, i + 1);
  }

  lemma SundayQuotients(s: int, i: int)
    requires IsSunday(s)
    ensures (s + i) / 7 - (s - 1) / 7 == i / 7 + 1
  {
    var q := s / 7;
    assert s == 7 * q;
    assert (s + i) / 7 == q + i / 7;
    assert (s - 1) / 7 == q - 1;
  }
}
