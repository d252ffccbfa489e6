/** The text forms of a day the generators write and read back: date-fns
    `format(day, 'dd/MM/yyyy')`, `format(day, 'dd/MM')`,
    `format(day, 'EEEE').toLowerCase()` (equal to the WEEKDAY_MAP names),
    and the matching `parse` calls. */
module DateFormat {
  import opened Wrappers
  import opened Text
  import opened Dates

  function TwoDigits(n: int): (s: string)
    requires 0 <= n < 100
    ensures |s| == 2 && AllDigits(s)
  {
    [DigitChar(n / 10), DigitChar(n % 10)]
  }

  function FourDigits(n: int): (s: string)
    requires 0 <= n < 10000
    ensures |s| == 4 && AllDigits(s)
  {
    [DigitChar(n / 1000), DigitChar(n / 100 % 10), DigitChar(n / 10 % 10), DigitChar(n % 10)]
  }

  lemma TwoDigitsValue(n: int)
    requires 0 <= n < 100
    ensures DigitsValue(TwoDigits(n)) == n
  {
    DigitsValueOfTwo(TwoDigits(n));
  }

  lemma FourDigitsValue(n: int)
    requires 0 <= n < 10000
    ensures DigitsValue(FourDigits(n)) == n
  {
    var s := FourDigits(n);
    DigitsValueOfFour(s);
    assert DigitValue(s[0]) == n / 1000 && DigitValue(s[1]) == n / 100 % 10;
    assert DigitValue(s[2]) == n / 10 % 10 && DigitValue(s[3]) == n % 10;
    DecimalSplit(n);
  }

  lemma DecimalSplit(n: int)
    requires 0 <= n < 10000
    ensures n == n / 1000 * 1000 + n / 100 % 10 * 100 + n / 10 % 10 * 10 + n % 10
  {
    var q1, q2, q3 := n / 10, n / 100, n / 1000;
    assert n == q1 * 10 + n % 10;
    assert q1 / 10 == q2 && q2 / 10 == q3;
    assert q1 == q2 * 10 + q1 % 10;
    assert q2 == q3 * 10 + q2 % 10;
  }

  lemma TwoDigitsCanonical(s: string)
    requires |s| == 2 && AllDigits(s)
    ensures DigitsValue(s) < 100
    ensures TwoDigits(DigitsValue(s)) == s
  {
    DigitsValueOfTwo(s);
  }

  lemma FourDigitsCanonical(s: string)
    requires |s| == 4 && AllDigits(s)
    ensures DigitsValue(s) < 10000
    ensures FourDigits(DigitsValue(s)) == s
  {
    DigitsValueOfFour(s);
    var a, b, c, d := DigitValue(s[0]), DigitValue(s[1]), DigitValue(s[2]), DigitValue(s[3]);
    var v := DigitsValue(s);
    assert v / 1000 == a;
    assert v / 100 == a * 10 + b;
    assert v / 10 == a * 100 + b * 10 + c;
    assert v / 100 % 10 == b;
    assert v / 10 % 10 == c;
    assert v % 10 == d;
  }

  /** date-fns 'yyyy': the era year (year 0 is 1 BC and prints as 1),
      padded with zeros to four digits. */
  function FormatYear(y: int): (s: string)
    ensures 4 <= |s| && AllDigits(s)
  {
    var era := if y > 0 then y else 1 - y;
    if era < 10000 then FourDigits(era) else NatToDigits(era)
  }

  /** `format(day, 'dd/MM/yyyy')`. */
  function FormatDate(dt: Date): (s: string)
    requires ValidDate(dt)
  {
    TwoDigits(dt.day) + "/" + TwoDigits(dt.month) + "/" + FormatYear(dt.year)
  }

  /** `format(day, 'dd/MM')`, the key of the fixed-date table rows. */
  function FormatDayMonth(dt: Date): (s: string)
    requires ValidDate(dt)
  {
    TwoDigits(dt.day) + "/" + TwoDigits(dt.month)
  }

  /** `parse(s, 'dd/MM/yyyy', ...)`: `None` stands for date-fns' Invalid Date.
      The `yyyy` parser refuses year 0, so `../../0000` is invalid too. */
  function ParseDate(s: string): (r: Option<Date>)
    ensures r.Some? ==> ValidDate(r.value) && r.value.year >= 1
  {
    if |s| == 10 && s[2] == '/' && s[5] == '/'
       && AllDigits(s[0..2]) && AllDigits(s[3..5]) && AllDigits(s[6..10])
    then
      var dt := Date(DigitsValue(s[6..10]), DigitsValue(s[3..5]), DigitsValue(s[0..2]));
      if ValidDate(dt) && dt.year >= 1 then Some(dt) else None
    else
      None
  }

  /** A date written with year `0000` is an Invalid Date. */
  lemma ParseDateRejectsYearZero(s: string)
    requires |s| == 10 && s[6..10] == "0000"
    ensures ParseDate(s) == None
  {
    var y := s[6..10];
    if AllDigits(y) {
      DigitsValueOfFour(y);
      assert DigitsValue(y) == 0;
    }
  }

  /** `parse(s, 'dd/MM', reference)`: the day and month, accepted only when
      they form a real date in the reference year (so "29/02" depends on it). */
  function ParseDayMonth(s: string, referenceYear: int): (r: Option<(int, int)>)
    ensures r.Some? ==> ValidDate(Date(referenceYear, r.value.1, r.value.0))
  {
    if |s| == 5 && s[2] == '/' && AllDigits(s[0..2]) && AllDigits(s[3..5]) then
      var day, month := DigitsValue(s[0..2]), DigitsValue(s[3..5]);
      if ValidDate(Date(referenceYear, month, day)) then Some((day, month)) else None
    else
      None
  }

  /** Formatting then parsing gives the date back, for the years 1 .. 9999
      that 'yyyy' prints as exactly four digits. */
  lemma ParseFormatDate(dt: Date)
    requires ValidDate(dt) && 1 <= dt.year <= 9999
    ensures ParseDate(FormatDate(dt)) == Some(dt)
  {
    var s := FormatDate(dt);
    assert s[0..2] == TwoDigits(dt.day);
    assert s[3..5] == TwoDigits(dt.month);
    assert s[6..10] == FourDigits(dt.year);
    TwoDigitsValue(dt.day);
    TwoDigitsValue(dt.month);
    FourDigitsValue(dt.year);
  }

  /** Every string that parses is the canonical spelling of its date. */
  lemma FormatParsedDate(s: string)
    requires ParseDate(s).Some?
    ensures FormatDate(ParseDate(s).value) == s
  {
    TwoDigitsCanonical(s[0..2]);
    TwoDigitsCanonical(s[3..5]);
    FourDigitsCanonical(s[6..10]);
    assert s == s[0..2] + "/" + s[3..5] + "/" + s[6..10];
  }

  lemma ParseFormatDayMonth(dt: Date)
    requires ValidDate(dt)
    ensures ParseDayMonth(FormatDayMonth(dt), dt.year) == Some((dt.day, dt.month))
  {
    var s := FormatDayMonth(dt);
    assert s[0..2] == TwoDigits(dt.day);
    assert s[3..5] == TwoDigits(dt.month);
    TwoDigitsValue(dt.day);
    TwoDigitsValue(dt.month);
  }

  // ----- weekday names -----

  const WeekdayNames: seq<string> :=
    ["sunday", "monday", "tuesday", "wednesday", "thursday", "friday", "saturday"]

  /** WEEKDAY_MAP, and `format(day, 'EEEE').toLowerCase()` in the default locale. */
  function WeekdayName(w: int): string
    requires 0 <= w < 7
  {
    WeekdayNames[w]
  }

  /** The inverse of `WeekdayName`. */
  function WeekdayIndex(name: string): (r: Option<int>)
    ensures r.Some? ==> 0 <= r.value < 7 && WeekdayName(r.value) == name
  {
    if name == "sunday" then Some(0)
    else if name == "monday" then Some(1)
    else if name == "tuesday" then Some(2)
    else if name == "wednesday" then Some(3)
    else if name == "thursday" then Some(4)
    else if name == "friday" then Some(5)
    else if name == "saturday" then Some(6)
    else None
  }

  lemma WeekdayNameRoundTrip(w: int)
    requires 0 <= w < 7
    ensures WeekdayIndex(WeekdayName(w)) == Some(w)
  {
  }

  // ----- the same forms for a day number -----

  function DayName(n: int): string {
    WeekdayName(Weekday(n))
  }

  function FormatDay(n: int): string {
    FormatDate(FromDayNumber(n))
  }

  function FormatDayOfMonth(n: int): string {
    FormatDayMonth(FromDayNumber(n))
  }

  /** Reading back the date written for day `n` recovers `n`. */
  lemma ParseFormatDay(n: int)
    requires 1 <= FromDayNumber(n).year <= 9999
    ensures ParseDate(FormatDay(n)).Some?
    ensures DayNumber(ParseDate(FormatDay(n)).value) == n
  {
    ParseFormatDate(FromDayNumber(n));
  }

  /** The dd/MM key of a day of year `y` names that day among the days of year `y`. */
  lemma DayOfMonthIdentifies(n: int, m: int)
    requires FromDayNumber(n).year == FromDayNumber(m).year
    requires FormatDayOfMonth(n) == FormatDayOfMonth(m)
    ensures n == m
  {
    var a, b := FromDayNumber(n), FromDayNumber(m);
    ParseFormatDayMonth(a);
    ParseFormatDayMonth(b);
    assert a == b;
  }
}
