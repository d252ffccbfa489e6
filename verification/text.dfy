/** Decimal digit strings, and JavaScript's unary `+` on the numeric tags of
    a table row (`+d.weekOrder`, `+d.yearNumber`). */
module Text {
  import opened Wrappers

  predicate IsDigit(c: char) {
    '0' <= c <= '9'
  }

  predicate AllDigits(s: string) {
    forall i :: 0 <= i < |s| ==> IsDigit(s[i])
  }

  function DigitChar(d: int): (c: char)
    requires 0 <= d < 10
    ensures IsDigit(c)
    ensures c as int - '0' as int == d
  {
    ('0' as int + d) as char
  }

  function DigitValue(c: char): (d: int)
    requires IsDigit(c)
    ensures 0 <= d < 10
    ensures DigitChar(d) == c
  {
    c as int - '0' as int
  }

  /** The number a string of decimal digits spells (leading zeros allowed). */
  function DigitsValue(s: string): (n: nat)
    requires AllDigits(s)
  {
    if s == [] then 0 else DigitsValue(s[..|s| - 1]) * 10 + DigitValue(s[|s| - 1])
  }

  lemma DigitsValueOfTwo(s: string)
    requires |s| == 2 && AllDigits(s)
    ensures DigitsValue(s) == DigitValue(s[0]) * 10 + DigitValue(s[1])
  {
    var p := s[..1];
    assert p[..0] == [];
    assert DigitsValue(p) == DigitsValue(p[..0]) * 10 + DigitValue(p[0]);
    assert DigitsValue(s) == DigitsValue(p) * 10 + DigitValue(s[1]);
  }

  lemma DigitsValueOfFour(s: string)
    requires |s| == 4 && AllDigits(s)
    ensures DigitsValue(s) == DigitValue(s[0]) * 1000 + DigitValue(s[1]) * 100
                              + DigitValue(s[2]) * 10 + DigitValue(s[3])
  {
    var p := s[..3];
    DigitsValueOfTwo(s[..2]);
    assert p[..2] == s[..2];
    assert DigitsValue(p) == DigitsValue(p[..2]) * 10 + DigitValue(p[2]);
    assert DigitsValue(s) == DigitsValue(p) * 10 + DigitValue(s[3]);
  }

  /** The shortest decimal spelling of `n`. */
  function NatToDigits(n: nat): (s: string)
    ensures AllDigits(s)
    ensures 1 <= |s|
    ensures |s| == 1 || s[0] != '0'
    ensures n >= 10 ==> |s| >= 2
    ensures n >= 100 ==> |s| >= 3
    ensures n >= 1000 ==> |s| >= 4
  {
    if n < 10 then [DigitChar(n)] else NatToDigits(n / 10) + [DigitChar(n % 10)]
  }

  lemma {:induction false} NatToDigitsRoundTrip(n: nat)
    ensures DigitsValue(NatToDigits(n)) == n
  {
    var s := NatToDigits(n);
    if n >= 10 {
      assert s[..|s| - 1] == NatToDigits(n / 10);
      NatToDigitsRoundTrip(n / 10);
    }
  }

  /** The number of decimal digits `s` starts with. */
  function LeadingDigits(s: string): (n: nat)
    ensures n <= |s| && AllDigits(s[..n])
    ensures n < |s| ==> !IsDigit(s[n])
  {
    if s == [] || !IsDigit(s[0]) then 0
    else
      var m := LeadingDigits(s[1..]);
      assert s[..1 + m] == [s[0]] + s[1..][..m];
      1 + m
  }

  /** JavaScript `Number` on an unsigned decimal spelling: digits, then
      optionally a `.` and more digits, with at least one digit in all
      ("1", "01", "1.", "1.00", ".0"). The result is the value when it is
      whole, and `None` when the spelling is not a number or has a non-zero
      fraction ("1.5"), for then it equals no integer. */
  function UnsignedNumber(s: string): (r: Option<nat>)
    ensures r.Some? ==> exists i :: 0 <= i < |s| && IsDigit(s[i])
    ensures r.Some? ==> forall i :: 0 <= i < |s| ==> IsDigit(s[i]) || s[i] == '.'
  {
    var w := LeadingDigits(s);
    if w == |s| then
      (if w == 0 then None else assert IsDigit(s[..w][0]); Some(DigitsValue(s[..w])))
    else
      var fraction := s[w + 1..];
      if s[w] != '.' || !AllDigits(fraction) || (w == 0 && fraction == []) then None
      else if !AllZeros(fraction) then None
      else
        assert w == 0 ==> IsDigit(s[1]);
        assert forall i :: 0 <= i < |s| ==> (i < w ==> IsDigit(s[..w][i])) && (w < i ==> IsDigit(fraction[i - w - 1]));
        Some(DigitsValue(s[..w]))
  }

  predicate AllZeros(s: string) {
    forall i :: 0 <= i < |s| ==> s[i] == '0'
  }

  /** JavaScript `Number(s)` for the decimal tag spellings the tables may
      hold: the empty string is 0, and an optional sign before an unsigned
      spelling negates or keeps its value. Anything else (a symbolic tag such
      as "palmSunday") is NaN, here `None`, which equals no number. */
  function JsNumber(s: string): (r: Option<int>)
    ensures s == [] ==> r == Some(0)
    ensures r.Some? && s != [] ==> exists i :: 0 <= i < |s| && IsDigit(s[i])
    ensures r.Some? ==> forall i :: 0 <= i < |s| ==>
      IsDigit(s[i]) || s[i] == '.' || (i == 0 && (s[i] == '-' || s[i] == '+'))
  {
    if s == [] then Some(0)
    else if s[0] == '-' || s[0] == '+' then
      match UnsignedNumber(s[1..])
      case None => None
      case Some(v) =>
        assert forall i :: 1 <= i < |s| ==> s[i] == s[1..][i - 1];
        if s[0] == '-' then Some(-(v as int)) else Some(v)
    else
      match UnsignedNumber(s)
      case None => None
      case Some(v) => Some(v)
  }

  /** `JsNumber` reads `s` as the whole number `n`: the model of `+s === n`. */
  predicate NumberIs(s: string, n: int) {
    JsNumber(s) == Some(n)
  }

  lemma NumberIsOfDigits(n: nat)
    ensures NumberIs(NatToDigits(n), n)
  {
    var d := NatToDigits(n);
    NatToDigitsRoundTrip(n);
    LeadingDigitsOfDigits(d);
    assert d[..|d|] == d;
  }

  lemma {:induction false} LeadingDigitsOfDigits(s: string)
    requires AllDigits(s)
    ensures LeadingDigits(s) == |s|
  {
    if s != [] {
      LeadingDigitsOfDigits(s[1..]);
    }
  }

  /** A whole number written with a decimal point and trailing zeros
      ("1.", "1.0", "1.00") compares equal to the number. */
  lemma WholeFractionSpelling(n: nat, zeros: nat)
    ensures NumberIs(NatToDigits(n) + "." + seq(zeros, _ => '0'), n)
  {
    var d := NatToDigits(n);
    var s := d + "." + seq(zeros, _ => '0');
    NatToDigitsRoundTrip(n);
    LeadingDigitsOfSpelling(d, s);
    assert s[..|d|] == d;
    assert s[|d| + 1..] == seq(zeros, _ => '0');
  }

  lemma {:induction false} LeadingDigitsOfSpelling(d: string, s: string)
    requires AllDigits(d) && |d| < |s| && s[..|d|] == d && s[|d|] == '.'
    ensures LeadingDigits(s) == |d|
  {
    if d != [] {
      assert s[1..][..|d| - 1] == d[1..];
      LeadingDigitsOfSpelling(d[1..], s[1..]);
    }
  }

  /** A spelling with a non-zero digit after the decimal point is not a
      whole number, and so compares equal to no integer. */
  lemma FractionIsNotWhole(d: string, f: string, n: int)
    requires AllDigits(d) && AllDigits(f) && !AllZeros(f)
    ensures !NumberIs(d + "." + f, n)
  {
    var s := d + "." + f;
    LeadingDigitsOfSpelling(d, s);
    assert s[|d| + 1..] == f;
    assert s[0] != '-' && s[0] != '+' by {
      if d != [] { assert s[0] == d[0]; }
    }
  }

  /** A tag holding a character that is no digit, sign or decimal point
      reads as no number. */
  lemma SymbolicTagIsNotANumber(s: string, n: int)
    requires exists i :: 0 <= i < |s| && !IsDigit(s[i]) && s[i] != '-' && s[i] != '+' && s[i] != '.'
    ensures !NumberIs(s, n)
  {
  }

  /** A letter that no JavaScript spelling of a finite number contains:
      not a hexadecimal digit (which includes the exponent `e` and the
      binary prefix `b`), nor the octal or hexadecimal prefixes `o` and `x`.
      The letters of "Infinity" qualify, for Infinity equals no integer. */
  predicate IsWordLetter(c: char) {
    (('g' <= c <= 'z') || ('G' <= c <= 'Z')) && c != 'o' && c != 'O' && c != 'x' && c != 'X'
  }
}
