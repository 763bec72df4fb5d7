/**
 * Calendar dates as the store uses them: the month enumeration of
 * `getDaysInMonth` and the day key of `formatDate`.
 */
module Dates {
  import opened Types

  /** A calendar date as a JavaScript Date reports it: full year, month index 0..11, day of month. */
  datatype Date = Date(year: int, month: int, day: int)

  /** Gregorian leap years, proleptic and with astronomical year numbering (year 0 is a leap year). */
  predicate IsLeapYear(y: int) {
    y % 4 == 0 && (y % 100 != 0 || y % 400 == 0)
  }

  function MonthLength(y: int, m: int): (n: int)
    requires 0 <= m < 12
    ensures 28 <= n <= 31
    ensures n == 29 <==> m == 1 && IsLeapYear(y)
    ensures n == 28 <==> m == 1 && !IsLeapYear(y)
  {
    if m == 1 then (if IsLeapYear(y) then 29 else 28)
    else if m == 3 || m == 5 || m == 8 || m == 10 then 30
    else 31
  }

  predicate ValidDate(d: Date) {
    0 <= d.month < 12 && 1 <= d.day <= MonthLength(d.year, d.month)
  }

  /** The year the Date constructor uses: an argument 0..99 means 1900 + that year. */
  function FullYear(year: int): int {
    if 0 <= year <= 99 then 1900 + year else year
  }

  /**
   * `new Date(year, monthIndex, 1)`: the month index may lie outside 0..11 and
   * then carries into the year (floor division, as the constructor does).
   */
  function FirstOfMonth(year: int, monthIndex: int): (d: Date)
    ensures ValidDate(d) && d.day == 1
    ensures 12 * d.year + d.month == 12 * FullYear(year) + monthIndex
  {
    Date(FullYear(year) + monthIndex / 12, monthIndex % 12, 1)
  }

  /** `date.setDate(date.getDate() + 1)`: the next calendar day. */
  function NextDay(d: Date): (r: Date)
    requires ValidDate(d)
    ensures ValidDate(r)
  {
    if d.day < MonthLength(d.year, d.month) then Date(d.year, d.month, d.day + 1)
    else if d.month < 11 then Date(d.year, d.month + 1, 1)
    else Date(d.year + 1, 0, 1)
  }

  /**
   * `getDaysInMonth`: starting from the first of the month, collect days while
   * the running date stays in `month`.
   */
  method DaysInMonth(year: int, month: int) returns (days: seq<Date>)
    ensures 0 <= month < 12 ==> |days| == MonthLength(FullYear(year), month)
    ensures !(0 <= month < 12) ==> days == []
    ensures forall i :: 0 <= i < |days| ==> days[i] == Date(FullYear(year), month, i + 1)
  {
    var y := FullYear(year);
    var date := FirstOfMonth(year, month);
    days := [];
    while date.month == month
      invariant ValidDate(date)
      invariant !(0 <= month < 12) ==> days == []
      invariant 0 <= month < 12 ==> |days| <= MonthLength(y, month)
      invariant 0 <= month < 12 && |days| < MonthLength(y, month) ==> date == Date(y, month, |days| + 1)
      invariant 0 <= month < 12 && |days| == MonthLength(y, month) ==> date.month != month
      invariant forall i :: 0 <= i < |days| ==> days[i] == Date(y, month, i + 1)
      decreases if 0 <= month < 12 then MonthLength(y, month) - |days| else 0
    {
      days := days + [date];
      date := NextDay(date);
    }
  }

  // ---- day keys ----

  /** The years `toISOString` can render: those of its finite time range. */
  const MinYear := -271821
  const MaxYear := 275760

  /** A date that has a day key. */
  predicate HasKey(d: Date) {
    ValidDate(d) && MinYear <= d.year <= MaxYear
  }

  predicate IsDigit(c: char) { '0' <= c <= '9' }

  function DigitChar(n: nat): (c: char)
    requires n < 10
    ensures IsDigit(c)
  {
    ('0' as int + n) as char
  }

  function DigitValue(c: char): nat
    requires IsDigit(c)
  {
    (c as int - '0' as int) as nat
  }

  function Pow10(w: nat): (p: nat)
    ensures p >= 1
  {
    if w == 0 then 1 else 10 * Pow10(w - 1)
  }

  /** The low `width` decimal digits of `n`, zero-padded. */
  function Digits(n: nat, width: nat): (s: string)
    ensures |s| == width
    ensures forall i :: 0 <= i < |s| ==> IsDigit(s[i])
  {
    if width == 0 then "" else Digits(n / 10, width - 1) + [DigitChar(n % 10)]
  }

  /** The number a string of decimal digits denotes. */
  function DigitsValue(s: string): nat
    requires forall i :: 0 <= i < |s| ==> IsDigit(s[i])
  {
    if s == [] then 0 else 10 * DigitsValue(s[..|s| - 1]) + DigitValue(s[|s| - 1])
  }

  predicate AllDigits(s: string) {
    forall i :: 0 <= i < |s| ==> IsDigit(s[i])
  }

  /** The year part of an ISO 8601 date: four digits, or a sign and six digits outside 0..9999. */
  function YearText(y: int): string {
    if 0 <= y <= 9999 then Digits(y, 4)
    else if y < 0 then "-" + Digits(-y, 6)
    else "+" + Digits(y, 6)
  }

  /** `formatDate`: the calendar-date part of `toISOString`. */
  function FormatDate(d: Date): (key: string)
    requires HasKey(d)
    ensures 0 <= d.year <= 9999 ==> |key| == 10 && key[4] == '-' && key[7] == '-'
    ensures 0 <= d.year <= 9999 ==> forall i :: 0 <= i < 10 && i != 4 && i != 7 ==> IsDigit(key[i])
    ensures !(0 <= d.year <= 9999) ==> |key| == 13 && key[0] in "+-" && key[7] == '-' && key[10] == '-'
  {
    YearText(d.year) + "-" + Digits(d.month + 1, 2) + "-" + Digits(d.day, 2)
  }

  /** Reads the year part of a key back. */
  function ParseYear(t: string): Option<int> {
    if |t| == 4 && AllDigits(t) then Some(DigitsValue(t))
    else if |t| == 7 && (t[0] == '+' || t[0] == '-') && AllDigits(t[1..]) then
      var magnitude: int := DigitsValue(t[1..]);
      Some(if t[0] == '-' then -magnitude else magnitude)
    else None
  }

  /** Reads a day key back; the inverse of FormatDate. */
  function ParseDateKey(s: string): Option<Date> {
    if |s| < 6 || s[|s| - 6] != '-' || s[|s| - 3] != '-' then None
    else
      var y, m, d := ParseYear(s[..|s| - 6]), s[|s| - 5..|s| - 3], s[|s| - 2..];
      if y.Some? && AllDigits(m) && AllDigits(d) then
        Some(Date(y.value, DigitsValue(m) - 1, DigitsValue(d)))
      else None
  }

  lemma {:induction false} DigitsRoundTrip(n: nat, width: nat)
    requires n < Pow10(width)
    ensures DigitsValue(Digits(n, width)) == n
  {
    if width > 0 {
      var s := Digits(n, width);
      assert s[..|s| - 1] == Digits(n / 10, width - 1);
      assert n / 10 < Pow10(width - 1) by {
        assert 10 * (n / 10) <= n;
      }
      DigitsRoundTrip(n / 10, width - 1);
      assert DigitValue(DigitChar(n % 10)) == n % 10;
    }
  }

  /** Where the parts of a rendered key sit. */
  lemma KeyParts(y: string, m: string, d: string)
    ensures var key := y + "-" + m + "-" + d;
      |key| == |y| + |m| + |d| + 2 &&
      key[..|y|] == y && key[|y|] == '-' &&
      key[|y| + 1..|y| + 1 + |m|] == m && key[|y| + 1 + |m|] == '-' &&
      key[|y| + 2 + |m|..] == d
  {
  }

  lemma YearTextRoundTrip(y: int)
    requires MinYear <= y <= MaxYear
    ensures ParseYear(YearText(y)) == Some(y)
  {
    if 0 <= y <= 9999 {
      DigitsRoundTrip(y, 4);
    } else {
      var magnitude := if y < 0 then -y else y;
      DigitsRoundTrip(magnitude, 6);
      var t := YearText(y);
      assert t[1..] == Digits(magnitude, 6);
    }
  }

  /** Every date with a key is recovered from it. */
  lemma FormatDateRoundTrip(d: Date)
    requires HasKey(d)
    ensures ParseDateKey(FormatDate(d)) == Some(d)
  {
    var yt, mm, dd := YearText(d.year), Digits(d.month + 1, 2), Digits(d.day, 2);
    DigitsRoundTrip(d.month + 1, 2);
    DigitsRoundTrip(d.day, 2);
    YearTextRoundTrip(d.year);
    KeyParts(yt, mm, dd);
  }

  /** Distinct dates never share a day key. */
  lemma FormatDateInjective(d1: Date, d2: Date)
    requires HasKey(d1) && HasKey(d2)
    ensures FormatDate(d1) == FormatDate(d2) <==> d1 == d2
  {
    FormatDateRoundTrip(d1);
    FormatDateRoundTrip(d2);
  }
}
