/** Calendar dates as `java.time.LocalDate` holds them, their order, and the
    ISO-8601 extended calendar form `YYYY-MM-DD` that `LocalDate.parse` accepts
    (`full-date` of section 5.6 of RFC 3339, with the day-of-month limits of
    section 5.7). Years are limited to the four-digit range 0000-9999. */
module Dates {
  import opened Wrappers

  datatype Date = Date(year: int, month: int, day: int)

  /** Proleptic Gregorian leap years (section 5.7 of RFC 3339). */
  predicate IsLeapYear(y: int) {
    y % 4 == 0 && (y % 100 != 0 || y % 400 == 0)
  }

  function DaysInMonth(y: int, m: int): int
    requires 1 <= m <= 12
  {
    if m == 2 then (if IsLeapYear(y) then 29 else 28)
    else if m == 4 || m == 6 || m == 9 || m == 11 then 30
    else 31
  }

  /** A date that exists in the calendar and has a four-digit year. */
  predicate IsValid(d: Date) {
    0 <= d.year <= 9999 && 1 <= d.month <= 12 && 1 <= d.day <= DaysInMonth(d.year, d.month)
  }

  /** Chronological order, `a` on or before `b` (`LocalDate.compareTo(b) <= 0`). */
  predicate Le(a: Date, b: Date) {
    a.year < b.year
    || (a.year == b.year && a.month < b.month)
    || (a.year == b.year && a.month == b.month && a.day <= b.day)
  }

  /** `Le` is a total order on dates. */
  lemma LeTotalOrder(a: Date, b: Date, c: Date)
    ensures Le(a, a)
    ensures Le(a, b) || Le(b, a)
    ensures Le(a, b) && Le(b, a) ==> a == b
    ensures Le(a, b) && Le(b, c) ==> Le(a, c)
  {
  }

  predicate IsDigit(c: char) {
    '0' <= c <= '9'
  }

  function DigitValue(c: char): int
    requires IsDigit(c)
  {
    c as int - '0' as int
  }

  function DigitChar(k: int): (c: char)
    requires 0 <= k < 10
    ensures IsDigit(c) && DigitValue(c) == k
  {
    ('0' as int + k) as char
  }

  /** The four-digit year, two-digit month and two-digit day, dash separated. */
  function Format(d: Date): (s: string)
    requires IsValid(d)
    ensures |s| == 10
  {
    FormatFields(d.year, d.month, d.day)
  }

  function FormatFields(y: int, m: int, d: int): (s: string)
    requires 0 <= y <= 9999 && 0 <= m <= 99 && 0 <= d <= 99
    ensures |s| == 10
  {
    [DigitChar(y / 1000), DigitChar(y / 100 % 10), DigitChar(y / 10 % 10), DigitChar(y % 10),
     '-', DigitChar(m / 10), DigitChar(m % 10),
     '-', DigitChar(d / 10), DigitChar(d % 10)]
  }

  predicate WellShaped(s: string) {
    |s| == 10 && s[4] == '-' && s[7] == '-'
    && IsDigit(s[0]) && IsDigit(s[1]) && IsDigit(s[2]) && IsDigit(s[3])
    && IsDigit(s[5]) && IsDigit(s[6]) && IsDigit(s[8]) && IsDigit(s[9])
  }

  /** `LocalDate.parse` with `ISO_LOCAL_DATE` and its strict resolver: the
      `YYYY-MM-DD` shape, and a month and day that exist; anything else fails. */
  function Parse(s: string): (r: Option<Date>)
    ensures r.Some? ==> IsValid(r.value)
  {
    if WellShaped(s) then
      var d := Date(YearField(s), MonthField(s), DayField(s));
      if IsValid(d) then Some(d) else None
    else None
  }

  function YearField(s: string): int
    requires WellShaped(s)
  {
    1000 * DigitValue(s[0]) + 100 * DigitValue(s[1]) + 10 * DigitValue(s[2]) + DigitValue(s[3])
  }

  function MonthField(s: string): int
    requires WellShaped(s)
  {
    10 * DigitValue(s[5]) + DigitValue(s[6])
  }

  function DayField(s: string): int
    requires WellShaped(s)
  {
    10 * DigitValue(s[8]) + DigitValue(s[9])
  }

  /** The fields read from a well-shaped string write it back. */
  lemma FormatFieldsOf(s: string)
    requires WellShaped(s)
    ensures 0 <= YearField(s) <= 9999 && 0 <= MonthField(s) <= 99 && 0 <= DayField(s) <= 99
    ensures FormatFields(YearField(s), MonthField(s), DayField(s)) == s
  {
    DigitsYear(DigitValue(s[0]), DigitValue(s[1]), DigitValue(s[2]), DigitValue(s[3]));
    DivMod(MonthField(s), 10, DigitValue(s[5]), DigitValue(s[6]));
    DivMod(DayField(s), 10, DigitValue(s[8]), DigitValue(s[9]));
    var t := FormatFields(YearField(s), MonthField(s), DayField(s));
    assert t[0] == s[0] && t[1] == s[1] && t[2] == s[2] && t[3] == s[3] && t[4] == s[4];
    assert t[5] == s[5] && t[6] == s[6] && t[7] == s[7] && t[8] == s[8] && t[9] == s[9];
    assert forall i :: 0 <= i < 10 ==> t[i] == s[i];
  }

  lemma YearDigits(y: int)
    requires 0 <= y <= 9999
    ensures 1000 * (y / 1000) + 100 * (y / 100 % 10) + 10 * (y / 10 % 10) + y % 10 == y
  {
    var a, r := y / 1000, y % 1000;
    var b, r2 := r / 100, r % 100;
    var c, e := r2 / 10, r2 % 10;
    assert y == 1000 * a + 100 * b + 10 * c + e;
    DigitsYear(a, b, c, e);
  }

  lemma TwoDigits(n: int)
    requires 0 <= n <= 99
    ensures 10 * (n / 10) + n % 10 == n
  {
  }

  /** Parsing the formatted form of a valid date gives the date back. */
  lemma ParseFormat(d: Date)
    requires IsValid(d)
    ensures Parse(Format(d)) == Some(d)
  {
    var s := Format(d);
    YearDigits(d.year);
    TwoDigits(d.month);
    TwoDigits(d.day);
    assert WellShaped(s);
  }

  lemma DigitsYear(a: int, b: int, c: int, e: int)
    requires 0 <= a < 10 && 0 <= b < 10 && 0 <= c < 10 && 0 <= e < 10
    ensures var y := 1000 * a + 100 * b + 10 * c + e;
      y / 1000 == a && y / 100 % 10 == b && y / 10 % 10 == c && y % 10 == e
  {
    var y := 1000 * a + 100 * b + 10 * c + e;
    DivMod(y, 1000, a, 100 * b + 10 * c + e);
    DivMod(y, 100, 10 * a + b, 10 * c + e);
    DivMod(10 * a + b, 10, a, b);
    DivMod(y, 10, 100 * a + 10 * b + c, e);
    DivMod(100 * a + 10 * b + c, 10, 10 * a + b, c);
  }

  lemma DivMod(y: int, n: int, q: int, r: int)
    requires n == 10 || n == 100 || n == 1000
    requires 0 <= r < n && y == n * q + r
    ensures y / n == q && y % n == r
  {
    if n == 10 {
      assert y == 10 * q + r;
    } else if n == 100 {
      assert y == 100 * q + r;
    } else {
      assert y == 1000 * q + r;
    }
  }

  /** A string that parses is exactly the formatted form of its date. */
  lemma FormatParse(s: string)
    requires Parse(s).Some?
    ensures Format(Parse(s).value) == s
  {
    FormatFieldsOf(s);
  }

  /** Parsing succeeds with `d` exactly on the canonical form of a valid `d`. */
  lemma ParseIff(s: string, d: Date)
    ensures Parse(s) == Some(d) <==> IsValid(d) && Format(d) == s
  {
    if Parse(s) == Some(d) {
      FormatParse(s);
    }
    if IsValid(d) && Format(d) == s {
      ParseFormat(d);
    }
  }
}
