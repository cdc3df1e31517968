/** The `yyyy-MM-dd` day keys (RFC 3339 full-date, section 5.6) that the monthly
    chart uses to match an expense's date string with a day of the month. */
module DayKeys {
  import opened Wrappers
  import opened Calendar

  predicate IsDigit(c: char) {
    '0' <= c <= '9'
  }

  function Digit(n: int): (c: char)
    requires 0 <= n <= 9
    ensures IsDigit(c)
  {
    ('0' as int + n) as char
  }

  function DigitValue(c: char): int {
    c as int - '0' as int
  }

  function Pad2(n: int): string
    requires 0 <= n <= 99
  {
    [Digit(n / 10), Digit(n % 10)]
  }

  function Pad4(n: int): string
    requires 0 <= n <= 9999
  {
    [Digit(n / 1000), Digit(n / 100 % 10), Digit(n / 10 % 10), Digit(n % 10)]
  }

  /** `format(day, 'yyyy-MM-dd')` for a date with a four-digit year. */
  function DayKey(d: CalendarDate): string
    requires 0 <= d.year <= 9999
  {
    Pad4(d.year) + "-" + Pad2(d.month) + "-" + Pad2(d.day)
  }

  function Value2(a: char, b: char): int {
    10 * DigitValue(a) + DigitValue(b)
  }

  /** Reads a full-date string; only dates that exist in the calendar are accepted,
      as `parseISO` accepts them. */
  function ParseDayKey(s: string): Option<CalendarDate> {
    if |s| == 10 && s[4] == '-' && s[7] == '-'
      && IsDigit(s[0]) && IsDigit(s[1]) && IsDigit(s[2]) && IsDigit(s[3])
      && IsDigit(s[5]) && IsDigit(s[6]) && IsDigit(s[8]) && IsDigit(s[9])
    then
      var d := Date(100 * Value2(s[0], s[1]) + Value2(s[2], s[3]), Value2(s[5], s[6]), Value2(s[8], s[9]));
      if IsValid(d) then Some(d) else None
    else None
  }

  lemma DigitRoundTrip(n: int)
    requires 0 <= n <= 9
    ensures DigitValue(Digit(n)) == n
  {
  }

  /** Parsing a formatted day key gives the day back. */
  lemma ParseDayKeyRoundTrip(d: CalendarDate)
    requires 0 <= d.year <= 9999
    ensures ParseDayKey(DayKey(d)) == Some(d)
  {
    var s := DayKey(d);
    assert s[0] == Digit(d.year / 1000) && s[1] == Digit(d.year / 100 % 10);
    assert s[2] == Digit(d.year / 10 % 10) && s[3] == Digit(d.year % 10);
    assert s[4] == '-' && s[7] == '-';
    assert s[5] == Digit(d.month / 10) && s[6] == Digit(d.month % 10);
    assert s[8] == Digit(d.day / 10) && s[9] == Digit(d.day % 10);
    assert Value2(s[0], s[1]) == d.year / 100;
    assert Value2(s[2], s[3]) == d.year % 100;
  }

  lemma Pad2OfDigits(a: char, b: char)
    requires IsDigit(a) && IsDigit(b)
    ensures 0 <= Value2(a, b) <= 99 && Pad2(Value2(a, b)) == [a, b]
  {
    var x, y := DigitValue(a), DigitValue(b);
    assert Value2(a, b) / 10 == x && Value2(a, b) % 10 == y;
  }

  lemma Pad4OfDigits(a: char, b: char, c: char, d: char)
    requires IsDigit(a) && IsDigit(b) && IsDigit(c) && IsDigit(d)
    ensures var n := 100 * Value2(a, b) + Value2(c, d);
      0 <= n <= 9999 && Pad4(n) == [a, b, c, d]
  {
    var x0, x1, x2, x3 := DigitValue(a), DigitValue(b), DigitValue(c), DigitValue(d);
    var n := 100 * Value2(a, b) + Value2(c, d);
    assert n == 1000 * x0 + 100 * x1 + 10 * x2 + x3;
    DivideBy(n, 1000, x0, 100 * x1 + 10 * x2 + x3);
    DivideBy(n, 100, 10 * x0 + x1, 10 * x2 + x3);
    DivideBy(10 * x0 + x1, 10, x0, x1);
    DivideBy(n, 10, 100 * x0 + 10 * x1 + x2, x3);
    DivideBy(100 * x0 + 10 * x1 + x2, 10, 10 * x0 + x1, x2);
  }

  /** Quotient and remainder by the place values of a four-digit number. */
  lemma DivideBy(n: int, k: int, q: int, r: int)
    requires k == 10 || k == 100 || k == 1000
    requires n == k * q + r && 0 <= r < k
    ensures n / k == q && n % k == r
  {
    if k == 10 {
      assert n == 10 * q + r;
    } else if k == 100 {
      assert n == 100 * q + r;
    } else {
      assert n == 1000 * q + r;
    }
  }

  /** A string the parser accepts is the day key of what it parses to. */
  lemma DayKeyOfParsed(s: string)
    requires ParseDayKey(s).Some?
    ensures 0 <= ParseDayKey(s).value.year <= 9999
    ensures DayKey(ParseDayKey(s).value) == s
  {
    var d := ParseDayKey(s).value;
    Pad4OfDigits(s[0], s[1], s[2], s[3]);
    Pad2OfDigits(s[5], s[6]);
    Pad2OfDigits(s[8], s[9]);
    assert DayKey(d) == s[0..4] + "-" + s[5..7] + "-" + s[8..10];
    assert s == s[0..4] + [s[4]] + s[5..7] + [s[7]] + s[8..10];
  }

  /** Two four-digit-year dates have the same key exactly when they are the same
      date, so matching keys is matching dates. */
  lemma DayKeyInjective(a: CalendarDate, b: CalendarDate)
    requires 0 <= a.year <= 9999 && 0 <= b.year <= 9999
    ensures DayKey(a) == DayKey(b) <==> a == b
  {
    ParseDayKeyRoundTrip(a);
    ParseDayKeyRoundTrip(b);
  }
}
