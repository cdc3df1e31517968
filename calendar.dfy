/** Gregorian calendar arithmetic at day granularity: the part of `date-fns` and of
    the JavaScript `Date` constructor that the application relies on.

    A day is identified by its `DayNumber`, the count of days since 0000-01-01 of the
    proleptic Gregorian calendar; comparing day numbers is comparing the `getTime()`
    of the days' midnights. */
module Calendar {

  datatype Date = Date(year: int, month: int, day: int)

  /** The Gregorian leap-year rule (Appendix C of RFC 3339). */
  predicate IsLeapYear(y: int) {
    y % 4 == 0 && (y % 100 != 0 || y % 400 == 0)
  }

  function DaysInMonth(y: int, m: int): (n: int)
    requires 1 <= m <= 12
    ensures 28 <= n <= 31
  {
    if m == 2 then (if IsLeapYear(y) then 29 else 28)
    else if m == 4 || m == 6 || m == 9 || m == 11 then 30
    else 31
  }

  function DaysInYear(y: int): int {
    if IsLeapYear(y) then 366 else 365
  }

  predicate IsValid(d: Date) {
    1 <= d.month <= 12 && 1 <= d.day <= DaysInMonth(d.year, d.month)
  }

  /** A date that exists in the calendar (no 30 February, no month 13). */
  type CalendarDate = d: Date | IsValid(d) witness Date(1970, 1, 1)

  /** Days from 0000-01-01 to January 1 of year `y` (negative before year 0). */
  function DaysBeforeYear(y: int): int {
    365 * y + (y + 3) / 4 - (y + 99) / 100 + (y + 399) / 400
  }

  /** Days from January 1 of year `y` to the first day of month `m`;
      `m == 13` stands for the first day of the next year. */
  function DaysBeforeMonth(y: int, m: int): int
    requires 1 <= m <= 13
  {
    var table := [0, 31, 59, 90, 120, 151, 181, 212, 243, 273, 304, 334, 365];
    table[m - 1] + (if m > 2 && IsLeapYear(y) then 1 else 0)
  }

  /** Day number of the first day of month `m` of year `y`. */
  function FirstDayNumber(y: int, m: int): int
    requires 1 <= m <= 12
  {
    DaysBeforeYear(y) + DaysBeforeMonth(y, m)
  }

  function DayNumber(d: CalendarDate): int {
    FirstDayNumber(d.year, d.month) + d.day - 1
  }

  /** The position of a month on a single line of months: `12 * year + month - 1`,
      so that consecutive months have consecutive indices across year ends. */
  function MonthIndex(y: int, m: int): int {
    12 * y + m - 1
  }

  /** The day of the week as `Date.getDay()` numbers it: 0 is Sunday, 1 is Monday.
      0000-01-01 was a Saturday. */
  function Weekday(d: CalendarDate): (w: int)
    ensures 0 <= w < 7
  {
    (DayNumber(d) + 6) % 7
  }

  function LastDayOfMonth(y: int, m: int): CalendarDate
    requires 1 <= m <= 12
  {
    Date(y, m, DaysInMonth(y, m))
  }

  function NextDay(d: CalendarDate): CalendarDate {
    if d.day < DaysInMonth(d.year, d.month) then Date(d.year, d.month, d.day + 1)
    else if d.month < 12 then Date(d.year, d.month + 1, 1)
    else Date(d.year + 1, 1, 1)
  }

  function PrevDay(d: CalendarDate): CalendarDate {
    if d.day > 1 then Date(d.year, d.month, d.day - 1)
    else if d.month > 1 then LastDayOfMonth(d.year, d.month - 1)
    else Date(d.year - 1, 12, 31)
  }

  /** The date `n` days after `d` (before it when `n` is negative), as
      `setDate(getDate() + n)` computes it. */
  function AddDays(d: CalendarDate, n: int): CalendarDate
    decreases if n < 0 then -n else n
  {
    if n == 0 then d
    else if n > 0 then AddDays(NextDay(d), n - 1)
    else AddDays(PrevDay(d), n + 1)
  }

  /** ECMAScript's MakeFullYear: the `Date` constructor reads a year argument
      from 0 to 99 as 1900 to 1999. */
  function MakeFullYear(y: int): int {
    if 0 <= y <= 99 then 1900 + y else y
  }

  /** `new Date(year, monthIndex, day)` at day granularity: `monthIndex` counts from 0
      and may overflow into other years; `day` may be 0 or exceed the month and is
      then counted from the first of the month (ECMAScript's MakeDay). */
  function MakeDate(year: int, monthIndex: int, day: int): CalendarDate {
    var y := MakeFullYear(year);
    AddDays(Date(y + monthIndex / 12, monthIndex % 12 + 1, 1), day - 1)
  }

  // ---------------------------------------------------------------------------
  // Lemmas

  /** A year has `DaysInYear` days: the closed formula for `DaysBeforeYear` steps by
      365 or 366 exactly as the leap-year rule says. */
  lemma YearLength(y: int)
    ensures DaysBeforeMonth(y, 13) == DaysInYear(y)
    ensures DaysBeforeYear(y + 1) == DaysBeforeYear(y) + DaysInYear(y)
  {
    assert DaysBeforeMonth(y, 13) == 365 + (if IsLeapYear(y) then 1 else 0);
    var s4 := MultipleStep(y, 4);
    var s100 := MultipleStep(y, 100);
    var s400 := MultipleStep(y, 400);
    assert DaysBeforeYear(y + 1) == DaysBeforeYear(y) + 365 + s4 - s100 + s400;
    MultiplesNest(y);
  }

  /** Moving from year `y - 1` to `y` adds one multiple of `k` below the year
      exactly when `k` divides `y`. */
  lemma MultipleStep(y: int, k: int) returns (s: int)
    requires k == 4 || k == 100 || k == 400
    ensures s == (if y % k == 0 then 1 else 0)
    ensures (y + k) / k == (y + k - 1) / k + s
  {
    var q, r := y / k, y % k;
    assert y == k * q + r && 0 <= r < k;
    Quotient(y + k, k, q + 1, r);
    if r == 0 {
      Quotient(y + k - 1, k, q, k - 1);
      s := 1;
    } else {
      Quotient(y + k - 1, k, q + 1, r - 1);
      s := 0;
    }
  }

  /** A multiple of 400 is a multiple of 100, and a multiple of 100 one of 4. */
  lemma MultiplesNest(y: int)
    ensures y % 400 == 0 ==> y % 100 == 0
    ensures y % 100 == 0 ==> y % 4 == 0
  {
    if y % 400 == 0 {
      var q := y / 400;
      assert y == 400 * q;
      Quotient(y, 100, 4 * q, 0);
    }
    if y % 100 == 0 {
      var q := y / 100;
      assert y == 100 * q;
      Quotient(y, 4, 25 * q, 0);
    }
  }

  lemma Quotient(n: int, k: int, q: int, r: int)
    requires k == 4 || k == 100 || k == 400
    requires n == k * q + r && 0 <= r < k
    ensures n / k == q && n % k == r
  {
    if k == 4 {
      assert n == 4 * q + r;
    } else if k == 100 {
      assert n == 100 * q + r;
    } else {
      assert n == 400 * q + r;
    }
  }

  /** The months tile the day line: each month starts where the previous one ends. */
  lemma MonthTiling(y: int, m: int)
    requires 1 <= m <= 12
    ensures m < 12 ==> FirstDayNumber(y, m + 1) == FirstDayNumber(y, m) + DaysInMonth(y, m)
    ensures m == 12 ==> FirstDayNumber(y + 1, 1) == FirstDayNumber(y, m) + DaysInMonth(y, m)
  {
    if m == 12 {
      YearLength(y);
    }
  }

  lemma {:induction false} NextDayNumber(d: CalendarDate)
    ensures DayNumber(NextDay(d)) == DayNumber(d) + 1
  {
    MonthTiling(d.year, d.month);
  }

  lemma {:induction false} PrevDayNumber(d: CalendarDate)
    ensures DayNumber(PrevDay(d)) == DayNumber(d) - 1
  {
    if d.day == 1 {
      if d.month > 1 {
        MonthTiling(d.year, d.month - 1);
      } else {
        MonthTiling(d.year - 1, 12);
      }
    }
  }

  /** `AddDays` moves exactly `n` days along the day line. */
  lemma {:induction false} AddDaysNumber(d: CalendarDate, n: int)
    ensures DayNumber(AddDays(d, n)) == DayNumber(d) + n
    decreases if n < 0 then -n else n
  {
    if n > 0 {
      NextDayNumber(d);
      AddDaysNumber(NextDay(d), n - 1);
    } else if n < 0 {
      PrevDayNumber(d);
      AddDaysNumber(PrevDay(d), n + 1);
    }
  }

  /** Every day of a month lies between the month's first day number and the next
      month's first day number. */
  lemma DayWithinItsMonth(d: CalendarDate)
    ensures FirstDayNumber(d.year, d.month) <= DayNumber(d)
    ensures DayNumber(d) < FirstDayNumber(d.year, d.month) + DaysInMonth(d.year, d.month)
  {
  }

  /** Earlier months end no later than later months start. */
  lemma {:induction false} MonthsInOrder(y1: int, m1: int, y2: int, m2: int)
    requires 1 <= m1 <= 12 && 1 <= m2 <= 12
    requires MonthIndex(y1, m1) < MonthIndex(y2, m2)
    ensures FirstDayNumber(y1, m1) + DaysInMonth(y1, m1) <= FirstDayNumber(y2, m2)
    decreases MonthIndex(y2, m2) - MonthIndex(y1, m1)
  {
    MonthTiling(y1, m1);
    var (y, m) := if m1 < 12 then (y1, m1 + 1) else (y1 + 1, 1);
    if MonthIndex(y, m) < MonthIndex(y2, m2) {
      MonthsInOrder(y, m, y2, m2);
    } else {
      assert y == y2 && m == m2;
    }
  }

  /** A valid date lies in the day interval of month `m` of year `y` exactly when it
      is a date of that month. */
  lemma {:induction false} InMonthIff(d: CalendarDate, y: int, m: int)
    requires 1 <= m <= 12
    ensures FirstDayNumber(y, m) <= DayNumber(d) < FirstDayNumber(y, m) + DaysInMonth(y, m)
        <==> d.year == y && d.month == m
  {
    DayWithinItsMonth(d);
    if MonthIndex(d.year, d.month) < MonthIndex(y, m) {
      MonthsInOrder(d.year, d.month, y, m);
    } else if MonthIndex(y, m) < MonthIndex(d.year, d.month) {
      MonthsInOrder(y, m, d.year, d.month);
    } else {
      assert d.year == y && d.month == m;
    }
  }

  /** A valid date lies in the day interval of year `y` exactly when its year is `y`. */
  lemma {:induction false} InYearIff(d: CalendarDate, y: int)
    ensures DaysBeforeYear(y) <= DayNumber(d) < DaysBeforeYear(y + 1) <==> d.year == y
  {
    DayWithinItsMonth(d);
    MonthTiling(y, 12);
    MonthTiling(d.year, 12);
    if MonthIndex(d.year, d.month) < MonthIndex(y, 1) {
      MonthsInOrder(d.year, d.month, y, 1);
    } else if MonthIndex(y, 12) < MonthIndex(d.year, d.month) {
      MonthsInOrder(y, 12, d.year, d.month);
    } else {
      assert d.year == y;
      if d.month > 1 {
        MonthsInOrder(y, 1, y, d.month);
      }
      if d.month < 12 {
        MonthsInOrder(y, d.month, y, 12);
      }
    }
  }

  /** Chronological order of valid dates is the lexicographic order of
      (year, month, day), the order of their RFC 3339 full-date strings. */
  lemma {:induction false} ChronologicalOrder(a: CalendarDate, b: CalendarDate)
    ensures DayNumber(a) <= DayNumber(b) <==>
      ((a.year, a.month) == (b.year, b.month) && a.day <= b.day)
      || MonthIndex(a.year, a.month) < MonthIndex(b.year, b.month)
  {
    DayWithinItsMonth(a);
    DayWithinItsMonth(b);
    if MonthIndex(a.year, a.month) < MonthIndex(b.year, b.month) {
      MonthsInOrder(a.year, a.month, b.year, b.month);
    } else if MonthIndex(b.year, b.month) < MonthIndex(a.year, a.month) {
      MonthsInOrder(b.year, b.month, a.year, a.month);
    }
  }

  /** Two valid dates with the same day number are the same date. */
  lemma DayNumberInjective(a: CalendarDate, b: CalendarDate)
    ensures DayNumber(a) == DayNumber(b) <==> a == b
  {
    ChronologicalOrder(a, b);
    ChronologicalOrder(b, a);
  }

  /** A month index names one month of one year. */
  lemma MonthIndexInjective(y1: int, m1: int, y2: int, m2: int)
    requires 1 <= m1 <= 12 && 1 <= m2 <= 12
    ensures MonthIndex(y1, m1) == MonthIndex(y2, m2) <==> y1 == y2 && m1 == m2
  {
    if y1 < y2 {
      assert 12 * y1 + 12 <= 12 * y2;
    } else if y2 < y1 {
      assert 12 * y2 + 12 <= 12 * y1;
    }
  }

  /** The first day of a month and `MakeDate` with day 1: `new Date(y, mi)` is the
      first day of the month `mi` months after January of `MakeFullYear(y)`. */
  lemma FirstOfMonthIndex(year: int, monthIndex: int)
    ensures MakeDate(year, monthIndex, 1).day == 1
    ensures MonthIndex(MakeDate(year, monthIndex, 1).year, MakeDate(year, monthIndex, 1).month)
         == MonthIndex(MakeFullYear(year), 1) + monthIndex
  {
  }

  /** `new Date(y, mi, 0)` is the last day of the month before `new Date(y, mi)`. */
  lemma {:induction false} DayZeroIsLastOfPreviousMonth(year: int, monthIndex: int)
    ensures var d := MakeDate(year, monthIndex, 0);
      var first := MakeDate(year, monthIndex, 1);
      DayNumber(d) == DayNumber(first) - 1
      && d.day == DaysInMonth(d.year, d.month)
      && MonthIndex(d.year, d.month) + 1 == MonthIndex(first.year, first.month)
  {
    var first := MakeDate(year, monthIndex, 1);
    assert first == Date(MakeFullYear(year) + monthIndex / 12, monthIndex % 12 + 1, 1);
    assert MakeDate(year, monthIndex, 0) == AddDays(PrevDay(first), 0) == PrevDay(first);
    PrevDayNumber(first);
  }

  /** Sample points of the weekday numbering. */
  lemma WeekdayExamples()
    ensures Weekday(Date(1970, 1, 1)) == 4
    ensures Weekday(Date(2024, 3, 1)) == 5
    ensures Weekday(Date(2026, 10, 16)) == 5
  {
  }
}
