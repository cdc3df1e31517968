/** The range resolver and membership test of `utils/dateUtils.ts`. The current day
    is a parameter (`today`) instead of `new Date()`. */
module DateRanges {
  import opened Wrappers
  import opened Calendar
  import opened Types

  /** A resolved range, from the start of the day `start` to the end of the day `end`. */
  datatype DateRange = DateRange(start: CalendarDate, end: CalendarDate)

  function StartOfMonth(d: CalendarDate): CalendarDate {
    Date(d.year, d.month, 1)
  }

  function EndOfMonth(d: CalendarDate): CalendarDate {
    LastDayOfMonth(d.year, d.month)
  }

  function StartOfYear(d: CalendarDate): CalendarDate {
    Date(d.year, 1, 1)
  }

  function EndOfYear(d: CalendarDate): CalendarDate {
    Date(d.year, 12, 31)
  }

  /** `startOfWeek(d, { weekStartsOn: 1 })`: go back `diff` days, where `diff` is
      computed as `date-fns` computes it. */
  function StartOfWeek(d: CalendarDate): CalendarDate {
    var day := Weekday(d);
    AddDays(d, -((if day < 1 then 7 else 0) + day - 1))
  }

  /** `endOfWeek(d, { weekStartsOn: 1 })` */
  function EndOfWeek(d: CalendarDate): CalendarDate {
    var day := Weekday(d);
    AddDays(d, (if day < 1 then -7 else 0) + 6 - (day - 1))
  }

  /** The calendar month of `d`, first to last day. */
  function MonthRange(d: CalendarDate): DateRange {
    DateRange(StartOfMonth(d), EndOfMonth(d))
  }

  /** `getDateRangeFromType`: a custom range needs both bounds; without them, and for
      any kind the switch does not name, the current month is used. */
  function GetDateRangeFromType(
    rangeType: TimeRange,
    customStartDate: Option<CalendarDate>,
    customEndDate: Option<CalendarDate>,
    today: CalendarDate): DateRange
  {
    if rangeType == Custom && customStartDate.Some? && customEndDate.Some? then
      DateRange(customStartDate.value, customEndDate.value)
    else
      match rangeType
      case Day => DateRange(today, today)
      case Week => DateRange(StartOfWeek(today), EndOfWeek(today))
      case Month => MonthRange(today)
      case Year => DateRange(StartOfYear(today), EndOfYear(today))
      case Custom => MonthRange(today)
  }

  /** `isExpenseInRange`: both ends included. */
  predicate IsExpenseInRange(expenseDate: CalendarDate, range: DateRange) {
    DayNumber(range.start) <= DayNumber(expenseDate) <= DayNumber(range.end)
  }

  // ---------------------------------------------------------------------------
  // Lemmas

  /** A custom range with both bounds is exactly those bounds; a custom range with a
      bound missing is the current month. */
  lemma CustomRange(s: Option<CalendarDate>, e: Option<CalendarDate>, today: CalendarDate)
    ensures s.Some? && e.Some? ==>
      GetDateRangeFromType(Custom, s, e, today) == DateRange(s.value, e.value)
    ensures s.None? || e.None? ==>
      GetDateRangeFromType(Custom, s, e, today) == GetDateRangeFromType(Month, s, e, today)
  {
  }

  /** `startOfWeek` with `weekStartsOn: 1` lands on the Monday on or before `d`. */
  lemma StartOfWeekIsMonday(d: CalendarDate)
    ensures Weekday(StartOfWeek(d)) == 1
    ensures DayNumber(d) - 6 <= DayNumber(StartOfWeek(d)) <= DayNumber(d)
  {
    var n, day := DayNumber(d), Weekday(d);
    var back := (if day < 1 then 7 else 0) + day - 1;
    AddDaysNumber(d, -back);
    var q := (n + 6) / 7;
    assert n + 6 == 7 * q + day;
    WeekdayOf(StartOfWeek(d), if day == 0 then q - 1 else q, 1);
  }

  /** `endOfWeek` with `weekStartsOn: 1` lands on the Sunday six days after that Monday. */
  lemma EndOfWeekIsSunday(d: CalendarDate)
    ensures Weekday(EndOfWeek(d)) == 0
    ensures DayNumber(EndOfWeek(d)) == DayNumber(StartOfWeek(d)) + 6
  {
    var n, day := DayNumber(d), Weekday(d);
    var back := (if day < 1 then 7 else 0) + day - 1;
    var ahead := (if day < 1 then -7 else 0) + 6 - (day - 1);
    AddDaysNumber(d, -back);
    AddDaysNumber(d, ahead);
    var q := (n + 6) / 7;
    assert n + 6 == 7 * q + day;
    WeekdayOf(EndOfWeek(d), if day == 0 then q else q + 1, 0);
  }

  lemma WeekdayOf(d: CalendarDate, q: int, w: int)
    requires 0 <= w < 7 && DayNumber(d) + 6 == 7 * q + w
    ensures Weekday(d) == w
  {
    RemainderBySeven(DayNumber(d) + 6, q, w);
  }

  lemma RemainderBySeven(n: int, q: int, w: int)
    requires 0 <= w < 7 && n == 7 * q + w
    ensures n % 7 == w
  {
  }

  /** The week runs from the Monday on or before today to the Sunday after it:
      seven days, today among them. */
  lemma WeekRange(today: CalendarDate, s: Option<CalendarDate>, e: Option<CalendarDate>)
    ensures var r := GetDateRangeFromType(Week, s, e, today);
      Weekday(r.start) == 1 && Weekday(r.end) == 0
      && DayNumber(r.end) == DayNumber(r.start) + 6
      && IsExpenseInRange(today, r)
  {
    StartOfWeekIsMonday(today);
    EndOfWeekIsSunday(today);
  }

  /** The day range holds today and no other day. */
  lemma DayRange(today: CalendarDate, d: CalendarDate, s: Option<CalendarDate>, e: Option<CalendarDate>)
    ensures IsExpenseInRange(d, GetDateRangeFromType(Day, s, e, today)) <==> d == today
  {
    DayNumberInjective(d, today);
  }

  /** A date is in the month range exactly when it falls in today's calendar month. */
  lemma MonthRangeMembership(today: CalendarDate, d: CalendarDate)
    ensures IsExpenseInRange(d, MonthRange(today)) <==> d.year == today.year && d.month == today.month
  {
    InMonthIff(d, today.year, today.month);
  }

  /** A date is in the year range exactly when it falls in today's year. */
  lemma YearRangeMembership(today: CalendarDate, d: CalendarDate, s: Option<CalendarDate>, e: Option<CalendarDate>)
    ensures IsExpenseInRange(d, GetDateRangeFromType(Year, s, e, today)) <==> d.year == today.year
  {
    MonthTiling(today.year, 12);
    InYearIff(d, today.year);
  }

  /** Every range resolved from today, not from custom bounds, is well formed and
      contains today. */
  lemma ResolvedRangeContainsToday(
    rangeType: TimeRange, s: Option<CalendarDate>, e: Option<CalendarDate>, today: CalendarDate)
    requires rangeType != Custom || s.None? || e.None?
    ensures var r := GetDateRangeFromType(rangeType, s, e, today);
      DayNumber(r.start) <= DayNumber(today) <= DayNumber(r.end)
  {
    match rangeType
    case Day =>
    case Week => WeekRange(today, s, e);
    case Year => YearRangeMembership(today, today, s, e);
    case _ => MonthRangeMembership(today, today);
  }

  /** Both ends of a well-formed range belong to it. */
  lemma EndpointsIncluded(r: DateRange)
    requires DayNumber(r.start) <= DayNumber(r.end)
    ensures IsExpenseInRange(r.start, r) && IsExpenseInRange(r.end, r)
  {
  }
}
