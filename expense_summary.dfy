/** `components/dashboard/ExpenseSummary.tsx`: this month's total, last month's
    total and the change from one to the other. */
module ExpenseSummary {
  import opened Wrappers
  import opened Calendar
  import opened Types
  import opened DateRanges
  import opened Ledger

  function CurrentMonthRange(today: CalendarDate): DateRange {
    GetDateRangeFromType(Month, None, None, today)
  }

  /** The expenses of today's month (the same filter feeds the category breakdown). */
  function CurrentMonthExpenses(expenses: seq<Expense>, today: CalendarDate): seq<Expense> {
    Select(expenses, Within(CurrentMonthRange(today)))
  }

  function TotalCurrentMonth(expenses: seq<Expense>, today: CalendarDate): real {
    Total(CurrentMonthExpenses(expenses, today))
  }

  /** `new Date(today.getFullYear(), today.getMonth() - 1)` */
  function PreviousMonth(today: CalendarDate): CalendarDate {
    MakeDate(today.year, today.month - 2, 1)
  }

  /** From `new Date(previousMonth.getFullYear(), previousMonth.getMonth(), 1)` to
      `new Date(today.getFullYear(), today.getMonth(), 0)`. */
  function PreviousMonthRange(today: CalendarDate): DateRange {
    var previousMonth := PreviousMonth(today);
    DateRange(MakeDate(previousMonth.year, previousMonth.month - 1, 1), MakeDate(today.year, today.month - 1, 0))
  }

  function TotalPreviousMonth(expenses: seq<Expense>, today: CalendarDate): real {
    Total(Select(expenses, Within(PreviousMonthRange(today))))
  }

  /** `percentChange`: the change in percent of last month's total, or 0 when last
      month's total is not positive. */
  function PercentChange(totalCurrentMonth: real, totalPreviousMonth: real): real {
    if totalPreviousMonth > 0.0 then (totalCurrentMonth - totalPreviousMonth) / totalPreviousMonth * 100.0
    else 0.0
  }

  /** The "trending up" icon and colours. */
  predicate TrendingUp(totalCurrentMonth: real, totalPreviousMonth: real) {
    PercentChange(totalCurrentMonth, totalPreviousMonth) > 0.0
  }

  // ---------------------------------------------------------------------------
  // Lemmas

  /** This month's expenses, and so this month's total, are those of the expenses
      dated in today's calendar month. */
  lemma CurrentMonthIsTodaysMonth(expenses: seq<Expense>, today: CalendarDate)
    ensures CurrentMonthExpenses(expenses, today) == Select(expenses, InMonth(today.year, today.month))
    ensures TotalCurrentMonth(expenses, today) == Total(Select(expenses, InMonth(today.year, today.month)))
  {
    forall e | e in expenses
      ensures Holds(Within(CurrentMonthRange(today)), e) <==> Holds(InMonth(today.year, today.month), e)
    {
      MonthRangeMembership(today, e.date);
    }
    SelectEquivalent(expenses, Within(CurrentMonthRange(today)), InMonth(today.year, today.month));
  }

  /** The previous month is the calendar month before today's, across year ends
      (for today's year outside 0..100, which the `Date` constructor would read as a
      year of the 1900s). */
  lemma PreviousMonthIndex(today: CalendarDate)
    requires !(0 <= today.year <= 100)
    ensures var p := PreviousMonth(today);
      p.day == 1 && MonthIndex(p.year, p.month) + 1 == MonthIndex(today.year, today.month)
      && !(0 <= p.year <= 99)
  {
    FirstOfMonthIndex(today.year, today.month - 2);
    var p := PreviousMonth(today);
    if today.month == 1 {
      MonthIndexInjective(p.year, p.month, today.year - 1, 12);
    } else {
      MonthIndexInjective(p.year, p.month, today.year, today.month - 1);
    }
  }

  lemma PreviousMonthStart(today: CalendarDate)
    requires !(0 <= today.year <= 100)
    ensures var p := PreviousMonth(today);
      PreviousMonthRange(today).start == Date(p.year, p.month, 1)
  {
    PreviousMonthIndex(today);
    var p := PreviousMonth(today);
    var s := PreviousMonthRange(today).start;
    FirstOfMonthIndex(p.year, p.month - 1);
    MonthIndexInjective(s.year, s.month, p.year, p.month);
  }

  lemma PreviousMonthEnd(today: CalendarDate)
    requires !(0 <= today.year <= 100)
    ensures var p := PreviousMonth(today);
      PreviousMonthRange(today).end == LastDayOfMonth(p.year, p.month)
  {
    PreviousMonthIndex(today);
    var p := PreviousMonth(today);
    var e := MakeDate(today.year, today.month - 1, 0);
    var first := MakeDate(today.year, today.month - 1, 1);
    assert PreviousMonthRange(today).end == e;
    DayZeroIsLastOfPreviousMonth(today.year, today.month - 1);
    FirstOfMonthIndex(today.year, today.month - 1);
    assert MakeFullYear(today.year) == today.year;
    assert MonthIndex(first.year, first.month) == MonthIndex(today.year, today.month);
    assert MonthIndex(e.year, e.month) == MonthIndex(p.year, p.month);
    MonthIndexInjective(e.year, e.month, p.year, p.month);
    assert e.day == DaysInMonth(p.year, p.month);
  }

  /** Last month's range runs from the first to the last day of the month before
      today's. */
  lemma PreviousMonthRangeShape(today: CalendarDate)
    requires !(0 <= today.year <= 100)
    ensures var p := PreviousMonth(today); var r := PreviousMonthRange(today);
      MonthIndex(p.year, p.month) + 1 == MonthIndex(today.year, today.month)
      && r.start == Date(p.year, p.month, 1)
      && r.end == LastDayOfMonth(p.year, p.month)
  {
    PreviousMonthIndex(today);
    PreviousMonthStart(today);
    PreviousMonthEnd(today);
  }

  /** Last month's expenses are exactly those dated in the month before today's. */
  lemma PreviousMonthMembership(today: CalendarDate, d: CalendarDate)
    requires !(0 <= today.year <= 100)
    ensures var p := PreviousMonth(today);
      IsExpenseInRange(d, PreviousMonthRange(today)) <==> d.year == p.year && d.month == p.month
  {
    PreviousMonthRangeShape(today);
    var p := PreviousMonth(today);
    MonthRangeMembership(p, d);
  }

  /** In January the previous month is December of the year before. */
  lemma JanuaryLooksBackToDecember(today: CalendarDate)
    requires today.month == 1 && !(0 <= today.year <= 100)
    ensures PreviousMonth(today) == Date(today.year - 1, 12, 1)
  {
    PreviousMonthRangeShape(today);
    FirstOfMonthIndex(today.year, today.month - 2);
  }

  /** The trend is up exactly when last month had spending and this month has more. */
  lemma TrendingUpIff(totalCurrentMonth: real, totalPreviousMonth: real)
    ensures TrendingUp(totalCurrentMonth, totalPreviousMonth)
        <==> totalPreviousMonth > 0.0 && totalCurrentMonth > totalPreviousMonth
  {
    if totalPreviousMonth > 0.0 {
      var q := (totalCurrentMonth - totalPreviousMonth) / totalPreviousMonth;
      assert q > 0.0 <==> totalCurrentMonth - totalPreviousMonth > 0.0;
    }
  }

  /** With no spending this month the change is -100% (or 0 when last month had none
      either); with no negative amounts it is never below -100%. */
  lemma PercentChangeFloor(totalCurrentMonth: real, totalPreviousMonth: real)
    requires totalCurrentMonth >= 0.0
    ensures PercentChange(totalCurrentMonth, totalPreviousMonth) >= -100.0
    ensures totalCurrentMonth == 0.0 && totalPreviousMonth > 0.0 ==>
      PercentChange(totalCurrentMonth, totalPreviousMonth) == -100.0
  {
    if totalPreviousMonth > 0.0 {
      var c, p := totalCurrentMonth, totalPreviousMonth;
      assert (c - p) / p == c / p - p / p;
      assert p / p == 1.0;
      assert c / p >= 0.0;
    }
  }
}
