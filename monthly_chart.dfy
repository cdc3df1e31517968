/** `components/dashboard/MonthlyChart.tsx`: the month shown (today's month moved by
    an offset the Prev/Next buttons change), the total of each of its days, the
    running total across the month, and the month's total. */
module MonthlyChart {
  import opened Calendar
  import opened Types
  import opened DateRanges
  import opened Ledger

  /** `new Date(today.getFullYear(), today.getMonth() + monthOffset)`: the first day of
      the month `monthOffset` months from today's. */
  function SelectedMonth(today: CalendarDate, monthOffset: int): CalendarDate {
    MakeDate(today.year, today.month - 1 + monthOffset, 1)
  }

  /** The expenses between `startOfMonth` and `endOfMonth` of the selected month. */
  function MonthExpenses(expenses: seq<Expense>, selectedMonth: CalendarDate): seq<Expense> {
    Select(expenses, Within(MonthRange(selectedMonth)))
  }

  /** The days of the selected month, as buckets. */
  function DaysOf(selectedMonth: CalendarDate): Period {
    DaysOfMonth(selectedMonth.year, selectedMonth.month)
  }

  /** The daily series: a record with a zero for each day of the month, to which each
      expense of the month adds its amount under its day key (`yyyy-MM-dd`, a key of
      the record exactly when the expense's date is a day of this month), read back
      in key order. The record is an array indexed by day of the month. */
  method DailyExpenses(expenses: seq<Expense>, selectedMonth: CalendarDate) returns (data: seq<real>)
    ensures |data| == DaysInMonth(selectedMonth.year, selectedMonth.month)
    ensures data == Buckets(expenses, DaysOf(selectedMonth))
  {
    var y, m := selectedMonth.year, selectedMonth.month;
    var p := DaysOf(selectedMonth);
    var monthExpenses := MonthExpenses(expenses, selectedMonth);
    var dailyExpenses := new real[DaysInMonth(y, m)];
    for i := 0 to dailyExpenses.Length
      invariant forall k :: 0 <= k < i ==> dailyExpenses[k] == 0.0
    {
      dailyExpenses[i] := 0.0;
    }
    assert dailyExpenses[..] == Buckets(monthExpenses[..0], p);
    for j := 0 to |monthExpenses|
      invariant dailyExpenses[..] == Buckets(monthExpenses[..j], p)
    {
      var e := monthExpenses[j];
      BucketsSnoc(monthExpenses[..j], e, p);
      if e.date.year == y && e.date.month == m {
        var k := e.date.day - 1;
        dailyExpenses[k] := dailyExpenses[k] + e.amount;
      }
      assert monthExpenses[..j + 1] == monthExpenses[..j] + [e];
    }
    assert monthExpenses[..|monthExpenses|] == monthExpenses;
    data := dailyExpenses[..];
    MonthFilterChangesNoBucket(expenses, selectedMonth);
  }

  /** The running total: entry `i` is the sum of the daily totals up to day `i + 1`,
      the last entry is the total of the month, and with no negative amount the
      series never goes down. */
  method CumulativeSeries(data: seq<real>) returns (cumulativeData: seq<real>)
    ensures |cumulativeData| == |data|
    ensures forall i :: 0 <= i < |data| ==> cumulativeData[i] == SumSeq(data[..i + 1])
    ensures |data| > 0 ==> cumulativeData[|data| - 1] == SumSeq(data)
    ensures (forall i :: 0 <= i < |data| ==> data[i] >= 0.0) ==>
      forall i, j :: 0 <= i <= j < |data| ==> cumulativeData[i] <= cumulativeData[j]
  {
    cumulativeData := [];
    var runningTotal := 0.0;
    for i := 0 to |data|
      invariant |cumulativeData| == i
      invariant runningTotal == SumSeq(data[..i])
      invariant forall k :: 0 <= k < i ==> cumulativeData[k] == SumSeq(data[..k + 1])
      invariant (forall k :: 0 <= k < |data| ==> data[k] >= 0.0) ==>
        forall k, l :: 0 <= k <= l < i ==> cumulativeData[k] <= cumulativeData[l]
      invariant i > 0 ==> cumulativeData[i - 1] == runningTotal
    {
      assert data[..i + 1][..i] == data[..i];
      runningTotal := runningTotal + data[i];
      cumulativeData := cumulativeData + [runningTotal];
    }
    assert data[..|data|] == data;
  }

  /** `totalForMonth`: the sum of the daily totals. */
  function TotalForMonth(data: seq<real>): real {
    SumSeq(data)
  }

  // ---------------------------------------------------------------------------
  // Lemmas

  /** Filtering to the month first changes no bucket: an expense on a day of the
      month is an expense of the month, and an expense outside it is on no day of it. */
  lemma MonthFilterChangesNoBucket(expenses: seq<Expense>, selectedMonth: CalendarDate)
    ensures Buckets(MonthExpenses(expenses, selectedMonth), DaysOf(selectedMonth))
         == Buckets(expenses, DaysOf(selectedMonth))
  {
    var p := DaysOf(selectedMonth);
    forall i | 0 <= i < p.SlotCount()
      ensures Select(Select(expenses, Within(MonthRange(selectedMonth))), p.Slot(i)) == Select(expenses, p.Slot(i))
    {
      forall e | e in expenses && Holds(p.Slot(i), e)
        ensures Holds(Within(MonthRange(selectedMonth)), e)
      {
        MonthRangeMembership(selectedMonth, e.date);
      }
      SelectNarrower(expenses, Within(MonthRange(selectedMonth)), p.Slot(i));
    }
  }

  /** The month's expenses are those dated in its calendar month. */
  lemma MonthExpensesAreInMonth(expenses: seq<Expense>, selectedMonth: CalendarDate)
    ensures MonthExpenses(expenses, selectedMonth)
         == Select(expenses, InMonth(selectedMonth.year, selectedMonth.month))
  {
    forall e | e in expenses
      ensures Holds(Within(MonthRange(selectedMonth)), e)
          <==> Holds(InMonth(selectedMonth.year, selectedMonth.month), e)
    {
      MonthRangeMembership(selectedMonth, e.date);
    }
    SelectEquivalent(expenses, Within(MonthRange(selectedMonth)), InMonth(selectedMonth.year, selectedMonth.month));
  }

  /** The month's total is the total of the expenses of that month: the daily
      buckets share it out without loss or double counting. */
  lemma MonthTotal(expenses: seq<Expense>, selectedMonth: CalendarDate)
    ensures TotalForMonth(Buckets(expenses, DaysOf(selectedMonth))) == Total(MonthExpenses(expenses, selectedMonth))
  {
    BucketsPartition(expenses, DaysOf(selectedMonth));
    MonthExpensesAreInMonth(expenses, selectedMonth);
  }

  /** The selected month is the first of the month `monthOffset` months away from
      today's, across year ends (for today's year outside 0..99, which the `Date`
      constructor would read as 1900..1999). */
  lemma SelectedMonthShift(today: CalendarDate, monthOffset: int)
    requires !(0 <= today.year <= 99)
    ensures SelectedMonth(today, monthOffset).day == 1
    ensures var s := SelectedMonth(today, monthOffset);
      MonthIndex(s.year, s.month) == MonthIndex(today.year, today.month) + monthOffset
  {
    FirstOfMonthIndex(today.year, today.month - 1 + monthOffset);
  }

  /** One month back from January is December of the year before. */
  lemma PrevFromJanuary(today: CalendarDate)
    requires today.month == 1 && !(0 <= today.year <= 99)
    ensures SelectedMonth(today, -1) == Date(today.year - 1, 12, 1)
  {
    SelectedMonthShift(today, -1);
  }

  /** The Prev/Next state: the offset from today's month. */
  class MonthNavigator {
    var monthOffset: int

    /** `useState(0)`: the chart opens on today's month. */
    constructor()
      ensures monthOffset == 0
    {
      monthOffset := 0;
    }

    function Selected(today: CalendarDate): CalendarDate
      reads this
    {
      SelectedMonth(today, monthOffset)
    }

    /** "Prev": one month back. */
    method Prev()
      modifies this
      ensures monthOffset == old(monthOffset) - 1
    {
      monthOffset := monthOffset - 1;
    }

    /** "Next": one month forward, except that the button is disabled once the offset
        is 0 or more, so the offset never becomes positive. */
    method Next()
      modifies this
      ensures old(monthOffset) >= 0 ==> monthOffset == old(monthOffset)
      ensures old(monthOffset) < 0 ==> monthOffset == old(monthOffset) + 1
      ensures old(monthOffset) <= 0 ==> monthOffset <= 0
    {
      if monthOffset < 0 {
        monthOffset := monthOffset + 1;
      }
    }
  }

  /** With an offset that is not positive the chart shows today's month or an earlier one. */
  lemma NeverInTheFuture(today: CalendarDate, monthOffset: int)
    requires monthOffset <= 0 && !(0 <= today.year <= 99)
    ensures var s := SelectedMonth(today, monthOffset);
      DayNumber(s) <= DayNumber(today)
  {
    SelectedMonthShift(today, monthOffset);
    var s := SelectedMonth(today, monthOffset);
    ChronologicalOrder(s, today);
  }
}
