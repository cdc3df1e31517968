/** `components/reports/YearlyChart.tsx`: the total of each month of the current
    year, the year's total and the average over the months that have spending. */
module YearlyChart {
  import opened Types
  import opened Ledger

  /** The twelve months of `currentYear`, as buckets. */
  function MonthsOf(currentYear: int): Period {
    MonthsOfYear(currentYear)
  }

  /** The monthly series: a record with a zero under each `yyyy-MM` key of the year,
      to which each expense of the current year adds its amount under its month's
      key, read back January to December. The record is an array indexed by month. */
  method MonthlyExpenses(expenses: seq<Expense>, currentYear: int) returns (data: seq<real>)
    ensures |data| == 12
    ensures data == Buckets(expenses, MonthsOf(currentYear))
  {
    var p := MonthsOf(currentYear);
    var monthlyExpenses := new real[12];
    for i := 0 to 12
      invariant forall k :: 0 <= k < i ==> monthlyExpenses[k] == 0.0
    {
      monthlyExpenses[i] := 0.0;
    }
    assert monthlyExpenses[..] == Buckets(expenses[..0], p);
    for j := 0 to |expenses|
      invariant monthlyExpenses[..] == Buckets(expenses[..j], p)
    {
      var expense := expenses[j];
      BucketsSnoc(expenses[..j], expense, p);
      if expense.date.year == currentYear {
        var k := expense.date.month - 1;
        monthlyExpenses[k] := monthlyExpenses[k] + expense.amount;
      }
      assert expenses[..j + 1] == expenses[..j] + [expense];
    }
    assert expenses[..|expenses|] == expenses;
    data := monthlyExpenses[..];
  }

  /** `yearlyTotal`: the sum of the monthly totals. */
  function YearlyTotal(data: seq<real>): real {
    SumSeq(data)
  }

  /** `data.filter(amount => amount > 0).length` */
  function MonthsWithExpenses(data: seq<real>): (n: nat)
    ensures n <= |data|
  {
    if data == [] then 0
    else MonthsWithExpenses(data[..|data| - 1]) + (if data[|data| - 1] > 0.0 then 1 else 0)
  }

  /** `monthlyAverage`: the year's total over the number of months with spending, or 0
      when no month has any. */
  function MonthlyAverage(data: seq<real>): real {
    var monthsWithExpenses := MonthsWithExpenses(data);
    if monthsWithExpenses > 0 then YearlyTotal(data) / monthsWithExpenses as real else 0.0
  }

  // ---------------------------------------------------------------------------
  // Lemmas

  /** The year's total is the total of the expenses dated in that year; expenses of
      other years count nowhere. */
  lemma YearlyTotalIsYearsExpenses(expenses: seq<Expense>, currentYear: int)
    ensures YearlyTotal(Buckets(expenses, MonthsOf(currentYear))) == Total(Select(expenses, InYear(currentYear)))
  {
    BucketsPartition(expenses, MonthsOf(currentYear));
  }

  /** With no negative month, the total is at most `bound` per month with spending. */
  lemma {:induction false} TotalAtMostCountTimes(data: seq<real>, bound: real)
    requires forall i :: 0 <= i < |data| ==> 0.0 <= data[i] <= bound
    ensures 0.0 <= YearlyTotal(data) <= MonthsWithExpenses(data) as real * bound
  {
    if data != [] {
      var p, x := data[..|data| - 1], data[|data| - 1];
      assert forall i :: 0 <= i < |p| ==> p[i] == data[i];
      TotalAtMostCountTimes(p, bound);
      var c := MonthsWithExpenses(p) as real;
      assert YearlyTotal(data) == YearlyTotal(p) + x;
      if x > 0.0 {
        assert MonthsWithExpenses(data) as real == c + 1.0;
        assert (c + 1.0) * bound == c * bound + bound;
      } else {
        assert MonthsWithExpenses(data) as real == c;
      }
    }
  }

  /** No month has spending exactly when no month total is positive. */
  lemma {:induction false} NoMonthWithExpensesIff(data: seq<real>)
    ensures MonthsWithExpenses(data) == 0 <==> forall i :: 0 <= i < |data| ==> data[i] <= 0.0
  {
    if data != [] {
      var p := data[..|data| - 1];
      NoMonthWithExpensesIff(p);
      assert forall i :: 0 <= i < |p| ==> p[i] == data[i];
    }
  }

  lemma AverageOf(t: real, n: nat, bound: real)
    requires 0.0 <= bound && 0.0 <= t <= n as real * bound
    ensures var average := if n > 0 then t / n as real else 0.0;
      0.0 <= average <= bound
  {
  }

  /** With no negative month, the average lies between 0 and any bound on the
      months: it is never more than the largest month. */
  lemma AverageBounds(data: seq<real>, bound: real)
    requires 0.0 <= bound
    requires forall i :: 0 <= i < |data| ==> 0.0 <= data[i] <= bound
    ensures 0.0 <= MonthlyAverage(data) <= bound
  {
    TotalAtMostCountTimes(data, bound);
    AverageOf(YearlyTotal(data), MonthsWithExpenses(data), bound);
  }

  /** No month with spending: the average is 0, and so is the total when no month is
      negative. */
  lemma NoSpendingNoAverage(data: seq<real>)
    requires forall i :: 0 <= i < |data| ==> data[i] == 0.0
    ensures MonthlyAverage(data) == 0.0 && YearlyTotal(data) == 0.0
  {
    SumSeqZeros(data);
  }
}
