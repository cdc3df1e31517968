/** `components/dashboard/CategoryBreakdown.tsx`: this month's spending per category,
    with the rounded percentage each row shows. */
module CategoryBreakdown {
  import opened Calendar
  import opened Types
  import opened Sequences
  import opened Ledger
  import opened Formatters
  import opened ExpenseSummary

  /** `groupExpensesByCategory(currentMonthExpenses, categories)` */
  function Breakdown(expenses: seq<Expense>, categories: seq<Category>, today: CalendarDate): seq<CategoryTotal> {
    CategoryTotals(CurrentMonthExpenses(expenses, today), categories)
  }

  /** `totalAmount`: the total of this month's expenses, whatever their category. */
  function TotalAmount(expenses: seq<Expense>, today: CalendarDate): real {
    Total(CurrentMonthExpenses(expenses, today))
  }

  /** `Math.round`: the nearest integer, halves rounded up. */
  function Round(x: real): int {
    (x + 0.5).Floor
  }

  /** The percentage a row shows: its share of `totalAmount`, rounded, or 0 when
      nothing was spent. */
  function DisplayPercent(itemTotal: real, totalAmount: real): int {
    if totalAmount > 0.0 then Round(itemTotal / totalAmount * 100.0) else 0
  }

  /** The chart and the rows are shown, rather than the empty state, when this month
      has at least one expense. */
  predicate ShowsBreakdown(expenses: seq<Expense>, today: CalendarDate) {
    |CurrentMonthExpenses(expenses, today)| > 0
  }

  // ---------------------------------------------------------------------------
  // Lemmas

  /** `Math.round` moves a value by at most one half, and rounds halves up. */
  lemma RoundNearest(x: real)
    ensures -0.5 < Round(x) as real - x <= 0.5
  {
  }

  /** A row's percentage lies between 0 and 100 when its total is a part of the
      whole; it is 0 whenever nothing was spent. */
  lemma DisplayPercentBounds(itemTotal: real, totalAmount: real)
    ensures totalAmount > 0.0 && 0.0 <= itemTotal <= totalAmount ==> 0 <= DisplayPercent(itemTotal, totalAmount) <= 100
    ensures totalAmount <= 0.0 ==> DisplayPercent(itemTotal, totalAmount) == 0
  {
    if totalAmount > 0.0 && 0.0 <= itemTotal <= totalAmount {
      assert 0.0 <= itemTotal / totalAmount <= 1.0;
    }
  }

  /** There is one row per category, each with the total of this month's expenses
      filed under it, from the largest to the smallest. */
  lemma BreakdownRows(expenses: seq<Expense>, categories: seq<Category>, today: CalendarDate)
    ensures multiset(Sorting.Project(Breakdown(expenses, categories, today), CategoryOf)) == multiset(categories)
    ensures Sorting.IsDescending(Breakdown(expenses, categories, today), TotalOf)
    ensures forall t :: t in Breakdown(expenses, categories, today) ==>
      t.total == Total(Select(Select(expenses, InMonth(today.year, today.month)), InCategory(t.category.id)))
  {
    var month := CurrentMonthExpenses(expenses, today);
    CategoryTotalsCategories(month, categories);
    CategoryTotalsOrder(month, categories, 0.0);
    CategoryTotalsRows(month, categories);
    CurrentMonthIsTodaysMonth(expenses, today);
  }

  /** The total in the middle of the chart is the sum of the rows plus what this
      month's expenses of unknown categories add, which no row shows. */
  lemma TotalAmountCountsUnknownCategories(expenses: seq<Expense>, categories: seq<Category>, today: CalendarDate)
    requires Unique(categories, CategoryId)
    ensures TotalAmount(expenses, today)
         == Sorting.SumKeys(Breakdown(expenses, categories, today), TotalOf)
          + Total(Select(CurrentMonthExpenses(expenses, today), Not(InAnyCategory(Keys(categories, CategoryId)))))
  {
    var month := CurrentMonthExpenses(expenses, today);
    CategoryTotalsSum(month, categories);
    TotalComplement(month, InAnyCategory(Keys(categories, CategoryId)));
  }

  /** The breakdown is shown exactly when some expense is dated in today's month. */
  lemma ShowsBreakdownIff(expenses: seq<Expense>, today: CalendarDate)
    ensures ShowsBreakdown(expenses, today)
        <==> exists e :: e in expenses && e.date.year == today.year && e.date.month == today.month
  {
    CurrentMonthIsTodaysMonth(expenses, today);
    SelectEmptyIff(expenses, InMonth(today.year, today.month));
  }
}
