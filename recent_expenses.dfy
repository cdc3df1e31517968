/** `components/dashboard/RecentExpenses.tsx`: the five latest expenses. */
module RecentExpenses {
  import opened Calendar
  import opened Types
  import opened Ledger
  import Sorting

  /** `[...expenses].sort(newest first).slice(0, 5)` */
  function RecentExpenses(expenses: seq<Expense>): seq<Expense> {
    var sorted := NewestFirst(expenses);
    sorted[..if |sorted| < 5 then |sorted| else 5]
  }

  /** Five expenses, or all of them when there are fewer, latest first, taken from
      the store. */
  lemma RecentExpensesShape(expenses: seq<Expense>)
    ensures |RecentExpenses(expenses)| == if |expenses| < 5 then |expenses| else 5
    ensures Sorting.IsDescending(RecentExpenses(expenses), Timestamp)
    ensures multiset(RecentExpenses(expenses)) <= multiset(expenses)
  {
    var sorted := NewestFirst(expenses);
    var r := RecentExpenses(expenses);
    Sorting.SortPermutation(expenses, Timestamp);
    Sorting.SortDescending(expenses, Timestamp);
    assert sorted == r + sorted[|r|..];
    assert multiset(sorted) == multiset(r) + multiset(sorted[|r|..]);
  }

  /** No expense left out is later than an expense shown. */
  lemma RecentExpensesAreLatest(expenses: seq<Expense>, x: Expense, e: Expense)
    requires x in RecentExpenses(expenses) && e in expenses && e !in RecentExpenses(expenses)
    ensures DayNumber(x.date) >= DayNumber(e.date)
  {
    var sorted := NewestFirst(expenses);
    var r := RecentExpenses(expenses);
    Sorting.SortPermutation(expenses, Timestamp);
    Sorting.SortDescending(expenses, Timestamp);
    var i :| 0 <= i < |r| && r[i] == x;
    assert e in multiset(sorted);
    var j :| 0 <= j < |sorted| && sorted[j] == e;
    assert Timestamp(sorted[i]) >= Timestamp(sorted[j]);
  }
}
