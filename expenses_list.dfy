/** `components/expenses/ExpensesList.tsx`: the expense history, newest first,
    narrowed by a search term and a category, with its filter state and its
    delete action. */
module ExpensesList {
  import opened Types
  import opened Text
  import opened Sequences
  import opened Ledger
  import opened ExpensesContext
  import Sorting

  /** `filteredExpenses`: the newest-first copy, kept where the search term occurs
      in the description or the notes (ignoring case) and the category matches the
      selected one, if any. */
  function FilteredExpenses(expenses: seq<Expense>, searchTerm: string, selectedCategory: string): seq<Expense> {
    Select(NewestFirst(expenses), MatchesFilters(searchTerm, selectedCategory))
  }

  class ExpensesListView {
    var searchTerm: string
    var selectedCategory: string

    /** Both filters start empty. */
    constructor()
      ensures searchTerm == "" && selectedCategory == ""
    {
      searchTerm := "";
      selectedCategory := "";
    }

    /** What the table shows. */
    function Visible(expenses: seq<Expense>): seq<Expense>
      reads this
    {
      FilteredExpenses(expenses, searchTerm, selectedCategory)
    }

    /** The empty state offers "Clear Filters" when a filter is set, and "Add Your
        First Expense" otherwise. */
    predicate HasFilters()
      reads this
    {
      searchTerm != "" || selectedCategory != ""
    }

    /** The search box. */
    method SetSearchTerm(value: string)
      modifies this
      ensures searchTerm == value && selectedCategory == old(selectedCategory)
    {
      searchTerm := value;
    }

    /** The category drop-down ("" is "All Categories"). */
    method SetSelectedCategory(value: string)
      modifies this
      ensures selectedCategory == value && searchTerm == old(searchTerm)
    {
      selectedCategory := value;
    }

    /** "Clear Filters": both filters back to empty, so every expense shows again. */
    method ClearFilters()
      modifies this
      ensures searchTerm == "" && selectedCategory == ""
      ensures !HasFilters()
    {
      searchTerm := "";
      selectedCategory := "";
    }

    /** The delete button: the expense goes only when the user confirms. */
    method HandleDeleteExpense(store: ExpenseStore, id: string, confirmed: bool)
      modifies store
      ensures confirmed ==> store.expenses == Remove(old(store.expenses), ExpenseId, id)
      ensures !confirmed ==> store.expenses == old(store.expenses)
      ensures store.categories == old(store.categories)
    {
      if confirmed {
        store.DeleteExpense(id);
      }
    }
  }

  // ---------------------------------------------------------------------------
  // Lemmas

  /** The newest-first copy holds the same expenses, latest date first, and keeps
      the list order among expenses of the same day. */
  lemma NewestFirstSorts(expenses: seq<Expense>, t: real)
    ensures multiset(NewestFirst(expenses)) == multiset(expenses)
    ensures |NewestFirst(expenses)| == |expenses|
    ensures Sorting.IsDescending(NewestFirst(expenses), Timestamp)
    ensures Sorting.WithKey(NewestFirst(expenses), Timestamp, t) == Sorting.WithKey(expenses, Timestamp, t)
  {
    Sorting.SortPermutation(expenses, Timestamp);
    Sorting.SortDescending(expenses, Timestamp);
    Sorting.SortStable(expenses, Timestamp, t);
  }

  /** An expense is listed exactly when it is in the store and passes both filters:
      the search term occurs in its description or notes, ignoring case, and the
      selected category is "" or its own. */
  lemma FilteredIff(expenses: seq<Expense>, searchTerm: string, selectedCategory: string, e: Expense)
    ensures e in FilteredExpenses(expenses, searchTerm, selectedCategory)
        <==> e in expenses && Holds(MatchesFilters(searchTerm, selectedCategory), e)
  {
    var sorted, c := NewestFirst(expenses), MatchesFilters(searchTerm, selectedCategory);
    Sorting.SortPermutation(expenses, Timestamp);
    SelectCount(sorted, c, e);
    assert e in Select(sorted, c) <==> multiset(Select(sorted, c))[e] > 0;
    assert e in expenses <==> multiset(sorted)[e] > 0;
  }

  /** The filtered list is the newest-first list with some expenses left out, so it
      is itself newest first. */
  lemma FilteredOrder(expenses: seq<Expense>, searchTerm: string, selectedCategory: string)
    ensures IsSubsequence(FilteredExpenses(expenses, searchTerm, selectedCategory), NewestFirst(expenses))
    ensures Sorting.IsDescending(FilteredExpenses(expenses, searchTerm, selectedCategory), Timestamp)
  {
    var sorted := NewestFirst(expenses);
    var r := FilteredExpenses(expenses, searchTerm, selectedCategory);
    SelectSubsequence(sorted, MatchesFilters(searchTerm, selectedCategory));
    Sorting.SortDescending(expenses, Timestamp);
    var idx :| EmbedsAt(r, sorted, idx);
    forall i, j | 0 <= i < j < |r| ensures Timestamp(r[i]) >= Timestamp(r[j]) {
      assert r[i] == sorted[idx[i]] && r[j] == sorted[idx[j]] && idx[i] < idx[j];
    }
  }

  /** With no search term and no category every expense is listed, newest first. */
  lemma NoFiltersListAll(expenses: seq<Expense>)
    ensures FilteredExpenses(expenses, "", "") == NewestFirst(expenses)
  {
    forall e | e in NewestFirst(expenses) ensures Holds(MatchesFilters("", ""), e) {
      IncludesEmpty(ToLower(e.description));
    }
    SelectAll(NewestFirst(expenses), MatchesFilters("", ""));
  }

  /** The search ignores the case of ASCII letters in the term. */
  lemma SearchIgnoresCase(e: Expense, searchTerm: string)
    ensures MatchesSearch(e, searchTerm) <==> MatchesSearch(e, ToLower(searchTerm))
  {
    ToLowerIdempotent(searchTerm);
  }
}
