/** `utils/formatters.ts`: the category lookup, and the per-category totals with
    their rounded percentages that the breakdown and the reports show. */
module Formatters {
  import opened Wrappers
  import opened Types
  import opened Ledger
  import Sorting
  import opened Sequences

  /** One row of the breakdown. */
  datatype CategoryTotal = CategoryTotal(category: Category, total: real, percentage: real)

  function TotalOf(t: CategoryTotal): real {
    t.total
  }

  function CategoryOf(t: CategoryTotal): Category {
    t.category
  }

  function PercentageOf(t: CategoryTotal): real {
    t.percentage
  }

  /** `categories.find(category => category.id === categoryId)`: the first category
      with that id, or none when there is none. */
  function GetCategoryById(categories: seq<Category>, categoryId: string): (r: Option<Category>)
    ensures r.Some? ==> r.value.id == categoryId
    ensures r.Some? ==> exists k :: (0 <= k < |categories| && categories[k] == r.value
      && forall j :: 0 <= j < k ==> categories[j].id != categoryId)
    ensures r.None? <==> forall k :: 0 <= k < |categories| ==> categories[k].id != categoryId
  {
    if categories == [] then None
    else if categories[0].id == categoryId then Some(categories[0])
    else
      var r := GetCategoryById(categories[1..], categoryId);
      assert forall k :: 1 <= k < |categories| ==> categories[k] == categories[1..][k - 1];
      r
  }

  /** `Number(x.toFixed(1))` (ECMAScript, section 21.1.3.3): the multiple of 0.1
      nearest to `x`, halves rounded away from zero. */
  function ToFixed1(x: real): real {
    if x >= 0.0 then ((x * 10.0 + 0.5).Floor as real) / 10.0
    else -(((-x * 10.0 + 0.5).Floor as real) / 10.0)
  }

  /** The share of `total` in `grand`, in percent to one decimal; 0 when nothing
      was spent. */
  function Percentage(total: real, grand: real): real {
    ToFixed1(if grand > 0.0 then total / grand * 100.0 else 0.0)
  }

  /** The row of one category, before sorting. */
  function Entry(expenses: seq<Expense>, grand: real, c: Category): CategoryTotal {
    var total := Total(Select(expenses, InCategory(c.id)));
    CategoryTotal(c, total, Percentage(total, grand))
  }

  /** `categories.map(...)`: one row per category, in the order of `categories`. */
  function Entries(expenses: seq<Expense>, grand: real, categories: seq<Category>): seq<CategoryTotal> {
    if categories == [] then []
    else
      Entries(expenses, grand, categories[..|categories| - 1])
      + [Entry(expenses, grand, categories[|categories| - 1])]
  }

  /** What `groupExpensesByCategory` returns: the rows sorted by total, largest first. */
  function CategoryTotals(expenses: seq<Expense>, categories: seq<Category>): seq<CategoryTotal> {
    Sorting.SortDesc(Entries(expenses, Total(expenses), categories), TotalOf)
  }

  /** `groupExpensesByCategory`: a map from category id to running total, seeded with
      0 for every category, then one pass over the expenses, then one row per
      category, then the sort. */
  method GroupExpensesByCategory(expenses: seq<Expense>, categories: seq<Category>)
    returns (r: seq<CategoryTotal>)
    ensures r == CategoryTotals(expenses, categories)
  {
    var totalExpenses := Total(expenses);
    var categoryTotals: map<string, real> := map[];
    for i := 0 to |categories|
      invariant forall k :: 0 <= k < i ==>
        categories[k].id in categoryTotals && categoryTotals[categories[k].id] == 0.0
    {
      categoryTotals := categoryTotals[categories[i].id := 0.0];
    }
    for j := 0 to |expenses|
      invariant forall k :: 0 <= k < |categories| ==>
        categories[k].id in categoryTotals
        && categoryTotals[categories[k].id] == Total(Select(expenses[..j], InCategory(categories[k].id)))
    {
      var e := expenses[j];
      var currentTotal := if e.categoryId in categoryTotals then categoryTotals[e.categoryId] else 0.0;
      categoryTotals := categoryTotals[e.categoryId := currentTotal + e.amount];
      assert expenses[..j + 1] == expenses[..j] + [e];
      forall k | 0 <= k < |categories|
        ensures categoryTotals[categories[k].id] == Total(Select(expenses[..j + 1], InCategory(categories[k].id)))
      {
        SelectSnoc(expenses[..j], e, InCategory(categories[k].id));
        TotalSnoc(Select(expenses[..j], InCategory(categories[k].id)), e);
      }
    }
    assert expenses[..|expenses|] == expenses;
    var rows: seq<CategoryTotal> := [];
    for i := 0 to |categories|
      invariant rows == Entries(expenses, totalExpenses, categories[..i])
    {
      var category := categories[i];
      var total := if category.id in categoryTotals then categoryTotals[category.id] else 0.0;
      rows := rows + [CategoryTotal(category, total, Percentage(total, totalExpenses))];
      assert categories[..i + 1][..i] == categories[..i];
    }
    assert categories[..|categories|] == categories;
    r := Sorting.SortDesc(rows, TotalOf);
  }

  // ---------------------------------------------------------------------------
  // Lemmas

  /** `toFixed(1)` moves a value by at most half a tenth, onto a whole number of tenths. */
  lemma ToFixed1Nearest(x: real)
    ensures -0.05 <= ToFixed1(x) - x <= 0.05
    ensures (ToFixed1(x) * 10.0).Floor as real == ToFixed1(x) * 10.0
  {
    var m := if x >= 0.0 then x else -x;
    var f := ToFixed1OfMagnitude(m);
    var g := if x >= 0.0 then f else -f;
    assert ToFixed1(x) == if x >= 0.0 then ToFixed1(m) else -ToFixed1(m);
    assert ToFixed1(x) * 10.0 == g as real;
    FloorOfWhole(g);
  }

  /** Rounding a non-negative value gives `f` tenths, within half a tenth of it. */
  lemma ToFixed1OfMagnitude(m: real) returns (f: int)
    requires m >= 0.0
    ensures -0.05 < ToFixed1(m) - m <= 0.05
    ensures ToFixed1(m) * 10.0 == f as real
  {
    RoundHalfUp(m);
    f := (m * 10.0 + 0.5).Floor;
  }

  lemma FloorOfWhole(g: int)
    ensures (g as real).Floor == g
  {
  }

  lemma RoundHalfUp(x: real)
    requires x >= 0.0
    ensures var f := (x * 10.0 + 0.5).Floor;
      -0.05 < f as real / 10.0 - x <= 0.05 && f as real / 10.0 * 10.0 == f as real
  {
    var y := x * 10.0 + 0.5;
    var f := y.Floor;
    assert f as real <= y < f as real + 1.0;
    assert f as real / 10.0 * 10.0 == f as real;
  }

  /** A share of a positive total that is neither negative nor more than the total is
      a percentage between 0 and 100; with nothing spent, every share is 0. */
  lemma PercentageBounds(total: real, grand: real)
    ensures grand > 0.0 && 0.0 <= total <= grand ==> 0.0 <= Percentage(total, grand) <= 100.0
    ensures grand <= 0.0 ==> Percentage(total, grand) == 0.0
  {
    if grand > 0.0 && 0.0 <= total <= grand {
      var p := total / grand * 100.0;
      assert 0.0 <= p <= 100.0 by {
        assert total / grand <= 1.0;
      }
      assert (p * 10.0 + 0.5).Floor <= 1000;
    }
  }

  lemma {:induction false} EntriesShape(expenses: seq<Expense>, grand: real, categories: seq<Category>)
    ensures |Entries(expenses, grand, categories)| == |categories|
    ensures forall i :: 0 <= i < |categories| ==>
      Entries(expenses, grand, categories)[i] == Entry(expenses, grand, categories[i])
    ensures Sorting.Project(Entries(expenses, grand, categories), CategoryOf) == categories
  {
    if categories != [] {
      var p, c := categories[..|categories| - 1], categories[|categories| - 1];
      EntriesShape(expenses, grand, p);
      var rows := Entries(expenses, grand, categories);
      var prev := Entries(expenses, grand, p);
      assert rows == prev + [Entry(expenses, grand, c)];
      assert rows[..|rows| - 1] == prev;
      assert Sorting.Project(rows, CategoryOf) == Sorting.Project(prev, CategoryOf) + [c];
      assert categories == p + [c];
    }
  }

  /** Every category appears exactly once in the result (as often as it is listed),
      and no other. */
  lemma CategoryTotalsCategories(expenses: seq<Expense>, categories: seq<Category>)
    ensures |CategoryTotals(expenses, categories)| == |categories|
    ensures multiset(Sorting.Project(CategoryTotals(expenses, categories), CategoryOf)) == multiset(categories)
  {
    var rows := Entries(expenses, Total(expenses), categories);
    EntriesShape(expenses, Total(expenses), categories);
    Sorting.SortPermutation(rows, TotalOf);
    Sorting.SortProject(rows, TotalOf, CategoryOf);
  }

  /** Each row holds the total of the expenses filed under its category, and that
      total's share of all the expenses. */
  lemma CategoryTotalsRows(expenses: seq<Expense>, categories: seq<Category>)
    ensures forall t :: t in CategoryTotals(expenses, categories) ==>
      t.total == Total(Select(expenses, InCategory(t.category.id)))
      && t.percentage == Percentage(t.total, Total(expenses))
  {
    var rows := Entries(expenses, Total(expenses), categories);
    EntriesShape(expenses, Total(expenses), categories);
    Sorting.SortPermutation(rows, TotalOf);
    forall t | t in CategoryTotals(expenses, categories)
      ensures t.total == Total(Select(expenses, InCategory(t.category.id)))
      ensures t.percentage == Percentage(t.total, Total(expenses))
    {
      assert t in multiset(CategoryTotals(expenses, categories));
      assert t in rows;
      var i :| 0 <= i < |rows| && rows[i] == t;
      assert t == Entry(expenses, Total(expenses), categories[i]);
    }
  }

  /** The rows run from the largest total to the smallest; rows with equal totals
      keep the order of `categories`. */
  lemma CategoryTotalsOrder(expenses: seq<Expense>, categories: seq<Category>, v: real)
    ensures Sorting.IsDescending(CategoryTotals(expenses, categories), TotalOf)
    ensures Sorting.WithKey(CategoryTotals(expenses, categories), TotalOf, v)
         == Sorting.WithKey(Entries(expenses, Total(expenses), categories), TotalOf, v)
  {
    var rows := Entries(expenses, Total(expenses), categories);
    Sorting.SortDescending(rows, TotalOf);
    Sorting.SortStable(rows, TotalOf, v);
  }

  lemma {:induction false} EntriesSum(expenses: seq<Expense>, grand: real, categories: seq<Category>)
    requires Unique(categories, CategoryId)
    ensures Sorting.SumKeys(Entries(expenses, grand, categories), TotalOf)
         == Total(Select(expenses, InAnyCategory(Keys(categories, CategoryId))))
  {
    if categories == [] {
      assert Keys(categories, CategoryId) == {};
      SelectNone(expenses, InAnyCategory({}));
    } else {
      var p, c := categories[..|categories| - 1], categories[|categories| - 1];
      EntriesSum(expenses, grand, p);
      assert categories == p + [c];
      KeysSnoc(p, c, CategoryId);
      LastKeyFresh(categories, CategoryId);
      TotalAddCategory(expenses, Keys(p, CategoryId), c.id);
      var rows := Entries(expenses, grand, categories);
      var prev := Entries(expenses, grand, p);
      assert rows == prev + [Entry(expenses, grand, c)];
      assert rows[..|rows| - 1] == prev;
      assert Sorting.SumKeys(rows, TotalOf) == Sorting.SumKeys(prev, TotalOf) + Entry(expenses, grand, c).total;
    }
  }

  /** A filter that no expense passes selects nothing, so its total is 0. */
  lemma SelectNone(expenses: seq<Expense>, c: Criterion)
    requires forall e :: e in expenses ==> !Holds(c, e)
    ensures Total(Select(expenses, c)) == 0.0
  {
    SelectEmptyIff(expenses, c);
  }

  /** With distinct category ids, the totals of the rows add up to the total of the
      expenses filed under a known category: at most everything when no amount is
      negative, and exactly everything when every expense's category is known. */
  lemma CategoryTotalsSum(expenses: seq<Expense>, categories: seq<Category>)
    requires Unique(categories, CategoryId)
    ensures Sorting.SumKeys(CategoryTotals(expenses, categories), TotalOf)
         == Total(Select(expenses, InAnyCategory(Keys(categories, CategoryId))))
    ensures (forall e :: e in expenses ==> e.amount >= 0.0) ==>
      Sorting.SumKeys(CategoryTotals(expenses, categories), TotalOf) <= Total(expenses)
    ensures (forall e :: e in expenses ==> e.categoryId in Keys(categories, CategoryId)) ==>
      Sorting.SumKeys(CategoryTotals(expenses, categories), TotalOf) == Total(expenses)
  {
    var rows := Entries(expenses, Total(expenses), categories);
    Sorting.SortSumKeys(rows, TotalOf, TotalOf);
    EntriesSum(expenses, Total(expenses), categories);
    if forall e :: e in expenses ==> e.amount >= 0.0 {
      SelectTotalBounds(expenses, InAnyCategory(Keys(categories, CategoryId)));
    }
    if forall e :: e in expenses ==> e.categoryId in Keys(categories, CategoryId) {
      SelectAll(expenses, InAnyCategory(Keys(categories, CategoryId)));
    }
  }

  /** When every expense is filed under one of the (distinct) categories and
      something was spent, the rounded percentages add up to 100, up to half a
      tenth per row. */
  lemma PercentagesSumTo100(expenses: seq<Expense>, categories: seq<Category>)
    requires Unique(categories, CategoryId)
    requires forall e :: e in expenses ==> e.categoryId in Keys(categories, CategoryId)
    requires Total(expenses) > 0.0
    ensures var sum := Sorting.SumKeys(CategoryTotals(expenses, categories), PercentageOf);
      100.0 - 0.05 * |categories| as real <= sum <= 100.0 + 0.05 * |categories| as real
  {
    var grand := Total(expenses);
    var rows := Entries(expenses, grand, categories);
    Sorting.SortSumKeys(rows, TotalOf, PercentageOf);
    EntriesPercentSum(expenses, grand, categories);
    EntriesSum(expenses, grand, categories);
    SelectAll(expenses, InAnyCategory(Keys(categories, CategoryId)));
    assert Sorting.SumKeys(rows, TotalOf) == grand;
    WholeShare(grand);
  }

  lemma WholeShare(grand: real)
    requires grand > 0.0
    ensures grand / grand * 100.0 == 100.0
  {
  }

  /** The rounded percentages of the rows are within half a tenth per row of the
      exact share of the rows' totals. */
  lemma {:induction false} EntriesPercentSum(expenses: seq<Expense>, grand: real, categories: seq<Category>)
    requires grand > 0.0
    ensures var rows := Entries(expenses, grand, categories);
      var drift := Sorting.SumKeys(rows, PercentageOf) - Sorting.SumKeys(rows, TotalOf) / grand * 100.0;
      -0.05 * |categories| as real <= drift <= 0.05 * |categories| as real
  {
    if categories != [] {
      var p, c := categories[..|categories| - 1], categories[|categories| - 1];
      EntriesPercentSum(expenses, grand, p);
      var rows, prev := Entries(expenses, grand, categories), Entries(expenses, grand, p);
      var last := Entry(expenses, grand, c);
      assert rows == prev + [last];
      assert rows[..|rows| - 1] == prev;
      ToFixed1Nearest(last.total / grand * 100.0);
      ShareOfSum(Sorting.SumKeys(prev, TotalOf), last.total, grand);
    }
  }

  lemma ShareOfSum(a: real, b: real, grand: real)
    requires grand > 0.0
    ensures (a + b) / grand * 100.0 == a / grand * 100.0 + b / grand * 100.0
  {
  }

  /** The percentages count only expenses filed under a listed category, while the
      grand total counts every expense: when no expense is filed under a listed
      category the percentages add up to 0, whatever was spent. */
  lemma UnknownCategoriesNoPercentages(expenses: seq<Expense>, categories: seq<Category>)
    requires forall e :: e in expenses ==> e.categoryId !in Keys(categories, CategoryId)
    ensures Sorting.SumKeys(CategoryTotals(expenses, categories), PercentageOf) == 0.0
  {
    var rows := Entries(expenses, Total(expenses), categories);
    Sorting.SortSumKeys(rows, TotalOf, PercentageOf);
    EntriesPercentZero(expenses, Total(expenses), categories);
  }

  lemma {:induction false} EntriesPercentZero(expenses: seq<Expense>, grand: real, categories: seq<Category>)
    requires forall e :: e in expenses ==> e.categoryId !in Keys(categories, CategoryId)
    ensures Sorting.SumKeys(Entries(expenses, grand, categories), PercentageOf) == 0.0
  {
    if categories != [] {
      var p, c := categories[..|categories| - 1], categories[|categories| - 1];
      assert categories == p + [c];
      KeysSnoc(p, c, CategoryId);
      EntriesPercentZero(expenses, grand, p);
      var rows, prev := Entries(expenses, grand, categories), Entries(expenses, grand, p);
      assert rows == prev + [Entry(expenses, grand, c)];
      assert rows[..|rows| - 1] == prev;
      SelectNone(expenses, InCategory(c.id));
      assert Percentage(0.0, grand) == 0.0;
    }
  }

  /** A category that appears in the list is found, and what is found is the first
      category with that id. */
  lemma GetCategoryByIdFindsListed(categories: seq<Category>, c: Category)
    requires c in categories
    ensures GetCategoryById(categories, c.id).Some?
    ensures Unique(categories, CategoryId) ==> GetCategoryById(categories, c.id) == Some(c)
  {
  }
}
