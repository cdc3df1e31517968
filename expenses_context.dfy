/** `context/ExpensesContext.tsx`: the store of expenses and categories and its six
    operations. Every operation replaces one of the two lists; the one business rule
    is that a category some expense is filed under cannot be deleted.

    A fresh `uuidv4()` is a parameter of the operation that needs it; what was found
    in storage at start-up is a parameter of the constructor. */
module ExpensesContext {
  import opened Wrappers
  import opened Types
  import opened Sequences
  import opened Ledger

  /** `list.map(x => x.id === updated.id ? updated : x)` */
  function Replace<T>(s: seq<T>, key: T -> string, updated: T): (r: seq<T>)
    ensures |r| == |s|
    ensures forall i :: 0 <= i < |s| ==>
      r[i] == if key(s[i]) == key(updated) then updated else s[i]
  {
    if s == [] then []
    else
      Replace(s[..|s| - 1], key, updated)
      + [if key(s[|s| - 1]) == key(updated) then updated else s[|s| - 1]]
  }

  /** `list.filter(x => x.id !== id)` */
  function Remove<T>(s: seq<T>, key: T -> string, id: string): seq<T> {
    if s == [] then []
    else if key(s[|s| - 1]) != id then Remove(s[..|s| - 1], key, id) + [s[|s| - 1]]
    else Remove(s[..|s| - 1], key, id)
  }

  /** The eight categories of `data/defaultCategories.ts`, with the ids drawn for them. */
  function DefaultCategories(ids: seq<string>): seq<Category>
    requires |ids| == 8
  {
    [ Category(ids[0], "Food & Dining", "#0D9488", "utensils"),
      Category(ids[1], "Transportation", "#8B5CF6", "car"),
      Category(ids[2], "Shopping", "#F59E0B", "shopping-bag"),
      Category(ids[3], "Entertainment", "#EC4899", "film"),
      Category(ids[4], "Housing", "#3B82F6", "home"),
      Category(ids[5], "Utilities", "#10B981", "plug"),
      Category(ids[6], "Healthcare", "#EF4444", "heart"),
      Category(ids[7], "Other", "#6B7280", "more-horizontal") ]
  }

  /** What `deleteCategory` did: refused, because `count` expenses use the category,
      or deleted it. */
  datatype DeleteOutcome = Rejected(count: nat) | Deleted

  /** Every expense is filed under a category of the list. */
  predicate FiledUnderKnown(expenses: seq<Expense>, categories: seq<Category>) {
    forall e :: e in expenses ==> e.categoryId in Keys(categories, CategoryId)
  }

  class ExpenseStore {
    var expenses: seq<Expense>
    var categories: seq<Category>

    /** No two expenses and no two categories share an id. */
    predicate UniqueIds()
      reads this
    {
      Unique(expenses, ExpenseId) && Unique(categories, CategoryId)
    }

    /** Every expense is filed under a known category. */
    predicate Consistent()
      reads this
    {
      FiledUnderKnown(expenses, categories)
    }

    /** The mount effect: the stored expenses, or none; the stored categories, or the
        default ones when nothing is stored (a stored empty list stays empty). */
    constructor Load(
      storedExpenses: Option<seq<Expense>>,
      storedCategories: Option<seq<Category>>,
      defaultIds: seq<string>)
      requires |defaultIds| == 8
      ensures expenses == storedExpenses.GetOr([])
      ensures categories == storedCategories.GetOr(DefaultCategories(defaultIds))
    {
      expenses := storedExpenses.GetOr([]);
      categories := storedCategories.GetOr(DefaultCategories(defaultIds));
    }

    /** `addExpense`: the draft, with a fresh id, goes at the end. */
    method AddExpense(expense: ExpenseDraft, freshId: string)
      requires freshId !in Keys(expenses, ExpenseId)
      modifies this
      ensures expenses == old(expenses) + [expense.WithId(freshId)]
      ensures categories == old(categories)
      ensures old(UniqueIds()) ==> UniqueIds()
      ensures old(Consistent()) && expense.categoryId in Keys(categories, CategoryId) ==> Consistent()
    {
      expenses := expenses + [expense.WithId(freshId)];
      AppendFresh(old(expenses), ExpenseId, expense.WithId(freshId));
    }

    /** `updateExpense`: the expense with the same id is replaced, in place. */
    method UpdateExpense(updatedExpense: Expense)
      modifies this
      ensures expenses == Replace(old(expenses), ExpenseId, updatedExpense)
      ensures categories == old(categories)
      ensures old(UniqueIds()) ==> UniqueIds()
      ensures old(Consistent()) && updatedExpense.categoryId in Keys(categories, CategoryId) ==> Consistent()
    {
      expenses := Replace(expenses, ExpenseId, updatedExpense);
      ReplaceKeepsKeys(old(expenses), ExpenseId, updatedExpense);
      ReplaceElements(old(expenses), ExpenseId, updatedExpense);
    }

    /** `deleteExpense`: every expense with that id goes, the rest keep their order. */
    method DeleteExpense(id: string)
      modifies this
      ensures expenses == Remove(old(expenses), ExpenseId, id)
      ensures categories == old(categories)
      ensures old(UniqueIds()) ==> UniqueIds()
      ensures old(Consistent()) ==> Consistent()
    {
      expenses := Remove(expenses, ExpenseId, id);
      RemoveKeepsUnique(old(expenses), ExpenseId, id);
      RemoveElements(old(expenses), ExpenseId, id);
    }

    /** `addCategory`: the draft, with a fresh id, goes at the end. */
    method AddCategory(category: CategoryDraft, freshId: string)
      requires freshId !in Keys(categories, CategoryId)
      modifies this
      ensures categories == old(categories) + [category.WithId(freshId)]
      ensures expenses == old(expenses)
      ensures old(UniqueIds()) ==> UniqueIds()
      ensures old(Consistent()) ==> Consistent()
    {
      categories := categories + [category.WithId(freshId)];
      AppendFresh(old(categories), CategoryId, category.WithId(freshId));
    }

    /** `updateCategory`: the category with the same id is replaced, in place. */
    method UpdateCategory(updatedCategory: Category)
      modifies this
      ensures categories == Replace(old(categories), CategoryId, updatedCategory)
      ensures expenses == old(expenses)
      ensures old(UniqueIds()) ==> UniqueIds()
      ensures old(Consistent()) ==> Consistent()
    {
      categories := Replace(categories, CategoryId, updatedCategory);
      ReplaceKeepsKeys(old(categories), CategoryId, updatedCategory);
    }

    /** `deleteCategory`: refused, with the number of expenses filed under the
        category, while any expense uses it; otherwise the category goes. The
        expenses are never touched, so no expense is left filed under a deleted
        category. */
    method DeleteCategory(id: string) returns (outcome: DeleteOutcome)
      modifies this
      ensures var inUse := |Select(old(expenses), InCategory(id))|;
        if inUse > 0 then outcome == Rejected(inUse) && categories == old(categories)
        else outcome == Deleted && categories == Remove(old(categories), CategoryId, id)
      ensures expenses == old(expenses)
      ensures outcome == Deleted ==> forall e :: e in expenses ==> e.categoryId != id
      ensures old(UniqueIds()) ==> UniqueIds()
      ensures old(Consistent()) ==> Consistent()
    {
      var expensesWithCategory := Select(expenses, InCategory(id));
      if |expensesWithCategory| > 0 {
        return Rejected(|expensesWithCategory|);
      }
      SelectEmptyIff(expenses, InCategory(id));
      categories := Remove(categories, CategoryId, id);
      RemoveKeepsUnique(old(categories), CategoryId, id);
      RemoveKeys(old(categories), CategoryId, id);
      outcome := Deleted;
    }
  }

  // ---------------------------------------------------------------------------
  // Lemmas

  lemma RemoveSnoc<T>(s: seq<T>, key: T -> string, id: string, x: T)
    ensures Remove(s + [x], key, id) == if key(x) != id then Remove(s, key, id) + [x] else Remove(s, key, id)
  {
    assert (s + [x])[..|s|] == s;
  }

  /** Removal takes out every element with the id, as many times as it occurs, and
      nothing else. */
  lemma {:induction false} RemoveCount<T>(s: seq<T>, key: T -> string, id: string, x: T)
    ensures multiset(Remove(s, key, id))[x] == if key(x) == id then 0 else multiset(s)[x]
  {
    if s != [] {
      var p := s[..|s| - 1];
      RemoveCount(p, key, id, x);
      assert s == p + [s[|s| - 1]];
    }
  }

  lemma RemoveElements<T>(s: seq<T>, key: T -> string, id: string)
    ensures forall x :: x in Remove(s, key, id) <==> x in s && key(x) != id
  {
    forall x ensures x in Remove(s, key, id) <==> x in s && key(x) != id {
      RemoveCount(s, key, id, x);
    }
  }

  /** Removal keeps the order of what stays. */
  lemma {:induction false} RemoveSubsequence<T>(s: seq<T>, key: T -> string, id: string)
    ensures IsSubsequence(Remove(s, key, id), s)
  {
    if s == [] {
      assert EmbedsAt<T>([], [], []);
    } else {
      var p, x := s[..|s| - 1], s[|s| - 1];
      RemoveSubsequence(p, key, id);
      var idx :| EmbedsAt(Remove(p, key, id), p, idx);
      if key(x) != id {
        assert EmbedsAt(Remove(s, key, id), s, idx + [|p|]);
      } else {
        assert EmbedsAt(Remove(s, key, id), s, idx);
      }
    }
  }

  /** Removing an id nothing carries changes nothing. */
  lemma {:induction false} RemoveAbsent<T>(s: seq<T>, key: T -> string, id: string)
    requires forall i :: 0 <= i < |s| ==> key(s[i]) != id
    ensures Remove(s, key, id) == s
  {
    if s != [] {
      RemoveAbsent(s[..|s| - 1], key, id);
    }
  }

  /** After removal, the ids are the old ones less the removed one. */
  lemma {:induction false} RemoveKeys<T>(s: seq<T>, key: T -> string, id: string)
    ensures Keys(Remove(s, key, id), key) == Keys(s, key) - {id}
  {
    if s != [] {
      var p, x := s[..|s| - 1], s[|s| - 1];
      RemoveKeys(p, key, id);
      assert s == p + [x];
      assert Keys(s, key) == Keys(p, key) + {key(x)};
      if key(x) != id {
        assert Keys(Remove(s, key, id), key) == Keys(Remove(p, key, id), key) + {key(x)};
      }
    }
  }

  /** Removal keeps ids unique. */
  lemma RemoveKeepsUnique<T>(s: seq<T>, key: T -> string, id: string)
    ensures Unique(s, key) ==> Unique(Remove(s, key, id), key)
  {
    if Unique(s, key) {
      RemoveSubsequence(s, key, id);
      var r := Remove(s, key, id);
      var idx :| EmbedsAt(r, s, idx);
      forall i, j | 0 <= i < j < |r| ensures key(r[i]) != key(r[j]) {
        assert r[i] == s[idx[i]] && r[j] == s[idx[j]] && idx[i] < idx[j];
      }
    }
  }

  /** Appending an element whose id is not in use keeps ids unique, and adds that id. */
  lemma AppendFresh<T>(s: seq<T>, key: T -> string, x: T)
    requires key(x) !in Keys(s, key)
    ensures Unique(s, key) ==> Unique(s + [x], key)
    ensures Keys(s + [x], key) == Keys(s, key) + {key(x)}
  {
    var r := s + [x];
    if Unique(s, key) {
      forall i, j | 0 <= i < j < |r| ensures key(r[i]) != key(r[j]) {
        if j == |s| {
          assert r[i] in s;
        }
      }
    }
    assert forall y :: y in r <==> y in s || y == x;
  }

  /** Replacing keeps the ids, in their order. */
  lemma {:induction false} ReplaceKeepsOrder<T>(s: seq<T>, key: T -> string, updated: T)
    ensures Sorting.Project(Replace(s, key, updated), key) == Sorting.Project(s, key)
  {
    if s != [] {
      var p := s[..|s| - 1];
      ReplaceKeepsOrder(p, key, updated);
      var r := Replace(s, key, updated);
      assert r[..|r| - 1] == Replace(p, key, updated);
    }
  }

  /** Replacing keeps the set of ids, and keeps them unique. */
  lemma ReplaceKeepsKeys<T>(s: seq<T>, key: T -> string, updated: T)
    ensures Keys(Replace(s, key, updated), key) == Keys(s, key)
    ensures Unique(s, key) ==> Unique(Replace(s, key, updated), key)
  {
    var r := Replace(s, key, updated);
    assert forall i :: 0 <= i < |s| ==> key(r[i]) == key(s[i]);
    forall y | y in Keys(s, key) ensures y in Keys(r, key) {
      var i :| 0 <= i < |s| && key(s[i]) == y;
      assert r[i] in r;
    }
    forall y | y in Keys(r, key) ensures y in Keys(s, key) {
      var i :| 0 <= i < |r| && key(r[i]) == y;
      assert s[i] in s;
    }
  }

  /** What a replacement leaves in the list is either the new element or an old one. */
  lemma ReplaceElements<T>(s: seq<T>, key: T -> string, updated: T)
    ensures forall x :: x in Replace(s, key, updated) ==> x == updated || x in s
  {
  }

  /** Replacing an id nothing carries changes nothing. */
  lemma ReplaceAbsent<T>(s: seq<T>, key: T -> string, updated: T)
    requires key(updated) !in Keys(s, key)
    ensures Replace(s, key, updated) == s
  {
    assert forall i :: 0 <= i < |s| ==> key(s[i]) != key(updated) by {
      forall i | 0 <= i < |s| ensures key(s[i]) != key(updated) {
        assert s[i] in s;
      }
    }
  }

  /** Replacing twice with the same element is replacing once. */
  lemma ReplaceIdempotent<T>(s: seq<T>, key: T -> string, updated: T)
    ensures Replace(Replace(s, key, updated), key, updated) == Replace(s, key, updated)
  {
  }

  /** Removing a category nobody uses keeps every expense filed under a known category. */
  lemma RemoveUnusedCategory(expenses: seq<Expense>, categories: seq<Category>, id: string)
    requires FiledUnderKnown(expenses, categories)
    requires forall e :: e in expenses ==> e.categoryId != id
    ensures FiledUnderKnown(expenses, Remove(categories, CategoryId, id))
  {
    RemoveKeys(categories, CategoryId, id);
  }

  /** The default categories have eight distinct names. */
  lemma DefaultCategoryNamesDistinct(ids: seq<string>)
    requires |ids| == 8
    ensures Unique(DefaultCategories(ids), (c: Category) => c.name)
  {
    var r := DefaultCategories(ids);
    forall i, j | 0 <= i < j < 8 ensures r[i].name != r[j].name {
      assert r[i].name[0] != r[j].name[0] || r[i].name[1] != r[j].name[1] by {
        if i == 0 {
        } else if i == 1 {
        } else if i == 2 {
        } else if i == 3 {
        } else if i == 4 {
        } else if i == 5 {
        } else {
        }
      }
    }
  }

  /** The default categories have distinct ids when the ids drawn for them are
      distinct. */
  lemma DefaultCategoryIdsDistinct(ids: seq<string>)
    requires |ids| == 8
    ensures (forall i, j :: 0 <= i < j < 8 ==> ids[i] != ids[j]) ==> Unique(DefaultCategories(ids), CategoryId)
  {
    var r := DefaultCategories(ids);
    assert forall k :: 0 <= k < 8 ==> r[k].id == ids[k];
  }

}
