/** The reductions over expense lists that `utils/formatters.ts` and the dashboard and
    report components share: the total of a list (`calculateTotalExpenses`), the
    order-preserving filters they apply (`expenses.filter(...)`), and calendar-aligned
    buckets of totals.

    Filters are named by a `Criterion` value rather than by a closure, so that the
    same filter written in two places is the same filter. */
module Ledger {
  import opened Wrappers
  import opened Calendar
  import opened Types
  import opened Text
  import opened DateRanges
  import Sorting
  import opened Sequences

  /** `calculateTotalExpenses`: `reduce((total, e) => total + e.amount, 0)`. */
  function Total(es: seq<Expense>): real {
    if es == [] then 0.0 else Total(es[..|es| - 1]) + es[|es| - 1].amount
  }

  /** The sum of a series (`reduce((sum, x) => sum + x, 0)`). */
  function SumSeq(xs: seq<real>): real {
    if xs == [] then 0.0 else SumSeq(xs[..|xs| - 1]) + xs[|xs| - 1]
  }

  datatype Criterion =
    | InCategory(categoryId: string)
    | InAnyCategory(ids: set<string>)
    | OnDay(day: Date)
    | InMonth(year: int, month: int)
    | InYear(year: int)
    | Within(range: DateRange)
    | MatchesFilters(searchTerm: string, selectedCategory: string)
    | Not(c: Criterion)

  /** The search box of the expenses list: the lower-cased term occurs in the
      lower-cased description or notes (missing notes read as ""). */
  predicate MatchesSearch(e: Expense, searchTerm: string) {
    Includes(ToLower(e.description), ToLower(searchTerm))
    || Includes(ToLower(e.notes.GetOr("")), ToLower(searchTerm))
  }

  predicate Holds(c: Criterion, e: Expense) {
    match c
    case InCategory(id) => e.categoryId == id
    case InAnyCategory(ids) => e.categoryId in ids
    case OnDay(d) => e.date == d
    case InMonth(y, m) => e.date.year == y && e.date.month == m
    case InYear(y) => e.date.year == y
    case Within(r) => IsExpenseInRange(e.date, r)
    case MatchesFilters(term, category) =>
      MatchesSearch(e, term) && (category == "" || e.categoryId == category)
    case Not(c') => !Holds(c', e)
  }

  /** `es.filter(e => Holds(c, e))`. */
  function Select(es: seq<Expense>, c: Criterion): seq<Expense> {
    if es == [] then []
    else if Holds(c, es[|es| - 1]) then Select(es[..|es| - 1], c) + [es[|es| - 1]]
    else Select(es[..|es| - 1], c)
  }

  /** The timestamp of an expense's day (`new Date(e.date).getTime()`, in days). */
  function Timestamp(e: Expense): real {
    DayNumber(e.date) as real
  }

  /** `[...expenses].sort((a, b) => new Date(b.date).getTime() - new Date(a.date).getTime())`:
      a sorted copy, newest first, equal dates in list order. */
  function NewestFirst(es: seq<Expense>): seq<Expense> {
    Sorting.SortDesc(es, Timestamp)
  }

  // ---------------------------------------------------------------------------
  // Totals and filters

  lemma TotalSnoc(es: seq<Expense>, x: Expense)
    ensures Total(es + [x]) == Total(es) + x.amount
  {
    assert (es + [x])[..|es|] == es;
  }

  /** The total of two lists put together is the sum of their totals. */
  lemma {:induction false} TotalConcat(a: seq<Expense>, b: seq<Expense>)
    ensures Total(a + b) == Total(a) + Total(b)
  {
    if b != [] {
      var p, x := b[..|b| - 1], b[|b| - 1];
      TotalConcat(a, p);
      assert a + b == (a + p) + [x];
      TotalSnoc(a + p, x);
    } else {
      assert a + b == a;
    }
  }

  lemma SelectSnoc(es: seq<Expense>, x: Expense, c: Criterion)
    ensures Select(es + [x], c) == if Holds(c, x) then Select(es, c) + [x] else Select(es, c)
  {
    assert (es + [x])[..|es|] == es;
  }

  /** The filter keeps each element that meets the criterion, as often as it occurs,
      and nothing else. */
  lemma {:induction false} SelectCount(es: seq<Expense>, c: Criterion, x: Expense)
    ensures multiset(Select(es, c))[x] == if Holds(c, x) then multiset(es)[x] else 0
  {
    if es != [] {
      var p := es[..|es| - 1];
      SelectCount(p, c, x);
      assert es == p + [es[|es| - 1]];
    }
  }

  /** The filter keeps the order of what it keeps. */
  lemma {:induction false} SelectSubsequence(es: seq<Expense>, c: Criterion)
    ensures IsSubsequence(Select(es, c), es)
  {
    if es == [] {
      assert EmbedsAt<Expense>([], [], []);
    } else {
      var p, x := es[..|es| - 1], es[|es| - 1];
      SelectSubsequence(p, c);
      var idx :| EmbedsAt(Select(p, c), p, idx);
      if Holds(c, x) {
        assert EmbedsAt(Select(es, c), es, idx + [|p|]);
      } else {
        assert EmbedsAt(Select(es, c), es, idx);
      }
    }
  }

  /** Criteria that agree on every element select the same elements. */
  lemma {:induction false} SelectEquivalent(es: seq<Expense>, a: Criterion, b: Criterion)
    requires forall e :: e in es ==> (Holds(a, e) <==> Holds(b, e))
    ensures Select(es, a) == Select(es, b)
  {
    if es != [] {
      var p := es[..|es| - 1];
      assert forall e :: e in p ==> e in es;
      SelectEquivalent(p, a, b);
    }
  }

  /** A criterion every element meets keeps the whole list. */
  lemma {:induction false} SelectAll(es: seq<Expense>, c: Criterion)
    requires forall e :: e in es ==> Holds(c, e)
    ensures Select(es, c) == es
  {
    if es != [] {
      var p, x := es[..|es| - 1], es[|es| - 1];
      assert es == p + [x];
      forall e | e in p ensures Holds(c, e) {
        assert e in es;
      }
      SelectAll(p, c);
      assert x in es;
    }
  }

  /** The filter is empty exactly when no element meets the criterion. */
  lemma {:induction false} SelectEmptyIff(es: seq<Expense>, c: Criterion)
    ensures |Select(es, c)| == 0 <==> forall e :: e in es ==> !Holds(c, e)
  {
    if es != [] {
      var p, x := es[..|es| - 1], es[|es| - 1];
      SelectEmptyIff(p, c);
      assert es == p + [x];
      if Holds(c, x) {
        assert |Select(es, c)| == |Select(p, c)| + 1;
        assert x in es;
      } else {
        assert Select(es, c) == Select(p, c);
        assert forall e :: e in es <==> e in p || e == x;
      }
    }
  }

  /** Filtering by `a` and then by `b` is filtering by `b` when `b` implies `a`. */
  lemma {:induction false} SelectNarrower(es: seq<Expense>, a: Criterion, b: Criterion)
    requires forall e :: e in es && Holds(b, e) ==> Holds(a, e)
    ensures Select(Select(es, a), b) == Select(es, b)
  {
    if es != [] {
      var p, x := es[..|es| - 1], es[|es| - 1];
      SelectNarrower(p, a, b);
      if Holds(a, x) {
        SelectSnoc(Select(p, a), x, b);
      }
    }
  }

  /** With no negative amount, a filtered total lies between 0 and the full total. */
  lemma {:induction false} SelectTotalBounds(es: seq<Expense>, c: Criterion)
    requires forall e :: e in es ==> e.amount >= 0.0
    ensures 0.0 <= Total(Select(es, c)) <= Total(es)
  {
    if es != [] {
      var p, x := es[..|es| - 1], es[|es| - 1];
      SelectTotalBounds(p, c);
      if Holds(c, x) {
        TotalSnoc(Select(p, c), x);
      }
    }
  }

  /** The elements that meet a criterion and those that do not share the total. */
  lemma {:induction false} TotalComplement(es: seq<Expense>, c: Criterion)
    ensures Total(es) == Total(Select(es, c)) + Total(Select(es, Not(c)))
  {
    if es != [] {
      var p, x := es[..|es| - 1], es[|es| - 1];
      TotalComplement(p, c);
      TotalSnoc(Select(p, c), x);
      TotalSnoc(Select(p, Not(c)), x);
    }
  }

  /** Adding a category id `x` to a set of ids adds the total of category `x`. */
  lemma {:induction false} TotalAddCategory(es: seq<Expense>, ids: set<string>, x: string)
    requires x !in ids
    ensures Total(Select(es, InAnyCategory(ids + {x})))
         == Total(Select(es, InAnyCategory(ids))) + Total(Select(es, InCategory(x)))
  {
    if es != [] {
      var p, e := es[..|es| - 1], es[|es| - 1];
      var both, known, one := InAnyCategory(ids + {x}), InAnyCategory(ids), InCategory(x);
      TotalAddCategory(p, ids, x);
      if e.categoryId == x {
        assert Select(es, both) == Select(p, both) + [e];
        assert Select(es, known) == Select(p, known);
        assert Select(es, one) == Select(p, one) + [e];
        TotalSnoc(Select(p, both), e);
        TotalSnoc(Select(p, one), e);
      } else if e.categoryId in ids {
        assert Select(es, both) == Select(p, both) + [e];
        assert Select(es, known) == Select(p, known) + [e];
        assert Select(es, one) == Select(p, one);
        TotalSnoc(Select(p, both), e);
        TotalSnoc(Select(p, known), e);
      } else {
        assert Select(es, both) == Select(p, both);
        assert Select(es, known) == Select(p, known);
        assert Select(es, one) == Select(p, one);
      }
    }
  }

  // ---------------------------------------------------------------------------
  // Calendar buckets

  /** A calendar period cut into buckets: the days of a month, or the months of a year. */
  datatype Period = DaysOfMonth(year: int, month: int) | MonthsOfYear(year: int)
  {
    predicate Valid() {
      DaysOfMonth? ==> 1 <= month <= 12
    }

    function SlotCount(): nat
      requires Valid()
    {
      match this
      case DaysOfMonth(y, m) => DaysInMonth(y, m)
      case MonthsOfYear(_) => 12
    }

    /** The criterion of bucket `i`: day `i + 1` of the month, or month `i + 1` of the year. */
    function Slot(i: nat): Criterion
      requires Valid() && i < SlotCount()
    {
      match this
      case DaysOfMonth(y, m) => OnDay(Date(y, m, i + 1))
      case MonthsOfYear(y) => InMonth(y, i + 1)
    }

    /** The criterion of the whole period. */
    function Whole(): Criterion {
      match this
      case DaysOfMonth(y, m) => InMonth(y, m)
      case MonthsOfYear(y) => InYear(y)
    }
  }

  /** One total per bucket, in calendar order, zero for a bucket nothing falls in. */
  function Buckets(es: seq<Expense>, p: Period): seq<real>
    requires p.Valid()
  {
    seq(p.SlotCount(), i requires 0 <= i < p.SlotCount() => Total(Select(es, p.Slot(i))))
  }

  /** The bucket an expense of the period falls in. */
  function SlotOf(p: Period, e: Expense): nat
    requires p.Valid() && Holds(p.Whole(), e)
    ensures SlotOf(p, e) < p.SlotCount()
  {
    match p
    case DaysOfMonth(_, _) => e.date.day - 1
    case MonthsOfYear(_) => e.date.month - 1
  }

  /** An expense falls in exactly one bucket when it falls in the period, and in
      none otherwise. */
  lemma SlotExactlyOne(p: Period, e: Expense, i: nat)
    requires p.Valid() && i < p.SlotCount()
    ensures Holds(p.Slot(i), e) <==> Holds(p.Whole(), e) && i == SlotOf(p, e)
  {
  }

  lemma {:induction false} SumSeqUpdate(xs: seq<real>, k: nat, v: real)
    requires k < |xs|
    ensures SumSeq(xs[k := xs[k] + v]) == SumSeq(xs) + v
  {
    var p := xs[..|xs| - 1];
    if k == |xs| - 1 {
      assert xs[k := xs[k] + v][..|xs| - 1] == p;
    } else {
      SumSeqUpdate(p, k, v);
      assert xs[k := xs[k] + v][..|xs| - 1] == p[k := p[k] + v];
    }
  }

  lemma {:induction false} SumSeqZeros(xs: seq<real>)
    requires forall i :: 0 <= i < |xs| ==> xs[i] == 0.0
    ensures SumSeq(xs) == 0.0
  {
    if xs != [] {
      SumSeqZeros(xs[..|xs| - 1]);
    }
  }

  /** Adding one expense to the list adds its amount to its own bucket only. */
  lemma BucketsSnoc(es: seq<Expense>, x: Expense, p: Period)
    requires p.Valid()
    ensures Holds(p.Whole(), x) ==>
      Buckets(es + [x], p) == Buckets(es, p)[SlotOf(p, x) := Buckets(es, p)[SlotOf(p, x)] + x.amount]
    ensures !Holds(p.Whole(), x) ==> Buckets(es + [x], p) == Buckets(es, p)
  {
    forall i | 0 <= i < p.SlotCount()
      ensures Buckets(es + [x], p)[i]
           == Buckets(es, p)[i] + (if Holds(p.Slot(i), x) then x.amount else 0.0)
    {
      SelectSnoc(es, x, p.Slot(i));
      if Holds(p.Slot(i), x) {
        TotalSnoc(Select(es, p.Slot(i)), x);
      }
      SlotExactlyOne(p, x, i);
    }
    forall i | 0 <= i < p.SlotCount() ensures Holds(p.Slot(i), x) <==> Holds(p.Whole(), x) && i == SlotOf(p, x) {
      SlotExactlyOne(p, x, i);
    }
  }

  /** The buckets partition the period: together they hold exactly the total of the
      expenses that fall in it, each counted once. */
  lemma {:induction false} BucketsPartition(es: seq<Expense>, p: Period)
    requires p.Valid()
    ensures SumSeq(Buckets(es, p)) == Total(Select(es, p.Whole()))
  {
    if es == [] {
      SumSeqZeros(Buckets(es, p));
    } else {
      var q, x := es[..|es| - 1], es[|es| - 1];
      assert es == q + [x];
      BucketsPartition(q, p);
      BucketsSnoc(q, x, p);
      if Holds(p.Whole(), x) {
        var b, k := Buckets(q, p), SlotOf(p, x);
        SumSeqUpdate(b, k, x.amount);
        TotalSnoc(Select(q, p.Whole()), x);
      }
    }
  }
}
