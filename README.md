# Expense Tracker — a verified model of its bookkeeping

This project models the logic of the Expense Tracker web application (React and
TypeScript). That logic covers:

- the store of expenses and categories and its six operations, with the one business
  rule that a category in use cannot be deleted;
- the date ranges the dashboards filter by: day, week from Monday, month, year and
  custom;
- the figures derived from the expenses:
  - the per-category totals with their one-decimal percentages, sorted by total;
  - the daily series of a month and its running total;
  - the twelve monthly totals of a year and their average over months with spending;
  - the month-over-month change;
  - this month's category breakdown;
- the expense list (newest first, with search and category filters) and the five most
  recent expenses;
- the validation and state of the category form and the expense form;
- the theme and currency settings.

Amounts are `real`. Dates are calendar days (`Calendar.Date`). A day's timestamp is
its `DayNumber`, the number of days since 0000-01-01 of the proleptic Gregorian
calendar. The JavaScript `Date` constructor's month and day overflow is modelled by
`Calendar.MakeDate`.

The structure of the model:

- Filters are values of `Ledger.Criterion`. `Ledger.Select` applies one, keeping the
  list's order.
- `Sorting.SortDesc` is the stable descending sort that `Array.prototype.sort` performs
  with a `b - a` comparator.
- Code that updates state in place is modelled as classes with `modifies` clauses:
  - the context providers, as `ExpenseStore` and `SettingsStore`;
  - the component state, as the two forms, the list's filters and the monthly chart's
    month offset.
- The records that the charts build and fill in `forEach` loops are arrays indexed by
  day or month. Each is filled by a loop proved equal to `Ledger.Buckets`.

Parameters stand in for everything the program reads from outside:

- the current day;
- the fresh `uuidv4()` id, with a precondition that no element already has it;
- what was found in storage at start-up;
- the number the amount field parses to;
- the answer to a confirmation dialog.

## Model

| member | source | states |
|---|---|---|
| Calendar.MakeDate | MonthlyChart.tsx:37 | `new Date(year, monthIndex, day)`: years 0 to 99 read as 1900 to 1999, the month index overflowing into other years, the day counted from the first of the month; what it yields is stated by `FirstOfMonthIndex` and `DayZeroIsLastOfPreviousMonth` |
| Calendar.DaysInMonth | MonthlyChart.tsx:41-42 | a month has 28 to 31 days |
| Calendar.InMonthIff | dateUtils.ts:36-40 | a day lies between the first and last day of a month exactly when it is a day of that month |
| Calendar.InYearIff | dateUtils.ts:41-45 | a day lies between 1 January and 31 December of a year exactly when it is in that year |
| Calendar.ChronologicalOrder | ExpensesList.tsx:16-18 | comparing timestamps is comparing (year, month, day) lexicographically |
| Calendar.DayNumberInjective | dateUtils.ts:26-30 | two days have the same timestamp exactly when they are the same day |
| Calendar.MonthIndexInjective | ExpenseSummary.tsx:24-29 | the running month number identifies the year and month |
| Calendar.AddDaysNumber | dateUtils.ts:31-35 | moving a day by n days moves its timestamp by n |
| Calendar.FirstOfMonthIndex | MonthlyChart.tsx:37 | `new Date(y, mi)` is the first day of month mi counted from January of y, months overflowing into the following or previous years |
| Calendar.DayZeroIsLastOfPreviousMonth | ExpenseSummary.tsx:28 | `new Date(y, mi, 0)` is the last day of the month before month mi |
| Calendar.WeekdayExamples | dateUtils.ts:33-34 | the weekday function agrees with known weekdays (1970-01-01 was a Thursday) |
| DayKeys.ParseDayKeyRoundTrip | MonthlyChart.tsx:52 | the `yyyy-MM-dd` key of a day with a four-digit year parses back to that day |
| DayKeys.DayKeyOfParsed | MonthlyChart.tsx:59-60 | a well-formed key is the key of the day it parses to |
| DayKeys.DayKeyInjective | MonthlyChart.tsx:59-60 | two days have the same key exactly when they are the same day, so matching keys is matching days |
| Text.TrimShape | ExpenseForm.tsx:76 | `trim` removes only white space, from both ends, and leaves no white space at either end |
| Text.BlankIff | CategoryForm.tsx:58 | a string is empty after trimming exactly when all of it is white space |
| Text.ToLowerIdempotent | ExpensesList.tsx:22-23 | lower-casing twice is lower-casing once |
| Text.IncludesIff | ExpensesList.tsx:22-23 | `includes` holds exactly when the term occurs at some position |
| Text.IncludesEmpty | ExpensesList.tsx:22-24 | every string includes the empty term |
| DateRanges.GetDateRangeFromType | dateUtils.ts:15-52 | the range of each kind: a custom range with both bounds, else today's day, week from Monday, month or year, the month being the fallback; stated by the range lemmas below |
| DateRanges.StartOfWeek | dateUtils.ts:33 | `startOfWeek` with weeks starting on Monday; stated by `StartOfWeekIsMonday` |
| DateRanges.EndOfWeek | dateUtils.ts:34 | `endOfWeek` with weeks starting on Monday; stated by `EndOfWeekIsSunday` |
| DateRanges.IsExpenseInRange | dateUtils.ts:54-57 | a day is in a range when its timestamp lies between those of the range's ends, both included; stated by `EndpointsIncluded` and the membership lemmas |
| DateRanges.CustomRange | dateUtils.ts:18-23 | a custom range with both bounds is those bounds; with a bound missing it is the current month |
| DateRanges.StartOfWeekIsMonday | dateUtils.ts:33 | the week starts on the Monday on or before today, at most six days back |
| DateRanges.EndOfWeekIsSunday | dateUtils.ts:34 | the week ends on the Sunday six days after its Monday |
| DateRanges.WeekRange | dateUtils.ts:31-35 | the week range runs Monday to Sunday, seven days, and contains today |
| DateRanges.DayRange | dateUtils.ts:26-30 | the day range contains today and no other day |
| DateRanges.MonthRangeMembership | dateUtils.ts:36-40 | a day is in the month range exactly when it is in today's month |
| DateRanges.YearRangeMembership | dateUtils.ts:41-45 | a day is in the year range exactly when it is in today's year |
| DateRanges.ResolvedRangeContainsToday | dateUtils.ts:25-51 | every range resolved from today (any kind but a custom range with both bounds) contains today |
| DateRanges.EndpointsIncluded | dateUtils.ts:54-57 | membership includes both ends of a range |
| Sorting.SortPermutation | formatters.ts:47 | the sort returns the same elements, as many times each |
| Sorting.SortDescending | formatters.ts:47 | the sort puts the largest key first |
| Sorting.SortStable | formatters.ts:47 | elements with equal keys keep their input order |
| Sorting.SortProject | formatters.ts:47 | any value read off the elements occurs as often after sorting as before |
| Sorting.SortSumKeys | formatters.ts:47 | sorting does not change the sum of any number read off the elements, such as the totals or the percentages |
| Ledger.Total | formatters.ts:3-5 | `calculateTotalExpenses`, the sum of the amounts; stated by `TotalSnoc`, `TotalConcat` and `TotalComplement` |
| Ledger.NewestFirst | ExpensesList.tsx:16-18 | the copy sorted by timestamp, newest first; stated by `ExpensesList.NewestFirstSorts` |
| Ledger.TotalSnoc | formatters.ts:3-5 | appending an expense adds its amount to the total |
| Ledger.TotalConcat | formatters.ts:3-5 | the total of two lists joined is the sum of their totals |
| Ledger.SelectCount | ExpensesList.tsx:21-26 | a filter keeps every copy of an element that passes and no copy of one that fails |
| Ledger.SelectSubsequence | ExpensesList.tsx:21-26 | a filter keeps the elements in their order |
| Ledger.SelectEquivalent | MonthlyChart.tsx:45-48 | filters that agree on every element select the same list |
| Ledger.SelectAll | ExpensesList.tsx:22-24 | a filter every element passes keeps the whole list |
| Ledger.SelectEmptyIff | ExpensesContext.tsx:74-76 | a filter selects nothing exactly when no element passes it |
| Ledger.SelectNarrower | MonthlyChart.tsx:45-48 | filtering by a wider criterion first does not change a narrower filter's result |
| Ledger.SelectTotalBounds | formatters.ts:32-35 | with non-negative amounts a filtered total is between 0 and the whole total |
| Ledger.TotalComplement | formatters.ts:25 | the total is the total of what passes a filter plus the total of what fails it |
| Ledger.TotalAddCategory | formatters.ts:32-35 | adding a category to a set of categories adds that category's total |
| Ledger.SlotOf | YearlyChart.tsx:48-51 | an expense of the period has a bucket within the period |
| Ledger.SlotExactlyOne | MonthlyChart.tsx:58-62 | an expense falls in exactly one bucket when it is in the period, and in none otherwise |
| Ledger.SumSeqUpdate | MonthlyChart.tsx:61 | adding an amount to one bucket adds it to the sum of the buckets |
| Ledger.SumSeqZeros | MonthlyChart.tsx:51-55 | buckets that are all zero sum to zero |
| Ledger.BucketsSnoc | YearlyChart.tsx:46-54 | a new expense adds its amount to its own bucket if it is in the period and changes nothing otherwise |
| Ledger.BucketsPartition | MonthlyChart.tsx:158 | the buckets sum to the total of the expenses in the period |
| Formatters.ToFixed1 | formatters.ts:45 | `Number(x.toFixed(1))`; stated by `ToFixed1Nearest` and `RoundHalfUp` |
| Formatters.Percentage | formatters.ts:40-45 | a total's share of the grand total in percent, rounded to one decimal, 0 when nothing was spent; stated by `PercentageBounds` |
| Formatters.Entries | formatters.ts:38-46 | the rows of `categories.map`; stated by `EntriesShape` and `EntriesSum` |
| Formatters.CategoryTotals | formatters.ts:24-48 | the rows sorted by total; computed by `GroupExpensesByCategory` and stated by the `CategoryTotals` lemmas |
| Formatters.GetCategoryById | formatters.ts:20-22 | the result is the first category with the id, and there is none exactly when no category has the id |
| Formatters.GetCategoryByIdFindsListed | formatters.ts:20-22 | a listed category is found by its id when ids are unique |
| Formatters.GroupExpensesByCategory | formatters.ts:24-48 | the map-filling loops compute the category totals: one row per category, sorted by total |
| Formatters.ToFixed1Nearest | formatters.ts:45 | the rounded percentage is a whole number of tenths within 0.05 of the exact one |
| Formatters.RoundHalfUp | formatters.ts:45 | rounding to tenths takes the multiple of 0.1 nearest to the value, halves going up |
| Formatters.PercentageBounds | formatters.ts:40 | a percentage is 0 when nothing was spent, and between 0 and 100 for a share of the total |
| Formatters.EntriesShape | formatters.ts:38-46 | before sorting there is one row per category, in the categories' order |
| Formatters.CategoryTotalsCategories | formatters.ts:28-29 | every category has exactly one row, zero totals included |
| Formatters.CategoryTotalsRows | formatters.ts:32-40 | each row's total is the total of the expenses filed under its category, and its percentage is that total's share |
| Formatters.CategoryTotalsOrder | formatters.ts:47 | rows are sorted by total, largest first, and rows with equal totals keep the categories' order |
| Formatters.EntriesSum | formatters.ts:32-35 | the rows' totals sum to the total of the expenses filed under a listed category |
| Formatters.SelectNone | formatters.ts:33 | a filter that no expense passes has total 0 |
| Formatters.CategoryTotalsSum | formatters.ts:25-40 | with unique ids the rows sum to the expenses with known categories; with non-negative amounts that is at most the grand total, and equal to it when every expense has a known category |
| Formatters.PercentagesSumTo100 | formatters.ts:24-48 | when every expense is filed under one of the categories, ids are distinct and something was spent, the rows' percentages add up to 100 within 0.05 per row |
| Formatters.EntriesPercentSum | formatters.ts:38-46 | the rows' rounded percentages add up to the exact share of the rows' totals within 0.05 per row |
| Formatters.UnknownCategoriesNoPercentages | formatters.ts:25-40 | when no expense is filed under a listed category the percentages add up to 0, however much was spent |
| ExpensesContext.Remove | ExpensesContext.tsx:55 | `filter(x => x.id !== id)`; stated by the `Remove` lemmas |
| ExpensesContext.DefaultCategories | ExpensesContext.tsx:25-28 | the eight categories of `defaultCategories.ts` with drawn ids; stated by `DefaultCategoryNamesDistinct` and `DefaultCategoryIdsDistinct` |
| ExpensesContext.Replace | ExpensesContext.tsx:46-52 | each element with the id is replaced and every other element stays in its place |
| ExpensesContext.ExpenseStore.Load | ExpensesContext.tsx:15-29 | the stored lists are loaded; without stored categories the eight default categories are used |
| ExpensesContext.ExpenseStore.AddExpense | ExpensesContext.tsx:41-44 | the expense, with the fresh id, is appended; categories are unchanged; ids stay unique |
| ExpensesContext.ExpenseStore.UpdateExpense | ExpensesContext.tsx:46-52 | the expense with the id is replaced in place; categories are unchanged; ids stay unique |
| ExpensesContext.ExpenseStore.DeleteExpense | ExpensesContext.tsx:54-56 | the expenses with the id are removed; categories are unchanged; ids stay unique |
| ExpensesContext.ExpenseStore.AddCategory | ExpensesContext.tsx:59-62 | the category, with the fresh id, is appended; expenses are unchanged |
| ExpensesContext.ExpenseStore.UpdateCategory | ExpensesContext.tsx:64-70 | the category with the id is replaced in place; expenses are unchanged |
| ExpensesContext.ExpenseStore.DeleteCategory | ExpensesContext.tsx:72-82 | refused, with the number of expenses using the category, when any expense uses it; otherwise the category is removed; expenses never change, so none is left filed under a deleted category |
| ExpensesContext.RemoveCount | ExpensesContext.tsx:55 | removal drops every copy of an element with the id and keeps every other copy |
| ExpensesContext.RemoveElements | ExpensesContext.tsx:55 | an element survives removal exactly when it was there and has another id |
| ExpensesContext.RemoveSubsequence | ExpensesContext.tsx:55 | removal keeps the rest in order |
| ExpensesContext.RemoveAbsent | ExpensesContext.tsx:55 | removing an id nothing carries changes nothing |
| ExpensesContext.RemoveKeys | ExpensesContext.tsx:81 | removal takes exactly that id out of the set of ids |
| ExpensesContext.RemoveKeepsUnique | ExpensesContext.tsx:81 | removal keeps ids unique |
| ExpensesContext.AppendFresh | ExpensesContext.tsx:42-43 | appending an element with a fresh id keeps ids unique and adds that id |
| ExpensesContext.ReplaceKeepsOrder | ExpensesContext.tsx:66-68 | replacement keeps the ids in the same order |
| ExpensesContext.ReplaceKeepsKeys | ExpensesContext.tsx:66-68 | replacement keeps the set of ids, and keeps them unique |
| ExpensesContext.ReplaceElements | ExpensesContext.tsx:48-50 | after replacement every element is the new one or an old one |
| ExpensesContext.ReplaceAbsent | ExpensesContext.tsx:48-50 | replacing an id nothing carries changes nothing |
| ExpensesContext.ReplaceIdempotent | ExpensesContext.tsx:48-50 | replacing twice is replacing once |
| ExpensesContext.RemoveUnusedCategory | ExpensesContext.tsx:72-82 | deleting a category no expense uses leaves every expense filed under a listed category |
| ExpensesContext.DefaultCategoryNamesDistinct | defaultCategories.ts:1-53 | the eight default categories have distinct names |
| ExpensesContext.DefaultCategoryIdsDistinct | ExpensesContext.tsx:25-28 | the default categories have distinct ids when the drawn ids are distinct |
| MonthlyChart.SelectedMonth | MonthlyChart.tsx:36-37 | the first day of the month `monthOffset` months from today's; stated by `SelectedMonthShift` and `PrevFromJanuary` |
| MonthlyChart.MonthExpenses | MonthlyChart.tsx:45-48 | the expenses between the selected month's first and last days; stated by `MonthExpensesAreInMonth` |
| MonthlyChart.TotalForMonth | MonthlyChart.tsx:158 | the sum of the daily totals; stated by `MonthTotal` |
| MonthlyChart.DailyExpenses | MonthlyChart.tsx:51-67 | one bucket per day of the selected month, in order; each bucket is the total of the expenses on that day |
| MonthlyChart.CumulativeSeries | MonthlyChart.tsx:69-74 | entry i is the sum of the daily entries up to i; the last is the sum of all; the series never decreases when amounts are non-negative |
| MonthlyChart.MonthFilterChangesNoBucket | MonthlyChart.tsx:45-63 | filtering to the month first changes no bucket |
| MonthlyChart.MonthExpensesAreInMonth | MonthlyChart.tsx:38-48 | the month's expenses are those dated in the selected calendar month |
| MonthlyChart.MonthTotal | MonthlyChart.tsx:158 | the month total is the total of the month's expenses |
| MonthlyChart.SelectedMonthShift | MonthlyChart.tsx:36-37 | the selected month is the first day of today's month shifted by the offset, across years |
| MonthlyChart.PrevFromJanuary | MonthlyChart.tsx:37 | one month back from January is December of the year before |
| MonthlyChart.MonthNavigator.constructor | MonthlyChart.tsx:33 | the chart opens on today's month |
| MonthlyChart.MonthNavigator.Prev | MonthlyChart.tsx:169 | "Prev" goes one month back |
| MonthlyChart.MonthNavigator.Next | MonthlyChart.tsx:178-179 | "Next" goes one month forward unless the offset is already 0 or more, so the offset never becomes positive |
| MonthlyChart.NeverInTheFuture | MonthlyChart.tsx:168-180 | an offset that is not positive shows today's month or an earlier one |
| YearlyChart.MonthlyExpenses | YearlyChart.tsx:31-58 | twelve buckets, January to December; each is the total of the expenses in that month of the current year |
| YearlyChart.YearlyTotal | YearlyChart.tsx:111 | the sum of the monthly totals; stated by `YearlyTotalIsYearsExpenses` |
| YearlyChart.MonthlyAverage | YearlyChart.tsx:114-115 | the yearly total over the number of months with spending, 0 when there are none; stated by `AverageBounds` and `NoSpendingNoAverage` |
| YearlyChart.MonthsWithExpenses | YearlyChart.tsx:114 | at most as many months with spending as there are months |
| YearlyChart.YearlyTotalIsYearsExpenses | YearlyChart.tsx:46-54 | the yearly total is the total of the expenses dated in the current year; other years count nowhere |
| YearlyChart.TotalAtMostCountTimes | YearlyChart.tsx:111-114 | with months between 0 and a bound, the total is at most the bound times the number of months with spending |
| YearlyChart.NoMonthWithExpensesIff | YearlyChart.tsx:114-115 | no month has spending exactly when no month is positive |
| YearlyChart.AverageBounds | YearlyChart.tsx:114-115 | with months between 0 and a bound, the average is between 0 and the bound |
| YearlyChart.NoSpendingNoAverage | YearlyChart.tsx:115 | with no spending the average and the total are 0 |
| ExpenseSummary.TotalCurrentMonth | ExpenseSummary.tsx:13-21 | the total of the expenses in the current month's range; stated by `CurrentMonthIsTodaysMonth` |
| ExpenseSummary.PreviousMonth | ExpenseSummary.tsx:24-25 | `new Date(year, month - 1)` of today; stated by `PreviousMonthIndex` |
| ExpenseSummary.PreviousMonthRange | ExpenseSummary.tsx:26-29 | from the previous month's first day to day 0 of today's month; stated by `PreviousMonthRangeShape` and `PreviousMonthMembership` |
| ExpenseSummary.PercentChange | ExpenseSummary.tsx:39-42 | the change in percent of last month's total, 0 when that total is not positive; stated by `PercentChangeFloor` |
| ExpenseSummary.TrendingUp | ExpenseSummary.tsx:69-73 | the upward icon shows when the change is positive; stated by `TrendingUpIff` |
| ExpenseSummary.CurrentMonthIsTodaysMonth | ExpenseSummary.tsx:13-21 | this month's expenses and total are those of the expenses dated in today's month |
| ExpenseSummary.PreviousMonthIndex | ExpenseSummary.tsx:24-25 | the previous month is the first day of the calendar month before today's |
| ExpenseSummary.PreviousMonthStart | ExpenseSummary.tsx:27 | the range starts on the previous month's first day |
| ExpenseSummary.PreviousMonthEnd | ExpenseSummary.tsx:28 | the range ends on the previous month's last day |
| ExpenseSummary.PreviousMonthRangeShape | ExpenseSummary.tsx:24-29 | the previous-month range is the whole calendar month before today's |
| ExpenseSummary.PreviousMonthMembership | ExpenseSummary.tsx:31-36 | a day is in the previous-month range exactly when it is in the month before today's |
| ExpenseSummary.JanuaryLooksBackToDecember | ExpenseSummary.tsx:25 | in January the previous month is December of the year before |
| ExpenseSummary.TrendingUpIff | ExpenseSummary.tsx:69-73 | the upward trend shows exactly when last month's total is positive and this month's is larger |
| ExpenseSummary.PercentChangeFloor | ExpenseSummary.tsx:39-42 | with a non-negative total the change is at least -100%, and exactly -100% when nothing was spent this month |
| CategoryBreakdown.Breakdown | CategoryBreakdown.tsx:18-26 | the category totals of this month's expenses; stated by `BreakdownRows` |
| CategoryBreakdown.TotalAmount | CategoryBreakdown.tsx:67 | the total of this month's expenses; stated by `TotalAmountCountsUnknownCategories` |
| CategoryBreakdown.DisplayPercent | CategoryBreakdown.tsx:94-96 | a row's share of the total, `Math.round`ed, 0 when nothing was spent; stated by `DisplayPercentBounds` |
| CategoryBreakdown.ShowsBreakdown | CategoryBreakdown.tsx:79 | the chart shows when this month has an expense; stated by `ShowsBreakdownIff` |
| CategoryBreakdown.RoundNearest | CategoryBreakdown.tsx:95 | `Math.round` moves a value by at most a half, halves going up |
| CategoryBreakdown.DisplayPercentBounds | CategoryBreakdown.tsx:94-96 | a shown percentage is 0 when nothing was spent, and between 0 and 100 for a share of the total |
| CategoryBreakdown.BreakdownRows | CategoryBreakdown.tsx:18-26 | one row per category, sorted by total, each the total of this month's expenses in that category |
| CategoryBreakdown.TotalAmountCountsUnknownCategories | CategoryBreakdown.tsx:67 | the total shown is the sum of the rows plus this month's expenses in no listed category |
| CategoryBreakdown.ShowsBreakdownIff | CategoryBreakdown.tsx:79 | the breakdown, not the empty state, shows exactly when some expense is dated this month |
| ExpensesList.FilteredExpenses | ExpensesList.tsx:21-26 | the newest-first copy filtered by search term and category; stated by `FilteredIff`, `FilteredOrder`, `NoFiltersListAll` and `SearchIgnoresCase` |
| ExpensesList.ExpensesListView.constructor | ExpensesList.tsx:12-13 | both filters start empty |
| ExpensesList.ExpensesListView.SetSearchTerm | ExpensesList.tsx:61 | typing a search term changes only the term |
| ExpensesList.ExpensesListView.SetSelectedCategory | ExpensesList.tsx:68 | choosing a category changes only the category |
| ExpensesList.ExpensesListView.ClearFilters | ExpensesList.tsx:158-163 | clearing resets both filters, after which none is set |
| ExpensesList.ExpensesListView.HandleDeleteExpense | ExpensesList.tsx:28-32 | the expense is deleted when the user confirms, and nothing changes otherwise |
| ExpensesList.NewestFirstSorts | ExpensesList.tsx:16-18 | the sorted copy has the same expenses, newest first, equal dates in list order |
| ExpensesList.FilteredIff | ExpensesList.tsx:21-26 | an expense is listed exactly when it is stored and matches the search term and the category |
| ExpensesList.FilteredOrder | ExpensesList.tsx:21 | the list keeps the newest-first order of the sorted copy |
| ExpensesList.NoFiltersListAll | ExpensesList.tsx:22-24 | without filters every expense is listed |
| ExpensesList.SearchIgnoresCase | ExpensesList.tsx:22-23 | the search ignores the case of the term |
| RecentExpenses.RecentExpenses | RecentExpenses.tsx:14-16 | the first five of the newest-first copy; stated by `RecentExpensesShape` and `RecentExpensesAreLatest` |
| RecentExpenses.RecentExpensesShape | RecentExpenses.tsx:14-16 | five expenses, or all when there are fewer, newest first, drawn from the store |
| RecentExpenses.RecentExpensesAreLatest | RecentExpenses.tsx:15-16 | every expense shown is dated no earlier than any expense left out |
| CategoryForm.NameTaken | CategoryForm.tsx:65 | the add check: some category has the typed name, ignoring case; stated by `NameTakenByOtherIff`, `NameCheckIgnoresCase` and `TrailingSpaceIsNewName` |
| CategoryForm.NameTakenByOther | CategoryForm.tsx:72 | the edit check: a category with another id has the typed name, ignoring case; stated by `NameTakenByOtherIff` and `RecasingOwnName` |
| CategoryForm.Form.constructor | CategoryForm.tsx:15-21 | a new form has no name, colour #0D9488, icon "tag" and no error |
| CategoryForm.Form.LoadForEdit | CategoryForm.tsx:36-43 | in edit mode the category with the given id, if any, fills the form, its id included |
| CategoryForm.Form.HandleNameChange | CategoryForm.tsx:45-49 | typing the name sets it and clears the error |
| CategoryForm.Form.HandleColorSelect | CategoryForm.tsx:51-53 | picking a colour sets it and leaves the error |
| CategoryForm.Form.Cancel | CategoryForm.tsx:130-132 | cancelling closes the form without saving |
| CategoryForm.Form.HandleSubmit | CategoryForm.tsx:55-80 | a blank name or a taken name sets the error and saves nothing; otherwise the category is added or updated and the form closes; names stay distinct up to case |
| CategoryForm.NameTakenByOtherIff | CategoryForm.tsx:65-72 | the edit check differs from the add check only by excluding the edited category |
| CategoryForm.NameCheckIgnoresCase | CategoryForm.tsx:65-72 | both checks ignore the case of the typed name |
| CategoryForm.RecasingOwnName | CategoryForm.tsx:70-77 | re-casing the edited category's own name is allowed, though adding under it is refused |
| CategoryForm.TrailingSpaceIsNewName | CategoryForm.tsx:58-65 | "Food " is not a duplicate of "Food", while "FOOD" is |
| CategoryForm.AddKeepsNamesDistinct | CategoryForm.tsx:63-69 | adding under a name no category has keeps names distinct up to case |
| CategoryForm.UpdateKeepsNamesDistinct | CategoryForm.tsx:70-77 | updating under a name no other category has keeps names distinct up to case |
| CategoryForm.ColorOptionsShape | CategoryForm.tsx:24-33 | eight distinct colours, the first being the initial one |
| ExpenseForm.InitialFormData | ExpenseForm.tsx:16-22 | amount 0, today's date, empty description, category and notes; stated by `Form.constructor` |
| ExpenseForm.Validate | ExpenseForm.tsx:65-86 | the message of each failing field; stated by `ValidIff` |
| ExpenseForm.Form.constructor | ExpenseForm.tsx:16-28 | a new form has amount 0, today's date, no description, category or notes, and no messages |
| ExpenseForm.Form.LoadForEdit | ExpenseForm.tsx:31-44 | in edit mode the first expense with the route's id fills the form; without one the page goes back to the list |
| ExpenseForm.Form.HandleChange | ExpenseForm.tsx:46-54 | a text field takes the value and only that field's message is cleared |
| ExpenseForm.Form.HandleDateChange | ExpenseForm.tsx:46-54 | the date takes the value and no message changes |
| ExpenseForm.Form.HandleAmountChange | ExpenseForm.tsx:56-63 | the amount takes the parsed number, or 0 when the text is not a number, and its message is cleared |
| ExpenseForm.Form.ValidateForm | ExpenseForm.tsx:65-86 | the messages are those of the failing fields, and the form is valid exactly when there are none |
| ExpenseForm.Form.HandleSubmit | ExpenseForm.tsx:88-100 | an invalid form saves nothing; a valid one is added or updated and the page goes back to the list; stored expenses stay acceptable |
| ExpenseForm.ValidIff | ExpenseForm.tsx:72-85 | each message appears exactly when its own condition fails, and the form is valid exactly when the amount is positive, the description not blank and a category chosen |
| ExpenseForm.UnparsableAmountRefused | ExpenseForm.tsx:56-58 | an amount that does not parse is refused |
| ExpenseForm.ValidFormAcceptable | ExpenseForm.tsx:91-96 | a valid form yields an acceptable expense |
| ExpenseForm.AddKeepsAcceptable | ExpenseForm.tsx:93-94 | adding an acceptable expense keeps every stored expense acceptable |
| ExpenseForm.ReplaceKeepsAcceptable | ExpenseForm.tsx:95-96 | replacing with an acceptable expense keeps every stored expense acceptable |
| Settings.WithTheme | SettingsContext.tsx:48-50 | `{ ...prev, themeMode: mode }`; stated by `UpdatesTouchOneField` |
| Settings.WithCurrency | SettingsContext.tsx:52-54 | `{ ...prev, currency }`; stated by `UpdatesTouchOneField` |
| Settings.SettingsStore.Load | SettingsContext.tsx:21-33 | stored settings, when present, replace the defaults, and the theme class follows them |
| Settings.SettingsStore.UpdateTheme | SettingsContext.tsx:48-50 | only the theme changes, and the class follows it |
| Settings.SettingsStore.UpdateCurrency | SettingsContext.tsx:52-54 | only the currency changes |
| Settings.UpdatesTouchOneField | SettingsContext.tsx:48-54 | each update sets its own field and leaves the other |
| Settings.DefaultsWhenNothingStored | SettingsContext.tsx:10-13 | the defaults are the light theme in US dollars |

## Left out

- Storage: `localStorage` reads and writes and their JSON encoding. Stored data is an optional input of the stores' constructors. Malformed stored JSON is not modelled.
- `uuidv4()`: the fresh id is a parameter with a precondition that no element already has it.
- Display formatting: `Intl.NumberFormat` currency formatting (`formatAmount`), the `date-fns` formats (`formatDate`, `getCurrentMonthName`, chart labels), Chart.js and all React rendering. None of it changes a figure.
- Percentages of the category totals: they add up to 100, within rounding, only when every expense is filed under a listed category (`Formatters.PercentagesSumTo100`). The grand total also counts expenses whose category id is not listed, such as expenses loaded from storage under an id that the stored categories lack. Their share appears in no row (`Formatters.UnknownCategoriesNoPercentages`).
- Floating point: amounts are exact reals. `toFixed(1)` and `Math.round` are modelled exactly on reals, so binary rounding error is not captured.
- Time zones: `new Date("YYYY-MM-DD")` is read as UTC midnight while the ranges use local time. The model works at day granularity and treats a date string as the local day it names.
- Date strings: an expense date is a valid calendar day. Strings that are not full dates, or carry a time part, are not modelled.
- `Calendar.MakeDate`: it models the `Date` constructor's years 0 to 99 meaning 1900 to 1999. The lemmas about the selected month exclude a current year of 0 to 99.
- ExpenseSummary.PreviousMonthIndex: this and the other previous-month lemmas exclude a current year of 0 to 100, because in January of year 100 the previous month falls in year 99, which the constructor reads as 1999.
- YearlyChart.MonthlyExpenses: for a current year of 0 to 99 the chart's keys come from `new Date(currentYear, 0, 1)`, so they are `19yy-MM`. The expenses that pass the year test have `00yy-MM` keys, which match none of them, so every month stays 0. The model totals that year's expenses instead.
- `DayKeys`: it covers four-digit years only. The monthly chart's key matching is modelled as date equality, which `DayKeys.DayKeyInjective` justifies for those years.
- Case folding: `toLowerCase` is modelled on ASCII letters only. Other characters are left as they are.
- `date-fns` on a custom range whose start is after its end is not modelled. Membership in such a range is simply false.
- Records keyed by day or month: these are arrays indexed by day or month. `Object.keys(...).sort()` is the calendar order of those indices.
- Dialogs and the page: `confirm` is a boolean parameter. The `alert` of a refused category deletion is the `Rejected` outcome with its count. Navigation is a flag of the expense form. `onClose` is a flag of the category form.
- Document theme: the `dark` class is a field of `SettingsStore` kept equal to the theme. The DOM itself is not modelled.
- YearlyChart.AverageBounds: it states that the average lies between 0 and the largest month. It does not state average × months = total.
- CategoryForm.Form.HandleSubmit: in edit mode with no category loaded (no id, or an id that matches no category), a non-blank name saves nothing and still closes the form (CategoryForm.tsx:70, 79). The contract states exactly that.
- ExpenseForm.Form.LoadForEdit: the date goes through `toISOString` when an expense is loaded. That is the same day here, because of the time-zone simplification above.
- Rendering-only components are not part of this model: App, Dashboard, the pages, the header, the settings page and the categories list.
