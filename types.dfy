/** The records of the application (the type declarations of `types/index.ts`). */
module Types {
  import opened Wrappers
  import opened Calendar

  datatype Category = Category(id: string, name: string, color: string, icon: string)

  /** An expense. Its `date` is the calendar day that its `YYYY-MM-DD` string names;
      `notes` is optional. */
  datatype Expense = Expense(
    id: string,
    amount: real,
    description: string,
    date: CalendarDate,
    categoryId: string,
    notes: Option<string>)

  /** `Omit<Expense, 'id'>`: what `addExpense` receives. */
  datatype ExpenseDraft = ExpenseDraft(
    amount: real,
    description: string,
    date: CalendarDate,
    categoryId: string,
    notes: Option<string>)
  {
    /** `{ ...expense, id }` */
    function WithId(id: string): Expense {
      Expense(id, amount, description, date, categoryId, notes)
    }
  }

  /** `Omit<Category, 'id'>`: what `addCategory` receives. */
  datatype CategoryDraft = CategoryDraft(name: string, color: string, icon: string)
  {
    /** `{ ...category, id }` */
    function WithId(id: string): Category {
      Category(id, name, color, icon)
    }
  }

  datatype TimeRange = Day | Week | Month | Year | Custom

  datatype ThemeMode = Light | Dark

  datatype AppSettings = AppSettings(themeMode: ThemeMode, currency: string)

  function ExpenseId(e: Expense): string {
    e.id
  }

  function CategoryId(c: Category): string {
    c.id
  }
}
