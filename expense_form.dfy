/** `components/expenses/ExpenseForm.tsx`: the form that adds an expense or edits
    one. Submitting checks three fields at once (a positive amount, a description
    that is not blank, a category) and shows a message under each that fails;
    otherwise the expense is saved and the page goes back to the list.

    Today's date (the form's initial date), the id in the route, the number the
    amount field parses to and the fresh id are parameters. */
module ExpenseForm {
  import opened Wrappers
  import opened Calendar
  import opened Types
  import opened Text
  import opened Sequences
  import opened ExpensesContext

  datatype Mode = Add | Edit

  /** The fields of the form; `id` is present once an expense has been loaded. */
  datatype FormData = FormData(
    id: Option<string>,
    amount: real,
    description: string,
    date: CalendarDate,
    categoryId: string,
    notes: Option<string>)
  {
    function AsDraft(): ExpenseDraft {
      ExpenseDraft(amount, description, date, categoryId, notes)
    }

    function AsExpense(expenseId: string): Expense {
      Expense(expenseId, amount, description, date, categoryId, notes)
    }
  }

  /** The message under each checked field; "" where there is none. */
  datatype Errors = Errors(amount: string, description: string, categoryId: string)

  const NoErrors := Errors("", "", "")
  const AmountMessage := "Amount must be greater than 0"
  const DescriptionMessage := "Description is required"
  const CategoryMessage := "Category is required"

  /** The fields `handleChange` writes as text; the date has its own method. */
  datatype TextField = Description | CategoryField | Notes

  function InitialFormData(today: CalendarDate): FormData {
    FormData(None, 0.0, "", today, "", Some(""))
  }

  /** `validateForm`: every failing field gets its message. */
  function Validate(f: FormData): Errors {
    Errors(
      if f.amount <= 0.0 then AmountMessage else "",
      if IsBlank(f.description) then DescriptionMessage else "",
      if f.categoryId == "" then CategoryMessage else "")
  }

  /** What the form lets into the store: a positive amount, a description that is
      not blank and a category. */
  predicate Acceptable(e: Expense) {
    e.amount > 0.0 && !IsBlank(e.description) && e.categoryId != ""
  }

  predicate AllAcceptable(expenses: seq<Expense>) {
    forall e :: e in expenses ==> Acceptable(e)
  }

  class Form {
    const mode: Mode
    var formData: FormData
    var errors: Errors
    /** Whether the page has navigated back to the list. */
    var navigatedAway: bool

    constructor(mode: Mode, today: CalendarDate)
      ensures this.mode == mode
      ensures formData == InitialFormData(today) && errors == NoErrors && !navigatedAway
    {
      this.mode := mode;
      formData := InitialFormData(today);
      errors := NoErrors;
      navigatedAway := false;
    }

    /** The edit effect: in edit mode with an id in the route, the expense with that
        id fills the form, its id included; when there is none the page goes back
        to the list. */
    method LoadForEdit(expenses: seq<Expense>, routeId: Option<string>)
      modifies this
      ensures if mode == Edit && routeId.Some? && routeId.value != "" then
          if exists i :: 0 <= i < |expenses| && expenses[i].id == routeId.value then
            (exists i :: 0 <= i < |expenses| && expenses[i].id == routeId.value
              && (forall j :: 0 <= j < i ==> expenses[j].id != routeId.value)
              && formData == FormData(Some(routeId.value), expenses[i].amount, expenses[i].description,
                                      expenses[i].date, expenses[i].categoryId, expenses[i].notes))
            && navigatedAway == old(navigatedAway)
          else formData == old(formData) && navigatedAway
        else formData == old(formData) && navigatedAway == old(navigatedAway)
      ensures errors == old(errors)
    {
      if mode == Edit && routeId.Some? && routeId.value != "" {
        var id := routeId.value;
        var i := 0;
        while i < |expenses| && expenses[i].id != id
          invariant 0 <= i <= |expenses|
          invariant forall j :: 0 <= j < i ==> expenses[j].id != id
        {
          i := i + 1;
        }
        if i < |expenses| {
          var e := expenses[i];
          formData := FormData(Some(e.id), e.amount, e.description, e.date, e.categoryId, e.notes);
        } else {
          navigatedAway := true;
        }
      }
    }

    /** `handleChange` on a text field: the field takes the value, and the field's
        message, if it has one, is cleared. */
    method HandleChange(field: TextField, value: string)
      modifies this
      ensures formData == match field
        case Description => old(formData).(description := value)
        case CategoryField => old(formData).(categoryId := value)
        case Notes => old(formData).(notes := Some(value))
      ensures errors == match field
        case Description => old(errors).(description := "")
        case CategoryField => old(errors).(categoryId := "")
        case Notes => old(errors)
      ensures navigatedAway == old(navigatedAway)
    {
      match field {
        case Description =>
          formData := formData.(description := value);
          errors := errors.(description := "");
        case CategoryField =>
          formData := formData.(categoryId := value);
          errors := errors.(categoryId := "");
        case Notes =>
          formData := formData.(notes := Some(value));
      }
    }

    /** `handleChange` on the date field; no message belongs to it. */
    method HandleDateChange(date: CalendarDate)
      modifies this
      ensures formData == old(formData).(date := date)
      ensures errors == old(errors) && navigatedAway == old(navigatedAway)
    {
      formData := formData.(date := date);
    }

    /** `handleAmountChange`: the parsed number, or 0 when the text is not a number;
        the amount message is cleared. */
    method HandleAmountChange(parsed: Option<real>)
      modifies this
      ensures formData == old(formData).(amount := parsed.GetOr(0.0))
      ensures errors == old(errors).(amount := "") && navigatedAway == old(navigatedAway)
    {
      formData := formData.(amount := parsed.GetOr(0.0));
      errors := errors.(amount := "");
    }

    /** `validateForm`: shows the messages and says whether there are none. */
    method ValidateForm() returns (ok: bool)
      modifies this
      ensures errors == Validate(formData) && ok == (errors == NoErrors)
      ensures formData == old(formData) && navigatedAway == old(navigatedAway)
    {
      var newErrors := NoErrors;
      if formData.amount <= 0.0 {
        newErrors := newErrors.(amount := AmountMessage);
      }
      if IsBlank(formData.description) {
        newErrors := newErrors.(description := DescriptionMessage);
      }
      if formData.categoryId == "" {
        newErrors := newErrors.(categoryId := CategoryMessage);
      }
      errors := newErrors;
      ok := newErrors.amount == "" && newErrors.description == "" && newErrors.categoryId == "";
    }

    /** `handleSubmit`: when the form is valid, the draft is added (with `freshId`)
        or, in edit mode with an id in the route, the expense with the route's id is
        replaced; the page then goes back to the list, also in edit mode without an
        id. When the form is not valid only the messages change. */
    method HandleSubmit(store: ExpenseStore, routeId: Option<string>, freshId: string)
      requires freshId !in Keys(store.expenses, ExpenseId)
      modifies this, store
      ensures errors == Validate(formData) && formData == old(formData)
      ensures store.categories == old(store.categories)
      ensures errors != NoErrors ==>
        store.expenses == old(store.expenses) && navigatedAway == old(navigatedAway)
      ensures errors == NoErrors ==> navigatedAway
      ensures errors == NoErrors && mode == Add ==>
        store.expenses == old(store.expenses) + [formData.AsDraft().WithId(freshId)]
      ensures errors == NoErrors && mode == Edit && routeId.Some? && routeId.value != "" ==>
        store.expenses == Replace(old(store.expenses), ExpenseId, formData.AsExpense(routeId.value))
      ensures errors == NoErrors && mode == Edit && (routeId.None? || routeId.value == "") ==>
        store.expenses == old(store.expenses)
      ensures old(store.UniqueIds()) ==> store.UniqueIds()
      ensures old(AllAcceptable(store.expenses)) ==> AllAcceptable(store.expenses)
    {
      var ok := ValidateForm();
      if !ok {
        return;
      }
      ValidIff(formData);
      if mode == Add {
        AddKeepsAcceptable(store.expenses, formData.AsDraft().WithId(freshId));
        store.AddExpense(formData.AsDraft(), freshId);
      } else if routeId.Some? && routeId.value != "" {
        ReplaceKeepsAcceptable(store.expenses, formData.AsExpense(routeId.value));
        store.UpdateExpense(formData.AsExpense(routeId.value));
      }
      navigatedAway := true;
    }
  }

  // ---------------------------------------------------------------------------
  // Lemmas

  /** The form is valid exactly when the amount is positive, the description is
      not blank and a category is chosen; each message appears exactly when its
      own condition fails, whatever the other fields hold. */
  lemma ValidIff(f: FormData)
    ensures Validate(f) == NoErrors <==> f.amount > 0.0 && !IsBlank(f.description) && f.categoryId != ""
    ensures Validate(f).amount != "" <==> f.amount <= 0.0
    ensures Validate(f).description != "" <==> Trim(f.description) == ""
    ensures Validate(f).categoryId != "" <==> f.categoryId == ""
  {
  }

  /** An amount that does not parse counts as 0 and is refused. */
  lemma UnparsableAmountRefused(f: FormData)
    ensures Validate(f.(amount := None.GetOr(0.0))).amount == AmountMessage
  {
  }

  /** A valid form makes an expense the form accepts, whatever id it gets. */
  lemma ValidFormAcceptable(f: FormData, id: string)
    requires Validate(f) == NoErrors
    ensures Acceptable(f.AsDraft().WithId(id)) && Acceptable(f.AsExpense(id))
  {
    ValidIff(f);
  }

  lemma AddKeepsAcceptable(expenses: seq<Expense>, e: Expense)
    requires Acceptable(e)
    ensures AllAcceptable(expenses) ==> AllAcceptable(expenses + [e])
  {
  }

  lemma ReplaceKeepsAcceptable(expenses: seq<Expense>, e: Expense)
    requires Acceptable(e)
    ensures AllAcceptable(expenses) ==> AllAcceptable(Replace(expenses, ExpenseId, e))
  {
    ReplaceElements(expenses, ExpenseId, e);
  }
}
