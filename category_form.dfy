/** `components/categories/CategoryForm.tsx`: the form that adds a category or
    renames and recolours one. A name that is blank once trimmed is refused, and so
    is a name that another category already has, ignoring the case of ASCII
    letters. The form closes (`onClose`) after a successful submission. */
module CategoryForm {
  import opened Wrappers
  import opened Types
  import opened Text
  import opened Sequences
  import opened Formatters
  import opened ExpensesContext

  datatype Mode = Add | Edit

  /** The fields of the form: a category whose id is present once a category has
      been loaded for editing. */
  datatype FormData = FormData(id: Option<string>, name: string, color: string, icon: string)
  {
    function AsDraft(): CategoryDraft {
      CategoryDraft(name, color, icon)
    }

    function AsCategory(categoryId: string): Category {
      Category(categoryId, name, color, icon)
    }
  }

  /** The form before anything is typed: no name, teal, the `tag` icon. */
  const InitialFormData := FormData(None, "", "#0D9488", "tag")

  /** The eight colours offered; the first is the initial one. */
  const ColorOptions: seq<string> :=
    ["#0D9488", "#8B5CF6", "#F59E0B", "#EF4444", "#10B981", "#3B82F6", "#EC4899", "#6B7280"]

  const NameRequired := "Category name is required"
  const NameExists := "A category with this name already exists"

  function LowerName(c: Category): string {
    ToLower(c.name)
  }

  /** The check made when adding: some category has this name, up to case. The
      name is compared as typed, without trimming. */
  predicate NameTaken(categories: seq<Category>, name: string) {
    exists i :: 0 <= i < |categories| && LowerName(categories[i]) == ToLower(name)
  }

  /** The check made when editing: a category with another id has this name, up to
      case. */
  predicate NameTakenByOther(categories: seq<Category>, id: string, name: string) {
    exists i :: 0 <= i < |categories| && categories[i].id != id && LowerName(categories[i]) == ToLower(name)
  }

  /** No two categories have names that differ only in case. */
  predicate NamesDistinct(categories: seq<Category>) {
    Unique(categories, LowerName)
  }

  class Form {
    const mode: Mode
    var formData: FormData
    var error: string
    /** Whether `onClose` has been called. */
    var closed: bool

    constructor(mode: Mode)
      ensures this.mode == mode
      ensures formData == InitialFormData && error == "" && !closed
    {
      this.mode := mode;
      formData := InitialFormData;
      error := "";
      closed := false;
    }

    /** The edit effect: in edit mode with a (non-empty) category id, the category
        with that id, if there is one, fills the form, its id included. */
    method LoadForEdit(categories: seq<Category>, categoryId: Option<string>)
      modifies this
      ensures var found := if categoryId.Some? && categoryId.value != ""
                           then GetCategoryById(categories, categoryId.value) else None;
        if mode == Edit && found.Some?
        then formData == FormData(Some(found.value.id), found.value.name, found.value.color, found.value.icon)
        else formData == old(formData)
      ensures error == old(error) && closed == old(closed)
    {
      if mode == Edit && categoryId.Some? && categoryId.value != "" {
        var categoryToEdit := GetCategoryById(categories, categoryId.value);
        if categoryToEdit.Some? {
          var c := categoryToEdit.value;
          formData := FormData(Some(c.id), c.name, c.color, c.icon);
        }
      }
    }

    /** Typing in the name field sets the name and clears the error. */
    method HandleNameChange(value: string)
      modifies this
      ensures formData == old(formData).(name := value)
      ensures error == "" && closed == old(closed)
    {
      formData := formData.(name := value);
      error := "";
    }

    /** Picking a colour sets the colour and leaves the error as it is. */
    method HandleColorSelect(color: string)
      modifies this
      ensures formData == old(formData).(color := color)
      ensures error == old(error) && closed == old(closed)
    {
      formData := formData.(color := color);
    }

    /** The cancel button closes the form without saving. */
    method Cancel()
      modifies this
      ensures closed && formData == old(formData) && error == old(error)
    {
      closed := true;
    }

    /** `handleSubmit`. A blank name, or a name taken (by another category, when
        editing), sets the error and changes nothing else. Otherwise the category
        is added, or updated when the form holds the id of the category being
        edited, and the form closes. In edit mode with no category loaded nothing
        is saved, but the form still closes. `freshId` is the id `addCategory`
        draws. A successful submission never gives two categories the same name. */
    method HandleSubmit(store: ExpenseStore, freshId: string)
      requires freshId !in Keys(store.categories, CategoryId)
      modifies this, store
      ensures formData == old(formData) && store.expenses == old(store.expenses)
      ensures var name := formData.name;
        if IsBlank(name) then
          error == NameRequired && closed == old(closed) && store.categories == old(store.categories)
        else if mode == Add then
          if NameTaken(old(store.categories), name) then
            error == NameExists && closed == old(closed) && store.categories == old(store.categories)
          else
            error == old(error) && closed
            && store.categories == old(store.categories) + [formData.AsDraft().WithId(freshId)]
        else if formData.id.Some? && formData.id.value != "" then
          if NameTakenByOther(old(store.categories), formData.id.value, name) then
            error == NameExists && closed == old(closed) && store.categories == old(store.categories)
          else
            error == old(error) && closed
            && store.categories == Replace(old(store.categories), CategoryId, formData.AsCategory(formData.id.value))
        else
          error == old(error) && closed && store.categories == old(store.categories)
      ensures old(store.UniqueIds()) ==> store.UniqueIds()
      ensures old(store.UniqueIds()) && old(NamesDistinct(store.categories)) ==> NamesDistinct(store.categories)
    {
      if IsBlank(formData.name) {
        error := NameRequired;
        return;
      }
      if mode == Add {
        if NameTaken(store.categories, formData.name) {
          error := NameExists;
          return;
        }
        AddKeepsNamesDistinct(store.categories, formData.AsDraft(), freshId);
        store.AddCategory(formData.AsDraft(), freshId);
      } else if formData.id.Some? && formData.id.value != "" {
        var id := formData.id.value;
        if NameTakenByOther(store.categories, id, formData.name) {
          error := NameExists;
          return;
        }
        UpdateKeepsNamesDistinct(store.categories, formData.AsCategory(id));
        store.UpdateCategory(formData.AsCategory(id));
      }
      closed := true;
    }
  }

  // ---------------------------------------------------------------------------
  // Lemmas

  /** The add check and the edit check differ only in the category they exclude: a
      name taken by another category is taken, and a name taken is taken by another
      category unless the only holder is the excluded one. */
  lemma NameTakenByOtherIff(categories: seq<Category>, id: string, name: string)
    ensures NameTakenByOther(categories, id, name) ==> NameTaken(categories, name)
    ensures NameTaken(categories, name) && id !in Keys(categories, CategoryId) ==> NameTakenByOther(categories, id, name)
  {
    if NameTaken(categories, name) && id !in Keys(categories, CategoryId) {
      var i :| 0 <= i < |categories| && LowerName(categories[i]) == ToLower(name);
      assert categories[i] in categories;
    }
  }

  /** Both checks ignore the case of the name typed. */
  lemma NameCheckIgnoresCase(categories: seq<Category>, id: string, name: string)
    ensures NameTaken(categories, name) <==> NameTaken(categories, ToLower(name))
    ensures NameTakenByOther(categories, id, name) <==> NameTakenByOther(categories, id, ToLower(name))
  {
    ToLowerIdempotent(name);
  }

  /** Re-casing the name of the category being edited is allowed when names are
      distinct, while adding a category under that name is refused. */
  lemma RecasingOwnName(categories: seq<Category>, k: int, newName: string)
    requires NamesDistinct(categories) && Unique(categories, CategoryId)
    requires 0 <= k < |categories| && ToLower(newName) == LowerName(categories[k])
    ensures !NameTakenByOther(categories, categories[k].id, newName)
    ensures NameTaken(categories, newName)
  {
    forall i | 0 <= i < |categories| && categories[i].id != categories[k].id
      ensures LowerName(categories[i]) != ToLower(newName)
    {
      assert i != k;
    }
  }

  /** The checks compare the name as typed: a trailing space makes a new name,
      although the blank check trims. */
  lemma TrailingSpaceIsNewName(id: string)
    ensures var food := [Category(id, "Food", "#0D9488", "tag")];
      !NameTaken(food, "Food ") && NameTaken(food, "FOOD") && !IsBlank("Food ")
  {
    var food := [Category(id, "Food", "#0D9488", "tag")];
    assert |ToLower("Food ")| == 5;
    assert ToLower("FOOD") == "food";
    assert LowerName(food[0]) == "food";
    assert Trim("Food ") != "" by {
      BlankIff("Food ");
      assert !IsWhiteSpace("Food "[0]);
    }
  }

  /** Adding under a name no category has keeps the names distinct. */
  lemma AddKeepsNamesDistinct(categories: seq<Category>, draft: CategoryDraft, id: string)
    requires !NameTaken(categories, draft.name)
    ensures NamesDistinct(categories) ==> NamesDistinct(categories + [draft.WithId(id)])
  {
    var r := categories + [draft.WithId(id)];
    if NamesDistinct(categories) {
      forall i, j | 0 <= i < j < |r| ensures LowerName(r[i]) != LowerName(r[j]) {
        if j == |categories| {
          assert LowerName(r[j]) == ToLower(draft.name);
        }
      }
    }
  }

  /** Updating a category under a name no other category has keeps the names
      distinct, when ids are unique. */
  lemma UpdateKeepsNamesDistinct(categories: seq<Category>, updated: Category)
    requires !NameTakenByOther(categories, updated.id, updated.name)
    ensures NamesDistinct(categories) && Unique(categories, CategoryId) ==>
      NamesDistinct(Replace(categories, CategoryId, updated))
  {
    var r := Replace(categories, CategoryId, updated);
    if NamesDistinct(categories) && Unique(categories, CategoryId) {
      forall i, j | 0 <= i < j < |r| ensures LowerName(r[i]) != LowerName(r[j]) {
        var hi, hj := categories[i].id == updated.id, categories[j].id == updated.id;
        if hi && !hj {
          assert LowerName(r[i]) == ToLower(updated.name);
        } else if hj && !hi {
          assert LowerName(r[j]) == ToLower(updated.name);
        }
      }
    }
  }

  /** The offered colours are distinct and start with the initial one. */
  lemma ColorOptionsShape()
    ensures |ColorOptions| == 8 && ColorOptions[0] == InitialFormData.color
    ensures Unique(ColorOptions, (c: string) => c)
  {
  }
}
