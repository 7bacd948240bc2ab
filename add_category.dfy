/** The add-category widget of src/components/AddCategory.tsx: a closed
    state showing an "Add Category" button and an open state showing a
    name input, which hands the trimmed name to the store's
    `addNewCategory`. */
module AddCategory {
  import opened Types
  import opened Text

  /** What `handleSubmit` passes to `onAddCategory`: nothing for a name that
      is empty after trimming, otherwise the trimmed name. */
  function SubmittedName(categoryName: string): (r: Option<string>)
    ensures r.None? <==> AllWhitespace(categoryName)
    ensures r.Some? ==> r.value == Trim(categoryName) && r.value != ""
    ensures r.Some? ==> !IsWhitespace(r.value[0]) && !IsWhitespace(r.value[|r.value| - 1])
  {
    var name := Trim(categoryName);
    if name != "" then Some(name) else None
  }

  /** A submitted name always yields a non-empty id, so the store is never
      asked for a category with the empty id by this widget. */
  lemma SubmittedNameHasId(categoryName: string)
    requires SubmittedName(categoryName).Some?
    ensures Slug(SubmittedName(categoryName).value) != ""
  {
  }

  class CategoryForm {
    var isAdding: bool
    var categoryName: string

    /** The name is only ever non-empty while the form is open. */
    ghost predicate Valid()
      reads this
    {
      !isAdding ==> categoryName == ""
    }

    constructor ()
      ensures Valid() && !isAdding && categoryName == ""
    {
      isAdding := false;
      categoryName := "";
    }

    /** The "Add Category" button of the closed state: the only way to open. */
    method Open()
      requires Valid()
      modifies this
      ensures Valid()
      ensures isAdding && categoryName == old(categoryName)
    {
      isAdding := true;
    }

    /** The name input's `onChange`; the input exists only while open. */
    method SetCategoryName(text: string)
      requires Valid() && isAdding
      modifies this
      ensures Valid()
      ensures isAdding && categoryName == text
    {
      categoryName := text;
    }

    /** `handleSubmit`: returns the name passed to `onAddCategory`, or `None`
        when nothing is called. A successful submit clears the name and
        closes; a rejected one leaves the form as it was. */
    method Submit() returns (added: Option<string>)
      requires Valid()
      modifies this
      ensures Valid()
      ensures added == SubmittedName(old(categoryName))
      ensures added.Some? ==> !isAdding && categoryName == ""
      ensures added.None? ==> isAdding == old(isAdding) && categoryName == old(categoryName)
      ensures !old(isAdding) ==> added.None? && !isAdding
    {
      var name := Trim(categoryName);
      if name != "" {
        added := Some(name);
        categoryName := "";
        isAdding := false;
      } else {
        added := None;
      }
    }

    /** `handleCancel` (the cancel button): clears and closes. */
    method Cancel()
      requires Valid()
      modifies this
      ensures Valid()
      ensures !isAdding && categoryName == ""
    {
      categoryName := "";
      isAdding := false;
    }

    /** `handleKeyPress`: Escape cancels; any other key changes nothing. */
    method KeyPress(key: string)
      requires Valid()
      modifies this
      ensures Valid()
      ensures key == "Escape" ==> !isAdding && categoryName == ""
      ensures key != "Escape" ==> isAdding == old(isAdding) && categoryName == old(categoryName)
    {
      if key == "Escape" {
        Cancel();
      }
    }
  }
}
