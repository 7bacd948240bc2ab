/** The add-item form of src/components/ChecklistForm.tsx: its own title and
    category state, its fixed list of categories, and the item a submit
    builds for the store's `addItem`. */
module ChecklistForm {
  import opened Types
  import opened Text
  import TravelChecklist

  /** The categories the form offers. The form keeps its own list and does not
      look at the store's categories. */
  const FormCategories: seq<Category> := [
    Category("clothing", "Clothing & Accessories"),
    Category("documents", "Documents & Money"),
    Category("electronics", "Electronics"),
    Category("toiletries", "Toiletries & Health"),
    Category("other", "Other Items")
  ]

  /** The five choices, in this order, with distinct ids. */
  lemma FormChoices()
    ensures TravelChecklist.Ids(FormCategories) == ["clothing", "documents", "electronics", "toiletries", "other"]
    ensures TravelChecklist.UniqueIds(FormCategories)
  {
    var ids := TravelChecklist.Ids(FormCategories);
    assert ids[0] == "clothing" && ids[1] == "documents" && ids[2] == "electronics";
    assert ids[3] == "toiletries" && ids[4] == "other";
  }

  /** What `handleSubmit` hands to `onAddItem`: nothing for a title that is
      empty after trimming; otherwise a fresh, open item with the trimmed
      title, filed under the selected category, whose id is the decimal
      rendering of the timestamp `now` (`Date.now().toString()`). */
  function NewItem(itemTitle: string, selectedCategory: string, now: nat): (r: Option<Item>)
    ensures r.None? <==> AllWhitespace(itemTitle)
    ensures r.Some? ==> r.value.title == Trim(itemTitle) && r.value.title != ""
    ensures r.Some? ==> !IsWhitespace(r.value.title[0]) && !IsWhitespace(r.value.title[|r.value.title| - 1])
    ensures r.Some? ==> !r.value.completed && r.value.category == selectedCategory
    ensures r.Some? ==> r.value.id == DecimalString(now) && IsDigitString(r.value.id)
  {
    var title := Trim(itemTitle);
    if title != "" then Some(Item(DecimalString(now), title, false, selectedCategory)) else None
  }

  /** Items submitted at different milliseconds get different ids. */
  lemma DistinctTimesDistinctIds(t1: string, c1: string, n1: nat, t2: string, c2: string, n2: nat)
    requires n1 != n2
    requires NewItem(t1, c1, n1).Some? && NewItem(t2, c2, n2).Some?
    ensures NewItem(t1, c1, n1).value.id != NewItem(t2, c2, n2).value.id
  {
    DecimalStringInjective(n1, n2);
  }

  /** Because the form offers its own fixed list, it can file an item under a
      category the store does not have: with only a "clothing" tab, choosing
      "Other Items" yields an item whose category names no tab. */
  lemma FormCanFileUnderMissingCategory()
    ensures var item := NewItem("Socks", FormCategories[4].id, 0);
      && item.Some?
      && item.value.category !in TravelChecklist.Ids([Category("clothing", "Clothing & Accessories")])
  {
    var title := "Socks";
    assert LeadingSpace(title) == 0;
    assert !AllWhitespace(title) by { assert !IsWhitespace(title[0]); }
    assert TravelChecklist.Ids([Category("clothing", "Clothing & Accessories")]) == ["clothing"];
  }

  /** The categories a form mounted with `initialCategory` can hold as its
      selection: the one it started with, or one of the five it offers. */
  predicate Selectable(initialCategory: string, categoryId: string)
  {
    categoryId == initialCategory || categoryId in TravelChecklist.Ids(FormCategories)
  }

  /** The converse of `FormCanFileUnderMissingCategory`: a category that is
      not among the five, such as a tab added by name, receives an item from
      the form only when the form was mounted on it. */
  lemma SubmitFilesUnderSelectable(initialCategory: string, selectedCategory: string,
                                   itemTitle: string, now: nat, c: string)
    requires Selectable(initialCategory, selectedCategory)
    requires c !in TravelChecklist.Ids(FormCategories) && c != initialCategory
    ensures var item := NewItem(itemTitle, selectedCategory, now);
      item.Some? ==> item.value.category != c
  {
  }

  /** The store mounts the form once, while its tab is still the initial
      "clothing", so in the app the form only ever files under the five. */
  lemma StoreMountedFormOffersOnlyFive(categoryId: string)
    ensures Selectable("clothing", categoryId) <==> categoryId in TravelChecklist.Ids(FormCategories)
  {
    FormChoices();
  }

  class ItemForm {
    var itemTitle: string
    var selectedCategory: string
    /** The `currentCategory` the form was mounted with. */
    ghost const initialCategory: string

    /** The selection is the initial category or one the select offers. */
    ghost predicate Valid()
      reads this
    {
      Selectable(initialCategory, selectedCategory)
    }

    /** Mounting the form: the selection starts as the `currentCategory`
        passed at that moment. */
    constructor (currentCategory: string)
      ensures Valid()
      ensures itemTitle == "" && selectedCategory == currentCategory
      ensures initialCategory == currentCategory
    {
      itemTitle := "";
      selectedCategory := currentCategory;
      initialCategory := currentCategory;
    }

    /** The title input's `onChange`. */
    method SetItemTitle(text: string)
      requires Valid()
      modifies this
      ensures Valid()
      ensures itemTitle == text && selectedCategory == old(selectedCategory)
    {
      itemTitle := text;
    }

    /** The select's `onValueChange`: the only way the selection changes. The
        select lists only the five fixed categories, so only their ids arrive. */
    method SelectCategory(categoryId: string)
      requires Valid()
      requires categoryId in TravelChecklist.Ids(FormCategories)
      modifies this
      ensures Valid()
      ensures selectedCategory == categoryId && itemTitle == old(itemTitle)
    {
      selectedCategory := categoryId;
    }

    /** `handleSubmit`: returns the item passed to `onAddItem`, or `None` when
        nothing is called. After a successful submit the title is cleared; a
        rejected one leaves it as typed. The selection never changes, and an
        item is filed under the initial category or one of the five. */
    method Submit(now: nat) returns (item: Option<Item>)
      requires Valid()
      modifies this
      ensures Valid()
      ensures item == NewItem(old(itemTitle), old(selectedCategory), now)
      ensures itemTitle == if item.Some? then "" else old(itemTitle)
      ensures selectedCategory == old(selectedCategory)
      ensures item.Some? ==> Selectable(initialCategory, item.value.category)
    {
      var title := Trim(itemTitle);
      if title != "" {
        item := Some(Item(DecimalString(now), title, false, selectedCategory));
        itemTitle := "";
      } else {
        item := None;
      }
    }
  }
}
