/** The browser storage the checklist writes to, reduced to its two records:
    the item list (key "travelChecklist") and the category list (its key is
    set by the category storage helpers, which are not part of this model).
    An absent record is `None`; the text encoding of the records is not
    modelled. */
module Persistence {
  import opened Types

  datatype Storage = Storage(items: Option<seq<Item>>, categories: Option<seq<Category>>)

  /** Reading the item record: an absent record reads as the empty list. */
  function LoadItems(st: Storage): (r: seq<Item>)
    ensures st.items.None? ==> r == []
    ensures st.items.Some? ==> r == st.items.value
  {
    if st.items.Some? then st.items.value else []
  }

  /** Reading the category record: an absent record reads as the empty list. */
  function LoadCategories(st: Storage): (r: seq<Category>)
    ensures st.categories.None? ==> r == []
    ensures st.categories.Some? ==> r == st.categories.value
  {
    if st.categories.Some? then st.categories.value else []
  }

  /** The items effect: the whole list is written on every change; reading it
      back gives the list, and the category record is untouched. */
  function SaveItems(st: Storage, items: seq<Item>): (r: Storage)
    ensures LoadItems(r) == items
    ensures r.categories == st.categories
  {
    st.(items := Some(items))
  }

  /** The categories effect: the list is written only when it is non-empty, so
      an empty in-memory list never replaces what is stored. */
  function SaveCategoriesGuarded(st: Storage, categories: seq<Category>): (r: Storage)
    ensures r.items == st.items
    ensures categories != [] ==> LoadCategories(r) == categories
    ensures categories == [] ==> r == st
  {
    if categories != [] then st.(categories := Some(categories)) else st
  }

  /** What mounting the checklist does to storage. The first commit runs the
      load effect (which reads `st`) and then both save effects with the
      initial empty state; the second commit, with the loaded lists, runs both
      save effects again. */
  function AfterMount(st: Storage): (r: Storage)
    ensures r.categories == st.categories
    ensures LoadItems(r) == LoadItems(st)
  {
    var first := SaveCategoriesGuarded(SaveItems(st, []), []);
    SaveCategoriesGuarded(SaveItems(first, LoadItems(st)), LoadCategories(st))
  }

  /** Between the two commits of a mount the item record holds the empty list
      (its effect has no guard), while the guarded category record still holds
      what was stored. */
  lemma MountFirstCommit(st: Storage)
    ensures var first := SaveCategoriesGuarded(SaveItems(st, []), []);
      LoadItems(first) == [] && first.categories == st.categories
  {
  }

  /** Writing the same list twice leaves storage as writing it once. */
  lemma SavesAreIdempotent(st: Storage, items: seq<Item>, categories: seq<Category>)
    ensures SaveItems(SaveItems(st, items), items) == SaveItems(st, items)
    ensures SaveCategoriesGuarded(SaveCategoriesGuarded(st, categories), categories)
         == SaveCategoriesGuarded(st, categories)
  {
  }
}
