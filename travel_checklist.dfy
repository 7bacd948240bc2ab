/** The checklist store of src/components/TravelChecklist.tsx: the list
    operations its handlers apply, the derived views, and the class
    `Checklist` holding the component's state. Each handler is one atomic
    transition computed from the state before it, followed by the save
    effects of the state it replaced. */
module TravelChecklist {
  import opened Types
  import opened Text
  import opened Seqs
  import opened Persistence

  // ---------------------------------------------------------------------
  // Tests passed to `filter`

  function IdIsNot(id: string): Item -> bool { (x: Item) => x.id != id }
  function InCategory(c: string): Item -> bool { (x: Item) => x.category == c }
  function NotInCategory(c: string): Item -> bool { (x: Item) => x.category != c }
  function CategoryIdIsNot(c: string): Category -> bool { (k: Category) => k.id != c }
  function IsDone(x: Item): bool { x.completed }

  // ---------------------------------------------------------------------
  // Categories

  function Ids(categories: seq<Category>): (r: seq<string>)
    ensures |r| == |categories|
    ensures forall i :: 0 <= i < |r| ==> r[i] == categories[i].id
  {
    if categories == [] then [] else [categories[0].id] + Ids(categories[1..])
  }

  /** No two categories share an id. */
  predicate UniqueIds(categories: seq<Category>) {
    forall i, j :: 0 <= i < j < |categories| ==> categories[i].id != categories[j].id
  }

  /** `categories.find(cat => cat.id === id)`: a category with that id when
      there is one (the first; only whether one exists is used). */
  function Find(categories: seq<Category>, id: string): (r: Option<Category>)
    ensures r.None? <==> id !in Ids(categories)
    ensures r.Some? ==> r.value in categories && r.value.id == id
  {
    if categories == [] then None
    else if categories[0].id == id then Some(categories[0])
    else
      assert Ids(categories) == [categories[0].id] + Ids(categories[1..]);
      Find(categories[1..], id)
  }

  /** `categories.filter(cat => cat.id !== c)`, the category half of a delete. */
  function CategoriesWithout(categories: seq<Category>, c: string): seq<Category> {
    Filter(categories, CategoryIdIsNot(c))
  }

  /** The category half of a delete removes every category with id `c` and
      keeps all others; with no such category it returns the list itself, and
      it keeps ids unique. */
  lemma CategoriesWithoutSpec(categories: seq<Category>, c: string)
    ensures var r := CategoriesWithout(categories, c);
      && c !in Ids(r)
      && (forall k :: k in r <==> k in categories && k.id != c)
      && (c !in Ids(categories) ==> r == categories)
      && (UniqueIds(categories) ==> UniqueIds(r))
  {
    if c !in Ids(categories) {
      FilterAllKept(categories, CategoryIdIsNot(c));
    }
    if UniqueIds(categories) {
      FilterKeepsUniqueIds(categories, CategoryIdIsNot(c));
    }
  }

  /** Filtering never introduces a duplicate id. */
  lemma {:induction false} FilterKeepsUniqueIds(categories: seq<Category>, keep: Category -> bool)
    requires UniqueIds(categories)
    ensures UniqueIds(Filter(categories, keep))
  {
    if categories != [] {
      var rest := categories[1..];
      assert UniqueIds(rest) by {
        forall i, j | 0 <= i < j < |rest| ensures rest[i].id != rest[j].id {
          assert rest[i] == categories[i + 1] && rest[j] == categories[j + 1];
        }
      }
      FilterKeepsUniqueIds(rest, keep);
      var fr := Filter(rest, keep);
      if keep(categories[0]) {
        forall j | 0 <= j < |fr| ensures fr[j].id != categories[0].id {
          assert fr[j] in rest;
          var m :| 0 <= m < |rest| && rest[m] == fr[j];
          assert categories[m + 1] == fr[j];
        }
        assert Filter(categories, keep) == [categories[0]] + fr;
      }
    }
  }

  /** With unique ids, deleting an existing category removes exactly one. */
  lemma {:induction false} DeleteRemovesOneCategory(categories: seq<Category>, c: string)
    requires UniqueIds(categories) && c in Ids(categories)
    ensures |CategoriesWithout(categories, c)| == |categories| - 1
  {
    var rest := categories[1..];
    assert Ids(categories) == [categories[0].id] + Ids(rest);
    assert UniqueIds(rest) by {
      forall i, j | 0 <= i < j < |rest| ensures rest[i].id != rest[j].id {
        assert rest[i] == categories[i + 1] && rest[j] == categories[j + 1];
      }
    }
    if categories[0].id == c {
      assert c !in Ids(rest) by {
        forall m | 0 <= m < |rest| ensures Ids(rest)[m] != c {
          assert rest[m] == categories[m + 1];
        }
      }
      FilterAllKept(rest, CategoryIdIsNot(c));
    } else {
      DeleteRemovesOneCategory(rest, c);
    }
  }

  /** With unique ids and at least two categories, something is left after a
      delete, so the fallback `updatedCategories[0]` exists. */
  lemma DeleteLeavesACategory(categories: seq<Category>, c: string)
    requires UniqueIds(categories) && |categories| >= 2
    ensures CategoriesWithout(categories, c) != []
  {
    if c in Ids(categories) {
      DeleteRemovesOneCategory(categories, c);
    } else {
      CategoriesWithoutSpec(categories, c);
    }
  }

  /** After a delete with unique ids and at least two categories, a selected
      tab that named a category still names one: itself, or the first
      remaining category when it was the one deleted. */
  lemma DeleteKeepsTabValid(categories: seq<Category>, tab: string, c: string)
    requires UniqueIds(categories) && |categories| >= 2 && tab in Ids(categories)
    ensures var rest := CategoriesWithout(categories, c);
      rest != [] && (if tab == c then rest[0].id else tab) in Ids(rest)
  {
    var rest := CategoriesWithout(categories, c);
    DeleteLeavesACategory(categories, c);
    if tab != c {
      var m :| 0 <= m < |categories| && Ids(categories)[m] == tab;
      assert categories[m] in rest by {
        assert categories[m].id != c;
        CategoriesWithoutSpec(categories, c);
      }
      IdIn(rest, categories[m]);
    } else {
      IdIn(rest, rest[0]);
    }
  }

  /** The id of a listed category is among the ids. */
  lemma IdIn(categories: seq<Category>, k: Category)
    requires k in categories
    ensures k.id in Ids(categories)
  {
    var n :| 0 <= n < |categories| && categories[n] == k;
    assert Ids(categories)[n] == k.id;
  }

  /** The state `deleteCategory` leaves, and whether it throws. */
  datatype Deletion = Deletion(items: seq<Item>, categories: seq<Category>, activeTab: string, thrown: bool)

  /** `deleteCategory(c)` as one transition: refused with at most one
      category; otherwise both lists are filtered, a selected tab that was `c`
      moves to the first remaining category, and the read of
      `updatedCategories[0].id` throws when nothing remains. */
  function Delete(items: seq<Item>, categories: seq<Category>, activeTab: string, c: string): Deletion {
    if |categories| <= 1 then Deletion(items, categories, activeTab, false)
    else
      var updatedCategories := CategoriesWithout(categories, c);
      if activeTab != c then Deletion(ItemsOutside(items, c), updatedCategories, activeTab, false)
      else if updatedCategories == [] then Deletion(ItemsOutside(items, c), updatedCategories, activeTab, true)
      else Deletion(ItemsOutside(items, c), updatedCategories, updatedCategories[0].id, false)
  }

  /** What a delete promises. With at most one category it changes nothing.
      Otherwise category `c` and every item filed under it are gone, all
      others are kept (in order: both are filters), and a selected tab
      changes only when it was `c`, to the first remaining category. It
      throws only when nothing remains while `c` was selected, which unique
      ids rule out; unique ids also stay unique, a selected tab that named a
      category still names one, and at least one category remains. */
  lemma DeleteOutcome(items: seq<Item>, categories: seq<Category>, activeTab: string, c: string)
    ensures var d := Delete(items, categories, activeTab, c);
      && (|categories| <= 1 ==> d == Deletion(items, categories, activeTab, false))
      && (|categories| > 1 ==>
            && d.items == ItemsOutside(items, c)
            && d.categories == CategoriesWithout(categories, c)
            && (forall i :: 0 <= i < |d.items| ==> d.items[i].category != c)
            && c !in Ids(d.categories))
      && (d.activeTab != activeTab ==> activeTab == c && d.categories != [] && d.activeTab == d.categories[0].id)
      && (|categories| > 1 && activeTab == c && d.categories != [] ==> d.activeTab == d.categories[0].id)
      && (d.thrown <==> |categories| > 1 && activeTab == c && d.categories == [])
      && (UniqueIds(categories) ==> UniqueIds(d.categories) && !d.thrown)
      && (UniqueIds(categories) && activeTab in Ids(categories) ==> d.activeTab in Ids(d.categories))
      && (UniqueIds(categories) && |categories| >= 1 ==> |d.categories| >= 1)
  {
    CategoriesWithoutSpec(categories, c);
    ItemsOutsideSpec(items, c);
    if |categories| > 1 && UniqueIds(categories) {
      DeleteLeavesACategory(categories, c);
      if activeTab in Ids(categories) {
        DeleteKeepsTabValid(categories, activeTab, c);
      }
    }
  }

  /** `categories.map(...)` in `saveEditingCategory`: the category with id `id`
      gets the name `name`; ids, order and every other category are kept. */
  function Renamed(categories: seq<Category>, id: string, name: string): (r: seq<Category>)
    ensures |r| == |categories|
    ensures Ids(r) == Ids(categories)
    ensures forall i :: 0 <= i < |r| && categories[i].id == id ==> r[i].name == name
    ensures forall i :: 0 <= i < |r| && categories[i].id != id ==> r[i] == categories[i]
  {
    if categories == [] then []
    else
      var k := categories[0];
      var r := [if k.id == id then k.(name := name) else k] + Renamed(categories[1..], id, name);
      assert Ids(r) == [r[0].id] + Ids(r[1..]);
      assert Ids(categories) == [k.id] + Ids(categories[1..]);
      r
  }

  /** The rename that `saveEditingCategory` performs, if any: it needs a
      truthy `editingCategory` (present and not the empty string) and a name
      that is not empty after trimming, and stores the trimmed name. */
  function PendingRename(editingCategory: Option<string>, editingName: string): (r: Option<Category>)
    ensures r.Some? <==> editingCategory.Some? && editingCategory.value != "" && !AllWhitespace(editingName)
    ensures r.Some? ==> r.value.id == editingCategory.value && r.value.name == Trim(editingName)
    ensures r.Some? ==> r.value.name != "" && !IsWhitespace(r.value.name[0])
  {
    if editingCategory.Some? && editingCategory.value != "" && Trim(editingName) != "" then
      Some(Category(editingCategory.value, Trim(editingName)))
    else None
  }

  // ---------------------------------------------------------------------
  // Items

  /** `items.filter(item => item.id !== id)`: exactly the items with another
      id; an absent id changes nothing. */
  function WithoutItem(items: seq<Item>, id: string): (r: seq<Item>)
    ensures forall i :: 0 <= i < |r| ==> r[i].id != id
    ensures forall x :: x in r <==> x in items && x.id != id
    ensures |r| == |items| <==> forall i :: 0 <= i < |items| ==> items[i].id != id
    ensures (forall i :: 0 <= i < |items| ==> items[i].id != id) ==> r == items
  {
    var r := Filter(items, IdIsNot(id));
    if forall i :: 0 <= i < |items| ==> items[i].id != id then FilterAllKept(items, IdIsNot(id)); r else r
  }

  /** Removal keeps the survivors in their original order (it distributes
      over concatenation) and each as often as before. */
  lemma WithoutItemKeepsOrder(a: seq<Item>, b: seq<Item>, id: string)
    ensures WithoutItem(a + b, id) == WithoutItem(a, id) + WithoutItem(b, id)
    ensures forall x :: multiset(WithoutItem(a, id))[x] == if x.id != id then multiset(a)[x] else 0
  {
    FilterAppend(a, b, IdIsNot(id));
    FilterMultiset(a, IdIsNot(id));
  }

  /** `items.map(...)` in `toggleItem`: items with that id have `completed`
      flipped and nothing else changed; every other item is kept as is. */
  function Toggled(items: seq<Item>, id: string): (r: seq<Item>)
    ensures |r| == |items|
    ensures forall i :: 0 <= i < |items| && items[i].id != id ==> r[i] == items[i]
    ensures forall i :: 0 <= i < |items| && items[i].id == id ==>
      r[i] == items[i].(completed := !items[i].completed)
  {
    if items == [] then []
    else
      var x := items[0];
      [if x.id == id then x.(completed := !x.completed) else x] + Toggled(items[1..], id)
  }

  /** Toggling the same id twice restores the list. */
  lemma {:induction false} ToggleTwice(items: seq<Item>, id: string)
    ensures Toggled(Toggled(items, id), id) == items
  {
    if items != [] {
      ToggleTwice(items[1..], id);
      assert Toggled(items, id)[1..] == Toggled(items[1..], id);
    }
  }

  /** `items.map(...)` in `editItem`: items with that id get the new title,
      unchecked (no trimming, no emptiness test); nothing else changes. */
  function Retitled(items: seq<Item>, id: string, title: string): (r: seq<Item>)
    ensures |r| == |items|
    ensures forall i :: 0 <= i < |items| && items[i].id != id ==> r[i] == items[i]
    ensures forall i :: 0 <= i < |items| && items[i].id == id ==> r[i] == items[i].(title := title)
  {
    if items == [] then []
    else
      var x := items[0];
      [if x.id == id then x.(title := title) else x] + Retitled(items[1..], id, title)
  }

  /** `editItem` stores a blank title as given: it neither trims nor
      rejects it. */
  lemma EditStoresBlankTitle(x: Item)
    ensures Retitled([x], x.id, "   ") == [x.(title := "   ")]
  {
  }

  /** Editing a title never changes the other fields, so every count stays
      as it was. */
  lemma RetitleKeepsStats(items: seq<Item>, id: string, title: string, c: string)
    ensures CategoryStats(Retitled(items, id, title), c) == CategoryStats(items, c)
    ensures GlobalTotals(Retitled(items, id, title)) == GlobalTotals(items)
  {
    SameStatusSameCounts(Retitled(items, id, title), items, c);
  }

  /** Toggling changes no category's item count and not the global one. */
  lemma ToggleKeepsTotals(items: seq<Item>, id: string, c: string)
    ensures CategoryStats(Toggled(items, id), c).total == CategoryStats(items, c).total
    ensures GlobalTotals(Toggled(items, id)).total == GlobalTotals(items).total
  {
    SameCategoriesSameTotals(Toggled(items, id), items, c);
  }

  /** `items.filter(item => item.category !== c)`: the cascade of a delete. */
  function ItemsOutside(items: seq<Item>, c: string): seq<Item> {
    Filter(items, NotInCategory(c))
  }

  /** The cascade drops exactly the items filed under `c`: what is left
      holds every other item, and it is as long as the list minus the
      category's view. */
  lemma ItemsOutsideSpec(items: seq<Item>, c: string)
    ensures var r := ItemsOutside(items, c);
      && (forall i :: 0 <= i < |r| ==> r[i].category != c)
      && (forall x :: x in r <==> x in items && x.category != c)
      && |r| == |items| - |ItemsIn(items, c)|
  {
    FilterComplement(items, InCategory(c), NotInCategory(c));
  }

  // ---------------------------------------------------------------------
  // Derived views

  /** `getItemsByCategory(c)`: the items filed under `c`, in list order. */
  function ItemsIn(items: seq<Item>, c: string): (r: seq<Item>)
    ensures forall i :: 0 <= i < |r| ==> r[i].category == c
    ensures forall x :: x in r <==> x in items && x.category == c
  {
    Filter(items, InCategory(c))
  }

  datatype Stats = Stats(completed: nat, total: nat, isComplete: bool)

  /** `getCategoryStats(c)`: how many items are filed under `c`, how many of
      those are completed (never more), and whether the category is complete:
      it has an item and every one of its items is completed. */
  function CategoryStats(items: seq<Item>, c: string): (st: Stats)
    ensures st.total == |ItemsIn(items, c)|
    ensures st.completed <= st.total
    ensures st.isComplete <==> st.total > 0 && forall x :: x in items && x.category == c ==> x.completed
    ensures st.total == 0 ==> !st.isComplete
  {
    var mine := ItemsIn(items, c);
    var done := Filter(mine, IsDone);
    Stats(|done|, |mine|, |mine| > 0 && |done| == |mine|)
  }

  datatype Totals = Totals(completed: nat, total: nat)

  /** `totalCompleted` and `totalItems`: never more completed than items, and
      all are completed exactly when no item is open. */
  function GlobalTotals(items: seq<Item>): (t: Totals)
    ensures t.total == |items|
    ensures t.completed <= t.total
    ensures t.completed == t.total <==> forall i :: 0 <= i < |items| ==> items[i].completed
  {
    Totals(|Filter(items, IsDone)|, |items|)
  }

  /** How many items are filed under `c`, counted one by one. */
  function CountIn(items: seq<Item>, c: string): nat {
    if items == [] then 0
    else (if items[0].category == c then 1 else 0) + CountIn(items[1..], c)
  }

  /** How many completed items are filed under `c`, counted one by one. */
  function CountDoneIn(items: seq<Item>, c: string): nat {
    if items == [] then 0
    else (if items[0].category == c && items[0].completed then 1 else 0) + CountDoneIn(items[1..], c)
  }

  /** The filter-based statistics agree with counting item by item. */
  lemma {:induction false} StatsCount(items: seq<Item>, c: string)
    ensures CategoryStats(items, c).total == CountIn(items, c)
    ensures CategoryStats(items, c).completed == CountDoneIn(items, c)
  {
    if items != [] {
      var x, mine := items[0], ItemsIn(items[1..], c);
      StatsCount(items[1..], c);
      if x.category == c {
        assert ItemsIn(items, c) == [x] + mine;
        FilterAppend([x], mine, IsDone);
      } else {
        assert ItemsIn(items, c) == mine;
      }
    }
  }

  /** The same for the global totals. */
  lemma {:induction false} TotalsCount(items: seq<Item>)
    ensures GlobalTotals(items).completed == CountDone(items)
  {
    if items != [] {
      TotalsCount(items[1..]);
      assert items == [items[0]] + items[1..];
      FilterAppend([items[0]], items[1..], IsDone);
    }
  }

  function CountDone(items: seq<Item>): nat {
    if items == [] then 0 else (if items[0].completed then 1 else 0) + CountDone(items[1..])
  }

  /** Two lists that agree item by item on category agree on every
      category's item count. */
  lemma SameCategoriesSameTotals(a: seq<Item>, b: seq<Item>, c: string)
    requires |a| == |b|
    requires forall i :: 0 <= i < |a| ==> a[i].category == b[i].category
    ensures CategoryStats(a, c).total == CategoryStats(b, c).total
  {
    StatsCount(a, c);
    StatsCount(b, c);
    SameCategoriesSameCount(a, b, c);
  }

  lemma {:induction false} SameCategoriesSameCount(a: seq<Item>, b: seq<Item>, c: string)
    requires |a| == |b|
    requires forall i :: 0 <= i < |a| ==> a[i].category == b[i].category
    ensures CountIn(a, c) == CountIn(b, c)
  {
    if a != [] {
      SameCategoriesSameCount(a[1..], b[1..], c);
    }
  }

  /** Two lists that agree item by item on category and completion have the
      same statistics everywhere. */
  lemma SameStatusSameCounts(a: seq<Item>, b: seq<Item>, c: string)
    requires |a| == |b|
    requires forall i :: 0 <= i < |a| ==> a[i].category == b[i].category && a[i].completed == b[i].completed
    ensures CategoryStats(a, c) == CategoryStats(b, c)
    ensures GlobalTotals(a) == GlobalTotals(b)
  {
    StatsCount(a, c);
    StatsCount(b, c);
    TotalsCount(a);
    TotalsCount(b);
    SameStatusSameCount(a, b, c);
  }

  lemma {:induction false} SameStatusSameCount(a: seq<Item>, b: seq<Item>, c: string)
    requires |a| == |b|
    requires forall i :: 0 <= i < |a| ==> a[i].category == b[i].category && a[i].completed == b[i].completed
    ensures CountIn(a, c) == CountIn(b, c) && CountDoneIn(a, c) == CountDoneIn(b, c)
    ensures CountDone(a) == CountDone(b)
  {
    if a != [] {
      SameStatusSameCount(a[1..], b[1..], c);
    }
  }

  /** The per-category counts summed over a list of categories. */
  function SumStats(items: seq<Item>, categories: seq<Category>): Totals {
    if categories == [] then Totals(0, 0)
    else
      var st := CategoryStats(items, categories[0].id);
      var rest := SumStats(items, categories[1..]);
      Totals(st.completed + rest.completed, st.total + rest.total)
  }

  /** When every item is filed under one of the categories and their ids are
      unique, the tabs' counts add up to the header's totals. */
  lemma {:induction false} TabCountsAddUp(items: seq<Item>, categories: seq<Category>)
    requires UniqueIds(categories)
    requires forall i :: 0 <= i < |items| ==> items[i].category in Ids(categories)
    ensures SumStats(items, categories) == GlobalTotals(items)
  {
    if items == [] {
      SumStatsOfNoItems(categories);
    } else {
      var x, rest := items[0], items[1..];
      TabCountsAddUp(rest, categories);
      SumStatsCons(items, categories);
      OneCategoryMatches(categories, x.category);
      TotalsCount(items);
      TotalsCount(rest);
    }
  }

  lemma {:induction false} SumStatsOfNoItems(categories: seq<Category>)
    ensures SumStats([], categories) == Totals(0, 0)
  {
    if categories != [] {
      SumStatsOfNoItems(categories[1..]);
    }
  }

  /** The number of categories whose id is `c`. */
  function Occurrences(categories: seq<Category>, c: string): nat {
    if categories == [] then 0
    else (if categories[0].id == c then 1 else 0) + Occurrences(categories[1..], c)
  }

  lemma {:induction false} OneCategoryMatches(categories: seq<Category>, c: string)
    requires UniqueIds(categories) && c in Ids(categories)
    ensures Occurrences(categories, c) == 1
  {
    var rest := categories[1..];
    assert Ids(categories) == [categories[0].id] + Ids(rest);
    assert UniqueIds(rest) by {
      forall i, j | 0 <= i < j < |rest| ensures rest[i].id != rest[j].id {
        assert rest[i] == categories[i + 1] && rest[j] == categories[j + 1];
      }
    }
    if categories[0].id == c {
      NoCategoryMatches(rest, c);
    } else {
      OneCategoryMatches(rest, c);
    }
  }

  lemma {:induction false} NoCategoryMatches(categories: seq<Category>, c: string)
    requires forall i :: 0 <= i < |categories| ==> categories[i].id != c
    ensures Occurrences(categories, c) == 0
  {
    if categories != [] {
      NoCategoryMatches(categories[1..], c);
    }
  }

  /** The first item of a non-empty list adds to the sums once per category
      whose id is its category. */
  lemma {:induction false} SumStatsCons(items: seq<Item>, categories: seq<Category>)
    requires items != []
    ensures var x, n := items[0], Occurrences(categories, items[0].category);
      SumStats(items, categories) == Totals(
        SumStats(items[1..], categories).completed + (if x.completed then n else 0),
        SumStats(items[1..], categories).total + n)
  {
    if categories != [] {
      SumStatsCons(items, categories[1..]);
      StatsCons(items, categories[0].id);
    }
  }

  /** The first item adds one to its own category's total, and one to its
      completed count when it is completed; other categories are unchanged. */
  lemma StatsCons(items: seq<Item>, c: string)
    requires items != []
    ensures var x := items[0];
      && CategoryStats(items, c).total == CategoryStats(items[1..], c).total + (if x.category == c then 1 else 0)
      && CategoryStats(items, c).completed
         == CategoryStats(items[1..], c).completed + (if x.category == c && x.completed then 1 else 0)
  {
    StatsCount(items, c);
    StatsCount(items[1..], c);
  }

  // ---------------------------------------------------------------------
  // The component's state

  class Checklist {
    var items: seq<Item>
    var categories: seq<Category>
    var activeTab: string
    var editingCategory: Option<string>
    var editingName: string
    /** The browser storage the save effects write to. */
    var storage: Storage

    /** What the save effects maintain: the item record is the item list, and
        the category record is the category list whenever that is non-empty. */
    ghost predicate Valid()
      reads this
    {
      && LoadItems(storage) == items
      && (categories != [] ==> LoadCategories(storage) == categories)
    }

    /** Mounting the component over the storage `stored`: the initial state,
        the load effect, and both commits' save effects. */
    constructor Mount(stored: Storage)
      ensures Valid()
      ensures items == LoadItems(stored) && categories == LoadCategories(stored)
      ensures activeTab == "clothing" && editingCategory == None && editingName == ""
      ensures storage == AfterMount(stored)
    {
      var loadedItems := LoadItems(stored);
      var loadedCategories := LoadCategories(stored);
      var first := SaveCategoriesGuarded(SaveItems(stored, []), []);
      items := loadedItems;
      categories := loadedCategories;
      activeTab := "clothing";
      editingCategory := None;
      editingName := "";
      storage := SaveCategoriesGuarded(SaveItems(first, loadedItems), loadedCategories);
    }

    /** `addItem`: appends the item as given. */
    method AddItem(item: Item)
      requires Valid()
      modifies this
      ensures Valid()
      ensures items == old(items) + [item]
      ensures categories == old(categories) && activeTab == old(activeTab)
      ensures editingCategory == old(editingCategory) && editingName == old(editingName)
      ensures storage == SaveItems(old(storage), items)
    {
      items := items + [item];
      storage := SaveItems(storage, items);
    }

    /** `removeItem`. */
    method RemoveItem(id: string)
      requires Valid()
      modifies this
      ensures Valid()
      ensures items == WithoutItem(old(items), id)
      ensures categories == old(categories) && activeTab == old(activeTab)
      ensures editingCategory == old(editingCategory) && editingName == old(editingName)
      ensures storage == SaveItems(old(storage), items)
    {
      items := WithoutItem(items, id);
      storage := SaveItems(storage, items);
    }

    /** `toggleItem`. */
    method ToggleItem(id: string)
      requires Valid()
      modifies this
      ensures Valid()
      ensures items == Toggled(old(items), id)
      ensures categories == old(categories) && activeTab == old(activeTab)
      ensures editingCategory == old(editingCategory) && editingName == old(editingName)
      ensures storage == SaveItems(old(storage), items)
    {
      items := Toggled(items, id);
      storage := SaveItems(storage, items);
    }

    /** `editItem`: the new title is stored as given. */
    method EditItem(id: string, newTitle: string)
      requires Valid()
      modifies this
      ensures Valid()
      ensures items == Retitled(old(items), id, newTitle)
      ensures categories == old(categories) && activeTab == old(activeTab)
      ensures editingCategory == old(editingCategory) && editingName == old(editingName)
      ensures storage == SaveItems(old(storage), items)
    {
      items := Retitled(items, id, newTitle);
      storage := SaveItems(storage, items);
    }

    /** `startEditingCategory` (a double click on a tab). */
    method StartEditingCategory(categoryId: string, currentName: string)
      requires Valid()
      modifies this
      ensures Valid()
      ensures editingCategory == Some(categoryId) && editingName == currentName
      ensures items == old(items) && categories == old(categories)
      ensures activeTab == old(activeTab) && storage == old(storage)
    {
      editingCategory := Some(categoryId);
      editingName := currentName;
    }

    /** The rename input's `onChange`. */
    method SetEditingName(text: string)
      requires Valid()
      modifies this
      ensures Valid()
      ensures editingName == text && editingCategory == old(editingCategory)
      ensures items == old(items) && categories == old(categories)
      ensures activeTab == old(activeTab) && storage == old(storage)
    {
      editingName := text;
    }

    /** `saveEditingCategory` (Enter or leaving the input): renames the edited
        category to the trimmed name when there is one, keeps every id, and
        always ends the edit. */
    method SaveEditingCategory()
      requires Valid()
      modifies this
      ensures Valid()
      ensures var p := PendingRename(old(editingCategory), old(editingName));
        && (p.Some? ==> categories == Renamed(old(categories), p.value.id, p.value.name)
                        && storage == SaveCategoriesGuarded(old(storage), categories))
        && (p.None? ==> categories == old(categories) && storage == old(storage))
      ensures Ids(categories) == Ids(old(categories))
      ensures editingCategory == None && editingName == ""
      ensures items == old(items) && activeTab == old(activeTab)
    {
      var p := PendingRename(editingCategory, editingName);
      if p.Some? {
        categories := Renamed(categories, p.value.id, p.value.name);
        storage := SaveCategoriesGuarded(storage, categories);
      }
      editingCategory := None;
      editingName := "";
    }

    /** `cancelEditingCategory`. */
    method CancelEditingCategory()
      requires Valid()
      modifies this
      ensures Valid()
      ensures editingCategory == None && editingName == ""
      ensures items == old(items) && categories == old(categories)
      ensures activeTab == old(activeTab) && storage == old(storage)
    {
      editingCategory := None;
      editingName := "";
    }

    /** `handleCategoryKeyPress`: Enter saves, Escape cancels, any other key
        changes nothing. */
    method HandleCategoryKeyPress(key: string)
      requires Valid()
      modifies this
      ensures Valid()
      ensures key != "Enter" && key != "Escape" ==>
        && items == old(items) && categories == old(categories) && activeTab == old(activeTab)
        && editingCategory == old(editingCategory) && editingName == old(editingName)
        && storage == old(storage)
      ensures key == "Escape" ==>
        && editingCategory == None && editingName == ""
        && categories == old(categories) && storage == old(storage)
      ensures key == "Enter" ==>
        var p := PendingRename(old(editingCategory), old(editingName));
        && editingCategory == None && editingName == ""
        && categories == (if p.Some? then Renamed(old(categories), p.value.id, p.value.name) else old(categories))
        && storage == (if p.Some? then SaveCategoriesGuarded(old(storage), categories) else old(storage))
      ensures items == old(items) && activeTab == old(activeTab)
    {
      if key == "Enter" {
        SaveEditingCategory();
      } else if key == "Escape" {
        CancelEditingCategory();
      }
    }

    /** `handleCategoryChange` and the tabs' `onValueChange`: selects a tab. */
    method SelectTab(categoryId: string)
      requires Valid()
      modifies this
      ensures Valid()
      ensures activeTab == categoryId
      ensures items == old(items) && categories == old(categories)
      ensures editingCategory == old(editingCategory) && editingName == old(editingName)
      ensures storage == old(storage)
    {
      activeTab := categoryId;
    }

    /** `addNewCategory`: derives the id from the name; when a category
        already has it nothing happens, otherwise the category is appended
        and its tab selected. Unique ids stay unique. */
    method AddNewCategory(categoryName: string)
      requires Valid()
      modifies this
      ensures Valid()
      ensures Slug(categoryName) in Ids(old(categories)) ==>
        categories == old(categories) && activeTab == old(activeTab) && storage == old(storage)
      ensures Slug(categoryName) !in Ids(old(categories)) ==>
        && categories == old(categories) + [Category(Slug(categoryName), categoryName)]
        && activeTab == Slug(categoryName)
        && storage == SaveCategoriesGuarded(old(storage), categories)
      ensures old(UniqueIds(categories)) ==> UniqueIds(categories)
      ensures activeTab in Ids(categories) || activeTab == old(activeTab)
      ensures items == old(items)
      ensures editingCategory == old(editingCategory) && editingName == old(editingName)
    {
      var categoryId := Slug(categoryName);
      if Find(categories, categoryId).None? {
        var added := categories + [Category(categoryId, categoryName)];
        assert Ids(added) == Ids(categories) + [categoryId];
        categories := added;
        activeTab := categoryId;
        storage := SaveCategoriesGuarded(storage, categories);
      }
    }

    /** `deleteCategory`, as the transition `Delete` describes (what it
        promises is `DeleteOutcome`), followed by
        the save effects of the two lists it replaced (none when refused). */
    method DeleteCategory(categoryId: string) returns (thrown: bool)
      requires Valid()
      modifies this
      ensures Valid()
      ensures Deletion(items, categories, activeTab, thrown)
           == Delete(old(items), old(categories), old(activeTab), categoryId)
      ensures storage == if |old(categories)| <= 1 then old(storage)
                         else SaveCategoriesGuarded(SaveItems(old(storage), items), categories)
      ensures editingCategory == old(editingCategory) && editingName == old(editingName)
    {
      thrown := false;
      if |categories| <= 1 {
        return;
      }
      ghost var d := Delete(items, categories, activeTab, categoryId);
      items := ItemsOutside(items, categoryId);
      var updatedCategories := CategoriesWithout(categories, categoryId);
      categories := updatedCategories;
      if activeTab == categoryId {
        if updatedCategories == [] {
          thrown := true;
        } else {
          activeTab := updatedCategories[0].id;
        }
      }
      assert Deletion(items, categories, activeTab, thrown) == d;
      storage := SaveCategoriesGuarded(SaveItems(storage, items), categories);
    }
  }

  /** A session that drives the store's handlers directly: on empty storage,
      add the category "Snacks", pass `addItem` an item "Chips" filed under
      it, then check it off. The add-item form could not build that item,
      since it offers only its five fixed categories. */
  method SnacksSession() returns (before: Stats, after: Stats)
    ensures before == Stats(0, 1, false)
    ensures after == Stats(1, 1, true)
  {
    var list := new Checklist.Mount(Storage(None, None));
    SlugOfOneWord();
    list.AddNewCategory("Snacks");
    assert list.activeTab == "snacks";
    var chips := Item("1", "Chips", false, "snacks");
    list.AddItem(chips);
    StatsCount(list.items, "snacks");
    before := CategoryStats(list.items, "snacks");
    list.ToggleItem("1");
    assert list.items == [chips.(completed := true)];
    StatsCount(list.items, "snacks");
    after := CategoryStats(list.items, "snacks");
  }

  /** A session as a client sees it: with the tabs "clothing" (selected) and
      "other" holding one item each, deleting "clothing" selects "other" and
      leaves only the item filed under it. */
  method DeleteSession() returns (tab: string, left: seq<Item>, thrown: bool)
    ensures tab == "other" && !thrown
    ensures left == [Item("2", "Book", false, "other")]
  {
    var shirt := Item("1", "Shirt", false, "clothing");
    var book := Item("2", "Book", false, "other");
    var tabs := [Category("clothing", "Clothing"), Category("other", "Other")];
    var rest := CategoriesWithout(tabs, "clothing");
    assert rest == [tabs[1]] by {
      assert tabs == [tabs[0]] + [tabs[1]];
      FilterAppend([tabs[0]], [tabs[1]], CategoryIdIsNot("clothing"));
    }
    assert ItemsOutside([shirt, book], "clothing") == [book] by {
      assert [shirt, book] == [shirt] + [book];
      FilterAppend([shirt], [book], NotInCategory("clothing"));
    }
    assert Delete([shirt, book], tabs, "clothing", "clothing") == Deletion([book], rest, "other", false);
    var list := new Checklist.Mount(Storage(Some([shirt, book]), Some(tabs)));
    thrown := list.DeleteCategory("clothing");
    tab := list.activeTab;
    left := list.items;
  }
}
