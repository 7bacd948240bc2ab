# Travel checklist — a Dafny model

This project models the core of a travel-checklist web app. Three React components hold that core:

- **`TravelChecklist`** is the store. It holds the packing items, the categories shown as tabs, the selected tab and an in-progress tab rename. Its handlers add, remove, toggle and retitle items; add, rename and delete categories; and select tabs. Its derived views give each tab's items and counts and the header's totals. Two save effects copy the lists to browser storage.
- **`ChecklistForm`** turns a typed title and a chosen category into a new item. It offers its own fixed list of five categories.
- **`AddCategory`** is a two-state widget. Closed, it shows a button; open, it shows a name input. It hands the trimmed name to the store.

How the model is laid out:

- Components whose handlers update state are Dafny classes: `TravelChecklist.Checklist`, `ChecklistForm.ItemForm` and `AddCategory.CategoryForm`. Each handler is a `modifies this` method.
- The lists a handler computes are pure functions, for example `Toggled`, `CategoriesWithout` and `Delete`. The methods are specified by these functions. The lemmas state what the functions promise.
- React batches the `setX` calls of one handler into one transition, and the model applies them that way. A save effect runs after every commit that changed its list, so a method that changes a list also updates the `storage` field.
- JavaScript string behaviour is modelled in the `Text` module:
  - `trim` and the regular-expression class `\s` use the ECMAScript WhiteSpace and LineTerminator characters.
  - `toLowerCase` is modelled for ASCII only.
  - `replace(/\s+/g, "-")` turns each run of white space into one hyphen.
  - `Date.now().toString()` is the decimal rendering of a natural number.

In three places the code does less than one might expect, and the model follows the code:

- `editItem` stores the new title as given. It does not trim it or reject a blank one (`EditStoresBlankTitle`).
- `ChecklistForm` offers its own fixed category list, not the store's categories. So an item can name a category the store does not have (`FormCanFileUnderMissingCategory`), and "every item names an existing category" is not an invariant of the store. `TabCountsAddUp` therefore takes it as a precondition.
- `deleteCategory` guards only `categories.length <= 1`. With duplicate ids, the filter can empty the list while the deleted tab is selected, and then `updatedCategories[0].id` throws. `Delete` reports this as `thrown`. `DeleteOutcome` shows that unique ids rule it out.

## Model

| member | source | states |
|---|---|---|
| Text.Trim | src/components/ChecklistForm.tsx:27 | the result is the slice of the input left after removing the maximal leading and trailing white space; it neither starts nor ends with white space; it is empty exactly when the input is all white space |
| Text.Lower | src/components/TravelChecklist.tsx:130 | same length; each ASCII capital becomes its small letter and every other character is kept |
| Text.LowerIdempotent | src/components/TravelChecklist.tsx:130 | the result of lower-casing has no capital, and lower-casing it again changes nothing |
| Text.LowerOfLowerCaseIsIdentity | src/components/TravelChecklist.tsx:130 | a string without ASCII capitals is its own lower case |
| Text.HyphenateRuns | src/components/TravelChecklist.tsx:130 | the result is never longer than the input, and is empty exactly when the input is |
| Text.HyphenateRemovesWhitespace | src/components/TravelChecklist.tsx:130 | no white space survives the replacement |
| Text.HyphenateWithoutWhitespace | src/components/TravelChecklist.tsx:130 | a string without white space is left unchanged |
| Text.HyphenateJoin | src/components/TravelChecklist.tsx:130 | a maximal white-space run between two parts becomes exactly one hyphen, and the parts are replaced independently |
| Text.HyphenateAppend | src/components/TravelChecklist.tsx:130 | cutting after a non-white-space character commutes with the replacement |
| Text.HyphenateRun | src/components/TravelChecklist.tsx:130 | a whole leading white-space run becomes one hyphen |
| Text.Slug | src/components/TravelChecklist.tsx:130 | the id has no white space and no ASCII capitals, is empty exactly when the name is, and is no longer than the name |
| Text.SlugIgnoresCase | src/components/TravelChecklist.tsx:130 | names that differ only in ASCII case get the same id |
| Text.SlugIdempotent | src/components/TravelChecklist.tsx:130 | an id derived from an id is that id |
| Text.SlugOfOneWord | src/components/TravelChecklist.tsx:130 | the name "Snacks" gets the id "snacks" |
| Text.DecimalString | src/components/ChecklistForm.tsx:29 | a non-empty string of decimal digits; a leading zero occurs only in "0", which is the rendering of 0 and of nothing else |
| Text.DecimalRoundTrip | src/components/ChecklistForm.tsx:29 | reading the digits back gives the number |
| Text.DecimalStringInjective | src/components/ChecklistForm.tsx:29 | different numbers render differently |
| Seqs.Filter | src/components/TravelChecklist.tsx:74 | the result is no longer than the input, holds exactly the input's elements that pass the test, and has the input's length exactly when every element passes |
| Seqs.FilterAppend | src/components/TravelChecklist.tsx:74 | filtering distributes over concatenation, so order is kept |
| Seqs.FilterMultiset | src/components/TravelChecklist.tsx:74 | each element that passes is kept exactly as often as it occurs; others do not occur |
| Seqs.FilterComplement | src/components/TravelChecklist.tsx:150 | a filter and its complement split the input's length |
| Seqs.FilterAllKept | src/components/TravelChecklist.tsx:153 | a filter that keeps every element returns the input |
| Persistence.LoadItems | src/utils/index.ts:9-15 | an absent item record reads as the empty list; a present one reads as its contents |
| Persistence.LoadCategories | src/components/TravelChecklist.tsx:53 | an absent category record reads as the empty list; a present one reads as its contents |
| Persistence.SaveItems | src/utils/index.ts:3-7 | reading the items back gives the saved list; the category record is untouched |
| Persistence.SaveCategoriesGuarded | src/components/TravelChecklist.tsx:63-67 | a non-empty list is written and reads back as itself; an empty list leaves storage unchanged; the item record is untouched |
| Persistence.AfterMount | src/components/TravelChecklist.tsx:49-67 | after mounting, the category record is what it was and the items read back as the stored items |
| Persistence.MountFirstCommit | src/components/TravelChecklist.tsx:58-67 | between the two commits of a mount, the item record holds the empty list while the category record is intact |
| Persistence.SavesAreIdempotent | src/components/TravelChecklist.tsx:57-67 | saving the same list twice is saving it once |
| TravelChecklist.Find | src/components/TravelChecklist.tsx:137 | no result exactly when no category has the id; a result is a listed category with that id |
| TravelChecklist.CategoriesWithoutSpec | src/components/TravelChecklist.tsx:153 | about `CategoriesWithout`, the category filter: the id is gone, every other category is kept, an absent id changes nothing, and unique ids stay unique |
| TravelChecklist.FilterKeepsUniqueIds | src/components/TravelChecklist.tsx:153 | filtering categories never introduces a duplicate id |
| TravelChecklist.DeleteRemovesOneCategory | src/components/TravelChecklist.tsx:153 | with unique ids, deleting a present category removes exactly one |
| TravelChecklist.DeleteLeavesACategory | src/components/TravelChecklist.tsx:145-158 | with unique ids and at least two categories, a delete leaves a category, so the fallback tab exists |
| TravelChecklist.DeleteKeepsTabValid | src/components/TravelChecklist.tsx:156-158 | with unique ids, a selected tab that named a category still names one after the delete |
| TravelChecklist.DeleteOutcome | src/components/TravelChecklist.tsx:143-160 | about `Delete`, the whole handler: refused with at most one category; otherwise the category and all its items are gone and the rest kept; the tab moves exactly when it was the deleted category and something remains, and then to the first remaining one; it throws only if nothing is left while the deleted tab was selected; with unique ids it never throws, ids stay unique, a valid tab stays valid and a category remains |
| TravelChecklist.Renamed | src/components/TravelChecklist.tsx:100-106 | same length and ids; categories with the edited id get the new name and all others are kept |
| TravelChecklist.PendingRename | src/components/TravelChecklist.tsx:99-103 | a rename happens exactly when an edit is active with a non-empty id and a name that is not all white space; it stores the trimmed name for that id |
| TravelChecklist.WithoutItem | src/components/TravelChecklist.tsx:73-75 | exactly the items with another id remain; the length is kept exactly when no item has the id, and then the list is unchanged |
| TravelChecklist.WithoutItemKeepsOrder | src/components/TravelChecklist.tsx:74 | removal distributes over concatenation and keeps each survivor as often as before |
| TravelChecklist.Toggled | src/components/TravelChecklist.tsx:77-83 | same length; items with the id have `completed` flipped and nothing else changed; other items are kept |
| TravelChecklist.ToggleTwice | src/components/TravelChecklist.tsx:77-83 | toggling the same id twice restores the list |
| TravelChecklist.ToggleKeepsTotals | src/components/TravelChecklist.tsx:77-83 | toggling changes no tab's item count and not the global item count |
| TravelChecklist.Retitled | src/components/TravelChecklist.tsx:85-91 | same length; items with the id get the new title and nothing else changed; other items are kept |
| TravelChecklist.EditStoresBlankTitle | src/components/TravelChecklist.tsx:88 | a blank title is stored as given |
| TravelChecklist.RetitleKeepsStats | src/components/TravelChecklist.tsx:85-91 | retitling changes no tab's statistics and not the totals |
| TravelChecklist.ItemsOutsideSpec | src/components/TravelChecklist.tsx:150 | about `ItemsOutside`, the cascade filter: no remaining item is filed under the category, every other item is kept, and the length drops by the category's item count |
| TravelChecklist.ItemsIn | src/components/TravelChecklist.tsx:162-164 | exactly the items filed under the category |
| TravelChecklist.CategoryStats | src/components/TravelChecklist.tsx:166-171 | the total is the size of the category's view; completed never exceeds it; complete exactly when the category has an item and all its items are completed |
| TravelChecklist.GlobalTotals | src/components/TravelChecklist.tsx:173-174 | the total is the number of items; completed never exceeds it and equals it exactly when every item is completed |
| TravelChecklist.StatsCount | src/components/TravelChecklist.tsx:166-171 | the filter-based tab counts equal counting the items one by one |
| TravelChecklist.TotalsCount | src/components/TravelChecklist.tsx:173 | the filter-based completed total equals counting one by one |
| TravelChecklist.SameCategoriesSameTotals | src/components/TravelChecklist.tsx:169 | lists that agree item by item on category have the same tab totals |
| TravelChecklist.SameStatusSameCounts | src/components/TravelChecklist.tsx:166-174 | lists that agree item by item on category and completion have the same statistics and totals |
| TravelChecklist.TabCountsAddUp | src/components/TravelChecklist.tsx:166-174 | when ids are unique and every item is filed under a listed category, the tabs' counts sum to the header's totals |
| TravelChecklist.Checklist.Mount | src/components/TravelChecklist.tsx:31-55 | starts on the "clothing" tab with no edit; the lists are the stored ones; storage is as the mount's two commits leave it; the save invariant holds |
| TravelChecklist.Checklist.AddItem | src/components/TravelChecklist.tsx:69-71 | the item is appended; nothing else changes except the saved item record |
| TravelChecklist.Checklist.RemoveItem | src/components/TravelChecklist.tsx:73-75 | the items become `WithoutItem`; only the item record is saved |
| TravelChecklist.Checklist.ToggleItem | src/components/TravelChecklist.tsx:77-83 | the items become `Toggled`; only the item record is saved |
| TravelChecklist.Checklist.EditItem | src/components/TravelChecklist.tsx:85-91 | the items become `Retitled` with the title as given; only the item record is saved |
| TravelChecklist.Checklist.StartEditingCategory | src/components/TravelChecklist.tsx:93-96 | the edit targets the category with the current name; nothing else changes |
| TravelChecklist.Checklist.SetEditingName | src/components/TravelChecklist.tsx:217 | only the pending name changes |
| TravelChecklist.Checklist.SaveEditingCategory | src/components/TravelChecklist.tsx:98-110 | renames as `PendingRename` says and saves the categories, or changes nothing; ids are kept; the edit always ends |
| TravelChecklist.Checklist.CancelEditingCategory | src/components/TravelChecklist.tsx:112-115 | the edit ends; lists and storage are unchanged |
| TravelChecklist.Checklist.HandleCategoryKeyPress | src/components/TravelChecklist.tsx:117-123 | Enter applies the pending rename and saves the category list through the guard (nothing when no rename is pending), Escape cancels it, any other key changes nothing |
| TravelChecklist.Checklist.SelectTab | src/components/TravelChecklist.tsx:125-127 | only the selected tab changes |
| TravelChecklist.Checklist.AddNewCategory | src/components/TravelChecklist.tsx:129-141 | when the derived id is taken nothing changes; otherwise the category is appended, its tab selected and the categories saved; unique ids stay unique; items are untouched |
| TravelChecklist.Checklist.DeleteCategory | src/components/TravelChecklist.tsx:143-160 | the new lists, tab and throw flag are exactly `Delete` of the old state; both records are saved unless the delete was refused; the save invariant holds |
| TravelChecklist.SnacksSession | src/components/TravelChecklist.tsx:129-171 | calling the store's handlers directly on empty storage (the form cannot file under "snacks"), adding "Snacks", passing `addItem` one item filed there and checking it off takes the tab from 0 of 1 to 1 of 1, complete |
| TravelChecklist.DeleteSession | src/components/TravelChecklist.tsx:143-160 | deleting the selected "clothing" tab selects "other", drops its item and does not throw |
| ChecklistForm.FormChoices | src/components/ChecklistForm.tsx:17-23 | the form offers the five ids "clothing", "documents", "electronics", "toiletries", "other", in that order and all different |
| ChecklistForm.NewItem | src/components/ChecklistForm.tsx:25-34 | no item exactly when the title is all white space; otherwise an open item with the trimmed, non-empty title, the selected category and the timestamp's digits as id |
| ChecklistForm.DistinctTimesDistinctIds | src/components/ChecklistForm.tsx:29 | items submitted at different milliseconds get different ids |
| ChecklistForm.FormCanFileUnderMissingCategory | src/components/ChecklistForm.tsx:17-23 | choosing "Other Items" while the store has only a "clothing" tab yields an item whose category names no tab |
| ChecklistForm.ItemForm.constructor | src/components/ChecklistForm.tsx:14-15 | an empty title, with the selection set from the category passed at mount |
| ChecklistForm.ItemForm.SetItemTitle | src/components/ChecklistForm.tsx:45 | only the title changes |
| ChecklistForm.ItemForm.SelectCategory | src/components/ChecklistForm.tsx:49-58 | the select emits only the five fixed ids; only the selection changes, and it stays selectable |
| ChecklistForm.ItemForm.Submit | src/components/ChecklistForm.tsx:25-37 | returns `NewItem` of the typed state; the title is cleared only when an item was made; the selection never changes; an item is filed under the category given at mount or one of the five |
| ChecklistForm.SubmitFilesUnderSelectable | src/components/ChecklistForm.tsx:17-58 | a category outside the five that the form was not mounted on never receives an item from it |
| ChecklistForm.StoreMountedFormOffersOnlyFive | src/components/TravelChecklist.tsx:32 | mounted on the store's initial tab "clothing", the form can hold exactly the five fixed ids |
| AddCategory.SubmittedName | src/components/AddCategory.tsx:18-19 | nothing exactly when the name is all white space; otherwise the trimmed, non-empty name |
| AddCategory.SubmittedNameHasId | src/components/AddCategory.tsx:19 | a submitted name always derives a non-empty id |
| AddCategory.CategoryForm.constructor | src/components/AddCategory.tsx:13-14 | starts closed with an empty name |
| AddCategory.CategoryForm.Open | src/components/AddCategory.tsx:41 | the form opens |
| AddCategory.CategoryForm.SetCategoryName | src/components/AddCategory.tsx:55 | while open, only the name changes |
| AddCategory.CategoryForm.Submit | src/components/AddCategory.tsx:16-23 | returns `SubmittedName` of the typed name; a success clears and closes, a rejection changes nothing, and a closed form submits nothing |
| AddCategory.CategoryForm.Cancel | src/components/AddCategory.tsx:25-28 | clears the name and closes |
| AddCategory.CategoryForm.KeyPress | src/components/AddCategory.tsx:30-34 | Escape cancels; any other key changes nothing |

## Left out

- Rendering, icons, badges and layout (the JSX) are not modelled: they compute no state.
- `ChecklistItem` and `VoiceInput` are not part of this model. The store never renders `VoiceInput`. It passes `removeItem`, `toggleItem` and `editItem` to `ChecklistItem`, which calls the first two with an item's id; its props have no `onEdit`, so nothing in the interface shown calls `editItem`. The model keeps all three as handlers with arbitrary arguments.
- `getCategoriesFromLocalStorage` and `saveCategoriesToLocalStorage` are not part of this model: no source for them is at hand. Their storage record is modelled like the item record, with an absent record reading as the empty list. Neither seeds default categories.
- JSON encoding and parsing, the `typeof window` test and storage errors are not modelled. Storage is two optional typed records.
- `Persistence.LoadItems`: a stored record that is not valid JSON makes `JSON.parse` throw. The model has no malformed record.
- The optional `icon` field of a category is not modelled: no handler reads or writes it.
- `Text.Lower` covers ASCII letters only. JavaScript's `toLowerCase` also maps other Unicode capitals, and can change a string's length.
- `Text.DecimalString` renders any natural number. `Date.now()` is a parameter `now`, and its exponent notation above 10^21 is not modelled.
- React's scheduling (state updates queued and applied after the handler returns), StrictMode's double effects, and the `onBlur` save that follows an Enter are left out. Each handler is one atomic transition, and the blur's second save is a separate call.
- `TravelChecklist.Checklist.DeleteCategory`: after a throw, the queued item and category updates are taken to commit and the tab to stay as it was; how React recovers from the error is not modelled.
- `ChecklistForm.ItemForm.constructor`: the selection is set only at mount, as `useState` does. A later change of the store's tab does not reach it.
- `TravelChecklist.Find`: the contract does not say the found category is the first with that id, because the caller uses only whether one exists.
