/** The records of the checklist (src/types/index.ts) and an optional value
    standing for JavaScript's `null` / "not found". */
module Types {

  datatype Option<T> = None | Some(value: T)

  /** One entry of the checklist (`ChecklistItemType`). */
  datatype Item = Item(id: string, title: string, completed: bool, category: string)

  /** A tab of the checklist (`CategoryType`; the optional presentation-only
      `icon` is not part of the model). */
  datatype Category = Category(id: string, name: string)
}
