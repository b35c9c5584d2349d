/** Values shared by the three repositories: the response taxonomy, the
    work-item states, the stored row of each table and the DTOs the
    repositories hand out. */
module KanbanTypes {

  datatype Option<+T> = None | Some(value: T)

  /** Outcome of every mutating repository operation; expected business
      conditions are reported here, never thrown. */
  datatype Response = Created | Updated | Deleted | Conflict | NotFound | BadRequest

  datatype State = New | Active | Resolved | Closed | Removed

  /** Row ids are generated by the store on insert, starting at 1. */
  type Id = int

  /** A reading of the abstract clock that stands for `DateTime.UtcNow`. */
  type Time = nat

  /** `default(DateTime)`: the value of a timestamp nobody has set. */
  const MinTime: Time := 0

  /** A row of the Tags table (its id is the key it is stored under). */
  datatype Tag = Tag(name: string)

  /** A row of the Users table. */
  datatype User = User(name: string, email: string)

  /** A row of the Items table; `tags` holds the ids of the linked tags,
      the many-to-many Tag/WorkItem link seen from the item's side. */
  datatype ItemRow = ItemRow(
    title: string,
    description: Option<string>,
    assignedToId: Option<Id>,
    state: State,
    created: Time,
    stateUpdated: Time,
    tags: set<Id>)

  datatype TagDTO = TagDTO(id: Id, name: string)

  datatype UserDTO = UserDTO(id: Id, name: string, email: string)

  datatype WorkItemDTO = WorkItemDTO(
    id: Id,
    title: string,
    assignedToName: Option<string>,
    tags: set<string>,
    state: State)

  datatype WorkItemDetailsDTO = WorkItemDetailsDTO(
    id: Id,
    title: string,
    description: Option<string>,
    created: Time,
    assignedToName: Option<string>,
    tags: set<string>,
    state: State,
    stateUpdated: Time)

  /** What tag reconciliation makes of one requested name: a tag that is
      already stored, or a new tag staged for insertion with the item. */
  datatype TagRef = Existing(id: Id) | Staged(name: string)
}
