/** The WorkItem entity: the object a repository builds or loads, changes
    field by field, and hands to the store to save. */
module WorkItemEntity {
  import opened KanbanTypes

  class WorkItem {
    var id: Id
    var title: string
    var assignedToId: Option<Id>
    var state: State
    var stateUpdated: Time
    var created: Time
    var description: Option<string>
    var tags: set<Id>

    /** A new item, stamped with the current time `now`; the fields the
        constructor leaves alone keep their defaults. */
    constructor (title: string, now: Time)
      ensures this.title == title && tags == {} && created == now && state == New
      ensures id == 0 && assignedToId == None && description == None && stateUpdated == MinTime
    {
      id := 0;
      assignedToId := None;
      stateUpdated := MinTime;
      description := None;
      this.title := title;
      tags := {};
      created := now;
      state := New;
    }

    /** The tracked entity the store materialises for the row `row` it
        keeps under `id`. */
    constructor Load(id: Id, row: ItemRow)
      ensures this.id == id && Row() == row
    {
      this.id := id;
      title := row.title;
      assignedToId := row.assignedToId;
      state := row.state;
      stateUpdated := row.stateUpdated;
      created := row.created;
      description := row.description;
      tags := row.tags;
    }

    /** The row saving this entity writes: every persisted field, the id
        being the row's key. `Load` is its inverse. */
    function Row(): (r: ItemRow)
      reads this
      ensures r.title == title && r.description == description && r.assignedToId == assignedToId
      ensures r.state == state && r.created == created && r.stateUpdated == stateUpdated && r.tags == tags
    {
      ItemRow(title, description, assignedToId, state, created, stateUpdated, tags)
    }

    /** Sets the state and stamps the change with the current time `now`;
        nothing else changes. */
    method UpdateState(state: State, now: Time)
      modifies this
      ensures this.state == state && stateUpdated == now
      ensures id == old(id) && title == old(title) && assignedToId == old(assignedToId)
      ensures description == old(description) && tags == old(tags) && created == old(created)
      ensures Row() == old(Row()).(state := state, stateUpdated := now)
    {
      this.state := state;
      stateUpdated := now;
    }
  }
}
