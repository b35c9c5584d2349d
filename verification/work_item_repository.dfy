/** Create, delete, find, list and update work items, including the
    reconciliation of requested tag names with the stored tags. */
module WorkItemRepo {
  import opened KanbanTypes
  import opened Table
  import opened Context
  import opened WorkItemEntity

  function Elems<T>(s: seq<T>): set<T>
  {
    set x | x in s
  }

  /** The names of the stored tags among `ids`. */
  function TagNames(tags: map<Id, Tag>, ids: set<Id>): (r: set<string>)
    ensures forall id :: id in ids && id in tags ==> tags[id].name in r
    ensures forall n :: n in r ==> exists id :: id in ids && id in tags && tags[id].name == n
  {
    set id | id in ids && id in tags :: tags[id].name
  }

  /** The name of the assigned user, if the item is assigned to a stored one. */
  function AssigneeName(users: map<Id, User>, assignee: Option<Id>): (r: Option<string>)
    ensures r.Some? <==> assignee.Some? && assignee.value in users
    ensures r.Some? ==> r.value == users[assignee.value].name
  {
    if assignee.Some? && assignee.value in users then Some(users[assignee.value].name) else None
  }

  /** The listing entry of the row `w` stored under `id`. */
  function Summarize(tags: map<Id, Tag>, users: map<Id, User>, id: Id, w: ItemRow): (r: WorkItemDTO)
    ensures r.id == id && r.title == w.title && r.state == w.state
    ensures r.tags == TagNames(tags, w.tags)
    ensures r.assignedToName.Some? <==> w.assignedToId.Some? && w.assignedToId.value in users
  {
    WorkItemDTO(id, w.title, AssigneeName(users, w.assignedToId), TagNames(tags, w.tags), w.state)
  }

  function WorkItemDTOTitle(d: WorkItemDTO): string { d.title }
  function WorkItemDTOId(d: WorkItemDTO): Id { d.id }
  function AnyItem(w: ItemRow): bool { true }

  /** The stored tags carrying one of `names`, keyed by their name; well
      defined because no two stored tags share a name. */
  function TagsByName(tags: map<Id, Tag>, names: seq<string>): (m: map<string, Id>)
    requires Unique(tags, TagName)
    ensures forall n :: n in m ==> m[n] in tags && tags[m[n]].name == n
    ensures forall id :: id in tags && tags[id].name in names ==> tags[id].name in m
  {
    map id | id in tags && tags[id].name in names :: tags[id].name := id
  }

  /** `ref` reconciles the requested `name` against the tag table `tags`:
      the stored tag with that name when there is one, a staged new tag
      with that name otherwise. */
  ghost predicate ResolvesName(tags: map<Id, Tag>, name: string, ref: TagRef)
  {
    && (ref.Existing? <==> HeldBy(tags, TagName, name))
    && (ref.Existing? ==> ref.id in tags && tags[ref.id].name == name)
    && (ref.Staged? ==> ref.name == name)
  }

  /** `refs` reconciles `names` one by one, in order. */
  ghost predicate Resolves(tags: map<Id, Tag>, names: seq<string>, refs: seq<TagRef>)
  {
    && |refs| == |names|
    && forall k :: 0 <= k < |names| ==> ResolvesName(tags, names[k], refs[k])
  }

  /** Looking a requested name up in `TagsByName` finds the stored tag with
      that name when there is one, and nothing otherwise. */
  lemma TagsByNameLookup(tags: map<Id, Tag>, names: seq<string>, name: string)
    requires Unique(tags, TagName)
    requires name in names
    ensures var existing := TagsByName(tags, names);
      ResolvesName(tags, name, if name in existing then Existing(existing[name]) else Staged(name))
  {
    var existing := TagsByName(tags, names);
    if name in existing {
      assert TagName(tags[existing[name]]) == name;
    }
    if HeldBy(tags, TagName, name) {
      var j :| j in tags && TagName(tags[j]) == name;
      assert tags[j].name in names;
    }
  }

  /** After a write, the tags `linked` to an item reconcile the requested
      `names` with the tag table, which went from `before` to `after`. */
  ghost predicate Reconciled(before: map<Id, Tag>, after: map<Id, Tag>, linked: set<Id>, names: seq<string>)
  {
    // stored tags stay as they were
    && (forall id :: id in before ==> id in after && after[id] == before[id])
    // the linked tags exist and carry exactly the requested names
    && linked <= after.Keys
    && TagNames(after, linked) == Elems(names)
    // a requested name that was stored links that very tag
    && (forall id :: id in before && before[id].name in names ==> id in linked)
    // the only tags added are linked ones
    && (forall id :: id in after && id !in before ==> id in linked)
  }

  /** Some requested name that matches no stored tag is requested twice, so
      reconciliation stages two new tags with the same name. */
  predicate RepeatsUnknownName(tags: map<Id, Tag>, names: seq<string>)
  {
    exists i, j :: 0 <= i < j < |names| && names[i] == names[j] && !HeldBy(tags, TagName, names[i])
  }

  /** The staged tags clash on the tag-name index exactly when an unknown
      name is requested twice. */
  lemma StagedDistinctIff(tags: map<Id, Tag>, names: seq<string>, refs: seq<TagRef>)
    requires Resolves(tags, names, refs)
    ensures StagedNamesDistinct(refs) <==> !RepeatsUnknownName(tags, names)
  {
  }

  /** Linking the tags resolved name by name links exactly the names. */
  lemma ResolvedTagNames(tags: map<Id, Tag>, names: seq<string>, ids: seq<Id>)
    requires |ids| == |names|
    requires forall k :: 0 <= k < |ids| ==> ids[k] in tags && tags[ids[k]].name == names[k]
    ensures TagNames(tags, Elems(ids)) == Elems(names)
  {
    forall n | n in TagNames(tags, Elems(ids)) ensures n in Elems(names) {
      var id :| id in Elems(ids) && id in tags && tags[id].name == n;
      var k :| 0 <= k < |ids| && ids[k] == id;
      assert names[k] == n;
    }
    forall n | n in Elems(names) ensures n in TagNames(tags, Elems(ids)) {
      var k :| 0 <= k < |names| && names[k] == n;
      var id, linked := ids[k], Elems(ids);
      assert id in linked;
      assert id in tags && tags[id].name == n;
      assert n in TagNames(tags, linked);
    }
  }

  /** Saving the references that reconciliation produced reconciles the
      item's tags with the requested names. */
  lemma SavedTagsReconcile(before: map<Id, Tag>, after: map<Id, Tag>, names: seq<string>, refs: seq<TagRef>, ids: seq<Id>)
    requires Unique(before, TagName)
    requires Resolves(before, names, refs)
    requires |ids| == |refs|
    requires forall k :: 0 <= k < |refs| ==> ids[k] in after
    requires forall k :: 0 <= k < |refs| && refs[k].Existing? ==> ids[k] == refs[k].id
    requires forall k :: 0 <= k < |refs| && refs[k].Staged? ==> after[ids[k]] == Tag(refs[k].name)
    requires forall id :: id in before ==> id in after && after[id] == before[id]
    requires forall id :: id in after && id !in before ==> id in ids
    ensures Reconciled(before, after, Elems(ids), names)
    ensures StagedNamesDistinct(refs) ==> Unique(after, TagName)
  {
    forall k | 0 <= k < |ids| ensures after[ids[k]].name == names[k] {
      if refs[k].Existing? {
        assert after[ids[k]] == before[refs[k].id];
      }
    }
    ResolvedTagNames(after, names, ids);
    forall id | id in before && before[id].name in names ensures id in Elems(ids) {
      var k :| 0 <= k < |names| && names[k] == before[id].name;
      assert TagName(before[id]) == names[k];
      assert refs[k].Existing?;
      assert ids[k] == id;
    }
    if StagedNamesDistinct(refs) {
      forall i, j | i in after && j in after && i != j ensures TagName(after[i]) != TagName(after[j]) {
        if i !in before || j !in before {
          var a, b := if i in before then j else i, if i in before then i else j;
          var k := AddedIndex(before, after, names, refs, ids, a);
          if b in before {
            assert !HeldBy(before, TagName, names[k]);
          } else {
            var l := AddedIndex(before, after, names, refs, ids, b);
            assert k != l;
          }
        }
      }
    }
  }

  /** A tag the save added sits at the position of a staged reference whose
      name no stored tag held. */
  lemma AddedIndex(before: map<Id, Tag>, after: map<Id, Tag>, names: seq<string>, refs: seq<TagRef>, ids: seq<Id>, id: Id)
    returns (k: nat)
    requires Resolves(before, names, refs)
    requires |ids| == |refs|
    requires forall k :: 0 <= k < |refs| ==> ids[k] in after
    requires forall k :: 0 <= k < |refs| && refs[k].Existing? ==> ids[k] == refs[k].id
    requires forall k :: 0 <= k < |refs| && refs[k].Staged? ==> after[ids[k]] == Tag(refs[k].name)
    requires id in after && id !in before
    requires forall id :: id in after && id !in before ==> id in ids
    ensures k < |refs| && ids[k] == id && refs[k].Staged?
    ensures after[id] == Tag(names[k]) && !HeldBy(before, TagName, names[k])
  {
    k :| 0 <= k < |ids| && ids[k] == id;
  }

  class WorkItemRepository {
    const context: KanbanContext

    constructor (context: KanbanContext)
      ensures this.context == context
    {
      this.context := context;
    }

    /** The summary of the stored item `id`. */
    function Summary(id: Id): WorkItemDTO
      reads context
      requires id in context.items
    {
      Summarize(context.tags, context.users, id, context.items[id])
    }

    /** Creates an item unless one with the same title exists; either way
        the id returned is that of the item now carrying `title`. A new
        item is `New`, stamped with the current time, unassigned, and
        linked to the reconciliation of `tagNames`. */
    method Create(title: string, description: Option<string>, tagNames: seq<string>) returns (response: Response, itemId: Id)
      requires context.Valid()
      requires forall i, j :: 0 <= i < j < |tagNames| ==> tagNames[i] != tagNames[j]
      modifies context
      ensures context.Valid()
      ensures response == Created || response == Conflict
      ensures response == Conflict <==> old(HeldBy(context.items, ItemTitle, title))
      ensures response == Conflict ==>
        unchanged(context) && itemId in context.items && context.items[itemId].title == title
      ensures response == Created ==>
        && itemId == old(context.nextItemId) && itemId !in old(context.items)
        && itemId in context.items
        && context.Snapshot() == old(context.Snapshot()).(
             tags := context.tags, nextTagId := context.nextTagId,
             items := old(context.items)[itemId := context.items[itemId]], nextItemId := itemId + 1)
        && old(context.nextTagId) <= context.nextTagId
        && (forall id :: id in context.tags && id !in old(context.tags) ==>
              old(context.nextTagId) <= id < context.nextTagId)
        && var w := context.items[itemId];
           && w == ItemRow(title, description, None, New, old(context.clock), old(context.clock), w.tags)
           && Reconciled(old(context.tags), context.tags, w.tags, tagNames)
    {
      if HeldBy(context.items, ItemTitle, title) {
        itemId :| itemId in context.items && ItemTitle(context.items[itemId]) == title;
        response := Conflict;
        return;
      }
      var now := context.clock;
      var entity := new WorkItem(title, now);
      entity.description := description;
      entity.state := New;
      entity.created := now;
      entity.stateUpdated := now;
      var refs := CreateOrUpdateTags(tagNames);
      entity.tags := LinkTags(tagNames, refs);
      itemId := context.AddItem(entity.Row());
      entity.id := itemId;
      response := Created;
    }

    /** Deletes by state: a `New` item is removed, an `Active` one is
        marked `Removed`, any other state, like an absent item, is a
        `Conflict` that changes nothing. */
    method Delete(itemId: Id) returns (response: Response)
      requires context.Valid()
      modifies context
      ensures context.Valid()
      ensures response == Deleted || response == Updated || response == Conflict
      ensures response == Deleted <==> old(itemId in context.items && context.items[itemId].state == New)
      ensures response == Updated <==> old(itemId in context.items && context.items[itemId].state == Active)
      ensures response == Deleted ==>
        context.Snapshot() == old(context.Snapshot()).(items := old(context.items) - {itemId})
      ensures response == Updated ==>
        context.Snapshot() == old(context.Snapshot()).(
          items := old(context.items)[itemId := old(context.items[itemId]).(state := Removed, stateUpdated := old(context.clock))])
      ensures response == Conflict ==> unchanged(context)
    {
      if itemId !in context.items {
        response := Conflict;
        return;
      }
      var row := context.items[itemId];
      if row.state == New {
        context.items := context.items - {itemId};
        response := Deleted;
      } else if row.state == Active {
        var entity := new WorkItem.Load(itemId, row);
        entity.UpdateState(Removed, context.clock);
        context.PutItem(itemId, entity.Row());
        response := Updated;
      } else {
        response := Conflict;
      }
    }

    /** The details of the stored item `itemId`, or nothing; an unassigned
        item has no assignee name. */
    function Find(itemId: Id): (r: Option<WorkItemDetailsDTO>)
      reads context
      ensures r.Some? <==> itemId in context.items
      ensures r.Some? ==>
        var w := context.items[itemId];
        && r.value.id == itemId && r.value.title == w.title && r.value.description == w.description
        && r.value.created == w.created && r.value.state == w.state && r.value.stateUpdated == w.stateUpdated
        && r.value.tags == TagNames(context.tags, w.tags)
        && (r.value.assignedToName.Some? <==> w.assignedToId.Some? && w.assignedToId.value in context.users)
        && (r.value.assignedToName.Some? ==> r.value.assignedToName.value == context.users[w.assignedToId.value].name)
    {
      if itemId in context.items then
        var w := context.items[itemId];
        Some(WorkItemDetailsDTO(itemId, w.title, w.description, w.created,
          AssigneeName(context.users, w.assignedToId), TagNames(context.tags, w.tags), w.state, w.stateUpdated))
      else None
    }

    /** A listing entry agrees with the details of the same item. */
    lemma SummaryMatchesFind(id: Id)
      requires id in context.items
      ensures Find(id).Some?
      ensures var d := Find(id).value;
        Summary(id) == WorkItemDTO(d.id, d.title, d.assignedToName, d.tags, d.state)
    {
    }

    /** Every stored item once, ordered by title. */
    function Read(): (r: seq<WorkItemDTO>)
      reads context
      requires context.Valid()
      ensures forall i, j :: 0 <= i < j < |r| ==> Leq(r[i].title, r[j].title)
      ensures forall d :: d in r ==> d.id in context.items && d == Summary(d.id)
      ensures forall id :: id in context.items ==> Summary(id) in r
      ensures forall i, j :: 0 <= i < j < |r| ==> r[i].id != r[j].id
    {
      var tags, users := context.tags, context.users;
      var project := (id: Id, w: ItemRow) => Summarize(tags, users, id, w);
      QuerySpec(context.items, context.nextItemId, AnyItem, project, WorkItemDTOId, WorkItemDTOTitle);
      Query(context.items, context.nextItemId, AnyItem, project, WorkItemDTOTitle)
    }

    /** Any listing of the same summaries sorted by title is `Read`'s: the
        unique title index leaves no ties for the order to settle. */
    lemma ReadDetermined(t: seq<WorkItemDTO>)
      requires context.Valid()
      requires SortedBy(t, WorkItemDTOTitle) && multiset(t) == multiset(Read())
      ensures t == Read()
    {
      var r := Read();
      forall i, j | 0 <= i < j < |r| ensures WorkItemDTOTitle(r[i]) != WorkItemDTOTitle(r[j]) {
        assert r[i] in r && r[j] in r;
        assert ItemTitle(context.items[r[i].id]) == r[i].title && ItemTitle(context.items[r[j].id]) == r[j].title;
      }
      SortedDetermined(r, t, WorkItemDTOTitle);
    }

    /** Every stored item in state `state` once, ordered by title. */
    function ReadByState(state: State): (r: seq<WorkItemDTO>)
      reads context
      requires context.Valid()
      ensures forall i, j :: 0 <= i < j < |r| ==> Leq(r[i].title, r[j].title)
      ensures forall d :: d in r ==> d.id in context.items && context.items[d.id].state == state && d == Summary(d.id)
      ensures forall id :: id in context.items && context.items[id].state == state ==> Summary(id) in r
      ensures forall i, j :: 0 <= i < j < |r| ==> r[i].id != r[j].id
    {
      var tags, users := context.tags, context.users;
      var project := (id: Id, w: ItemRow) => Summarize(tags, users, id, w);
      var keep := (w: ItemRow) => w.state == state;
      QuerySpec(context.items, context.nextItemId, keep, project, WorkItemDTOId, WorkItemDTOTitle);
      Query(context.items, context.nextItemId, keep, project, WorkItemDTOTitle)
    }

    /** Every stored item linked to a tag named `tag` once, ordered by title. */
    function ReadByTag(tag: string): (r: seq<WorkItemDTO>)
      reads context
      requires context.Valid()
      ensures forall i, j :: 0 <= i < j < |r| ==> Leq(r[i].title, r[j].title)
      ensures forall d :: d in r ==> d.id in context.items && tag in d.tags && d == Summary(d.id)
      ensures forall id :: id in context.items && tag in Summary(id).tags ==> Summary(id) in r
      ensures forall i, j :: 0 <= i < j < |r| ==> r[i].id != r[j].id
    {
      var tags, users := context.tags, context.users;
      var project := (id: Id, w: ItemRow) => Summarize(tags, users, id, w);
      var keep := (w: ItemRow) => tag in TagNames(tags, w.tags);
      QuerySpec(context.items, context.nextItemId, keep, project, WorkItemDTOId, WorkItemDTOTitle);
      Query(context.items, context.nextItemId, keep, project, WorkItemDTOTitle)
    }

    /** Every stored item assigned to user `userId` once, ordered by title. */
    function ReadByUser(userId: Id): (r: seq<WorkItemDTO>)
      reads context
      requires context.Valid()
      ensures forall i, j :: 0 <= i < j < |r| ==> Leq(r[i].title, r[j].title)
      ensures forall d :: d in r ==>
        d.id in context.items && context.items[d.id].assignedToId == Some(userId) && d == Summary(d.id)
      ensures forall id :: id in context.items && context.items[id].assignedToId == Some(userId) ==> Summary(id) in r
      ensures forall i, j :: 0 <= i < j < |r| ==> r[i].id != r[j].id
    {
      var tags, users := context.tags, context.users;
      var project := (id: Id, w: ItemRow) => Summarize(tags, users, id, w);
      var keep := (w: ItemRow) => w.assignedToId == Some(userId);
      QuerySpec(context.items, context.nextItemId, keep, project, WorkItemDTOId, WorkItemDTOTitle);
      Query(context.items, context.nextItemId, keep, project, WorkItemDTOTitle)
    }

    /** Every stored item in state `Removed` once, ordered by title. */
    function ReadRemoved(): (r: seq<WorkItemDTO>)
      reads context
      requires context.Valid()
      ensures forall i, j :: 0 <= i < j < |r| ==> Leq(r[i].title, r[j].title)
      ensures forall d :: d in r ==> d.id in context.items && context.items[d.id].state == Removed && d == Summary(d.id)
      ensures forall id :: id in context.items && context.items[id].state == Removed ==> Summary(id) in r
      ensures forall i, j :: 0 <= i < j < |r| ==> r[i].id != r[j].id
    {
      ReadByState(Removed)
    }

    /** Overwrites title, assignee, description, state and tags of item
        `itemId` and stamps the state with the current time, whether or not
        it changed. `BadRequest` when the item is absent or the assignee
        is missing or unknown; `Conflict` when the save is rejected, by the
        unique index on the title or by the one on the tag name when an
        unknown tag name is requested twice. */
    method Update(itemId: Id, title: string, assignedToId: Option<Id>, description: Option<string>,
                  tagNames: seq<string>, state: State) returns (response: Response)
      requires context.Valid()
      modifies context
      ensures context.Valid()
      ensures response == Updated || response == Conflict || response == BadRequest
      ensures response == BadRequest <==> old(itemId !in context.items || FindUserById(assignedToId).None?)
      ensures response == Conflict <==>
        old(itemId in context.items && FindUserById(assignedToId).Some? &&
            (HeldByOther(context.items, ItemTitle, title, itemId) || RepeatsUnknownName(context.tags, tagNames)))
      ensures response != Updated ==> unchanged(context)
      ensures response == Updated ==>
        && itemId in context.items
        && context.Snapshot() == old(context.Snapshot()).(
             tags := context.tags, nextTagId := context.nextTagId,
             items := old(context.items)[itemId := context.items[itemId]])
        && old(context.nextTagId) <= context.nextTagId
        && (forall id :: id in context.tags && id !in old(context.tags) ==>
              old(context.nextTagId) <= id < context.nextTagId)
        && var w := context.items[itemId];
           && w == ItemRow(title, description, assignedToId, state, old(context.items[itemId].created), old(context.clock), w.tags)
           && Reconciled(old(context.tags), context.tags, w.tags, tagNames)
    {
      if itemId !in context.items {
        response := BadRequest;
        return;
      }
      var user := FindUserById(assignedToId);
      if user.None? {
        response := BadRequest;
        return;
      }
      var refs := CreateOrUpdateTags(tagNames);
      StagedDistinctIff(context.tags, tagNames, refs);
      if HeldByOther(context.items, ItemTitle, title, itemId) || !StagedNamesDistinct(refs) {
        response := Conflict;
        return;
      }
      Overwrite(itemId, title, assignedToId, description, tagNames, refs, state);
      response := Updated;
    }

    /** The write half of `Update`, once the checks have passed: loads the
        item, overwrites its fields, stamps the state with the current time,
        and saves it together with the tags `refs` resolves `tagNames` to. */
    method Overwrite(itemId: Id, title: string, assignedToId: Option<Id>, description: Option<string>,
                     tagNames: seq<string>, refs: seq<TagRef>, state: State)
      requires context.Valid()
      requires itemId in context.items
      requires !HeldByOther(context.items, ItemTitle, title, itemId)
      requires Resolves(context.tags, tagNames, refs) && StagedNamesDistinct(refs)
      requires assignedToId.Some? ==> assignedToId.value in context.users
      modifies context
      ensures context.Valid()
      ensures itemId in context.items
      ensures context.Snapshot() == old(context.Snapshot()).(
        tags := context.tags, nextTagId := context.nextTagId,
        items := old(context.items)[itemId := context.items[itemId]])
      ensures old(context.nextTagId) <= context.nextTagId
      ensures forall id :: id in context.tags && id !in old(context.tags) ==>
        old(context.nextTagId) <= id < context.nextTagId
      ensures var w := context.items[itemId];
        && w == ItemRow(title, description, assignedToId, state, old(context.items[itemId].created), old(context.clock), w.tags)
        && Reconciled(old(context.tags), context.tags, w.tags, tagNames)
    {
      var entity := new WorkItem.Load(itemId, context.items[itemId]);
      entity.assignedToId := assignedToId;
      entity.title := title;
      entity.description := description;
      entity.state := state;
      entity.stateUpdated := context.clock;
      entity.tags := LinkTags(tagNames, refs);
      var row := entity.Row();
      assert row == ItemRow(title, description, assignedToId, state, old(context.items[itemId].created), old(context.clock), entity.tags);
      assert RowLinksBelow(row, context.nextTagId, context.nextUserId);
      context.PutItem(itemId, row);
    }

    /** Saves the tags `refs` resolves `tagNames` to and returns the ids the
        item is to link. */
    method LinkTags(tagNames: seq<string>, refs: seq<TagRef>) returns (linked: set<Id>)
      requires context.Valid()
      requires Resolves(context.tags, tagNames, refs) && StagedNamesDistinct(refs)
      modifies context
      ensures context.Valid()
      ensures context.Snapshot() == old(context.Snapshot()).(tags := context.tags, nextTagId := context.nextTagId)
      ensures old(context.nextTagId) <= context.nextTagId
      ensures forall id :: id in context.tags && id !in old(context.tags) ==>
        old(context.nextTagId) <= id < context.nextTagId
      ensures Reconciled(old(context.tags), context.tags, linked, tagNames)
    {
      ghost var before := context.tags;
      var ids := context.SaveTags(refs);
      SavedTagsReconcile(before, context.tags, tagNames, refs, ids);
      linked := Elems(ids);
    }

    /** The stored user with id `userId`; nothing when there is no id or no
        such user. */
    function FindUserById(userId: Option<Id>): (r: Option<User>)
      reads context
      ensures r.Some? <==> userId.Some? && userId.value in context.users
      ensures r.Some? ==> r.value == context.users[userId.value]
    {
      if userId.Some? && userId.value in context.users then Some(context.users[userId.value]) else None
    }

    /** Reconciles the requested tag names with the tag table in one pass:
        the stored tags carrying requested names are looked up once, then
        each name yields its stored tag or a staged new one. */
    method CreateOrUpdateTags(names: seq<string>) returns (refs: seq<TagRef>)
      requires Unique(context.tags, TagName)
      ensures Resolves(context.tags, names, refs)
    {
      var tags := context.tags;
      var existing := TagsByName(tags, names);
      refs := [];
      for i := 0 to |names|
        invariant |refs| == i
        invariant forall k :: 0 <= k < i ==> ResolvesName(tags, names[k], refs[k])
      {
        var name := names[i];
        TagsByNameLookup(tags, names, name);
        if name in existing {
          refs := refs + [Existing(existing[name])];
        } else {
          refs := refs + [Staged(name)];
        }
      }
    }
  }
}
