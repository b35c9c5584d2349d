/** The shared store the three repositories work on: one table per entity,
    an id generator per table and the clock that stands for
    `DateTime.UtcNow`. A write that would break a unique index is never
    attempted: the repositories check the index's condition first and
    report `Conflict` instead, which is what the store's rejection turns
    into in every repository that catches it. */
module Context {
  import opened KanbanTypes
  import opened Table

  /** The unique columns of the store. */
  function TagName(t: Tag): string { t.name }
  function UserName(u: User): string { u.name }
  function UserEmail(u: User): string { u.email }
  function ItemTitle(w: ItemRow): string { w.title }

  /** Everything the store holds at one moment. */
  datatype Db = Db(
    tags: map<Id, Tag>,
    users: map<Id, User>,
    items: map<Id, ItemRow>,
    nextTagId: Id,
    nextUserId: Id,
    nextItemId: Id,
    clock: Time)

  /** Every tag the row `w` links to, and the user it is assigned to, carry
      ids the generators have already handed out: the link and assignee columns
      are foreign keys to generated ids. */
  predicate RowLinksBelow(w: ItemRow, nextTagId: Id, nextUserId: Id)
  {
    && (forall t :: t in w.tags ==> t < nextTagId)
    && (w.assignedToId.Some? ==> w.assignedToId.value < nextUserId)
  }

  /** The number of staged tags among `refs`. */
  function StagedCount(refs: seq<TagRef>): nat
  {
    if |refs| == 0 then 0
    else StagedCount(refs[..|refs| - 1]) + (if refs[|refs| - 1].Staged? then 1 else 0)
  }

  /** The staged tags among `refs` carry pairwise different names. */
  predicate StagedNamesDistinct(refs: seq<TagRef>)
  {
    forall i, j :: 0 <= i < j < |refs| && refs[i].Staged? && refs[j].Staged? ==> refs[i].name != refs[j].name
  }

  /** `ids` resolves `refs` against the tag table of `before`, and `after`
      is `before` with the staged tags among `refs` inserted, in order,
      under the ids the generator hands out. */
  ghost predicate SavedPrefix(refs: seq<TagRef>, ids: seq<Id>, before: Db, after: Db)
  {
    && after == before.(tags := after.tags, nextTagId := after.nextTagId)
    && |ids| == |refs|
    && (forall k :: 0 <= k < |refs| ==> ids[k] in after.tags)
    && (forall k :: 0 <= k < |refs| && refs[k].Existing? ==> ids[k] == refs[k].id)
    && (forall k :: 0 <= k < |refs| && refs[k].Staged? ==>
          ids[k] !in before.tags && after.tags[ids[k]] == Tag(refs[k].name))
    && (forall id :: id in before.tags ==> id in after.tags && after.tags[id] == before.tags[id])
    && (forall id :: id in after.tags && id !in before.tags ==> id in ids)
    && after.nextTagId == before.nextTagId + StagedCount(refs)
    && (forall k :: 0 <= k < |refs| && refs[k].Staged? ==> ids[k] == before.nextTagId + StagedCount(refs[..k]))
    && (forall id :: id in after.tags && id !in before.tags ==> before.nextTagId <= id < after.nextTagId)
  }

  /** Saving one more reference extends a saved prefix. */
  lemma SavedStep(refs: seq<TagRef>, ids: seq<Id>, before: Db, mid: Db, after: Db, ref: TagRef, id: Id)
    requires SavedPrefix(refs, ids, before, mid)
    requires ref.Existing? ==> id == ref.id && id in mid.tags && after == mid
    requires ref.Staged? ==>
      && id == mid.nextTagId && id !in mid.tags
      && after == mid.(tags := mid.tags[id := Tag(ref.name)], nextTagId := id + 1)
    ensures SavedPrefix(refs + [ref], ids + [id], before, after)
  {
    var refs', ids' := refs + [ref], ids + [id];
    assert refs'[..|refs|] == refs;
    forall k | 0 <= k < |refs| ensures refs'[..k] == refs[..k] {
    }
  }

  class KanbanContext {
    var tags: map<Id, Tag>
    var users: map<Id, User>
    var items: map<Id, ItemRow>
    var nextTagId: Id
    var nextUserId: Id
    var nextItemId: Id
    var clock: Time

    ghost function Snapshot(): Db
      reads this
    {
      Db(tags, users, items, nextTagId, nextUserId, nextItemId, clock)
    }

    /** The store's invariant: generated ids lie below the generators, and
        so do the ids items link to or are assigned to, the four unique
        indexes hold, and no timestamp lies in the future. A
        state stamp may precede the creation stamp: a new entity keeps the
        default `StateUpdated` until something sets it. */
    ghost predicate Valid()
      reads this
    {
      && IdsBelow(tags, nextTagId)
      && IdsBelow(users, nextUserId)
      && IdsBelow(items, nextItemId)
      && (forall id :: id in items ==> RowLinksBelow(items[id], nextTagId, nextUserId))
      && Unique(tags, TagName)
      && Unique(users, UserName)
      && Unique(users, UserEmail)
      && Unique(items, ItemTitle)
      && (forall id :: id in items ==> items[id].created <= clock && items[id].stateUpdated <= clock)
    }

    constructor ()
      ensures Valid()
      ensures Snapshot() == Db(map[], map[], map[], 1, 1, 1, MinTime)
    {
      tags, users, items := map[], map[], map[];
      nextTagId, nextUserId, nextItemId := 1, 1, 1;
      clock := MinTime;
    }

    /** Time passes between operations. */
    method Tick()
      requires Valid()
      modifies this
      ensures Valid()
      ensures Snapshot() == old(Snapshot()).(clock := old(clock) + 1)
    {
      clock := clock + 1;
    }

    /** Inserts a tag under a freshly generated id. */
    method AddTag(name: string) returns (id: Id)
      requires Valid()
      requires !HeldBy(tags, TagName, name)
      modifies this
      ensures Valid()
      ensures id == old(nextTagId) && id !in old(tags)
      ensures Snapshot() == old(Snapshot()).(tags := old(tags)[id := Tag(name)], nextTagId := id + 1)
    {
      id := nextTagId;
      UniquePut(tags, TagName, id, Tag(name));
      tags := tags[id := Tag(name)];
      nextTagId := nextTagId + 1;
    }

    /** Inserts a user under a freshly generated id. */
    method AddUser(u: User) returns (id: Id)
      requires Valid()
      requires !HeldBy(users, UserName, u.name) && !HeldBy(users, UserEmail, u.email)
      modifies this
      ensures Valid()
      ensures id == old(nextUserId) && id !in old(users)
      ensures Snapshot() == old(Snapshot()).(users := old(users)[id := u], nextUserId := id + 1)
    {
      id := nextUserId;
      UniquePut(users, UserName, id, u);
      UniquePut(users, UserEmail, id, u);
      users := users[id := u];
      nextUserId := nextUserId + 1;
    }

    /** Inserts a work item under a freshly generated id. */
    method AddItem(w: ItemRow) returns (id: Id)
      requires Valid()
      requires !HeldBy(items, ItemTitle, w.title)
      requires w.created <= clock && w.stateUpdated <= clock
      requires RowLinksBelow(w, nextTagId, nextUserId)
      modifies this
      ensures Valid()
      ensures id == old(nextItemId) && id !in old(items)
      ensures Snapshot() == old(Snapshot()).(items := old(items)[id := w], nextItemId := id + 1)
    {
      id := nextItemId;
      UniquePut(items, ItemTitle, id, w);
      items := items[id := w];
      nextItemId := nextItemId + 1;
    }

    /** Saves the changed row `w` of the tracked item `id`. */
    method PutItem(id: Id, w: ItemRow)
      requires Valid()
      requires id in items
      requires !HeldByOther(items, ItemTitle, w.title, id)
      requires w.created <= clock && w.stateUpdated <= clock
      requires RowLinksBelow(w, nextTagId, nextUserId)
      modifies this
      ensures Valid()
      ensures Snapshot() == old(Snapshot()).(items := old(items)[id := w])
    {
      UniquePut(items, ItemTitle, id, w);
      items := items[id := w];
    }

    /** Persists the tags staged by reconciliation, as saving their owning
        item does, and resolves every reference to a stored tag id: an
        existing tag keeps its id, each staged tag gets the next one, in
        the order of `refs`. */
    method SaveTags(refs: seq<TagRef>) returns (ids: seq<Id>)
      requires Valid()
      requires forall k :: 0 <= k < |refs| && refs[k].Existing? ==> refs[k].id in tags
      requires forall k :: 0 <= k < |refs| && refs[k].Staged? ==> !HeldBy(tags, TagName, refs[k].name)
      requires StagedNamesDistinct(refs)
      modifies this
      ensures Valid()
      ensures Snapshot() == old(Snapshot()).(tags := tags, nextTagId := nextTagId)
      ensures |ids| == |refs|
      ensures forall k :: 0 <= k < |refs| ==> ids[k] in tags
      ensures forall k :: 0 <= k < |refs| && refs[k].Existing? ==> ids[k] == refs[k].id
      ensures forall k :: 0 <= k < |refs| && refs[k].Staged? ==>
        ids[k] !in old(tags) && tags[ids[k]] == Tag(refs[k].name)
      ensures forall id :: id in old(tags) ==> id in tags && tags[id] == old(tags)[id]
      ensures forall id :: id in tags && id !in old(tags) ==> id in ids
      ensures nextTagId == old(nextTagId) + StagedCount(refs)
      ensures forall k :: 0 <= k < |refs| && refs[k].Staged? ==> ids[k] == old(nextTagId) + StagedCount(refs[..k])
      ensures forall id :: id in tags && id !in old(tags) ==> old(nextTagId) <= id < nextTagId
    {
      ids := [];
      for i := 0 to |refs|
        invariant Valid()
        invariant SavedPrefix(refs[..i], ids, old(Snapshot()), Snapshot())
        invariant forall k :: i <= k < |refs| && refs[k].Staged? ==> !HeldBy(tags, TagName, refs[k].name)
      {
        ghost var mid := Snapshot();
        var id := SaveRef(refs[i]);
        SavedStep(refs[..i], ids, old(Snapshot()), mid, Snapshot(), refs[i], id);
        assert refs[..i + 1] == refs[..i] + [refs[i]];
        ids := ids + [id];
      }
      assert refs[..|refs|] == refs;
    }

    /** One step of `SaveTags`: an existing tag is left as it is, a staged
        one is inserted under the next id. */
    method SaveRef(ref: TagRef) returns (id: Id)
      requires Valid()
      requires ref.Existing? ==> ref.id in tags
      requires ref.Staged? ==> !HeldBy(tags, TagName, ref.name)
      modifies this
      ensures Valid()
      ensures ref.Existing? ==> id == ref.id && Snapshot() == old(Snapshot())
      ensures ref.Staged? ==>
        && id == old(nextTagId) && id !in old(tags)
        && Snapshot() == old(Snapshot()).(tags := old(tags)[id := Tag(ref.name)], nextTagId := id + 1)
    {
      if ref.Existing? {
        id := ref.id;
      } else {
        id := AddTag(ref.name);
      }
    }
  }
}
