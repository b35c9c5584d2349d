/** Create, delete, find, list and rename tags. */
module TagRepo {
  import opened KanbanTypes
  import opened Table
  import opened Context

  function TagDTOName(d: TagDTO): string { d.name }
  function TagDTOId(d: TagDTO): Id { d.id }
  function ToTagDTO(id: Id, t: Tag): TagDTO { TagDTO(id, t.name) }
  function AnyTag(t: Tag): bool { true }

  class TagRepository {
    const context: KanbanContext

    constructor (context: KanbanContext)
      ensures this.context == context
    {
      this.context := context;
    }

    /** Tag `tagId` is in use while the count of work items linked to it
        is not zero. */
    function InUse(tagId: Id): (used: bool)
      reads context
      ensures used <==> exists w :: w in context.items && tagId in context.items[w].tags
    {
      var linked := set w | w in context.items && tagId in context.items[w].tags;
      CountNonZero(linked);
      assert (exists w :: w in context.items && tagId in context.items[w].tags) ==> exists x :: x in linked by {
        if exists w :: w in context.items && tagId in context.items[w].tags {
          var w :| w in context.items && tagId in context.items[w].tags;
          assert w in linked;
        }
      }
      assert (exists x :: x in linked) ==> exists w :: w in context.items && tagId in context.items[w].tags by {
        if exists x :: x in linked {
          var x :| x in linked;
          assert x in context.items && tagId in context.items[x].tags;
        }
      }
      |linked| != 0
    }

    /** Creates a tag unless one with the same name exists; either way the
        id returned is that of the tag now carrying `name`. */
    method Create(name: string) returns (response: Response, tagId: Id)
      requires context.Valid()
      modifies context
      ensures context.Valid()
      ensures response == Created || response == Conflict
      ensures response == Conflict <==> old(HeldBy(context.tags, TagName, name))
      ensures response == Conflict ==> unchanged(context)
      ensures response == Created ==>
        && tagId == old(context.nextTagId) && tagId !in old(context.tags)
        && context.Snapshot() == old(context.Snapshot()).(tags := old(context.tags)[tagId := Tag(name)], nextTagId := tagId + 1)
      ensures response == Created ==> !InUse(tagId)
      ensures Find(tagId) == Some(TagDTO(tagId, name))
    {
      if HeldBy(context.tags, TagName, name) {
        tagId :| tagId in context.tags && TagName(context.tags[tagId]) == name;
        response := Conflict;
      } else {
        tagId := context.AddTag(name);
        response := Created;
      }
    }

    /** Removes tag `tagId` when it exists and is unused or `force` is set;
        an absent tag, like a tag in use, is reported as `Conflict`. */
    method Delete(tagId: Id, force: bool) returns (response: Response)
      requires context.Valid()
      modifies context
      ensures context.Valid()
      ensures response == Deleted || response == Conflict
      ensures response == Deleted <==> old(tagId in context.tags && (!InUse(tagId) || force))
      ensures response == Deleted ==> context.Snapshot() == old(context.Snapshot()).(tags := old(context.tags) - {tagId})
      ensures response == Conflict ==> unchanged(context)
      ensures response == Deleted ==> Find(tagId) == None
    {
      if tagId in context.tags && (!InUse(tagId) || force) {
        context.tags := context.tags - {tagId};
        response := Deleted;
      } else {
        response := Conflict;
      }
    }

    /** The stored tag `tagId`, or nothing. */
    function Find(tagId: Id): (r: Option<TagDTO>)
      reads context
      ensures r.Some? <==> tagId in context.tags
      ensures r.Some? ==> r.value.id == tagId && r.value.name == context.tags[tagId].name
    {
      if tagId in context.tags then Some(TagDTO(tagId, context.tags[tagId].name)) else None
    }

    /** Every stored tag once, ordered by name. */
    function Read(): (r: seq<TagDTO>)
      reads context
      requires context.Valid()
      ensures forall i, j :: 0 <= i < j < |r| ==> Leq(r[i].name, r[j].name)
      ensures forall d :: d in r ==> d.id in context.tags && d.name == context.tags[d.id].name
      ensures forall id :: id in context.tags ==> TagDTO(id, context.tags[id].name) in r
      ensures forall i, j :: 0 <= i < j < |r| ==> r[i].id != r[j].id
    {
      QuerySpec(context.tags, context.nextTagId, AnyTag, ToTagDTO, TagDTOId, TagDTOName);
      Query(context.tags, context.nextTagId, AnyTag, ToTagDTO, TagDTOName)
    }

    /** Any listing of the same tags sorted by name is `Read`'s: the unique
        name index leaves no ties for the order to settle. */
    lemma ReadDetermined(t: seq<TagDTO>)
      requires context.Valid()
      requires SortedBy(t, TagDTOName) && multiset(t) == multiset(Read())
      ensures t == Read()
    {
      var r := Read();
      forall i, j | 0 <= i < j < |r| ensures TagDTOName(r[i]) != TagDTOName(r[j]) {
        assert r[i] in r && r[j] in r;
        assert TagName(context.tags[r[i].id]) == r[i].name && TagName(context.tags[r[j].id]) == r[j].name;
      }
      SortedDetermined(r, t, TagDTOName);
    }

    /** Renames tag `tagId`; `NotFound` when it is absent, `Conflict` when
        the unique index on the name rejects the write. */
    method Update(tagId: Id, name: string) returns (response: Response)
      requires context.Valid()
      modifies context
      ensures context.Valid()
      ensures response == Updated || response == Conflict || response == NotFound
      ensures response == NotFound <==> old(tagId !in context.tags)
      ensures response == Conflict <==> old(tagId in context.tags && HeldByOther(context.tags, TagName, name, tagId))
      ensures response != Updated ==> unchanged(context)
      ensures response == Updated ==> context.Snapshot() == old(context.Snapshot()).(tags := old(context.tags)[tagId := Tag(name)])
      ensures response == Updated ==> Find(tagId) == Some(TagDTO(tagId, name))
    {
      if tagId !in context.tags {
        response := NotFound;
      } else if HeldByOther(context.tags, TagName, name, tagId) {
        response := Conflict;
      } else {
        UniquePut(context.tags, TagName, tagId, Tag(name));
        context.tags := context.tags[tagId := Tag(name)];
        response := Updated;
      }
    }
  }
}
