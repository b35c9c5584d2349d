# Kanban board data access, modelled in Dafny

The system is the data-access layer of a small kanban board. It has three
repositories, one each for **tags**, **users** and **work items**. All three
work on one shared store, the `KanbanContext`. The store holds:

- a table per entity, each with a database-generated id;
- a many-to-many link between work items and tags;
- an optional assignee (a user) per work item.

Every repository operation reports a `Response`: `Created`, `Updated`,
`Deleted`, `Conflict`, `NotFound` or `BadRequest`.

The model has these parts:

- `kanban_types.dfy` (module `KanbanTypes`): the rows, the DTOs, `State`
  and `Response`. Time is a natural number that stands for
  `DateTime.UtcNow`; `MinTime` is `default(DateTime)`.
- `table.dfy` (module `Table`): the generic table reasoning.
  - The unique-index conditions `HeldBy` and `HeldByOther`, the invariant
    `Unique`, and lemma `UniquePut`, which says when a write keeps an index
    unique.
  - Ordinal string order `Leq`, a total order (total, transitive and
    antisymmetric). `SortedDetermined` uses antisymmetry: two listings
    sorted on a key that no two elements share are equal once they hold
    the same elements.
  - The query shape every `Read…` operation shares: a scan of the ids in
    increasing order, a `where` filter (`Select`), then an insertion sort on
    the `orderby` key (`SortBy`). Their composition is `Query`.
    `QuerySpec` proves that the result is sorted, holds exactly the
    selected rows, and holds each row once.
- `kanban_context.dfy` (module `Context`): the store, as class
  `KanbanContext`.
  - Fields: one map per table, one id generator per table, and the clock.
  - Invariant `Valid`: ids lie below their generators; so do the tag ids
    an item links to and the user id it is assigned to, since those
    columns are foreign keys to generated ids; the four unique indexes
    hold; no item's timestamps lie in the future. A state stamp may
    precede the creation stamp: a `WorkItem` built by its constructor keeps
    the default `StateUpdated` until something sets it.
  - The writes performed by `SaveChanges`: `AddTag`, `AddUser`,
    `AddItem`, `PutItem` (the update of a tracked item), and `SaveTags`,
    which persists tags staged for an item under ids the generator hands
    out in order.
  - A ghost `Snapshot` of the whole store. Every operation states its new
    state against it: what changes, and that nothing else does. The
    work-item writes state which tags they add through `Reconciled` and
    that the ids of those tags come from the range the generator advanced
    over, so an id is never issued twice.
- `work_item.dfy` (module `WorkItemEntity`): the `WorkItem` entity class.
  It has a constructor, the materialisation `Load` of a stored row, and
  `UpdateState`.
- `tag_repository.dfy`, `user_repository.dfy` and
  `work_item_repository.dfy`: the three repositories, as classes over a
  shared `KanbanContext`. The work-item repository also holds the tag
  reconciliation (`CreateOrUpdateTags`) and the predicate `Reconciled`,
  which states what linking the requested tag names achieves.

The store's unique indexes are on:

- `Tag.Name`;
- `User.Name` and `User.Email`;
- `WorkItem.Title`.

The store's configuration is not part of this model. The email index is
evidenced by the user repository tests. The other three are assumptions,
each made so that the conflict paths of the repositories can happen.

The source detects a violation by catching `DbUpdateException` from
`SaveChanges`. The model states the violation's condition outright and
checks it before the write. A rejected save reports `Conflict` and leaves
the store as it was.

## Model

| member | source | states |
|---|---|---|
| Table.UniquePut | Assignment.Infrastructure/TagRepository.cs:66-75 | writing row `r` under id `self` keeps a unique index unique exactly when no other row already holds `r`'s key value; this is the condition under which `SaveChanges` succeeds |
| Table.LeqTotal | Assignment.Infrastructure/TagRepository.cs:53 | any two names are comparable in the ordinal order used by `orderby` |
| Table.LeqTrans | Assignment.Infrastructure/TagRepository.cs:53 | the ordinal order on names is transitive |
| Table.LeqAntisymmetric | Assignment.Infrastructure/TagRepository.cs:53 | two names that are ordered both ways are equal |
| Table.Leq | Assignment.Infrastructure/TagRepository.cs:53 | the ordinal order on names: a prefix comes first, and otherwise the first characters decide |
| Table.Insert | Assignment.Infrastructure/WorkItemRepository.cs:82 | one step of `orderby`: placing an element adds exactly one entry |
| Table.SortBy | Assignment.Infrastructure/WorkItemRepository.cs:82 | `orderby` keeps the number of entries |
| Table.InsertPerm | Assignment.Infrastructure/WorkItemRepository.cs:82 | inserting into a sorted listing adds exactly that element (multiset) |
| Table.InsertSorted | Assignment.Infrastructure/WorkItemRepository.cs:82 | inserting into a listing sorted by the key keeps it sorted |
| Table.InsertDistinct | Assignment.Infrastructure/WorkItemRepository.cs:82 | inserting an element not yet present keeps the listing free of repeats |
| Table.SortByPerm | Assignment.Infrastructure/WorkItemRepository.cs:82 | `orderby` returns a permutation of its input |
| Table.SortBySorted | Assignment.Infrastructure/WorkItemRepository.cs:82 | `orderby` returns its input in non-decreasing key order |
| Table.SortByDistinct | Assignment.Infrastructure/WorkItemRepository.cs:82 | `orderby` introduces no repeated elements |
| Table.HeadIsLeast | Assignment.Infrastructure/TagRepository.cs:53 | the first entry of a listing sorted by a key has the least key |
| Table.SortedTail | Assignment.Infrastructure/TagRepository.cs:53 | dropping the first entry keeps a listing sorted, and keeps its keys distinct when they were |
| Table.MultisetTail | Assignment.Infrastructure/TagRepository.cs:51-54 | two listings of the same rows that start alike hold the same rows after the first |
| Table.SortedDetermined | Assignment.Infrastructure/TagRepository.cs:51-54 | two listings sorted by a key no two rows share are equal when they hold the same rows: ordering on a unique column leaves no choice |
| Table.Select | Assignment.Infrastructure/WorkItemRepository.cs:96-99 | the `where`/`select` scan over ids below the generator yields the projection of every stored row that passes the filter and nothing else, with no more entries than ids scanned |
| Table.SelectSpec | Assignment.Infrastructure/WorkItemRepository.cs:96-107 | the `where`/`select` scan yields exactly the projections of the stored rows that pass the filter, in increasing id order, so each row at most once |
| Table.QuerySpec | Assignment.Infrastructure/WorkItemRepository.cs:96-109 | a `where … orderby … select` query returns a listing that is sorted by the key, contains the projection of every stored row passing the filter and nothing else, and never lists an id twice |
| Table.Query | Assignment.Infrastructure/WorkItemRepository.cs:96-109 | a `where … orderby … select` query is sorted by the key and holds exactly the rows of the scan, in some order |
| Context.KanbanContext.Tick | Assignment.Infrastructure/WorkItem.cs:27 | time passes between operations: the clock advances by one and nothing else changes; the store stays valid |
| Context.KanbanContext.AddTag | Assignment.Infrastructure/TagRepository.cs:16-18 | saving a new tag stores it under a fresh id (the next one generated) and changes nothing else; the store stays valid |
| Context.KanbanContext.AddUser | Assignment.Infrastructure/UserRepository.cs:16-20 | saving a new user whose name and email are both free stores it under a fresh id and changes nothing else |
| Context.KanbanContext.AddItem | Assignment.Infrastructure/WorkItemRepository.cs:22-23 | saving a new item whose title is free and whose stamps do not lie in the future stores it under a fresh id and changes nothing else |
| Context.KanbanContext.PutItem | Assignment.Infrastructure/WorkItemRepository.cs:44-45 | saving a changed tracked item whose title no other item holds and whose links refer to generated ids rewrites only that row; the store stays valid |
| Context.KanbanContext.SaveTags | Assignment.Infrastructure/WorkItemRepository.cs:21-23 | saving an item persists its staged tags: every reference resolves to a stored id; existing tags keep their id; each staged tag gets a fresh id carrying its name; stored tags are untouched; every tag added is one of the resolved ids; nothing outside the tag table changes; the generator advances by the number of staged tags, which receive its ids in the order of the references, so every added id lies in the range it advanced over |
| WorkItemEntity.WorkItem.constructor | Assignment.Infrastructure/WorkItem.cs:23-29 | a new item has the given title, no tags, state `New` and `Created` equal to the current time; the other fields keep their defaults |
| WorkItemEntity.WorkItem.Load | Assignment.Infrastructure/WorkItemRepository.cs:33 | the entity the store materialises for a row carries exactly that row under that id |
| WorkItemEntity.WorkItem.Row | Assignment.Infrastructure/WorkItem.cs:5-21 | the row a save writes carries every persisted field of the entity; `Load` is its inverse |
| WorkItemEntity.WorkItem.UpdateState | Assignment.Infrastructure/WorkItem.cs:31-34 | sets the state, stamps `StateUpdated` with the current time, and leaves id, title, assignee, description, tags and `Created` unchanged |
| TagRepo.TagRepository.constructor | Assignment.Infrastructure/TagRepository.cs:7-10 | the repository works on the given store |
| TagRepo.TagRepository.InUse | Assignment.Infrastructure/TagRepository.cs:30 | the count of items linked to the tag is non-zero exactly when some stored item links it |
| TagRepo.TagRepository.Create | Assignment.Infrastructure/TagRepository.cs:11-24 | `Conflict` exactly when a tag with that name is stored, and then nothing changes; otherwise `Created` with a fresh id and exactly that one tag added; either way the id returned is that of the tag carrying the name; a tag just created is linked to no item |
| TagRepo.TagRepository.Delete | Assignment.Infrastructure/TagRepository.cs:26-38 | `Deleted` exactly when the tag is stored and is linked to no item or `force` is set, and then only that row is removed; otherwise `Conflict`, including for an absent id, and nothing changes |
| TagRepo.TagRepository.Find | Assignment.Infrastructure/TagRepository.cs:40-47 | id and name of the stored tag when present, nothing otherwise |
| TagRepo.TagRepository.Read | Assignment.Infrastructure/TagRepository.cs:49-57 | every stored tag exactly once, as (id, name), sorted by name |
| TagRepo.TagRepository.ReadDetermined | Assignment.Infrastructure/TagRepository.cs:49-57 | any listing of the same tags sorted by name is `Read`'s: the unique name index leaves no tie to order |
| TagRepo.TagRepository.Update | Assignment.Infrastructure/TagRepository.cs:59-78 | `NotFound` exactly for an absent id; `Conflict` exactly when another tag holds the name; in both cases nothing changes; otherwise `Updated`, only that tag's name changes, and names stay unique |
| UserRepo.UserRepository.constructor | Assignment.Infrastructure/UserRepository.cs:7-10 | the repository works on the given store |
| UserRepo.UserRepository.InUse | Assignment.Infrastructure/UserRepository.cs:39 | the count of items assigned to the user is non-zero exactly when some stored item is assigned to it |
| UserRepo.UserRepository.Create | Assignment.Infrastructure/UserRepository.cs:11-33 | `Conflict` exactly when the name or the email is already held, and then nothing changes; the id returned is that of the user holding the name, or else the user holding the email; otherwise `Created` with a fresh id and exactly that user added, assigned to no item |
| UserRepo.UserRepository.Delete | Assignment.Infrastructure/UserRepository.cs:35-48 | `Deleted` exactly when the user is stored and is assigned no item or `force` is set, and then only that row is removed; otherwise `Conflict` and nothing changes |
| UserRepo.UserRepository.Find | Assignment.Infrastructure/UserRepository.cs:50-57 | id, name and email of the stored user when present, nothing otherwise |
| UserRepo.UserRepository.Read | Assignment.Infrastructure/UserRepository.cs:59-66 | every stored user exactly once, sorted by name |
| UserRepo.UserRepository.ReadDetermined | Assignment.Infrastructure/UserRepository.cs:59-66 | any listing of the same users sorted by name is `Read`'s: the unique name index leaves no tie to order |
| UserRepo.UserRepository.Update | Assignment.Infrastructure/UserRepository.cs:68-88 | `NotFound` exactly for an absent id; `Conflict` exactly when another user holds the name or the email; in both cases nothing changes; otherwise `Updated`, only that user's name and email change |
| WorkItemRepo.WorkItemRepository.constructor | Assignment.Infrastructure/WorkItemRepository.cs:7-10 | the repository works on the given store |
| WorkItemRepo.WorkItemRepository.Create | Assignment.Infrastructure/WorkItemRepository.cs:11-29 | `Conflict` exactly when an item with that title is stored, returning its id with nothing changed. Otherwise `Created` with a fresh id, and the new item is `New`, unassigned, with the given description and `Created` = `StateUpdated` = now. Its tags are reconciled with the requested names (see `Reconciled`), every tag added gets an id the tag generator had not yet handed out, and no other item or user changes |
| WorkItemRepo.WorkItemRepository.Delete | Assignment.Infrastructure/WorkItemRepository.cs:31-57 | `New` items are removed (`Deleted`); `Active` items become `Removed` with the state stamp refreshed and nothing else changed (`Updated`); absent, `Resolved`, `Closed` and `Removed` items give `Conflict` with nothing changed |
| WorkItemRepo.WorkItemRepository.Find | Assignment.Infrastructure/WorkItemRepository.cs:59-75 | nothing for an absent id; otherwise the stored fields, the set of the linked tags' names, and the assignee's name, which is absent for an unassigned item |
| WorkItemRepo.WorkItemRepository.Read | Assignment.Infrastructure/WorkItemRepository.cs:77-92 | the summary of every stored item exactly once, sorted by title |
| WorkItemRepo.WorkItemRepository.SummaryMatchesFind | Assignment.Infrastructure/WorkItemRepository.cs:59-92 | a listing entry agrees with `Find` on id, title, assignee name, tag names and state |
| WorkItemRepo.WorkItemRepository.ReadDetermined | Assignment.Infrastructure/WorkItemRepository.cs:77-92 | any listing of the same summaries sorted by title is `Read`'s: the unique title index leaves no tie to order |
| WorkItemRepo.WorkItemRepository.ReadByState | Assignment.Infrastructure/WorkItemRepository.cs:94-110 | the summaries of exactly the items in the given state, each once, sorted by title |
| WorkItemRepo.WorkItemRepository.ReadByTag | Assignment.Infrastructure/WorkItemRepository.cs:112-128 | the summaries of exactly the items whose tag names contain the given name, each once, sorted by title |
| WorkItemRepo.WorkItemRepository.ReadByUser | Assignment.Infrastructure/WorkItemRepository.cs:130-146 | the summaries of exactly the items assigned to the given user id, each once, sorted by title |
| WorkItemRepo.WorkItemRepository.ReadRemoved | Assignment.Infrastructure/WorkItemRepository.cs:148-151 | the summaries of exactly the `Removed` items, each once, sorted by title |
| WorkItemRepo.WorkItemRepository.Update | Assignment.Infrastructure/WorkItemRepository.cs:153-175 | `BadRequest` exactly when the item is absent or the assignee id is missing or names no user; `Conflict` exactly when another item holds the title or an unknown tag name is requested twice; in both cases nothing changes. Otherwise `Updated`: title, assignee, description and state are overwritten; `StateUpdated` becomes now even if the state is unchanged; `Created` is kept; tags are reconciled, and every tag added gets an id the tag generator had not yet handed out; no other item or user changes |
| WorkItemRepo.WorkItemRepository.Overwrite | Assignment.Infrastructure/WorkItemRepository.cs:159-174 | the successful save of an update: the row written, the tags reconciled and the tag generator advanced, as `Update` promises |
| WorkItemRepo.WorkItemRepository.LinkTags | Assignment.Infrastructure/WorkItemRepository.cs:21-23 | saving the reconciled references leaves the store valid, changes only the tag table and its generator, takes every added id from the range the generator advanced over, and links tags reconciled with the requested names |
| WorkItemRepo.WorkItemRepository.FindUserById | Assignment.Infrastructure/WorkItemRepository.cs:177-183 | nothing for a missing id or an unknown user, the stored user otherwise |
| WorkItemRepo.WorkItemRepository.CreateOrUpdateTags | Assignment.Infrastructure/WorkItemRepository.cs:193-202 | one reference per requested name, in order: the stored tag with that name (same id) when there is one, a new tag with that name exactly when there is none |
| WorkItemRepo.TagNames | Assignment.Infrastructure/WorkItemRepository.cs:63 | the tag-name set holds the name of every linked stored tag and nothing else; linked ids of deleted tags contribute nothing |
| WorkItemRepo.AssigneeName | Assignment.Infrastructure/WorkItemRepository.cs:70 | the assignee name is present exactly when the item is assigned to a stored user, and is then that user's name |
| WorkItemRepo.Summarize | Assignment.Infrastructure/WorkItemRepository.cs:83-89 | the listing entry carries the item's id, title and state, its tag-name set, and an assignee name exactly when assigned to a stored user |
| WorkItemRepo.TagsByNameLookup | Assignment.Infrastructure/WorkItemRepository.cs:198-200 | looking a requested name up in the dictionary yields the stored tag with that name when there is one, and a new tag with that name otherwise |
| WorkItemRepo.TagsByName | Assignment.Infrastructure/WorkItemRepository.cs:194 | the dictionary maps each name to the stored tag carrying it, and holds every stored tag whose name is requested |
| WorkItemRepo.StagedDistinctIff | Assignment.Infrastructure/WorkItemRepository.cs:165-174 | the tags staged for an update clash on the tag-name index exactly when an unknown name is requested twice |
| WorkItemRepo.ResolvedTagNames | Assignment.Infrastructure/WorkItemRepository.cs:63 | linking the tags resolved name by name gives an item whose tag-name set is exactly the requested names |
| WorkItemRepo.SavedTagsReconcile | Assignment.Infrastructure/WorkItemRepository.cs:193-202 | after saving the reconciled references, the item's tags carry exactly the requested names, stored tags with requested names are reused, stored tags are unchanged, and the only tags added are linked to the item; when the staged names are pairwise distinct, no two tags share a name afterwards |

## Left out

- Entity Framework and SQLite plumbing are not modelled: the context's
  configuration, the connection, and schema creation. The store is the
  class `KanbanContext` with one map per table.
- The change tracker is not modelled. After a rejected save, the source
  leaves the modified or added entities tracked, and a later
  `SaveChanges` would retry them. In the model a rejected save leaves
  nothing behind.
- Commit timing is not modelled. `UserRepository.Delete` removes the
  entity without calling `SaveChanges`, so the source's row goes away only
  at the next save on the same context. The model treats the store as one
  unit of work and removes the row at once.
- Navigation collections are treated as fully loaded. No query in the
  source asks for them (`Include`): the in-use counts of
  Assignment.Infrastructure/TagRepository.cs:30 and
  Assignment.Infrastructure/UserRepository.cs:39 and the tag replacement
  of Assignment.Infrastructure/WorkItemRepository.cs:165 read the links
  the context has already loaded. The model reads every stored link. A
  context that has not loaded them would count zero and delete an in-use
  tag or user without `force`, and would add the new links of `Update` to
  the stored ones instead of replacing them. That behaviour is not
  modelled.
- Cascades of a forced delete are not modelled. Only the row is removed.
  Links of a deleted tag and assignments to a deleted user stay as
  dangling ids. Tag-name sets and assignee names ignore them. `ReadByUser`
  does not: it filters on the stored assignee id, so it still lists the
  items of a force-deleted user.
- `DateTime.UtcNow` is the store's `clock`: a natural number, constant
  within one operation, advanced by `Tick` between operations. Real
  timestamps and their resolution are not modelled.
- Database-generated ids are one counter per table, starting at 1.
- String order is ordinal (code-point) order, as SQLite's default
  collation gives. Culture-sensitive collation is not modelled.
- Rows with equal `orderby` keys come out in id order, because the model
  sorts stably over an id-ordered scan. The source leaves that order to
  the database, and the contracts leave it open too. The unique indexes
  make such ties impossible, so every `Read` is the only listing of its
  rows sorted on its key (`ReadDetermined`).
- `FindTagByName` (Assignment.Infrastructure/WorkItemRepository.cs:185-191)
  is a private helper that nothing calls, so it is not modelled.
- WorkItemRepo.WorkItemRepository.Create: requires the requested tag names
  to be pairwise distinct, because the creation DTO carries them as a set.
  `Update` takes any list and reports the clash.
- The `Tag`, `User`, DTO and `KanbanContext` declarations are not part of
  this model. They are reconstructed from their uses in the repositories.
- Concurrency and transaction isolation are not modelled. The code has
  neither.
