/** Create, delete, find, list and update users. */
module UserRepo {
  import opened KanbanTypes
  import opened Table
  import opened Context

  function UserDTOName(d: UserDTO): string { d.name }
  function UserDTOId(d: UserDTO): Id { d.id }
  function ToUserDTO(id: Id, u: User): UserDTO { UserDTO(id, u.name, u.email) }
  function AnyUser(u: User): bool { true }

  class UserRepository {
    const context: KanbanContext

    constructor (context: KanbanContext)
      ensures this.context == context
    {
      this.context := context;
    }

    /** User `userId` is in use while the count of work items assigned to
        it is not zero. */
    function InUse(userId: Id): (used: bool)
      reads context
      ensures used <==> exists w :: w in context.items && context.items[w].assignedToId == Some(userId)
    {
      var assignedItems := set w | w in context.items && context.items[w].assignedToId == Some(userId);
      CountNonZero(assignedItems);
      assert (exists w :: w in context.items && context.items[w].assignedToId == Some(userId)) ==> exists x :: x in assignedItems by {
        if exists w :: w in context.items && context.items[w].assignedToId == Some(userId) {
          var w :| w in context.items && context.items[w].assignedToId == Some(userId);
          assert w in assignedItems;
        }
      }
      assert (exists x :: x in assignedItems) ==> exists w :: w in context.items && context.items[w].assignedToId == Some(userId) by {
        if exists x :: x in assignedItems {
          var x :| x in assignedItems;
          assert x in context.items && context.items[x].assignedToId == Some(userId);
        }
      }
      |assignedItems| != 0
    }

    /** Creates a user. A user with the same name is reported first, with
        its id; otherwise the unique index on the email rejects a second
        user with the same email, and the id returned is that user's. */
    method Create(name: string, email: string) returns (response: Response, userId: Id)
      requires context.Valid()
      modifies context
      ensures context.Valid()
      ensures response == Created || response == Conflict
      ensures response == Conflict <==>
        old(HeldBy(context.users, UserName, name) || HeldBy(context.users, UserEmail, email))
      ensures response == Conflict ==> unchanged(context) && userId in context.users
      ensures old(HeldBy(context.users, UserName, name)) ==> context.users[userId].name == name
      ensures old(!HeldBy(context.users, UserName, name) && HeldBy(context.users, UserEmail, email)) ==>
        context.users[userId].email == email
      ensures response == Created ==>
        && userId == old(context.nextUserId) && userId !in old(context.users)
        && context.Snapshot() == old(context.Snapshot()).(users := old(context.users)[userId := User(name, email)], nextUserId := userId + 1)
        && Find(userId) == Some(UserDTO(userId, name, email))
      ensures response == Created ==> !InUse(userId)
    {
      if HeldBy(context.users, UserName, name) {
        userId :| userId in context.users && UserName(context.users[userId]) == name;
        response := Conflict;
      } else if HeldBy(context.users, UserEmail, email) {
        userId :| userId in context.users && UserEmail(context.users[userId]) == email;
        response := Conflict;
      } else {
        userId := context.AddUser(User(name, email));
        response := Created;
      }
    }

    /** Removes user `userId` when it exists and has no assigned items or
        `force` is set; an absent user is reported as `Conflict`. */
    method Delete(userId: Id, force: bool) returns (response: Response)
      requires context.Valid()
      modifies context
      ensures context.Valid()
      ensures response == Deleted || response == Conflict
      ensures response == Deleted <==> old(userId in context.users && (!InUse(userId) || force))
      ensures response == Deleted ==> context.Snapshot() == old(context.Snapshot()).(users := old(context.users) - {userId})
      ensures response == Conflict ==> unchanged(context)
      ensures response == Deleted ==> Find(userId) == None
    {
      if userId in context.users && (!InUse(userId) || force) {
        context.users := context.users - {userId};
        response := Deleted;
      } else {
        response := Conflict;
      }
    }

    /** The stored user `userId`, or nothing. */
    function Find(userId: Id): (r: Option<UserDTO>)
      reads context
      ensures r.Some? <==> userId in context.users
      ensures r.Some? ==>
        r.value.id == userId && r.value.name == context.users[userId].name && r.value.email == context.users[userId].email
    {
      if userId in context.users then
        Some(UserDTO(userId, context.users[userId].name, context.users[userId].email))
      else None
    }

    /** Every stored user once, ordered by name. */
    function Read(): (r: seq<UserDTO>)
      reads context
      requires context.Valid()
      ensures forall i, j :: 0 <= i < j < |r| ==> Leq(r[i].name, r[j].name)
      ensures forall d :: d in r ==>
        d.id in context.users && d.name == context.users[d.id].name && d.email == context.users[d.id].email
      ensures forall id :: id in context.users ==> UserDTO(id, context.users[id].name, context.users[id].email) in r
      ensures forall i, j :: 0 <= i < j < |r| ==> r[i].id != r[j].id
    {
      QuerySpec(context.users, context.nextUserId, AnyUser, ToUserDTO, UserDTOId, UserDTOName);
      Query(context.users, context.nextUserId, AnyUser, ToUserDTO, UserDTOName)
    }

    /** Any listing of the same users sorted by name is `Read`'s: the
        unique name index leaves no ties for the order to settle. */
    lemma ReadDetermined(t: seq<UserDTO>)
      requires context.Valid()
      requires SortedBy(t, UserDTOName) && multiset(t) == multiset(Read())
      ensures t == Read()
    {
      var r := Read();
      forall i, j | 0 <= i < j < |r| ensures UserDTOName(r[i]) != UserDTOName(r[j]) {
        assert r[i] in r && r[j] in r;
        assert UserName(context.users[r[i].id]) == r[i].name && UserName(context.users[r[j].id]) == r[j].name;
      }
      SortedDetermined(r, t, UserDTOName);
    }

    /** Sets both name and email of user `userId`; `NotFound` when it is
        absent, `Conflict` when a unique index on either column rejects
        the write. */
    method Update(userId: Id, name: string, email: string) returns (response: Response)
      requires context.Valid()
      modifies context
      ensures context.Valid()
      ensures response == Updated || response == Conflict || response == NotFound
      ensures response == NotFound <==> old(userId !in context.users)
      ensures response == Conflict <==> old(userId in context.users &&
        (HeldByOther(context.users, UserName, name, userId) || HeldByOther(context.users, UserEmail, email, userId)))
      ensures response != Updated ==> unchanged(context)
      ensures response == Updated ==>
        context.Snapshot() == old(context.Snapshot()).(users := old(context.users)[userId := User(name, email)])
      ensures response == Updated ==> Find(userId) == Some(UserDTO(userId, name, email))
    {
      if userId !in context.users {
        response := NotFound;
      } else if HeldByOther(context.users, UserName, name, userId) || HeldByOther(context.users, UserEmail, email, userId) {
        response := Conflict;
      } else {
        UniquePut(context.users, UserName, userId, User(name, email));
        UniquePut(context.users, UserEmail, userId, User(name, email));
        context.users := context.users[userId := User(name, email)];
        response := Updated;
      }
    }
  }
}
