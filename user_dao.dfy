/** `UserDaoImpl`: the in-memory user store, a list of users and the last id
    handed out. */
module UserDao {
  import opened Common
  import opened Entities
  import opened Seqs
  import opened Persistence

  class UserDaoImpl {
    var users: seq<User>
    var id: int

    ghost predicate Valid()
      reads this
    {
      UsersIssued(users, id)
    }

    constructor ()
      ensures Valid()
      ensures users == [] && id == 0
    {
      users := [];
      id := 0;
    }

    /** `generateId`: the counter, incremented first. */
    method GenerateId() returns (r: int)
      requires Valid()
      modifies this
      ensures r == old(id) + 1 && id == r
      ensures users == old(users)
      ensures forall i :: 0 <= i < |users| ==> users[i].id < r
    {
      id := id + 1;
      r := id;
    }

    /** `create`: the user gets the next id and is appended. */
    method Create(user: User) returns (r: User)
      requires Valid()
      modifies this
      ensures Valid()
      ensures r == user.(id := old(id) + 1)
      ensures users == old(users) + [r] && id == old(id) + 1
    {
      var newId := GenerateId();
      r := user.(id := newId);
      users := users + [r];
    }

    /** The position `stream().filter(id).findFirst()` stops at. */
    method Position(userId: int) returns (k: Option<nat>)
      ensures k == UserIndex(users, userId)
    {
      var i := 0;
      while i < |users|
        invariant 0 <= i <= |users|
        invariant forall j :: 0 <= j < i ==> users[j].id != userId
      {
        if users[i].id == userId {
          FirstIndexAt(users, (u: User) => u.id == userId, i);
          return Some(i);
        }
        i := i + 1;
      }
      return None;
    }

    /** `getById`: the first user with that id, or `UserNotFoundException`. */
    method GetById(userId: int) returns (r: Result<User>)
      ensures r.Success? <==> exists u :: u in users && u.id == userId
      ensures r.Success? ==> r.value == users[UserIndex(users, userId).value]
      ensures r.Failure? ==> r.error == UserNotFound
    {
      var k := Position(userId);
      if k.None? {
        return Failure(UserNotFound);
      }
      return Success(users[k.value]);
    }

    /** `update`: overwrites the stored user's email and name where the patch
      carries them, in place. A missing id throws. */
    method Update(patch: UserPatch, userId: int) returns (r: Result<User>)
      requires Valid()
      modifies this
      ensures Valid()
      ensures id == old(id) && |users| == |old(users)|
      ensures UserIndex(old(users), userId).None? ==> r == Failure(UserNotFound) && users == old(users)
      ensures UserIndex(old(users), userId).Some? ==>
        var k := UserIndex(old(users), userId).value;
        && r == Success(MergeUser(old(users)[k], patch))
        && users == old(users)[k := MergeUser(old(users)[k], patch)]
    {
      var k := Position(userId);
      if k.None? {
        return Failure(UserNotFound);
      }
      var updated := MergeUser(users[k.value], patch);
      users := users[k.value := updated];
      r := Success(updated);
    }

    /** `getAll`: the stored list itself. */
    method GetAll() returns (r: seq<User>)
      ensures r == users
    {
      r := users;
    }

    /** `removeUser`: removes the first user with that id, keeping the others
      in order. A missing id throws. */
    method RemoveUser(userId: int) returns (r: Result<()>)
      requires Valid()
      modifies this
      ensures Valid()
      ensures id == old(id)
      ensures UserIndex(old(users), userId).None? ==> r == Failure(UserNotFound) && users == old(users)
      ensures UserIndex(old(users), userId).Some? ==>
        r == Success(()) && users == RemoveAt(old(users), UserIndex(old(users), userId).value)
      ensures forall u :: u in users ==> u.id != userId
    {
      var k := Position(userId);
      if k.None? {
        return Failure(UserNotFound);
      }
      UsersIssuedRemove(users, id, k.value);
      users := RemoveAt(users, k.value);
      r := Success(());
    }
  }
}
