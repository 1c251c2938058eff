/** `UserServiceImpl`, the user service over the relational store: creation,
    the merge-patch update, lookup that throws when the user is missing,
    and deletion. */
module UserServiceImpl {
  import opened Common
  import opened Entities
  import opened Seqs
  import opened Persistence

  /** `create`: saves the user under the next identity value. The email is
      not checked here (the table's unique constraint is not part of this
      model). */
  method Create(db: Database, user: User) returns (r: User)
    requires db.Valid()
    modifies db
    ensures db.Valid()
    ensures r == user.(id := old(db.lastUserId) + 1)
    ensures db.State() == old(db.State()).(users := old(db.users) + [r], lastUserId := r.id)
  {
    r := user.(id := db.lastUserId + 1);
    db.SaveNewUser(r);
  }

  /** `update`: a missing id throws `UserNotFoundException` and changes
      nothing; otherwise the name and the email the patch carries overwrite
      the stored ones, the row is saved in place and returned. */
  method Update(db: Database, patch: UserPatch, userId: int) returns (r: Result<User>)
    requires db.Valid()
    modifies db
    ensures db.Valid()
    ensures UserIndex(old(db.users), userId).None? ==>
      r == Failure(UserNotFound) && db.State() == old(db.State())
    ensures UserIndex(old(db.users), userId).Some? ==>
      var k := UserIndex(old(db.users), userId).value;
      && r == Success(MergeUser(old(db.users)[k], patch))
      && db.State() == old(db.State()).(users := old(db.users)[k := r.value])
  {
    var k := UserIndex(db.users, userId);
    if k.None? {
      return Failure(UserNotFound);
    }
    var updated := MergeUser(db.users[k.value], patch);
    db.SaveUserAt(k.value, updated);
    r := Success(updated);
  }

  /** `findById`: the user with that id, or `UserNotFoundException`. It is
      also `findUserIfExistOrElseThrowNotFound`, which only calls it: the
      existence check every other service starts with. */
  function FindById(users: seq<User>, userId: int): (r: Result<User>)
    ensures r.Failure? <==> forall u :: u in users ==> u.id != userId
    ensures r.Failure? ==> r.error == UserNotFound
    ensures r.Success? ==> r.value in users && r.value.id == userId
  {
    match FindUser(users, userId)
    case None => Failure(UserNotFound)
    case Some(u) => Success(u)
  }

  /** On a table in issue order there is at most one user per id, so the
      lookup returns THE user with that id. */
  lemma FindByIdUnique(users: seq<User>, last: int, userId: int, u: User)
    requires UsersIssued(users, last) && u in users && u.id == userId
    ensures FindById(users, userId) == Success(u)
  {
    var found := FindById(users, userId).value;
    var i :| 0 <= i < |users| && users[i] == u;
    var j :| 0 <= j < |users| && users[j] == found;
    if i < j {
      assert users[i].id < users[j].id;
    } else if j < i {
      assert users[j].id < users[i].id;
    }
  }

  /** `removeUser`: `deleteById` removes the user with that id; for an id
      no user has, Spring Data JPA 2's `deleteById` throws
      `EmptyResultDataAccessException` and the table stays as it is. */
  method RemoveUser(db: Database, userId: int) returns (r: Result<()>)
    requires db.Valid()
    modifies db
    ensures db.Valid()
    ensures UserIndex(old(db.users), userId).None? ==> r == Failure(NoRowToDelete) && db.State() == old(db.State())
    ensures UserIndex(old(db.users), userId).Some? ==>
      && r == Success(())
      && db.State() == old(db.State()).(users := RemoveAt(old(db.users), UserIndex(old(db.users), userId).value))
    ensures forall u :: u in db.users ==> u.id != userId
  {
    var k := UserIndex(db.users, userId);
    if k.None? {
      return Failure(NoRowToDelete);
    }
    db.DeleteUserAt(k.value);
    r := Success(());
  }
}
