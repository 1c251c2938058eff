/** `UserService`, the service over the in-memory user store: `create` and
    `update` refuse an email some stored user already has; the rest
    delegates to the store. */
module UserService {
  import opened Common
  import opened Entities
  import opened Seqs
  import opened Persistence
  import opened UserDao

  /** `validateEmail`'s `anyMatch`: some stored user has exactly this email.
      A `null` email (an update that keeps the email) matches none. */
  function EmailTaken(users: seq<User>, email: Option<string>): (r: bool)
    ensures r <==> email.Some? && exists u :: u in users && u.email == email.value
  {
    if users == [] then false
    else
      assert forall u :: u in users <==> u == users[0] || u in users[1..];
      Some(users[0].email) == email || EmailTaken(users[1..], email)
  }

  /** No two stored users share an email. */
  ghost predicate DistinctEmails(users: seq<User>) {
    forall i, j :: 0 <= i < j < |users| ==> users[i].email != users[j].email
  }

  /** The check also rejects an update that re-submits the user's own
      current email: the user itself already has it. */
  lemma OwnEmailIsTaken(users: seq<User>, k: nat, patch: UserPatch)
    requires k < |users| && patch.email == Some(users[k].email)
    ensures EmailTaken(users, patch.email)
  {
    assert users[k] in users;
  }

  /** An update is appended or merged; a new email that no stored user has
      keeps the emails distinct. */
  lemma DistinctAfterAppend(users: seq<User>, u: User)
    requires DistinctEmails(users) && !EmailTaken(users, Some(u.email))
    ensures DistinctEmails(users + [u])
  {
    var r := users + [u];
    forall i, j | 0 <= i < j < |r| ensures r[i].email != r[j].email {
      if j == |users| {
        assert r[i] in users;
      }
    }
  }

  lemma DistinctAfterMerge(users: seq<User>, k: nat, patch: UserPatch)
    requires DistinctEmails(users) && k < |users| && !EmailTaken(users, patch.email)
    ensures DistinctEmails(users[k := MergeUser(users[k], patch)])
  {
    var r := users[k := MergeUser(users[k], patch)];
    forall i, j | 0 <= i < j < |r| ensures r[i].email != r[j].email {
      if patch.email.Some? && (i == k || j == k) {
        var other := if i == k then j else i;
        assert users[other] in users;
      }
    }
  }

  class UserService {
    const userDao: UserDaoImpl

    ghost predicate Valid()
      reads userDao
    {
      userDao.Valid()
    }

    constructor (userDao: UserDaoImpl)
      ensures this.userDao == userDao
    {
      this.userDao := userDao;
    }

    /** `create`: a taken email throws `DuplicateEmailException` and stores
      nothing; otherwise the store creates the user. Distinct emails stay
      distinct. */
    method Create(user: User) returns (r: Result<User>)
      requires Valid()
      modifies userDao
      ensures Valid()
      ensures EmailTaken(old(userDao.users), Some(user.email)) ==>
        r == Failure(DuplicateEmail) && userDao.users == old(userDao.users) && userDao.id == old(userDao.id)
      ensures !EmailTaken(old(userDao.users), Some(user.email)) ==>
        && r == Success(user.(id := old(userDao.id) + 1))
        && userDao.users == old(userDao.users) + [r.value]
        && userDao.id == old(userDao.id) + 1
      ensures DistinctEmails(old(userDao.users)) ==> DistinctEmails(userDao.users)
    {
      if EmailTaken(userDao.users, Some(user.email)) {
        return Failure(DuplicateEmail);
      }
      ghost var before := userDao.users;
      var created := userDao.Create(user);
      if DistinctEmails(before) {
        DistinctAfterAppend(before, created);
      }
      r := Success(created);
    }

    /** `update`: the same email check, then the store's merge-patch update
      of the user with that id. Distinct emails stay distinct. */
    method Update(patch: UserPatch, userId: int) returns (r: Result<User>)
      requires Valid()
      modifies userDao
      ensures Valid()
      ensures userDao.id == old(userDao.id)
      ensures EmailTaken(old(userDao.users), patch.email) ==>
        r == Failure(DuplicateEmail) && userDao.users == old(userDao.users)
      ensures !EmailTaken(old(userDao.users), patch.email) && UserIndex(old(userDao.users), userId).None? ==>
        r == Failure(UserNotFound) && userDao.users == old(userDao.users)
      ensures !EmailTaken(old(userDao.users), patch.email) && UserIndex(old(userDao.users), userId).Some? ==>
        var k := UserIndex(old(userDao.users), userId).value;
        && r == Success(MergeUser(old(userDao.users)[k], patch))
        && userDao.users == old(userDao.users)[k := r.value]
      ensures DistinctEmails(old(userDao.users)) ==> DistinctEmails(userDao.users)
    {
      if EmailTaken(userDao.users, patch.email) {
        return Failure(DuplicateEmail);
      }
      ghost var before := userDao.users;
      r := userDao.Update(patch, userId);
      if r.Success? && DistinctEmails(before) {
        DistinctAfterMerge(before, UserIndex(before, userId).value, patch);
      }
    }

    /** `getById`: the store's lookup. */
    method GetById(userId: int) returns (r: Result<User>)
      ensures r.Success? <==> exists u :: u in userDao.users && u.id == userId
      ensures r.Success? ==> r.value in userDao.users && r.value.id == userId
      ensures r.Failure? ==> r.error == UserNotFound
    {
      r := userDao.GetById(userId);
    }

    /** `getAll`: the stored list. */
    method GetAll() returns (r: seq<User>)
      ensures r == userDao.users
    {
      r := userDao.GetAll();
    }

    /** `removeUser`: the store's removal of the user with that id. */
    method RemoveUser(userId: int) returns (r: Result<()>)
      requires Valid()
      modifies userDao
      ensures Valid()
      ensures r.Failure? <==> forall u :: u in old(userDao.users) ==> u.id != userId
      ensures r.Failure? ==> r.error == UserNotFound && userDao.users == old(userDao.users)
      ensures forall u :: u in userDao.users ==> u.id != userId
      ensures forall u :: u in userDao.users ==> u in old(userDao.users)
      ensures |userDao.users| == |old(userDao.users)| - (if r.Success? then 1 else 0)
      ensures userDao.id == old(userDao.id)
      ensures r.Success? ==> userDao.users == RemoveAt(old(userDao.users), UserIndex(old(userDao.users), userId).value)
    {
      r := userDao.RemoveUser(userId);
    }
  }
}
