/** `ItemService`, the service over the in-memory item store: creation by an
    existing user, the owner-only update, the owner's list, and the search
    that answers a blank query with nothing. */
module ItemService {
  import opened Common
  import opened Entities
  import opened Text
  import opened Persistence
  import opened ItemDao
  import opened UserService

  class ItemService {
    const itemDao: ItemDaoImpl
    const userService: UserService

    ghost predicate Valid()
      reads itemDao, userService.userDao
    {
      itemDao.Valid() && userService.Valid()
    }

    constructor (itemDao: ItemDaoImpl, userService: UserService)
      ensures this.itemDao == itemDao && this.userService == userService
    {
      this.itemDao := itemDao;
      this.userService := userService;
    }

    /** `create`: the caller must be a stored user; the item becomes theirs
      and the store creates it. */
    method Create(item: Item, userId: int) returns (r: Result<Item>)
      requires Valid()
      modifies itemDao
      ensures Valid()
      ensures FindUser(userService.userDao.users, userId).None? ==>
        r == Failure(UserNotFound) && itemDao.items == old(itemDao.items) && itemDao.id == old(itemDao.id)
      ensures FindUser(userService.userDao.users, userId).Some? ==>
        && r == Success(item.(ownerId := userId, id := old(itemDao.id) + 1))
        && itemDao.items == old(itemDao.items) + [r.value]
        && itemDao.id == old(itemDao.id) + 1
    {
      var user := userService.GetById(userId);
      if user.Failure? {
        return Failure(user.error);
      }
      var created := itemDao.Create(item.(ownerId := userId));
      r := Success(created);
    }

    /** `update`: the item must exist, and only its owner may change it;
      then the store applies the merge-patch. The caller's own existence is
      not checked. */
    method Update(itemId: int, patch: ItemPatch, userId: int) returns (r: Result<Item>)
      requires Valid()
      modifies itemDao
      ensures Valid()
      ensures itemDao.id == old(itemDao.id)
      ensures ItemIndex(old(itemDao.items), itemId).None? ==>
        r == Failure(ItemNotFound) && itemDao.items == old(itemDao.items)
      ensures ItemIndex(old(itemDao.items), itemId).Some? ==>
        var k := ItemIndex(old(itemDao.items), itemId).value;
        var stored := old(itemDao.items)[k];
        && (stored.ownerId != userId ==> r == Failure(ForbiddenAccess) && itemDao.items == old(itemDao.items))
        && (stored.ownerId == userId ==>
              && r == Success(MergeItem(stored, patch))
              && itemDao.items == old(itemDao.items)[k := r.value])
      ensures r.Success? ==> r.value.ownerId == userId && r.value.id == itemId
    {
      var stored := itemDao.GetByItemId(itemId);
      if stored.Failure? {
        return Failure(stored.error);
      }
      if stored.value.ownerId != userId {
        return Failure(ForbiddenAccess);
      }
      r := itemDao.Update(itemId, patch);
    }

    /** `getByItemId`: the store's lookup. */
    method GetByItemId(itemId: int) returns (r: Result<Item>)
      ensures r.Success? <==> exists it :: it in itemDao.items && it.id == itemId
      ensures r.Success? ==> r.value in itemDao.items && r.value.id == itemId
      ensures r.Failure? ==> r.error == ItemNotFound
    {
      r := itemDao.GetByItemId(itemId);
    }

    /** `getItemsByUserId`: a missing user throws; otherwise exactly the
      user's items, in the order they were created. */
    method GetItemsByUserId(userId: int) returns (r: Result<seq<Item>>)
      ensures r.Failure? <==> forall u :: u in userService.userDao.users ==> u.id != userId
      ensures r.Failure? ==> r.error == UserNotFound
      ensures r.Success? ==> r.value == OwnedBy(itemDao.items, userId)
    {
      var user := userService.GetById(userId);
      if user.Failure? {
        return Failure(user.error);
      }
      var items := itemDao.GetItemsByUserId(userId);
      r := Success(items);
    }

    /** `search`: blank text (empty or whitespace only) finds nothing;
      otherwise the available items whose name or description contains the
      text, ignoring case. */
    method Search(text: string) returns (r: set<Item>)
      ensures IsBlank(text) ==> r == {}
      ensures forall it :: it in r <==> !IsBlank(text) && it in itemDao.items && SearchMatches(it, text)
    {
      if IsBlank(text) {
        return {};
      }
      r := itemDao.Search(text);
    }
  }
}
