/** The later `ItemServiceImpl` of the server module. Its update, single
    item view, search, comments and lookups behave as in `ItemServiceImpl`
    (the single item view maps an empty comment list to an empty list, which
    is the same list); it differs in `create`, which records the item
    request an item answers, and in the owner's list, where an item without
    comments shows `null` comments. */
module ServerItemServiceImpl {
  import opened Common
  import opened Entities
  import opened Seqs
  import opened Persistence
  import opened UserServiceImpl
  import opened ItemServiceImpl

  /** `create`: the caller must exist. Without a request id the item is saved
      with no request; with one, `toItemWithRequest` attaches a stub of the
      request with that id, and `findById` replaces it by the stored request
      when there is one, so the saved item refers to that request id either
      way. The DTO returned carries no request id. */
  method Create(db: Database, dto: ItemDto, userId: int) returns (r: Result<ItemDto>)
    requires db.Valid()
    modifies db
    ensures db.Valid()
    ensures FindUser(old(db.users), userId).None? ==> r == Failure(UserNotFound) && db.State() == old(db.State())
    ensures FindUser(old(db.users), userId).Some? ==>
      var it := Item(old(db.lastItemId) + 1, dto.name, dto.description, dto.available, userId, dto.requestId);
      && r == Success(ItemToDto(it))
      && db.State() == old(db.State()).(items := old(db.items) + [it], lastItemId := it.id)
  {
    var user := FindById(db.users, userId);
    if user.Failure? {
      return Failure(user.error);
    }
    var requestId: Option<int> := None;
    if dto.requestId.Some? {
      var request := FindRequest(db.requests, dto.requestId.value);
      requestId := if request.Some? then Some(request.value.id) else dto.requestId;
    }
    var it := Item(db.lastItemId + 1, dto.name, dto.description, dto.available, userId, requestId);
    db.SaveNewItem(it);
    r := Success(ItemToDto(it));
  }

  /** A comment list as the owner's list shows it: `null` when empty. */
  function Shown(comments: seq<CommentDto>): (r: Option<seq<CommentDto>>)
    ensures r.None? <==> |comments| == 0
    ensures r.Some? ==> r.value == comments
  {
    if |comments| == 0 then None else Some(comments)
  }

  /** The view of one item in the owner's list: as `ItemView`, except that
      no comments are shown as `null`. */
  function ListedView(s: Store, userId: int, it: Item): (v: ItemBookingCommentDto)
    ensures v.comments == Shown(CommentDtos(s.comments, it.id))
    ensures v.(comments := ItemView(s, userId, it).comments) == ItemView(s, userId, it)
  {
    Decorate(s.bookings, userId, it, Shown(CommentDtos(s.comments, it.id)))
  }

  /** An item in the owner's list shows `null` comments exactly when nobody
      has commented on it; otherwise it shows what the single item view
      shows. */
  lemma ListedViewComments(s: Store, userId: int, it: Item)
    ensures ListedView(s, userId, it).comments.None? <==> forall c :: c in s.comments ==> c.itemId != it.id
    ensures ListedView(s, userId, it).comments.Some? ==> ListedView(s, userId, it) == ItemView(s, userId, it)
  {
    var of := CommentsOf(s.comments, it.id);
    if of != [] {
      assert of[0] in of;
    }
  }

  /** `getItemsByUserId`: the caller must exist and own at least one item;
      then the listed view of each owned item, in table order, built in a
      loop. */
  method GetItemsByUserId(db: Database, userId: int) returns (r: Result<seq<ItemBookingCommentDto>>)
    ensures FindUser(db.users, userId).None? ==> r == Failure(UserNotFound)
    ensures FindUser(db.users, userId).Some? && OwnedItems(db.items, userId) == [] ==> r == Failure(ItemNotFound)
    ensures r.Success? <==> FindUser(db.users, userId).Some? && OwnedItems(db.items, userId) != []
    ensures r.Success? ==>
      var owned := OwnedItems(db.items, userId);
      && |r.value| == |owned|
      && forall i :: 0 <= i < |owned| ==> r.value[i] == ListedView(db.State(), userId, owned[i])
  {
    var user := FindById(db.users, userId);
    if user.Failure? {
      return Failure(user.error);
    }
    var owned := OwnedItems(db.items, userId);
    if owned == [] {
      return Failure(ItemNotFound);
    }
    var st := db.State();
    var views := Views(owned, (it: Item) => ListedView(st, userId, it));
    r := Success(views);
  }
}
