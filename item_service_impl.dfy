/** `ItemServiceImpl`, the item service over the relational store: creation,
    the owner-only merge-patch update, the item views decorated with the
    owner's last and next bookings and the comments, the search, and
    comments, which only a past booker may leave. "now" is a parameter. */
module ItemServiceImpl {
  import opened Common
  import opened Entities
  import opened Seqs
  import opened Text
  import opened Persistence
  import opened BookingMapper
  import opened BookingRepository
  import opened ItemDao
  import opened UserServiceImpl

  /** `ItemBookingCommentDto`: an item with its last and next bookings and
      its comments; each of the three may be `null`. */
  datatype ItemBookingCommentDto = ItemBookingCommentDto(
    id: int,
    name: string,
    description: string,
    available: bool,
    lastBooking: Option<BookingShortDto>,
    nextBooking: Option<BookingShortDto>,
    comments: Option<seq<CommentDto>>)

  /** `toShortDto` applied to a booking that was found, `null` otherwise. */
  function ShortOf(b: Option<Booking>): (r: Option<BookingShortDto>)
    ensures r.None? <==> b.None?
    ensures r.Some? ==> r.value.id == b.value.id && r.value.bookerId == b.value.bookerId
  {
    match b
    case None => None
    case Some(x) => Some(ToShortDto(x))
  }

  /** `ItemMapper.toBookingCommentDto` with the bookings the services look
      up for the caller: as last booking, the earliest-starting booking of
      the item among those of items the caller owns; as next booking, what
      `findFirstByItem_OwnerIdAndIdOrderByStartDesc(userId, itemId)` finds,
      a booking of the caller's items whose own id is the item's id. */
  function Decorate(bookings: seq<Booking>, userId: int, it: Item, comments: Option<seq<CommentDto>>)
    : (v: ItemBookingCommentDto)
    ensures v.id == it.id && v.name == it.name && v.description == it.description && v.available == it.available
    ensures v.comments == comments
    ensures v.lastBooking.None? <==> forall b :: b in bookings ==> !(b.item.id == it.id && b.item.ownerId == userId)
    ensures v.nextBooking.None? <==> forall b :: b in bookings ==> !(b.id == it.id && b.item.ownerId == userId)
  {
    ItemBookingCommentDto(it.id, it.name, it.description, it.available,
      ShortOf(LastBooking(bookings, it.id, userId)),
      ShortOf(NextBookingAsWritten(bookings, userId, it.id)),
      comments)
  }

  /** `commentRepository.findAllByItemId`: the item's comments in the order
      they were saved. */
  function CommentsOf(comments: seq<Comment>, itemId: int): (r: seq<Comment>)
    ensures forall c :: c in r <==> c in comments && c.itemId == itemId
  {
    Filter(comments, (c: Comment) => c.itemId == itemId)
  }

  /** The item's comments, as `CommentMapper.toDto` shows them. */
  function CommentDtos(comments: seq<Comment>, itemId: int): (r: seq<CommentDto>)
    ensures |r| == |CommentsOf(comments, itemId)|
    ensures forall i :: 0 <= i < |r| ==> r[i] == CommentToDto(CommentsOf(comments, itemId)[i])
  {
    Map(CommentsOf(comments, itemId), CommentToDto)
  }

  /** `itemRepository.findAllByOwnerId`: the owner's items in table order. */
  function OwnedItems(items: seq<Item>, userId: int): (r: seq<Item>)
    ensures forall it :: it in r <==> it in items && it.ownerId == userId
    ensures r == [] <==> forall it :: it in items ==> it.ownerId != userId
  {
    var r := Filter(items, (it: Item) => it.ownerId == userId);
    assert r != [] ==> r[0] in r;
    r
  }

  // -----------------------------------------------------------------------
  // getItemById, getAllByItemId

  /** `getItemById`: the item, or `ItemNotFoundException`. */
  function GetItemById(items: seq<Item>, itemId: int): (r: Result<Item>)
    ensures r.Failure? <==> forall it :: it in items ==> it.id != itemId
    ensures r.Failure? ==> r.error == ItemNotFound
    ensures r.Success? ==> r.value in items && r.value.id == itemId
  {
    match FindItem(items, itemId)
    case None => Failure(ItemNotFound)
    case Some(it) => Success(it)
  }

  /** `getAllByItemId`: the item must exist; then its comments. */
  function GetAllByItemId(s: Store, itemId: int): (r: Result<seq<Comment>>)
    ensures r.Failure? <==> forall it :: it in s.items ==> it.id != itemId
    ensures r.Failure? ==> r.error == ItemNotFound
    ensures r.Success? ==> forall c :: c in r.value <==> c in s.comments && c.itemId == itemId
  {
    match GetItemById(s.items, itemId)
    case Failure(e) => Failure(e)
    case Success(_) => Success(CommentsOf(s.comments, itemId))
  }

  // -----------------------------------------------------------------------
  // create, update

  /** `create`: the caller must exist; the item is saved as theirs, without
      a request, under the next identity value, and its DTO returned. */
  method Create(db: Database, dto: ItemDto, userId: int) returns (r: Result<ItemDto>)
    requires db.Valid()
    modifies db
    ensures db.Valid()
    ensures FindUser(old(db.users), userId).None? ==> r == Failure(UserNotFound) && db.State() == old(db.State())
    ensures FindUser(old(db.users), userId).Some? ==>
      var it := Item(old(db.lastItemId) + 1, dto.name, dto.description, dto.available, userId, None);
      && r == Success(ItemToDto(it))
      && db.State() == old(db.State()).(items := old(db.items) + [it], lastItemId := it.id)
  {
    var user := FindById(db.users, userId);
    if user.Failure? {
      return Failure(user.error);
    }
    var it := Item(db.lastItemId + 1, dto.name, dto.description, dto.available, userId, None);
    db.SaveNewItem(it);
    r := Success(ItemToDto(it));
  }

  /** The checks of `update`, in order: the caller exists, the item exists,
      the caller owns it. On success, the item's position in the table. */
  function UpdateCheck(s: Store, userId: int, itemId: int): (r: Result<nat>)
    ensures FindUser(s.users, userId).None? ==> r == Failure(UserNotFound)
    ensures FindUser(s.users, userId).Some? && FindItem(s.items, itemId).None? ==> r == Failure(ItemNotFound)
    ensures r == Failure(ForbiddenAccess) <==>
      FindUser(s.users, userId).Some? && FindItem(s.items, itemId).Some? && FindItem(s.items, itemId).value.ownerId != userId
    ensures r.Success? <==>
      FindUser(s.users, userId).Some? && FindItem(s.items, itemId).Some? && FindItem(s.items, itemId).value.ownerId == userId
    ensures r.Success? ==> ItemIndex(s.items, itemId) == Some(r.value)
  {
    if FindUser(s.users, userId).None? then Failure(UserNotFound)
    else match ItemIndex(s.items, itemId)
      case None => Failure(ItemNotFound)
      case Some(k) =>
        if s.items[k].ownerId != userId then Failure(ForbiddenAccess)
        else Success(k)
  }

  /** `update`: after the checks, the name, description and availability
      the patch carries overwrite the stored ones, the row is saved in place,
      and its DTO returned. On failure nothing changes. */
  method Update(db: Database, patch: ItemPatch, userId: int, itemId: int) returns (r: Result<ItemDto>)
    requires db.Valid()
    modifies db
    ensures db.Valid()
    ensures match UpdateCheck(old(db.State()), userId, itemId)
      case Failure(e) => r == Failure(e) && db.State() == old(db.State())
      case Success(k) =>
        var updated := MergeItem(old(db.items)[k], patch);
        && r == Success(ItemToDto(updated))
        && db.State() == old(db.State()).(items := old(db.items)[k := updated])
  {
    var check := UpdateCheck(db.State(), userId, itemId);
    if check.Failure? {
      return Failure(check.error);
    }
    var k := check.value;
    var updated := MergeItem(db.items[k], patch);
    db.SaveItemAt(k, updated);
    r := Success(ItemToDto(updated));
  }

  /** A successful update leaves the item its owner and its id: only the
      caller's own items change. */
  lemma UpdateKeepsOwner(s: Store, userId: int, itemId: int, patch: ItemPatch)
    requires UpdateCheck(s, userId, itemId).Success?
    ensures var updated := MergeItem(s.items[UpdateCheck(s, userId, itemId).value], patch);
      updated.ownerId == userId && updated.id == itemId
  {
  }

  // -----------------------------------------------------------------------
  // getByItemId, getItemsByUserId

  /** The view of one item the caller is shown: its bookings if the caller
      owns it, and every comment on it. */
  function ItemView(s: Store, userId: int, it: Item): (v: ItemBookingCommentDto)
    ensures v.comments == Some(CommentDtos(s.comments, it.id))
  {
    Decorate(s.bookings, userId, it, Some(CommentDtos(s.comments, it.id)))
  }

  /** `getByItemId`: the caller must exist, then the item; the result is
      the item's view. */
  function GetByItemId(s: Store, itemId: int, userId: int): (r: Result<ItemBookingCommentDto>)
    ensures FindUser(s.users, userId).None? ==> r == Failure(UserNotFound)
    ensures FindUser(s.users, userId).Some? && FindItem(s.items, itemId).None? ==> r == Failure(ItemNotFound)
    ensures r.Success? <==> FindUser(s.users, userId).Some? && FindItem(s.items, itemId).Some?
    ensures r.Success? ==> r.value == ItemView(s, userId, FindItem(s.items, itemId).value)
  {
    match FindById(s.users, userId)
    case Failure(e) => Failure(e)
    case Success(_) =>
      match GetItemById(s.items, itemId)
      case Failure(e) => Failure(e)
      case Success(it) => Success(ItemView(s, userId, it))
  }

  /** What an item view shows: the item's own fields; as last booking the
      earliest of the bookings of this item under the caller as owner; as
      next booking the booking, under the caller as owner, whose id equals
      the item's id; and every comment on the item, in order. */
  lemma ItemViewShows(s: Store, userId: int, it: Item)
    ensures var v := ItemView(s, userId, it);
      && v.id == it.id && v.name == it.name && v.description == it.description && v.available == it.available
      && (v.lastBooking.None? <==> forall b :: b in s.bookings ==> !(b.item.id == it.id && b.item.ownerId == userId))
      && (v.lastBooking.Some? ==>
            exists b :: (b in s.bookings && b.item.id == it.id && b.item.ownerId == userId
              && v.lastBooking.value == ToShortDto(b)
              && forall c :: c in s.bookings && c.item.id == it.id && c.item.ownerId == userId ==> b.start <= c.start))
      && (v.nextBooking.None? <==> forall b :: b in s.bookings ==> !(b.id == it.id && b.item.ownerId == userId))
      && (v.nextBooking.Some? ==>
            exists b :: b in s.bookings && b.id == it.id && b.item.ownerId == userId && v.nextBooking.value == ToShortDto(b))
      && v.comments == Some(CommentDtos(s.comments, it.id))
  {
    var v := ItemView(s, userId, it);
    if v.lastBooking.Some? {
      var b := LastBooking(s.bookings, it.id, userId).value;
      assert v.lastBooking.value == ToShortDto(b);
    }
    if v.nextBooking.Some? {
      var b := NextBookingAsWritten(s.bookings, userId, it.id).value;
      assert v.nextBooking.value == ToShortDto(b);
    }
  }

  /** Every booking records its item's owner as the items table has it. */
  ghost predicate BookingOwnersAgree(s: Store) {
    forall b, it :: b in s.bookings && it in s.items && b.item.id == it.id ==> b.item.ownerId == it.ownerId
  }

  /** A caller who does not own the item sees no last booking: the
      earliest-booking lookup shows an item's bookings to its owner only. */
  lemma NonOwnerSeesNoLastBooking(s: Store, userId: int, it: Item)
    requires BookingOwnersAgree(s) && it in s.items && it.ownerId != userId
    ensures ItemView(s, userId, it).lastBooking.None?
  {
    forall b | b in s.bookings ensures !(b.item.id == it.id && b.item.ownerId == userId) {
      if b.item.id == it.id {
        assert b.item.ownerId == it.ownerId;
      }
    }
  }

  /** The item view with the intended next booking, as the native
      `findNextBookingByItemId` selects it: the latest-starting booking of
      this item under the caller as owner. */
  function CorrectedItemView(s: Store, userId: int, it: Item): (v: ItemBookingCommentDto)
    ensures v.nextBooking.None? <==> forall b :: b in s.bookings ==> !(b.item.id == it.id && b.item.ownerId == userId)
  {
    ItemView(s, userId, it).(nextBooking := ShortOf(NextBooking(s.bookings, it.id, userId)))
  }

  /** What the corrected view shows: the item's own fields; as last booking
      the earliest, and as next booking the latest, of the bookings of this
      item under the caller as owner; and every comment on the item. */
  lemma CorrectedItemViewShows(s: Store, userId: int, it: Item)
    ensures var v := CorrectedItemView(s, userId, it);
      && v.id == it.id && v.name == it.name && v.description == it.description && v.available == it.available
      && (v.lastBooking.None? <==> forall b :: b in s.bookings ==> !(b.item.id == it.id && b.item.ownerId == userId))
      && (v.nextBooking.None? <==> v.lastBooking.None?)
      && (v.nextBooking.Some? ==>
            exists b :: (b in s.bookings && b.item.id == it.id && b.item.ownerId == userId
              && v.nextBooking.value == ToShortDto(b)
              && forall c :: c in s.bookings && c.item.id == it.id && c.item.ownerId == userId ==> c.start <= b.start))
      && v.comments == Some(CommentDtos(s.comments, it.id))
  {
    var v := CorrectedItemView(s, userId, it);
    if v.nextBooking.Some? {
      var b := NextBooking(s.bookings, it.id, userId).value;
      assert v.nextBooking.value == ToShortDto(b);
    }
  }

  /** In the corrected view a caller who does not own the item sees neither
      a last nor a next booking. */
  lemma CorrectedNonOwnerSeesNoBookings(s: Store, userId: int, it: Item)
    requires BookingOwnersAgree(s) && it in s.items && it.ownerId != userId
    ensures CorrectedItemView(s, userId, it).lastBooking.None?
    ensures CorrectedItemView(s, userId, it).nextBooking.None?
  {
    NonOwnerSeesNoLastBooking(s, userId, it);
  }

  /** Where the two views differ for the owner: the owner of item 5, whose
      one booking is number 7, sees no next booking as written, and that
      booking in the corrected view. */
  lemma OwnerMissesNextBooking()
    ensures var b := Booking(7, 100, 200, Item(5, "drill", "", true, 1, None), 2, Waiting);
      var s := Store([], [b.item], [b], [], [], 0, 5, 7, 0, 0);
      && ItemView(s, 1, b.item).nextBooking == None
      && CorrectedItemView(s, 1, b.item).nextBooking == Some(ToShortDto(b))
  {
    var b := Booking(7, 100, 200, Item(5, "drill", "", true, 1, None), 2, Waiting);
    NextBookingComparesBookingId();
    assert ShortOf(Some(b)) == Some(ToShortDto(b));
  }

  /** Where the two views differ for a caller who is not the owner: user 1
      owns item 9, whose one booking is number 5, and views item 5 of user 2.
      As written, that booking of item 9 is shown as item 5's next booking;
      the corrected view shows none. The store's owners agree. */
  lemma NonOwnerSeesForeignBooking()
    ensures var mine, theirs := Item(9, "drill", "", true, 1, None), Item(5, "saw", "", true, 2, None);
      var b := Booking(5, 100, 200, mine, 3, Approved);
      var s := Store([], [mine, theirs], [b], [], [], 0, 9, 5, 0, 0);
      && BookingOwnersAgree(s) && theirs in s.items && theirs.ownerId != 1
      && ItemView(s, 1, theirs).nextBooking == Some(ToShortDto(b))
      && CorrectedItemView(s, 1, theirs).nextBooking == None
  {
    var mine, theirs := Item(9, "drill", "", true, 1, None), Item(5, "saw", "", true, 2, None);
    var b := Booking(5, 100, 200, mine, 3, Approved);
    var found := NextBookingAsWritten([b], 1, 5);
    assert b in [b];
    assert found.Some? && found.value in [b];
    assert ShortOf(found) == Some(ToShortDto(b));
  }

  /** `getItemsByUserId`: the caller must exist and own at least one item
      (`ItemNotFoundException` otherwise); then the view of each owned item,
      in table order, built in a loop. */
  method GetItemsByUserId(db: Database, userId: int) returns (r: Result<seq<ItemBookingCommentDto>>)
    ensures FindUser(db.users, userId).None? ==> r == Failure(UserNotFound)
    ensures FindUser(db.users, userId).Some? && OwnedItems(db.items, userId) == [] ==> r == Failure(ItemNotFound)
    ensures r.Success? <==> FindUser(db.users, userId).Some? && OwnedItems(db.items, userId) != []
    ensures r.Success? ==>
      var owned := OwnedItems(db.items, userId);
      && |r.value| == |owned|
      && forall i :: 0 <= i < |owned| ==> r.value[i] == ItemView(db.State(), userId, owned[i])
  {
    var user := FindById(db.users, userId);
    if user.Failure? {
      return Failure(user.error);
    }
    var owned := OwnedItems(db.items, userId);
    if owned == [] {
      return Failure(ItemNotFound);
    }
    var st := db.State();
    var views := Views(owned, (it: Item) => ItemView(st, userId, it));
    r := Success(views);
  }

  /** The loop of `getItemsByUserId`: the view of each item, appended in
      order. */
  method Views(owned: seq<Item>, view: Item -> ItemBookingCommentDto) returns (views: seq<ItemBookingCommentDto>)
    ensures |views| == |owned|
    ensures forall j :: 0 <= j < |owned| ==> views[j] == view(owned[j])
  {
    views := [];
    var i := 0;
    while i < |owned|
      invariant 0 <= i <= |owned|
      invariant |views| == i
      invariant forall j :: 0 <= j < i ==> views[j] == view(owned[j])
    {
      views := views + [view(owned[i])];
      i := i + 1;
    }
  }

  /** The list of the owner's items shows each item exactly as the single
      item view does. */
  lemma OwnerListMatchesItemView(s: Store, userId: int, i: nat)
    requires FindUser(s.users, userId).Some?
    requires i < |OwnedItems(s.items, userId)|
    requires ItemsIssued(s.items, s.lastItemId)
    ensures GetByItemId(s, OwnedItems(s.items, userId)[i].id, userId)
      == Success(ItemView(s, userId, OwnedItems(s.items, userId)[i]))
  {
    var it := OwnedItems(s.items, userId)[i];
    assert it in s.items;
    var found := FindItem(s.items, it.id).value;
    var a :| 0 <= a < |s.items| && s.items[a] == it;
    var b :| 0 <= b < |s.items| && s.items[b] == found;
  }

  // -----------------------------------------------------------------------
  // search

  /** `search`: blank text finds nothing; otherwise the DTOs of the
      available items whose name or description contains the text, ignoring
      case, as a set. */
  function Search(items: seq<Item>, text: string): (r: set<ItemDto>)
    ensures IsBlank(text) ==> r == {}
    ensures forall it :: it in items && SearchMatches(it, text) && !IsBlank(text) ==> ItemToDto(it) in r
    ensures forall d :: d in r ==> exists it :: it in items && SearchMatches(it, text) && d == ItemToDto(it)
  {
    if IsBlank(text) then {}
    else set it | it in items && SearchMatches(it, text) :: ItemToDto(it)
  }

  // -----------------------------------------------------------------------
  // createComment

  /** The checks of `createComment`, in order: the caller exists; the
      caller has a booking of the item that ended before `now`, and the text
      is not empty; the item exists. On success, the author and the item. */
  function CommentCheck(s: Store, text: string, userId: int, itemId: int, now: Time): (r: Result<(User, Item)>)
    ensures FindUser(s.users, userId).None? ==> r == Failure(UserNotFound)
    ensures r == Failure(UnavailableBooking(NoPastBooking)) <==>
      && FindUser(s.users, userId).Some?
      && (text == [] || forall b :: b in s.bookings ==> !(b.item.id == itemId && b.bookerId == userId && b.end < now))
    ensures r.Success? <==>
      && FindUser(s.users, userId).Some?
      && text != []
      && (exists b :: b in s.bookings && b.item.id == itemId && b.bookerId == userId && b.end < now)
      && FindItem(s.items, itemId).Some?
    ensures (&& FindUser(s.users, userId).Some? && text != []
             && (exists b :: b in s.bookings && b.item.id == itemId && b.bookerId == userId && b.end < now)
             && FindItem(s.items, itemId).None?) ==>
      r == Failure(ItemNotFound)
    ensures r.Success? ==> r.value == (FindUser(s.users, userId).value, FindItem(s.items, itemId).value)
  {
    match FindById(s.users, userId)
    case Failure(e) => Failure(e)
    case Success(user) =>
      var past := PastByItemAndBooker(s.bookings, itemId, userId, now);
      if past == [] || text == [] then
        assert past != [] ==> past[0] in past;
        Failure(UnavailableBooking(NoPastBooking))
      else
        assert past[0] in past;
        match GetItemById(s.items, itemId)
        case Failure(e) => Failure(e)
        case Success(it) => Success((user, it))
  }

  /** `createComment`: after the checks, saves the comment under the next
      identity value, by the caller, on the item, dated `now`, and returns
      its DTO. On failure nothing changes. */
  method CreateComment(db: Database, text: string, userId: int, itemId: int, now: Time) returns (r: Result<CommentDto>)
    requires db.Valid()
    modifies db
    ensures db.Valid()
    ensures match CommentCheck(old(db.State()), text, userId, itemId, now)
      case Failure(e) => r == Failure(e) && db.State() == old(db.State())
      case Success(found) =>
        var c := Comment(old(db.lastCommentId) + 1, text, found.1.id, found.0, now);
        && r == Success(CommentToDto(c))
        && db.State() == old(db.State()).(comments := old(db.comments) + [c], lastCommentId := c.id)
  {
    var check := CommentCheck(db.State(), text, userId, itemId, now);
    if check.Failure? {
      return Failure(check.error);
    }
    var c := Comment(db.lastCommentId + 1, text, check.value.1.id, check.value.0, now);
    db.SaveNewComment(c);
    r := Success(CommentToDto(c));
  }

  /** A comment is accepted only from a user whose booking of that item
      ended strictly before `now`: one that ends at `now`, or a booking of
      another item, does not count. */
  lemma CommentNeedsEndedBooking(s: Store, text: string, userId: int, itemId: int, now: Time)
    requires CommentCheck(s, text, userId, itemId, now).Success?
    ensures exists b :: b in s.bookings && b.item.id == itemId && b.bookerId == userId && b.end < now
    ensures text != []
  {
  }
}
