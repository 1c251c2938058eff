/** `BookingServiceImpl`: booking creation, the owner's decision, the
    visibility rule of a single booking, and the state listings. "now" is a
    parameter. */
module BookingServiceImpl {
  import opened Common
  import opened Entities
  import opened Seqs
  import opened BookingMapper
  import opened BookingRepository
  import opened Persistence

  // -----------------------------------------------------------------------
  // create

  /** The checks `create` makes before it saves, in its order: the dates
      (`checkDates`), the item (`getItemById`), self-booking, availability,
      the booker. On success, the item to book. */
  function CreateCheck(items: seq<Item>, users: seq<User>, start: Time, end: Time, itemId: int, userId: int)
    : (r: Result<Item>)
    ensures r.Success? <==>
      && start <= end
      && FindItem(items, itemId).Some?
      && FindItem(items, itemId).value.ownerId != userId
      && FindItem(items, itemId).value.available
      && FindUser(users, userId).Some?
    ensures r.Success? ==> r.value == FindItem(items, itemId).value
  {
    if end < start then Failure(UnavailableBooking(EndBeforeStart))
    else match FindItem(items, itemId)
      case None => Failure(ItemNotFound)
      case Some(item) =>
        if item.ownerId == userId then Failure(BookingNotFound(OwnItem))
        else if !item.available then Failure(UnavailableBooking(NotAvailable))
        else if FindUser(users, userId).None? then Failure(UserNotFound)
        else Success(item)
  }

  /** Which check fails first: a reversed period wins over everything; a
      missing item over the remaining checks; booking one's own item over
      unavailability and a missing booker; unavailability over a missing
      booker. End equal to start passes the date check. */
  lemma CreateCheckOrder(items: seq<Item>, users: seq<User>, start: Time, end: Time, itemId: int, userId: int)
    ensures end < start ==>
      CreateCheck(items, users, start, end, itemId, userId) == Failure(UnavailableBooking(EndBeforeStart))
    ensures start <= end && FindItem(items, itemId).None? ==>
      CreateCheck(items, users, start, end, itemId, userId) == Failure(ItemNotFound)
    ensures start <= end && FindItem(items, itemId).Some? && FindItem(items, itemId).value.ownerId == userId ==>
      CreateCheck(items, users, start, end, itemId, userId) == Failure(BookingNotFound(OwnItem))
    ensures start <= end && FindItem(items, itemId).Some? && FindItem(items, itemId).value.ownerId != userId
            && !FindItem(items, itemId).value.available ==>
      CreateCheck(items, users, start, end, itemId, userId) == Failure(UnavailableBooking(NotAvailable))
    ensures CreateCheck(items, users, start, end, itemId, userId).Failure? &&
            CreateCheck(items, users, start, end, itemId, userId).error == UserNotFound ==>
      FindUser(users, userId).None? && start <= end && FindItem(items, itemId).Some?
  {
  }

  /** `create`: runs the checks; on success saves a new WAITING booking of the
      found item by the caller, with the requested period and the next
      booking id, and returns its DTO. On failure nothing changes. */
  method Create(db: Database, start: Time, end: Time, itemId: int, userId: int) returns (r: Result<BookingDto>)
    requires db.Valid()
    modifies db
    ensures db.Valid()
    ensures match CreateCheck(old(db.items), old(db.users), start, end, itemId, userId)
      case Failure(e) => r == Failure(e) && db.State() == old(db.State())
      case Success(item) =>
        var b := Booking(old(db.lastBookingId) + 1, start, end, item, userId, Waiting);
        && r == Success(ToDto(b))
        && db.State() == old(db.State()).(bookings := old(db.bookings) + [b],
                                         lastBookingId := old(db.lastBookingId) + 1)
  {
    var check := CreateCheck(db.items, db.users, start, end, itemId, userId);
    if check.Failure? {
      return Failure(check.error);
    }
    var id := db.lastBookingId + 1;
    var b := Booking(id, start, end, check.value, userId, Waiting);
    db.SaveNewBooking(b);
    r := Success(ToDto(b));
  }

  // -----------------------------------------------------------------------
  // setBookingStatus

  /** The checks of `setBookingStatus`: the booking exists, the caller owns
      its item (being its booker is not enough), and it is not APPROVED yet.
      On success, the booking. */
  function StatusCheck(bookings: seq<Booking>, bookingId: int, userId: int): (r: Result<Booking>)
    ensures r.Success? <==>
      && FindBooking(bookings, bookingId).Some?
      && FindBooking(bookings, bookingId).value.item.ownerId == userId
      && FindBooking(bookings, bookingId).value.status != Approved
    ensures r.Success? ==> r.value == FindBooking(bookings, bookingId).value
    ensures FindBooking(bookings, bookingId).None? ==> r == Failure(BookingNotFound(NoSuchBooking))
    ensures FindBooking(bookings, bookingId).Some? && FindBooking(bookings, bookingId).value.item.ownerId != userId ==>
      r == Failure(BookingNotFound(NotItemOwner))
    ensures (&& FindBooking(bookings, bookingId).Some?
             && FindBooking(bookings, bookingId).value.item.ownerId == userId
             && FindBooking(bookings, bookingId).value.status == Approved) ==>
      r == Failure(UnavailableBooking(AlreadyApproved))
  {
    match FindBooking(bookings, bookingId)
    case None => Failure(BookingNotFound(NoSuchBooking))
    case Some(b) =>
      if b.item.ownerId != userId then Failure(BookingNotFound(NotItemOwner))
      else if b.status == Approved then Failure(UnavailableBooking(AlreadyApproved))
      else Success(b)
  }

  /** The status the owner's decision gives. */
  function Decision(approved: bool): (st: BookingStatus)
    ensures st == Approved <==> approved
    ensures st != Waiting
  {
    if approved then Approved else Rejected
  }

  /** The bookings table after a successful decision: the decided booking
      with its new status in its place, every other row as it was. */
  function Decide(bookings: seq<Booking>, bookingId: int, approved: bool): (r: seq<Booking>)
    ensures |r| == |bookings|
    ensures BookingIndex(bookings, bookingId).None? ==> r == bookings
    ensures BookingIndex(bookings, bookingId).Some? ==>
      var k := BookingIndex(bookings, bookingId).value;
      && r[k] == bookings[k].(status := Decision(approved))
      && forall j :: 0 <= j < |r| && j != k ==> r[j] == bookings[j]
  {
    match BookingIndex(bookings, bookingId)
    case None => bookings
    case Some(k) => bookings[k := bookings[k].(status := Decision(approved))]
  }

  /** `setBookingStatus`: on success the booking's status becomes APPROVED
      or REJECTED, nothing else in the store changes, and the updated
      booking's DTO is returned. On failure nothing changes. */
  method SetBookingStatus(db: Database, bookingId: int, userId: int, approved: bool) returns (r: Result<BookingDto>)
    requires db.Valid()
    modifies db
    ensures db.Valid()
    ensures match StatusCheck(old(db.bookings), bookingId, userId)
      case Failure(e) => r == Failure(e) && db.State() == old(db.State())
      case Success(b) =>
        && r == Success(ToDto(b.(status := Decision(approved))))
        && db.State() == old(db.State()).(bookings := Decide(old(db.bookings), bookingId, approved))
  {
    var check := StatusCheck(db.bookings, bookingId, userId);
    if check.Failure? {
      return Failure(check.error);
    }
    var k := BookingIndex(db.bookings, bookingId).value;
    var updated := db.bookings[k].(status := Decision(approved));
    db.SaveBookingAt(k, updated);
    r := Success(ToDto(updated));
  }

  /** APPROVED is final: once the owner approves a booking, every further
      decision on it fails, with "already approved" when the caller is the
      owner. */
  lemma ApprovedIsFinal(bookings: seq<Booking>, bookingId: int, owner: int, userId: int)
    requires StatusCheck(bookings, bookingId, owner).Success?
    ensures var after := Decide(bookings, bookingId, true);
      && StatusCheck(after, bookingId, userId).Failure?
      && (userId == owner ==> StatusCheck(after, bookingId, userId) == Failure(UnavailableBooking(AlreadyApproved)))
  {
    var k := BookingIndex(bookings, bookingId).value;
    var b := bookings[k].(status := Approved);
    FindBookingAfterOverwrite(bookings, k, b);
  }

  /** A rejection is not final: the owner may decide again, either way. */
  lemma RejectedCanBeDecidedAgain(bookings: seq<Booking>, bookingId: int, owner: int, approved: bool)
    requires StatusCheck(bookings, bookingId, owner).Success?
    ensures var after := Decide(bookings, bookingId, false);
      && StatusCheck(after, bookingId, owner).Success?
      && Decide(after, bookingId, approved) == Decide(bookings, bookingId, approved)
  {
    var k := BookingIndex(bookings, bookingId).value;
    var b := bookings[k].(status := Rejected);
    FindBookingAfterOverwrite(bookings, k, b);
    var after := Decide(bookings, bookingId, false);
    assert Decide(after, bookingId, approved) == Decide(bookings, bookingId, approved) by {
      assert BookingIndex(after, bookingId) == Some(k);
    }
  }

  // -----------------------------------------------------------------------
  // getById

  /** `getById`: the booking's DTO for its booker or its item's owner;
      anyone else is told it does not exist. */
  function GetById(bookings: seq<Booking>, bookingId: int, userId: int): (r: Result<BookingDto>)
    ensures r.Success? <==>
      FindBooking(bookings, bookingId).Some? &&
      (FindBooking(bookings, bookingId).value.bookerId == userId ||
       FindBooking(bookings, bookingId).value.item.ownerId == userId)
    ensures r.Success? ==> r.value == ToDto(FindBooking(bookings, bookingId).value)
    ensures r.Failure? ==> r.error.BookingNotFound?
  {
    match FindBooking(bookings, bookingId)
    case None => Failure(BookingNotFound(NoSuchBooking))
    case Some(b) =>
      if b.bookerId != userId && b.item.ownerId != userId then Failure(BookingNotFound(NoRights))
      else Success(ToDto(b))
  }

  // -----------------------------------------------------------------------
  // Listings

  /** Whether the booker listing for `state` shows booking `b` of `userId`,
      written out from the meaning of each state. */
  predicate BookerSees(state: BookingState, userId: int, now: Time, b: Booking) {
    b.bookerId == userId &&
    match state
    case All => true
    case Current => b.start < now < b.end
    case Past => b.end < now
    case Future => now < b.start
    case WaitingState => b.status == Waiting
    case RejectedState => b.status == Rejected
    case UnsupportedState => false
  }

  /** The `switch` of the booker listing: the booker query each supported
      state calls. */
  function BookerQuery(bookings: seq<Booking>, userId: int, state: BookingState, now: Time): (r: seq<Booking>)
    requires state != UnsupportedState
    ensures multiset(r) <= multiset(bookings)
    ensures forall i :: 0 <= i < |r| ==> r[i].bookerId == userId
  {
    match state
    case All => AllByBooker(bookings, userId)
    case Current => CurrentByBooker(bookings, userId, now)
    case Past => PastByBooker(bookings, userId, now)
    case Future => FutureByBooker(bookings, userId, now)
    case WaitingState => ByBookerAndStatus(bookings, userId, Waiting)
    case RejectedState => ByBookerAndStatus(bookings, userId, Rejected)
  }

  /** Each supported state's booker query selects exactly what `BookerSees`
      describes, latest start first. */
  lemma BookerQuerySelects(bookings: seq<Booking>, userId: int, state: BookingState, now: Time)
    requires state != UnsupportedState
    ensures var r := BookerQuery(bookings, userId, state, now);
      && (forall b :: b in r <==> b in bookings && BookerSees(state, userId, now, b))
      && Ordered(r, StartDescending)
  {
    match state {
      case All =>
      case Current =>
      case Past =>
      case Future =>
      case WaitingState =>
      case RejectedState =>
    }
  }

  /** Each supported state's booker query holds every booking `BookerSees`
      describes exactly as often as it is stored, and no other booking. */
  lemma BookerQueryCounts(bookings: seq<Booking>, userId: int, state: BookingState, now: Time)
    requires state != UnsupportedState
    ensures var r := BookerQuery(bookings, userId, state, now);
      forall b :: multiset(r)[b] == if BookerSees(state, userId, now, b) then multiset(bookings)[b] else 0
  {
    match state {
      case All =>
      case Current =>
      case Past =>
      case Future =>
      case WaitingState =>
      case RejectedState =>
    }
  }

  /** The booker listing's selection for `state`, as a filter. */
  function BookerSelection(state: BookingState, userId: int, now: Time): Booking -> bool {
    (b: Booking) => BookerSees(state, userId, now, b)
  }

  /** `findAllByUserId(userId, state)`: the user must exist; the unsupported
      state throws; every other state lists its booker query. */
  function FindAllByUserId(users: seq<User>, bookings: seq<Booking>, userId: int, state: BookingState, now: Time)
    : (r: Result<seq<BookingDto>>)
    ensures FindUser(users, userId).None? ==> r == Failure(UserNotFound)
    ensures FindUser(users, userId).Some? && state == UnsupportedState ==> r == Failure(UnsupportedStatus)
    ensures r.Success? <==> FindUser(users, userId).Some? && state != UnsupportedState
  {
    if FindUser(users, userId).None? then Failure(UserNotFound)
    else if state == UnsupportedState then Failure(UnsupportedStatus)
    else Success(ToDtoList(BookerQuery(bookings, userId, state, now)))
  }

  /** A successful booker listing shows the DTO of exactly the bookings the
      state describes, latest start first. */
  lemma FindAllByUserIdMeaning(users: seq<User>, bookings: seq<Booking>, userId: int, state: BookingState, now: Time)
    requires FindAllByUserId(users, bookings, userId, state, now).Success?
    ensures var r := FindAllByUserId(users, bookings, userId, state, now).value;
      && (forall b :: b in bookings && BookerSees(state, userId, now, b) ==> ToDto(b) in r)
      && (forall i :: 0 <= i < |r| ==> exists b :: b in bookings && BookerSees(state, userId, now, b) && r[i] == ToDto(b))
      && (forall i, j :: 0 <= i < j < |r| ==> r[i].start >= r[j].start)
  {
    assert FindAllByUserId(users, bookings, userId, state, now).value == ToDtoList(BookerQuery(bookings, userId, state, now));
    BookerListing(bookings, userId, state, now);
  }

  /** The DTO list of a booker query: the DTO of exactly the bookings the
      state describes, latest start first. */
  lemma BookerListing(bookings: seq<Booking>, userId: int, state: BookingState, now: Time)
    requires state != UnsupportedState
    ensures var r := ToDtoList(BookerQuery(bookings, userId, state, now));
      && (forall b :: b in bookings && BookerSees(state, userId, now, b) ==> ToDto(b) in r)
      && (forall i :: 0 <= i < |r| ==> exists b :: b in bookings && BookerSees(state, userId, now, b) && r[i] == ToDto(b))
      && (forall i, j :: 0 <= i < j < |r| ==> r[i].start >= r[j].start)
  {
    var q := BookerQuery(bookings, userId, state, now);
    BookerQuerySelects(bookings, userId, state, now);
    ListingOfQuery(q, bookings, (b: Booking) => BookerSees(state, userId, now, b), ToDtoList(q));
  }

  /** A successful booker listing has one row per stored booking the state
      describes. */
  lemma FindAllByUserIdCount(users: seq<User>, bookings: seq<Booking>, userId: int, state: BookingState, now: Time)
    requires FindAllByUserId(users, bookings, userId, state, now).Success?
    ensures |FindAllByUserId(users, bookings, userId, state, now).value| == |Filter(bookings, BookerSelection(state, userId, now))|
  {
    var q := BookerQuery(bookings, userId, state, now);
    BookerQueryCounts(bookings, userId, state, now);
    SelectionLength(q, bookings, BookerSelection(state, userId, now));
  }

  /** A query result holding each selected booking exactly as often as it
      is stored is as long as the selection. */
  lemma SelectionLength(q: seq<Booking>, bookings: seq<Booking>, sees: Booking -> bool)
    requires forall b :: multiset(q)[b] == if sees(b) then multiset(bookings)[b] else 0
    ensures |q| == |Filter(bookings, sees)|
  {
    forall b ensures multiset(q)[b] == multiset(Filter(bookings, sees))[b] {
      FilterCount(bookings, sees, b);
    }
    assert multiset(q) == multiset(Filter(bookings, sees));
  }

  /** The DTO list of a query result holds the DTO of every booking the
      query selects, and only those; an order on start carries over. */
  lemma ListingOfQuery(q: seq<Booking>, bookings: seq<Booking>, sees: Booking -> bool, r: seq<BookingDto>)
    requires r == ToDtoList(q)
    requires forall b :: b in q <==> b in bookings && sees(b)
    ensures forall b :: b in bookings && sees(b) ==> ToDto(b) in r
    ensures forall i :: 0 <= i < |r| ==> exists b :: b in bookings && sees(b) && r[i] == ToDto(b)
    ensures Ordered(q, StartDescending) ==> forall i, j :: 0 <= i < j < |r| ==> r[i].start >= r[j].start
    ensures Ordered(q, StartAscending) ==> forall i, j :: 0 <= i < j < |r| ==> r[i].start <= r[j].start
  {
    ListingComplete(q, bookings, sees, r);
    ListingSound(q, bookings, sees, r);
    ListingOrder(q, r);
  }

  lemma ListingComplete(q: seq<Booking>, bookings: seq<Booking>, sees: Booking -> bool, r: seq<BookingDto>)
    requires r == ToDtoList(q)
    requires forall b :: b in bookings && sees(b) ==> b in q
    ensures forall b :: b in bookings && sees(b) ==> ToDto(b) in r
  {
    forall b | b in bookings && sees(b) ensures ToDto(b) in r {
      var k :| 0 <= k < |q| && q[k] == b;
      assert r[k] == ToDto(b);
    }
  }

  lemma ListingSound(q: seq<Booking>, bookings: seq<Booking>, sees: Booking -> bool, r: seq<BookingDto>)
    requires r == ToDtoList(q)
    requires forall b :: b in q ==> b in bookings && sees(b)
    ensures forall i :: 0 <= i < |r| ==> exists b :: b in bookings && sees(b) && r[i] == ToDto(b)
  {
    forall i | 0 <= i < |r| ensures exists b :: b in bookings && sees(b) && r[i] == ToDto(b) {
      assert q[i] in q;
    }
  }

  lemma ListingOrder(q: seq<Booking>, r: seq<BookingDto>)
    requires r == ToDtoList(q)
    ensures Ordered(q, StartDescending) ==> forall i, j :: 0 <= i < j < |r| ==> r[i].start >= r[j].start
    ensures Ordered(q, StartAscending) ==> forall i, j :: 0 <= i < j < |r| ==> r[i].start <= r[j].start
  {
    assert forall i :: 0 <= i < |r| ==> r[i].start == q[i].start;
  }

  /** Whether the owner listing for `state` shows booking `b`: a booking of
      one of the owner's items, with the owner's inclusive bounds. */
  predicate OwnerSees(state: BookingState, ownerId: int, now: Time, b: Booking) {
    b.item.ownerId == ownerId &&
    match state
    case All => true
    case Current => b.start <= now < b.end
    case Past => b.end <= now
    case Future => now <= b.start
    case WaitingState => b.status == Waiting
    case RejectedState => b.status == Rejected
    case UnsupportedState => false
  }

  /** The order an owner listing promises: latest start first for ALL and
      FUTURE, earliest first for CURRENT and WAITING, none otherwise. */
  function OwnerOrder(state: BookingState): Order {
    match state
    case All => StartDescending
    case Future => StartDescending
    case Current => StartAscending
    case WaitingState => StartAscending
    case _ => Unordered
  }

  /** The `switch` of the owner listing: the owner query each supported
      state calls. */
  function OwnerQuery(bookings: seq<Booking>, ownerId: int, state: BookingState, now: Time): (r: seq<Booking>)
    requires state != UnsupportedState
    ensures multiset(r) <= multiset(bookings)
    ensures forall i :: 0 <= i < |r| ==> r[i].item.ownerId == ownerId
  {
    match state
    case All => AllByOwner(bookings, ownerId)
    case Current => CurrentByOwner(bookings, ownerId, now)
    case Past => PastByOwner(bookings, ownerId, now)
    case Future => FutureByOwner(bookings, ownerId, now)
    case WaitingState => ByOwnerAndStatusByStart(bookings, ownerId, Waiting)
    case RejectedState => ByOwnerAndStatus(bookings, ownerId, Rejected)
  }

  /** Each supported state's owner query selects exactly what `OwnerSees`
      describes, in the state's order. */
  lemma OwnerQuerySelects(bookings: seq<Booking>, ownerId: int, state: BookingState, now: Time)
    requires state != UnsupportedState
    ensures var r := OwnerQuery(bookings, ownerId, state, now);
      && (forall b :: b in r <==> b in bookings && OwnerSees(state, ownerId, now, b))
      && Ordered(r, OwnerOrder(state))
  {
    match state {
      case All =>
      case Current =>
      case Past =>
      case Future =>
      case WaitingState =>
      case RejectedState =>
    }
  }

  /** Each supported state's owner query holds every booking `OwnerSees`
      describes exactly as often as it is stored, and no other booking. */
  lemma OwnerQueryCounts(bookings: seq<Booking>, ownerId: int, state: BookingState, now: Time)
    requires state != UnsupportedState
    ensures var r := OwnerQuery(bookings, ownerId, state, now);
      forall b :: multiset(r)[b] == if OwnerSees(state, ownerId, now, b) then multiset(bookings)[b] else 0
  {
    match state {
      case All =>
      case Current =>
      case Past =>
      case Future =>
      case WaitingState =>
      case RejectedState =>
    }
  }

  /** The owner listing's selection for `state`, as a filter. */
  function OwnerSelection(state: BookingState, ownerId: int, now: Time): Booking -> bool {
    (b: Booking) => OwnerSees(state, ownerId, now, b)
  }

  /** `findAllByOwnerId(ownerId, state)`: the user must exist; the
      unsupported state throws; every other state lists its owner query. */
  function FindAllByOwnerId(users: seq<User>, bookings: seq<Booking>, ownerId: int, state: BookingState, now: Time)
    : (r: Result<seq<BookingDto>>)
    ensures FindUser(users, ownerId).None? ==> r == Failure(UserNotFound)
    ensures FindUser(users, ownerId).Some? && state == UnsupportedState ==> r == Failure(UnsupportedStatus)
    ensures r.Success? <==> FindUser(users, ownerId).Some? && state != UnsupportedState
  {
    if FindUser(users, ownerId).None? then Failure(UserNotFound)
    else if state == UnsupportedState then Failure(UnsupportedStatus)
    else Success(ToDtoList(OwnerQuery(bookings, ownerId, state, now)))
  }

  /** A successful owner listing shows the DTO of exactly the bookings the
      state describes. */
  lemma FindAllByOwnerIdMeaning(users: seq<User>, bookings: seq<Booking>, ownerId: int, state: BookingState, now: Time)
    requires FindAllByOwnerId(users, bookings, ownerId, state, now).Success?
    ensures var r := FindAllByOwnerId(users, bookings, ownerId, state, now).value;
      && (forall b :: b in bookings && OwnerSees(state, ownerId, now, b) ==> ToDto(b) in r)
      && (forall i :: 0 <= i < |r| ==> exists b :: b in bookings && OwnerSees(state, ownerId, now, b) && r[i] == ToDto(b))
  {
    assert FindAllByOwnerId(users, bookings, ownerId, state, now).value == ToDtoList(OwnerQuery(bookings, ownerId, state, now));
    OwnerListing(bookings, ownerId, state, now);
  }

  /** The DTO list of an owner query: the DTO of exactly the bookings the
      state describes. */
  lemma OwnerListing(bookings: seq<Booking>, ownerId: int, state: BookingState, now: Time)
    requires state != UnsupportedState
    ensures var r := ToDtoList(OwnerQuery(bookings, ownerId, state, now));
      && (forall b :: b in bookings && OwnerSees(state, ownerId, now, b) ==> ToDto(b) in r)
      && (forall i :: 0 <= i < |r| ==> exists b :: b in bookings && OwnerSees(state, ownerId, now, b) && r[i] == ToDto(b))
  {
    OwnerQuerySelects(bookings, ownerId, state, now);
    OwnerListingOf(OwnerQuery(bookings, ownerId, state, now), bookings, ownerId, state, now);
  }

  /** The DTO list of any selection of exactly the bookings `OwnerSees`
      describes holds the DTO of each of them and of no other booking. */
  lemma OwnerListingOf(q: seq<Booking>, bookings: seq<Booking>, ownerId: int, state: BookingState, now: Time)
    requires forall b :: b in q <==> b in bookings && OwnerSees(state, ownerId, now, b)
    ensures var r := ToDtoList(q);
      && (forall b :: b in bookings && OwnerSees(state, ownerId, now, b) ==> ToDto(b) in r)
      && (forall i :: 0 <= i < |r| ==> exists b :: b in bookings && OwnerSees(state, ownerId, now, b) && r[i] == ToDto(b))
  {
    var r := ToDtoList(q);
    forall b | b in bookings && OwnerSees(state, ownerId, now, b) ensures ToDto(b) in r {
      var k :| 0 <= k < |q| && q[k] == b;
      assert r[k] == ToDto(b);
    }
    forall i | 0 <= i < |r| ensures exists b :: b in bookings && OwnerSees(state, ownerId, now, b) && r[i] == ToDto(b) {
      assert q[i] in q;
    }
  }

  /** A successful owner listing has one row per stored booking the state
      describes. */
  lemma FindAllByOwnerIdCount(users: seq<User>, bookings: seq<Booking>, ownerId: int, state: BookingState, now: Time)
    requires FindAllByOwnerId(users, bookings, ownerId, state, now).Success?
    ensures |FindAllByOwnerId(users, bookings, ownerId, state, now).value| == |Filter(bookings, OwnerSelection(state, ownerId, now))|
  {
    var q := OwnerQuery(bookings, ownerId, state, now);
    OwnerQueryCounts(bookings, ownerId, state, now);
    SelectionLength(q, bookings, OwnerSelection(state, ownerId, now));
  }

  /** The owner listings for ALL and FUTURE show the latest start first,
      those for CURRENT and WAITING the earliest start first. */
  lemma FindAllByOwnerIdOrder(users: seq<User>, bookings: seq<Booking>, ownerId: int, state: BookingState, now: Time)
    ensures var r := FindAllByOwnerId(users, bookings, ownerId, state, now);
      && (r.Success? && state in {All, Future} ==>
            forall i, j :: 0 <= i < j < |r.value| ==> r.value[i].start >= r.value[j].start)
      && (r.Success? && state in {Current, WaitingState} ==>
            forall i, j :: 0 <= i < j < |r.value| ==> r.value[i].start <= r.value[j].start)
  {
    var r := FindAllByOwnerId(users, bookings, ownerId, state, now);
    if r.Success? {
      var q := OwnerQuery(bookings, ownerId, state, now);
      OwnerQuerySelects(bookings, ownerId, state, now);
      ListingOrder(q, r.value);
    }
  }

  /** `findAllByUserId(userId, from, size)`: no user check and no state; the
      page `from / size` of the booker's bookings, latest start first. It
      fails only on the page arithmetic, never because the user is
      unknown. */
  function PagedByBooker(bookings: seq<Booking>, userId: int, from: int, size: int): (r: Result<seq<BookingDto>>)
    ensures r.Success? <==> size >= 1 && from > -size
    ensures r.Failure? ==> r.error == if size == 0 then DivisionByZero else InvalidArgument
  {
    match Page(AllByBooker(bookings, userId), from, size)
    case Failure(e) => Failure(e)
    case Success(page) => Success(ToDtoList(page))
  }

  /** `findAllByOwnerId(ownerId, from, size)`: the same over the owner's
      bookings. */
  function PagedByOwner(bookings: seq<Booking>, ownerId: int, from: int, size: int): (r: Result<seq<BookingDto>>)
    ensures r.Success? <==> size >= 1 && from > -size
    ensures r.Failure? ==> r.error == if size == 0 then DivisionByZero else InvalidArgument
  {
    match Page(AllByOwner(bookings, ownerId), from, size)
    case Failure(e) => Failure(e)
    case Success(page) => Success(ToDtoList(page))
  }

  /** A booker page shows the booker's bookings, latest start first, from
      the page offset on: `size` of them, or as many as remain. */
  lemma PagedByBookerContents(bookings: seq<Booking>, userId: int, from: int, size: int)
    requires size >= 1 && from > -size
    ensures PagedByBooker(bookings, userId, from, size).Success?
    ensures var r, all, o := PagedByBooker(bookings, userId, from, size).value, AllByBooker(bookings, userId),
                             PageOffset(from, size);
      && |r| == Min(size, Max(0, |all| - o))
      && (forall i :: 0 <= i < |r| ==> r[i] == ToDto(all[o + i]) && r[i].booker.id == userId)
      && (forall i, j :: 0 <= i < j < |r| ==> r[i].start >= r[j].start)
  {
    var all := AllByBooker(bookings, userId);
    var o := PageOffset(from, size);
    PageOfListing(all, from, size);
    var r := PagedByBooker(bookings, userId, from, size).value;
    forall j | 0 <= j < |all| ensures all[j].bookerId == userId {
      assert all[j] in all;
    }
  }

  /** An owner page shows bookings of the owner's items, latest start
      first, from the page offset on: `size` of them, or as many as
      remain. */
  lemma PagedByOwnerContents(bookings: seq<Booking>, ownerId: int, from: int, size: int)
    requires size >= 1 && from > -size
    ensures PagedByOwner(bookings, ownerId, from, size).Success?
    ensures var r, all, o := PagedByOwner(bookings, ownerId, from, size).value, AllByOwner(bookings, ownerId),
                             PageOffset(from, size);
      && |r| == Min(size, Max(0, |all| - o))
      && (forall i :: 0 <= i < |r| ==> r[i] == ToDto(all[o + i]) && all[o + i].item.ownerId == ownerId)
      && (forall i, j :: 0 <= i < j < |r| ==> r[i].start >= r[j].start)
  {
    var all := AllByOwner(bookings, ownerId);
    var o := PageOffset(from, size);
    PageOfListing(all, from, size);
    var r := PagedByOwner(bookings, ownerId, from, size).value;
    forall j | 0 <= j < |all| ensures all[j].item.ownerId == ownerId {
      assert all[j] in all;
    }
  }

  /** The DTOs of a page of a listing are those of the listing's rows from
      the page offset on, `size` of them or as many as remain; a listing
      with the latest start first gives a page in the same order. */
  lemma PageOfListing(all: seq<Booking>, from: int, size: int)
    requires size >= 1 && from > -size
    ensures Page(all, from, size).Success?
    ensures var r, o := ToDtoList(Page(all, from, size).value), PageOffset(from, size);
      && |r| == Min(size, Max(0, |all| - o))
      && (forall i :: 0 <= i < |r| ==> r[i] == ToDto(all[o + i]))
      && (Ordered(all, StartDescending) ==> forall i, j :: 0 <= i < j < |r| ==> r[i].start >= r[j].start)
  {
    PageContents(all, from, size);
    var page := Page(all, from, size).value;
    if Ordered(all, StartDescending) {
      PageKeepsOrder(all, from, size);
      ListingOrder(page, ToDtoList(page));
    }
  }

  /** A page of a listing with the latest start first keeps that order. */
  lemma PageKeepsOrder(all: seq<Booking>, from: int, size: int)
    requires size >= 1 && from > -size
    requires Ordered(all, StartDescending)
    ensures Page(all, from, size).Success? && Ordered(Page(all, from, size).value, StartDescending)
  {
    PageContents(all, from, size);
    var page := Page(all, from, size).value;
    var o := PageOffset(from, size);
    forall i, j | 0 <= i < j < |page| ensures page[i].start >= page[j].start {
      assert page[i] == all[o + i] && page[j] == all[o + j];
    }
  }

  // -----------------------------------------------------------------------
  // The listings over a well-formed store

  /** Every stored booking ends no earlier than it starts, so the owner's
      CURRENT, PAST and FUTURE listings leave out none of the owner's
      bookings. */
  lemma OwnerListingsCoverStore(s: Store, b: Booking, now: Time)
    requires WellFormed(s) && b in s.bookings
    ensures var o := b.item.ownerId;
      b in CurrentByOwner(s.bookings, o, now) || b in PastByOwner(s.bookings, o, now)
      || b in FutureByOwner(s.bookings, o, now)
  {
    OwnerStatesCover(s.bookings, b, now);
  }

  /** On a well-formed store where no booking starts or ends at exactly
      `now`, the booker's CURRENT, PAST and FUTURE listings split the ALL
      listing. */
  lemma BookerListingsPartitionStore(s: Store, bookerId: int, now: Time)
    requires WellFormed(s)
    requires forall b :: b in s.bookings ==> b.start != now && b.end != now
    ensures multiset(CurrentByBooker(s.bookings, bookerId, now)) + multiset(PastByBooker(s.bookings, bookerId, now))
            + multiset(FutureByBooker(s.bookings, bookerId, now))
         == multiset(AllByBooker(s.bookings, bookerId))
  {
    BookerStatesPartition(s.bookings, bookerId, now);
  }
}
