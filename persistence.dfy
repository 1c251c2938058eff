/** The relational store behind the repositories of the services: one table
    per entity, each with an identity column. `save` of a new row takes the
    next identity value and appends the row; `save` of a loaded row
    overwrites the row with its id; `findById` looks a row up by id. */
module Persistence {
  import opened Common
  import opened Entities
  import opened Seqs

  /** The contents of the store at one moment. */
  datatype Store = Store(
    users: seq<User>,
    items: seq<Item>,
    bookings: seq<Booking>,
    comments: seq<Comment>,
    requests: seq<ItemRequest>,
    lastUserId: int,
    lastItemId: int,
    lastBookingId: int,
    lastCommentId: int,
    lastRequestId: int)

  /** A table holds its rows in the order the identity column issued their
      ids: positive, strictly increasing and no larger than the last id
      issued. In particular no two rows share an id. */
  ghost predicate UsersIssued(users: seq<User>, last: int) {
    && (forall i, j :: 0 <= i < j < |users| ==> users[i].id < users[j].id)
    && (forall i :: 0 <= i < |users| ==> 0 < users[i].id <= last)
    && last >= 0
  }

  ghost predicate ItemsIssued(items: seq<Item>, last: int) {
    && (forall i, j :: 0 <= i < j < |items| ==> items[i].id < items[j].id)
    && (forall i :: 0 <= i < |items| ==> 0 < items[i].id <= last)
    && last >= 0
  }

  ghost predicate BookingsIssued(bookings: seq<Booking>, last: int) {
    && (forall i, j :: 0 <= i < j < |bookings| ==> bookings[i].id < bookings[j].id)
    && (forall i :: 0 <= i < |bookings| ==> 0 < bookings[i].id <= last)
    && last >= 0
  }

  ghost predicate CommentsIssued(comments: seq<Comment>, last: int) {
    && (forall i, j :: 0 <= i < j < |comments| ==> comments[i].id < comments[j].id)
    && (forall i :: 0 <= i < |comments| ==> 0 < comments[i].id <= last)
    && last >= 0
  }

  ghost predicate RequestsIssued(requests: seq<ItemRequest>, last: int) {
    && (forall i, j :: 0 <= i < j < |requests| ==> requests[i].id < requests[j].id)
    && (forall i :: 0 <= i < |requests| ==> 0 < requests[i].id <= last)
    && last >= 0
  }

  /** Every stored booking ends no earlier than it starts: `create` checks
      the dates before it saves, and a decision keeps the period. */
  ghost predicate PeriodsValid(bookings: seq<Booking>) {
    forall b :: b in bookings ==> b.start <= b.end
  }

  ghost predicate WellFormed(s: Store) {
    && PeriodsValid(s.bookings)
    && UsersIssued(s.users, s.lastUserId)
    && ItemsIssued(s.items, s.lastItemId)
    && BookingsIssued(s.bookings, s.lastBookingId)
    && CommentsIssued(s.comments, s.lastCommentId)
    && RequestsIssued(s.requests, s.lastRequestId)
  }

  /** The store the services share. Its fields are the tables and the
      identity counters; the services change them through `save` and
      `deleteById`. */
  class Database {
    var users: seq<User>
    var items: seq<Item>
    var bookings: seq<Booking>
    var comments: seq<Comment>
    var requests: seq<ItemRequest>
    var lastUserId: int
    var lastItemId: int
    var lastBookingId: int
    var lastCommentId: int
    var lastRequestId: int

    function State(): Store
      reads this
    {
      Store(users, items, bookings, comments, requests,
            lastUserId, lastItemId, lastBookingId, lastCommentId, lastRequestId)
    }

    ghost predicate Valid()
      reads this
    {
      WellFormed(State())
    }

    /** An empty database. */
    constructor ()
      ensures Valid()
      ensures State() == Store([], [], [], [], [], 0, 0, 0, 0, 0)
    {
      users := [];
      items := [];
      bookings := [];
      comments := [];
      requests := [];
      lastUserId := 0;
      lastItemId := 0;
      lastBookingId := 0;
      lastCommentId := 0;
      lastRequestId := 0;
      new;
      assert State() == Store([], [], [], [], [], 0, 0, 0, 0, 0);
    }

    // `save` of a new row appends it under the next identity value; `save`
    // of a row that already has an id overwrites it in place.

    method SaveNewUser(u: User)
      requires Valid() && u.id == lastUserId + 1
      modifies this
      ensures Valid()
      ensures State() == old(State()).(users := old(users) + [u], lastUserId := u.id)
    {
      UsersIssuedAppend(users, lastUserId, u);
      users := users + [u];
      lastUserId := u.id;
    }

    method SaveUserAt(k: nat, u: User)
      requires Valid() && k < |users| && u.id == users[k].id
      modifies this
      ensures Valid()
      ensures State() == old(State()).(users := old(users)[k := u])
    {
      UsersIssuedOverwrite(users, lastUserId, k, u);
      users := users[k := u];
    }

    /** `deleteById` of the user at position `k`: afterwards no user has
        that user's id. */
    method DeleteUserAt(k: nat)
      requires Valid() && k < |users|
      modifies this
      ensures Valid()
      ensures State() == old(State()).(users := RemoveAt(old(users), k))
      ensures forall u :: u in users ==> u.id != old(users)[k].id
    {
      UsersIssuedRemove(users, lastUserId, k);
      users := RemoveAt(users, k);
    }

    method SaveNewItem(it: Item)
      requires Valid() && it.id == lastItemId + 1
      modifies this
      ensures Valid()
      ensures State() == old(State()).(items := old(items) + [it], lastItemId := it.id)
    {
      ItemsIssuedAppend(items, lastItemId, it);
      items := items + [it];
      lastItemId := it.id;
    }

    method SaveItemAt(k: nat, it: Item)
      requires Valid() && k < |items| && it.id == items[k].id
      modifies this
      ensures Valid()
      ensures State() == old(State()).(items := old(items)[k := it])
    {
      ItemsIssuedOverwrite(items, lastItemId, k, it);
      items := items[k := it];
    }

    method SaveNewBooking(b: Booking)
      requires Valid() && b.id == lastBookingId + 1 && b.start <= b.end
      modifies this
      ensures Valid()
      ensures State() == old(State()).(bookings := old(bookings) + [b], lastBookingId := b.id)
    {
      BookingsIssuedAppend(bookings, lastBookingId, b);
      bookings := bookings + [b];
      lastBookingId := b.id;
    }

    method SaveBookingAt(k: nat, b: Booking)
      requires Valid() && k < |bookings| && b.id == bookings[k].id && b.start <= b.end
      modifies this
      ensures Valid()
      ensures State() == old(State()).(bookings := old(bookings)[k := b])
    {
      BookingsIssuedOverwrite(bookings, lastBookingId, k, b);
      bookings := bookings[k := b];
    }

    method SaveNewComment(c: Comment)
      requires Valid() && c.id == lastCommentId + 1
      modifies this
      ensures Valid()
      ensures State() == old(State()).(comments := old(comments) + [c], lastCommentId := c.id)
    {
      CommentsIssuedAppend(comments, lastCommentId, c);
      comments := comments + [c];
      lastCommentId := c.id;
    }

    method SaveNewRequest(q: ItemRequest)
      requires Valid() && q.id == lastRequestId + 1
      modifies this
      ensures Valid()
      ensures State() == old(State()).(requests := old(requests) + [q], lastRequestId := q.id)
    {
      RequestsIssuedAppend(requests, lastRequestId, q);
      requests := requests + [q];
      lastRequestId := q.id;
    }
  }

  // -----------------------------------------------------------------------
  // findById

  /** The position of the user with this id. */
  function UserIndex(users: seq<User>, id: int): (r: Option<nat>)
    ensures r.Some? ==> r.value < |users| && users[r.value].id == id
    ensures r.None? <==> forall i :: 0 <= i < |users| ==> users[i].id != id
  {
    FirstIndex(users, (u: User) => u.id == id)
  }

  /** `userRepository.findById`. */
  function FindUser(users: seq<User>, id: int): (r: Option<User>)
    ensures r.None? <==> forall u :: u in users ==> u.id != id
    ensures r.Some? ==> r.value in users && r.value.id == id
  {
    match UserIndex(users, id)
    case Some(k) => Some(users[k])
    case None => None
  }

  /** The position of the item with this id. */
  function ItemIndex(items: seq<Item>, id: int): (r: Option<nat>)
    ensures r.Some? ==> r.value < |items| && items[r.value].id == id
    ensures r.None? <==> forall i :: 0 <= i < |items| ==> items[i].id != id
  {
    FirstIndex(items, (it: Item) => it.id == id)
  }

  /** `itemRepository.findById`. */
  function FindItem(items: seq<Item>, id: int): (r: Option<Item>)
    ensures r.None? <==> forall it :: it in items ==> it.id != id
    ensures r.Some? ==> r.value in items && r.value.id == id
  {
    match ItemIndex(items, id)
    case Some(k) => Some(items[k])
    case None => None
  }

  /** The position of the booking with this id. */
  function BookingIndex(bookings: seq<Booking>, id: int): (r: Option<nat>)
    ensures r.Some? ==> r.value < |bookings| && bookings[r.value].id == id
    ensures r.None? <==> forall i :: 0 <= i < |bookings| ==> bookings[i].id != id
  {
    FirstIndex(bookings, (b: Booking) => b.id == id)
  }

  /** `bookingRepository.findById`. */
  function FindBooking(bookings: seq<Booking>, id: int): (r: Option<Booking>)
    ensures r.None? <==> forall b :: b in bookings ==> b.id != id
    ensures r.Some? ==> r.value in bookings && r.value.id == id
  {
    match BookingIndex(bookings, id)
    case Some(k) => Some(bookings[k])
    case None => None
  }

  /** `itemRequestRepository.findById`. */
  function FindRequest(requests: seq<ItemRequest>, id: int): (r: Option<ItemRequest>)
    ensures r.None? <==> forall q :: q in requests ==> q.id != id
    ensures r.Some? ==> r.value in requests && r.value.id == id
  {
    Find(requests, (q: ItemRequest) => q.id == id)
  }

  /** Overwriting a booking with a copy that keeps its id keeps the copy
      findable under that id. */
  lemma FindBookingAfterOverwrite(bookings: seq<Booking>, k: nat, b: Booking)
    requires BookingIndex(bookings, b.id) == Some(k)
    ensures FindBooking(bookings[k := b], b.id) == Some(b)
    ensures BookingIndex(bookings[k := b], b.id) == Some(k)
  {
    var after := bookings[k := b];
    FirstIndexAt(after, (x: Booking) => x.id == b.id, k);
  }

  /** A booking saved with the next identity value keeps the table in
      issue order. */
  lemma BookingsIssuedAppend(bookings: seq<Booking>, last: int, b: Booking)
    requires BookingsIssued(bookings, last) && b.id == last + 1
    ensures BookingsIssued(bookings + [b], last + 1)
  {
  }

  /** Overwriting a booking with a copy that keeps its id keeps the table in
      issue order. */
  lemma BookingsIssuedOverwrite(bookings: seq<Booking>, last: int, k: nat, b: Booking)
    requires BookingsIssued(bookings, last) && k < |bookings| && b.id == bookings[k].id
    ensures BookingsIssued(bookings[k := b], last)
  {
  }

  /** Removing the user at the position of an id from a table in issue
      order leaves no user with that id, and keeps the table in issue
      order. */
  lemma UsersIssuedRemove(users: seq<User>, last: int, k: nat)
    requires UsersIssued(users, last) && k < |users|
    ensures forall u :: u in RemoveAt(users, k) ==> u.id != users[k].id
    ensures UsersIssued(RemoveAt(users, k), last)
  {
    var r := RemoveAt(users, k);
    forall u | u in r ensures u.id != users[k].id {
      var i :| 0 <= i < |r| && r[i] == u;
      if i < k {
        assert users[i].id < users[k].id;
      } else {
        assert users[k].id < users[i + 1].id;
      }
    }
  }

  /** A row saved with the next identity value keeps its table in issue
      order; so does overwriting a row with a copy that keeps its id. */
  lemma UsersIssuedAppend(users: seq<User>, last: int, u: User)
    requires UsersIssued(users, last) && u.id == last + 1
    ensures UsersIssued(users + [u], last + 1)
  {
  }

  lemma UsersIssuedOverwrite(users: seq<User>, last: int, k: nat, u: User)
    requires UsersIssued(users, last) && k < |users| && u.id == users[k].id
    ensures UsersIssued(users[k := u], last)
  {
  }

  lemma ItemsIssuedAppend(items: seq<Item>, last: int, it: Item)
    requires ItemsIssued(items, last) && it.id == last + 1
    ensures ItemsIssued(items + [it], last + 1)
  {
  }

  lemma ItemsIssuedOverwrite(items: seq<Item>, last: int, k: nat, it: Item)
    requires ItemsIssued(items, last) && k < |items| && it.id == items[k].id
    ensures ItemsIssued(items[k := it], last)
  {
  }

  lemma CommentsIssuedAppend(comments: seq<Comment>, last: int, c: Comment)
    requires CommentsIssued(comments, last) && c.id == last + 1
    ensures CommentsIssued(comments + [c], last + 1)
  {
  }

  lemma RequestsIssuedAppend(requests: seq<ItemRequest>, last: int, q: ItemRequest)
    requires RequestsIssued(requests, last) && q.id == last + 1
    ensures RequestsIssued(requests + [q], last + 1)
  {
  }
}
