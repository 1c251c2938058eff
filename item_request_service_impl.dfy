/** `ItemRequestServiceImpl`: creating an item request, a user's own
    requests, one request, and a page of everybody else's requests. Every
    listing shows the requests without items first and then those with
    items, each group in the order the query returned it. "now" is a
    parameter. */
module ItemRequestServiceImpl {
  import opened Common
  import opened Entities
  import opened Seqs
  import opened Persistence
  import opened UserServiceImpl
  import opened ItemRequestMapper

  /** A request as the repository loads it: its `items` collection holds
      the items that name it as their request, in table order. */
  function Loaded(items: seq<Item>, q: ItemRequest): (r: ItemRequest)
    ensures r.id == q.id && r.description == q.description
    ensures r.requestorId == q.requestorId && r.created == q.created
    ensures r.items.Some?
    ensures forall it :: it in r.items.value <==> it in items && it.requestId == Some(q.id)
    ensures r.items.value == Filter(items, ForRequest(q.id))
  {
    q.(items := Some(Filter(items, ForRequest(q.id))))
  }

  /** The test of the `mappedBy` collection: the item was created for the
      request with that id. */
  function ForRequest(id: int): Item -> bool {
    (it: Item) => it.requestId == Some(id)
  }

  /** Every request of a query result, loaded. */
  function LoadAll(items: seq<Item>, qs: seq<ItemRequest>): (r: seq<ItemRequest>)
    ensures |r| == |qs|
    ensures forall i :: 0 <= i < |qs| ==> r[i] == Loaded(items, qs[i])
  {
    seq(|qs|, i requires 0 <= i < |qs| => Loaded(items, qs[i]))
  }

  /** `r.getItems().isEmpty()`. */
  predicate NoItems(q: ItemRequest) {
    q.items.Some? && |q.items.value| == 0
  }

  predicate WithItems(q: ItemRequest) {
    !NoItems(q)
  }

  /** `toDto` on each request, in order. */
  function ToDtos(qs: seq<ItemRequest>): (r: seq<ItemRequestDto>)
    ensures |r| == |qs|
    ensures forall i :: 0 <= i < |qs| ==> r[i] == ToDto(qs[i])
  {
    Map(qs, ToDto)
  }

  /** `toDtoWithItems` on each request, in order. */
  function ToDtosWithItems(qs: seq<ItemRequest>): (r: seq<ItemRequestDto>)
    requires forall q :: q in qs ==> q.items.Some?
    ensures |r| == |qs|
    ensures forall i :: 0 <= i < |qs| ==> r[i] == ToDtoWithItems(qs[i])
  {
    seq(|qs|, i requires 0 <= i < |qs| => ToDtoWithItems(qs[i]))
  }

  /** `mapToDtoRequestsWithItemsAndWithout`: the requests without items,
      then those with items, each group in input order. Asking a `null`
      item list whether it is empty would throw, so every request must carry
      one (every loaded request does). */
  function MapToDtoRequestsWithItemsAndWithout(qs: seq<ItemRequest>): (r: seq<ItemRequestDto>)
    requires forall q :: q in qs ==> q.items.Some?
    ensures |r| == |qs|
    ensures r == ToDtosWithItems(Filter(qs, NoItems) + Filter(qs, WithItems))
    ensures forall i, j :: 0 <= i < j < |r| && r[i].items != [] ==> r[j].items != []
  {
    var without, with := Filter(qs, NoItems), Filter(qs, WithItems);
    FilterSplit(qs, NoItems, WithItems);
    var r := ToDtos(without) + ToDtosWithItems(with);
    forall i | 0 <= i < |r| ensures r[i] == ToDtosWithItems(without + with)[i] {
      if i < |without| {
        assert without[i] in without;
        ToDtoOfEmpty(without[i]);
      } else {
        assert (without + with)[i] == with[i - |without|];
      }
    }
    forall i, j | 0 <= i < j < |r| && r[i].items != [] ensures r[j].items != [] {
      assert i >= |without|;
      assert with[j - |without|] in with;
    }
    r
  }

  /** The output holds every request exactly once: the two groups together
      are a rearrangement of the input, and the output has one DTO per
      request of the rearrangement. */
  lemma PartitionPermutes(qs: seq<ItemRequest>)
    requires forall q :: q in qs ==> q.items.Some?
    ensures multiset(Filter(qs, NoItems) + Filter(qs, WithItems)) == multiset(qs)
  {
    FilterSplit(qs, NoItems, WithItems);
  }

  /** Each group keeps the input order: the output is the DTOs of the
      requests without items, in input order, followed by those of the
      requests with items, in input order. */
  lemma PartitionStable(qs: seq<ItemRequest>)
    requires forall q :: q in qs ==> q.items.Some?
    ensures var r, n := MapToDtoRequestsWithItemsAndWithout(qs), |Filter(qs, NoItems)|;
      && r[..n] == ToDtos(Filter(qs, NoItems))
      && r[n..] == ToDtosWithItems(Filter(qs, WithItems))
  {
    var without, with := Filter(qs, NoItems), Filter(qs, WithItems);
    GroupHead(without, with);
    GroupTail(without, with);
  }

  lemma GroupHead(without: seq<ItemRequest>, with: seq<ItemRequest>)
    requires forall q :: q in without ==> NoItems(q)
    requires forall q :: q in without + with ==> q.items.Some?
    ensures ToDtosWithItems(without + with)[..|without|] == ToDtos(without)
  {
    var r := ToDtosWithItems(without + with);
    forall i | 0 <= i < |without| ensures r[i] == ToDto(without[i]) {
      assert without[i] in without;
      assert (without + with)[i] == without[i];
      ToDtoOfEmpty(without[i]);
    }
  }

  lemma GroupTail(without: seq<ItemRequest>, with: seq<ItemRequest>)
    requires forall q :: q in without + with ==> q.items.Some?
    ensures ToDtosWithItems(without + with)[|without|..] == ToDtosWithItems(with)
  {
    var r := ToDtosWithItems(without + with);
    forall i | |without| <= i < |r| ensures r[i] == ToDtoWithItems(with[i - |without|]) {
      assert (without + with)[i] == with[i - |without|];
    }
  }

  /** In the output, the DTOs of the first group show no items and those of
      the second group show some. */
  lemma PartitionGroupsByItems(qs: seq<ItemRequest>)
    requires forall q :: q in qs ==> q.items.Some?
    ensures var r, n := MapToDtoRequestsWithItemsAndWithout(qs), |Filter(qs, NoItems)|;
      && (forall i :: 0 <= i < n ==> r[i].items == [])
      && (forall i :: n <= i < |r| ==> r[i].items != [])
  {
    var without, with := Filter(qs, NoItems), Filter(qs, WithItems);
    var n := |without|;
    var r := MapToDtoRequestsWithItemsAndWithout(qs);
    forall i | 0 <= i < n ensures r[i].items == [] {
      assert (without + with)[i] == without[i];
      assert without[i] in without;
    }
    forall i | n <= i < |r| ensures r[i].items != [] {
      assert (without + with)[i] == with[i - n];
      assert with[i - n] in with;
    }
  }

  function RequestId(q: ItemRequest): int {
    q.id
  }

  function RowId(d: ItemRequestDto): int {
    d.id
  }

  /** The output shows every input request exactly once: the ids on the
      rows are a rearrangement of the input's ids. */
  lemma PartitionIds(qs: seq<ItemRequest>)
    requires forall q :: q in qs ==> q.items.Some?
    ensures multiset(Map(MapToDtoRequestsWithItemsAndWithout(qs), RowId)) == multiset(Map(qs, RequestId))
  {
    var grouped := Filter(qs, NoItems) + Filter(qs, WithItems);
    var r := MapToDtoRequestsWithItemsAndWithout(qs);
    assert Map(r, RowId) == Map(grouped, RequestId);
    PartitionPermutes(qs);
    MapPermutes(grouped, qs, RequestId);
  }

  // -----------------------------------------------------------------------
  // create

  /** `create`: the caller must exist; the request is saved under the next
      identity value as the caller's, dated `now`, with no items, and its
      DTO returned. */
  method Create(db: Database, dto: ItemRequestDto, userId: int, now: Time) returns (r: Result<ItemRequestDto>)
    requires db.Valid()
    modifies db
    ensures db.Valid()
    ensures FindUser(old(db.users), userId).None? ==> r == Failure(UserNotFound) && db.State() == old(db.State())
    ensures FindUser(old(db.users), userId).Some? ==>
      var q := ItemRequest(old(db.lastRequestId) + 1, dto.description, userId, now, Some([]));
      && r == Success(ToDto(q))
      && db.State() == old(db.State()).(requests := old(db.requests) + [q], lastRequestId := q.id)
  {
    var user := FindById(db.users, userId);
    if user.Failure? {
      return Failure(user.error);
    }
    var stamped := dto.(created := now);
    var q := ToItemRequestNoItems(stamped, userId).(id := db.lastRequestId + 1);
    db.SaveNewRequest(q);
    r := Success(ToDto(q));
  }

  /** What `create` returns: the new id, the description, `now`, and no
      items. */
  lemma CreatedRequestDto(last: int, dto: ItemRequestDto, userId: int, now: Time)
    ensures var d := ToDto(ItemRequest(last + 1, dto.description, userId, now, Some([])));
      d.id == last + 1 && d.description == dto.description && d.created == now && d.items == []
  {
  }

  // -----------------------------------------------------------------------
  // getAllByUserId, getByItemRequestId

  /** `findAllByRequestorId`: the caller's requests in table order. */
  function ByRequestor(requests: seq<ItemRequest>, userId: int): (r: seq<ItemRequest>)
    ensures forall q :: q in r <==> q in requests && q.requestorId == userId
  {
    Filter(requests, (q: ItemRequest) => q.requestorId == userId)
  }

  /** `getAllByUserId`: the caller must exist; then the caller's requests,
      loaded, without items first. */
  function GetAllByUserId(s: Store, userId: int): (r: Result<seq<ItemRequestDto>>)
    ensures r.Failure? <==> FindUser(s.users, userId).None?
    ensures r.Failure? ==> r.error == UserNotFound
    ensures r.Success? ==> r.value == MapToDtoRequestsWithItemsAndWithout(LoadAll(s.items, ByRequestor(s.requests, userId)))
  {
    match FindById(s.users, userId)
    case Failure(e) => Failure(e)
    case Success(_) =>
      var qs := LoadAll(s.items, ByRequestor(s.requests, userId));
      Success(MapToDtoRequestsWithItemsAndWithout(qs))
  }

  /** A user's listing shows each of the user's requests exactly once and
      nothing else: the ids on its rows are a rearrangement of the ids of
      the user's requests. */
  lemma GetAllByUserIdShowsOwnRequests(s: Store, userId: int)
    requires GetAllByUserId(s, userId).Success?
    ensures multiset(Map(GetAllByUserId(s, userId).value, RowId)) == multiset(Map(ByRequestor(s.requests, userId), RequestId))
  {
    LoadedShowsAll(s.items, ByRequestor(s.requests, userId));
  }

  /** So every row of a user's listing is one of the user's requests. */
  lemma GetAllByUserIdRowsAreOwn(s: Store, userId: int)
    requires GetAllByUserId(s, userId).Success?
    ensures forall d :: d in GetAllByUserId(s, userId).value ==>
      exists q :: q in s.requests && q.requestorId == userId && q.id == d.id
  {
    var r := GetAllByUserId(s, userId).value;
    var mine := ByRequestor(s.requests, userId);
    GetAllByUserIdShowsOwnRequests(s, userId);
    forall d | d in r ensures exists q :: q in s.requests && q.requestorId == userId && q.id == d.id {
      var i :| 0 <= i < |r| && r[i] == d;
      assert Map(r, RowId)[i] == d.id;
      assert d.id in multiset(Map(mine, RequestId));
      var k :| 0 <= k < |mine| && Map(mine, RequestId)[k] == d.id;
      assert mine[k] in mine;
    }
  }

  /** `getByItemRequestId`: the caller must exist, then the request
      (`RequestNotFoundException` otherwise); the request is shown with its
      items, or with an empty list when it has none. */
  function GetByItemRequestId(s: Store, userId: int, id: int): (r: Result<ItemRequestDto>)
    ensures FindUser(s.users, userId).None? ==> r == Failure(UserNotFound)
    ensures FindUser(s.users, userId).Some? && FindRequest(s.requests, id).None? ==> r == Failure(RequestNotFound)
    ensures r.Success? <==> FindUser(s.users, userId).Some? && FindRequest(s.requests, id).Some?
    ensures r.Success? ==>
      && r.value.id == id
      && r.value.description == FindRequest(s.requests, id).value.description
      && r.value.created == FindRequest(s.requests, id).value.created
      && r.value.items == Map(Filter(s.items, ForRequest(id)), ItemToDtoWithRequest)
      && forall d :: d in r.value.items <==>
           exists it :: it in s.items && it.requestId == Some(id) && d == ItemToDtoWithRequest(it)
  {
    match FindById(s.users, userId)
    case Failure(e) => Failure(e)
    case Success(_) =>
      match FindRequest(s.requests, id)
      case None => Failure(RequestNotFound)
      case Some(found) =>
        var q := Loaded(s.items, found);
        var d := if q.items.Some? then ToDtoWithItems(q) else ToDto(q);
        assert forall x :: x in d.items <==> exists k :: 0 <= k < |q.items.value| && x == ItemToDtoWithRequest(q.items.value[k]);
        assert forall it :: it in q.items.value ==> exists k :: 0 <= k < |q.items.value| && it == q.items.value[k];
        Success(d)
  }

  // -----------------------------------------------------------------------
  // findAllByRequestorIdNot

  function CreatedOf(q: ItemRequest): int {
    q.created
  }

  /** `findAllByRequestorIdNotOrderByCreatedDesc`: everybody else's
      requests, newest first. */
  function OthersNewestFirst(requests: seq<ItemRequest>, userId: int): (r: seq<ItemRequest>)
    ensures multiset(r) == multiset(Filter(requests, (q: ItemRequest) => q.requestorId != userId))
    ensures forall i, j :: 0 <= i < j < |r| ==> r[i].created >= r[j].created
  {
    SortBy(Filter(requests, (q: ItemRequest) => q.requestorId != userId), CreatedOf, true)
  }

  /** `findAllByRequestorIdNot`: page `from / size` of `size` of everybody
      else's requests, newest first, loaded, and then regrouped without
      items first. The caller's existence is not checked. */
  function FindAllByRequestorIdNot(s: Store, userId: int, from: int, size: int): (r: Result<seq<ItemRequestDto>>)
    ensures r.Success? <==> size >= 1 && from > -size
    ensures r.Failure? ==> r.error == if size == 0 then DivisionByZero else InvalidArgument
    ensures r.Success? ==>
      var page := Page(OthersNewestFirst(s.requests, userId), from, size).value;
      r.value == MapToDtoRequestsWithItemsAndWithout(LoadAll(s.items, page))
  {
    match Page(OthersNewestFirst(s.requests, userId), from, size)
    case Failure(e) => Failure(e)
    case Success(page) => Success(MapToDtoRequestsWithItemsAndWithout(LoadAll(s.items, page)))
  }

  /** A page of everybody else's requests has `size` rows, or as many as
      remain from the page offset on, and shows each request of the page
      exactly once: the ids on its rows are a rearrangement of the page's
      ids, and every request of the page is somebody else's. */
  lemma FindAllByRequestorIdNotPage(s: Store, userId: int, from: int, size: int)
    requires size >= 1 && from > -size
    ensures FindAllByRequestorIdNot(s, userId, from, size).Success?
    ensures var r, sorted := FindAllByRequestorIdNot(s, userId, from, size).value, OthersNewestFirst(s.requests, userId);
      && |r| == Min(size, Max(0, |sorted| - PageOffset(from, size)))
      && multiset(Map(r, RowId)) == multiset(Map(Page(sorted, from, size).value, RequestId))
      && (forall q :: q in Page(sorted, from, size).value ==> q in s.requests && q.requestorId != userId)
  {
    var sorted := OthersNewestFirst(s.requests, userId);
    PageContents(sorted, from, size);
    var page := Page(sorted, from, size).value;
    LoadedShowsAll(s.items, page);
    PageWithin(sorted, from, size);
    OthersNewestFirstMembers(s.requests, userId);
  }

  /** Regrouping the loaded requests of a query result shows one row per
      request, the ids on the rows a rearrangement of the requests' ids. */
  lemma LoadedShowsAll(items: seq<Item>, qs: seq<ItemRequest>)
    ensures var r := MapToDtoRequestsWithItemsAndWithout(LoadAll(items, qs));
      && |r| == |qs|
      && multiset(Map(r, RowId)) == multiset(Map(qs, RequestId))
  {
    var loaded := LoadAll(items, qs);
    LoadAllIds(items, qs);
    PartitionIds(loaded);
  }

  /** Everybody else's requests, sorted, are requests of the table that are
      not the caller's. */
  lemma OthersNewestFirstMembers(requests: seq<ItemRequest>, userId: int)
    ensures forall q :: q in OthersNewestFirst(requests, userId) ==> q in requests && q.requestorId != userId
  {
    var sorted := OthersNewestFirst(requests, userId);
    forall q | q in sorted ensures q in requests && q.requestorId != userId {
      assert q in multiset(sorted);
    }
  }

  /** Loading a request keeps its id. */
  lemma LoadAllIds(items: seq<Item>, qs: seq<ItemRequest>)
    ensures Map(LoadAll(items, qs), RequestId) == Map(qs, RequestId)
  {
  }
}
