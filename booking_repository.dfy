/** The booking queries, as pure functions over the stored bookings. Each
    query keeps the bookings that satisfy its `WHERE` clause and orders them
    as its `ORDER BY` says. The database leaves the order of rows with equal
    keys (and of an unordered query) unspecified; this model keeps them in
    storage order. */
module BookingRepository {
  import opened Common
  import opened Entities
  import opened Seqs

  datatype Order = Unordered | StartAscending | StartDescending

  function StartOf(b: Booking): int {
    b.start
  }

  /** Consecutive rows never break the order's comparison on `start`. */
  ghost predicate Ordered(r: seq<Booking>, order: Order) {
    match order
    case Unordered => true
    case StartAscending => forall i, j :: 0 <= i < j < |r| ==> r[i].start <= r[j].start
    case StartDescending => forall i, j :: 0 <= i < j < |r| ==> r[i].start >= r[j].start
  }

  /** `SELECT ... WHERE p ORDER BY order`: every stored booking satisfying
      `p`, as often as it is stored, and nothing else. */
  function Query(bs: seq<Booking>, p: Booking -> bool, order: Order): (r: seq<Booking>)
    ensures forall b :: b in r <==> b in bs && p(b)
    ensures forall b :: multiset(r)[b] == if p(b) then multiset(bs)[b] else 0
    ensures Ordered(r, order)
  {
    var kept := Filter(bs, p);
    forall b ensures multiset(kept)[b] == if p(b) then multiset(bs)[b] else 0 {
      FilterCount(bs, p, b);
    }
    match order
    case Unordered => kept
    case StartAscending => SortBy(kept, StartOf, false)
    case StartDescending => SortBy(kept, StartOf, true)
  }

  // ---------------------------------------------------------------------
  // Derived queries of the booker listings (names as Spring Data reads them)

  /** `findAllByBookerIdOrderByStartDesc`. */
  function AllByBooker(bs: seq<Booking>, bookerId: int): (r: seq<Booking>)
    ensures forall b :: b in r <==> b in bs && b.bookerId == bookerId
    ensures forall b: Booking :: multiset(r)[b] == if b.bookerId == bookerId then multiset(bs)[b] else 0
    ensures Ordered(r, StartDescending)
  {
    Query(bs, (b: Booking) => b.bookerId == bookerId, StartDescending)
  }

  /** `findAllByBookerIdAndStartBeforeAndEndAfterOrderByStartDesc(id, now, now)`:
      both comparisons are strict. */
  function CurrentByBooker(bs: seq<Booking>, bookerId: int, now: Time): (r: seq<Booking>)
    ensures forall b :: b in r <==> b in bs && b.bookerId == bookerId && b.start < now && b.end > now
    ensures forall b: Booking :: multiset(r)[b] == if b.bookerId == bookerId && b.start < now && b.end > now then multiset(bs)[b] else 0
    ensures Ordered(r, StartDescending)
  {
    Query(bs, (b: Booking) => b.bookerId == bookerId && b.start < now && b.end > now, StartDescending)
  }

  /** `findAllByBookerIdAndEndBeforeOrderByStartDesc`. */
  function PastByBooker(bs: seq<Booking>, bookerId: int, now: Time): (r: seq<Booking>)
    ensures forall b :: b in r <==> b in bs && b.bookerId == bookerId && b.end < now
    ensures forall b: Booking :: multiset(r)[b] == if b.bookerId == bookerId && b.end < now then multiset(bs)[b] else 0
    ensures Ordered(r, StartDescending)
  {
    Query(bs, (b: Booking) => b.bookerId == bookerId && b.end < now, StartDescending)
  }

  /** `findAllByBookerIdAndStartAfterOrderByStartDesc`. */
  function FutureByBooker(bs: seq<Booking>, bookerId: int, now: Time): (r: seq<Booking>)
    ensures forall b :: b in r <==> b in bs && b.bookerId == bookerId && b.start > now
    ensures forall b: Booking :: multiset(r)[b] == if b.bookerId == bookerId && b.start > now then multiset(bs)[b] else 0
    ensures Ordered(r, StartDescending)
  {
    Query(bs, (b: Booking) => b.bookerId == bookerId && b.start > now, StartDescending)
  }

  /** `findAllByBookerIdAndStatusOrderByStartDesc`. */
  function ByBookerAndStatus(bs: seq<Booking>, bookerId: int, status: BookingStatus): (r: seq<Booking>)
    ensures forall b :: b in r <==> b in bs && b.bookerId == bookerId && b.status == status
    ensures forall b: Booking :: multiset(r)[b] == if b.bookerId == bookerId && b.status == status then multiset(bs)[b] else 0
    ensures Ordered(r, StartDescending)
  {
    Query(bs, (b: Booking) => b.bookerId == bookerId && b.status == status, StartDescending)
  }

  // ---------------------------------------------------------------------
  // Owner listings

  /** `findAllByItem_OwnerIdOrderByStartDesc`, and the native
      `findAllByOwnerId`, which selects and orders the same rows. */
  function AllByOwner(bs: seq<Booking>, ownerId: int): (r: seq<Booking>)
    ensures forall b :: b in r <==> b in bs && b.item.ownerId == ownerId
    ensures forall b: Booking :: multiset(r)[b] == if b.item.ownerId == ownerId then multiset(bs)[b] else 0
    ensures Ordered(r, StartDescending)
  {
    Query(bs, (b: Booking) => b.item.ownerId == ownerId, StartDescending)
  }

  /** `findAllByItem_OwnerIdAndStartLessThanEqualAndEndGreaterThanOrderByStart`:
      the start bound is inclusive, the end bound strict, ascending order. */
  function CurrentByOwner(bs: seq<Booking>, ownerId: int, now: Time): (r: seq<Booking>)
    ensures forall b :: b in r <==> b in bs && b.item.ownerId == ownerId && b.start <= now && b.end > now
    ensures forall b: Booking :: multiset(r)[b] == if b.item.ownerId == ownerId && b.start <= now && b.end > now then multiset(bs)[b] else 0
    ensures Ordered(r, StartAscending)
  {
    Query(bs, (b: Booking) => b.item.ownerId == ownerId && b.start <= now && b.end > now, StartAscending)
  }

  /** `findAllByItem_OwnerIdAndEndLessThanEqual`: inclusive, unordered. */
  function PastByOwner(bs: seq<Booking>, ownerId: int, now: Time): (r: seq<Booking>)
    ensures forall b :: b in r <==> b in bs && b.item.ownerId == ownerId && b.end <= now
    ensures forall b: Booking :: multiset(r)[b] == if b.item.ownerId == ownerId && b.end <= now then multiset(bs)[b] else 0
  {
    Query(bs, (b: Booking) => b.item.ownerId == ownerId && b.end <= now, Unordered)
  }

  /** `findAllByItem_OwnerIdAndStartGreaterThanEqualOrderByStartDesc`. */
  function FutureByOwner(bs: seq<Booking>, ownerId: int, now: Time): (r: seq<Booking>)
    ensures forall b :: b in r <==> b in bs && b.item.ownerId == ownerId && b.start >= now
    ensures forall b: Booking :: multiset(r)[b] == if b.item.ownerId == ownerId && b.start >= now then multiset(bs)[b] else 0
    ensures Ordered(r, StartDescending)
  {
    Query(bs, (b: Booking) => b.item.ownerId == ownerId && b.start >= now, StartDescending)
  }

  /** `findAllByItem_OwnerIdAndStatusOrderByStart`, and the native
      `findWaitingByOwnerId` (the same rows for `WAITING`). */
  function ByOwnerAndStatusByStart(bs: seq<Booking>, ownerId: int, status: BookingStatus): (r: seq<Booking>)
    ensures forall b :: b in r <==> b in bs && b.item.ownerId == ownerId && b.status == status
    ensures forall b: Booking :: multiset(r)[b] == if b.item.ownerId == ownerId && b.status == status then multiset(bs)[b] else 0
    ensures Ordered(r, StartAscending)
  {
    Query(bs, (b: Booking) => b.item.ownerId == ownerId && b.status == status, StartAscending)
  }

  /** `findAllByItem_OwnerIdAndStatus`, and the native `findRejectedByOwnerId`
      (the same rows for `REJECTED`): no order. */
  function ByOwnerAndStatus(bs: seq<Booking>, ownerId: int, status: BookingStatus): (r: seq<Booking>)
    ensures forall b :: b in r <==> b in bs && b.item.ownerId == ownerId && b.status == status
    ensures forall b: Booking :: multiset(r)[b] == if b.item.ownerId == ownerId && b.status == status then multiset(bs)[b] else 0
  {
    Query(bs, (b: Booking) => b.item.ownerId == ownerId && b.status == status, Unordered)
  }

  // ---------------------------------------------------------------------
  // Native owner queries at day granularity

  /** `findCurrentByOwnerId`: the booking's first day is today or earlier and
      its last day is after today, ascending by start. */
  function CurrentByOwnerDays(bs: seq<Booking>, ownerId: int, now: Time): (r: seq<Booking>)
    ensures forall b :: b in r <==> b in bs && b.item.ownerId == ownerId && Day(b.start) <= Day(now) < Day(b.end)
    ensures forall b: Booking :: multiset(r)[b] == if b.item.ownerId == ownerId && Day(b.start) <= Day(now) < Day(b.end) then multiset(bs)[b] else 0
    ensures Ordered(r, StartAscending)
  {
    Query(bs, (b: Booking) => b.item.ownerId == ownerId && Day(now) >= Day(b.start) && Day(now) < Day(b.end), StartAscending)
  }

  /** `findPastByOwnerId`: the booking ends today or earlier; no order. */
  function PastByOwnerDays(bs: seq<Booking>, ownerId: int, now: Time): (r: seq<Booking>)
    ensures forall b :: b in r <==> b in bs && b.item.ownerId == ownerId && Day(b.end) <= Day(now)
    ensures forall b: Booking :: multiset(r)[b] == if b.item.ownerId == ownerId && Day(b.end) <= Day(now) then multiset(bs)[b] else 0
  {
    Query(bs, (b: Booking) => b.item.ownerId == ownerId && Day(b.end) <= Day(now), Unordered)
  }

  /** `findFutureByOwnerId`: the booking starts today or later, descending. */
  function FutureByOwnerDays(bs: seq<Booking>, ownerId: int, now: Time): (r: seq<Booking>)
    ensures forall b :: b in r <==> b in bs && b.item.ownerId == ownerId && Day(b.start) >= Day(now)
    ensures forall b: Booking :: multiset(r)[b] == if b.item.ownerId == ownerId && Day(b.start) >= Day(now) then multiset(bs)[b] else 0
    ensures Ordered(r, StartDescending)
  {
    Query(bs, (b: Booking) => b.item.ownerId == ownerId && Day(b.start) >= Day(now), StartDescending)
  }

  // ---------------------------------------------------------------------
  // Single-row lookups

  /** The first row of a query, as `findFirst...` or `LIMIT 1` returns it. */
  function First(bs: seq<Booking>, p: Booking -> bool, desc: bool): (r: Option<Booking>)
    ensures r.None? <==> forall b :: b in bs ==> !p(b)
    ensures r.Some? ==> r.value in bs && p(r.value)
    ensures r.Some? ==> forall b :: b in bs && p(b) ==> InOrder(r.value.start, b.start, desc)
  {
    var rows := Query(bs, p, if desc then StartDescending else StartAscending);
    if rows == [] then
      None
    else
      assert forall b :: b in rows ==> InOrder(rows[0].start, b.start, desc) by {
        forall b | b in rows ensures InOrder(rows[0].start, b.start, desc) {
          var j :| 0 <= j < |rows| && rows[j] == b;
          if j > 0 {
            assert InOrder(rows[0].start, rows[j].start, desc);
          }
        }
      }
      Some(rows[0])
  }

  /** The native `findNextBookingByItemId(itemId, ownerId)`: the booking of
      that item, under that owner, with the LATEST start; "now" plays no
      part. */
  function NextBooking(bs: seq<Booking>, itemId: int, ownerId: int): (r: Option<Booking>)
    ensures r.None? <==> forall b :: b in bs ==> !(b.item.id == itemId && b.item.ownerId == ownerId)
    ensures r.Some? ==> r.value in bs && r.value.item.id == itemId && r.value.item.ownerId == ownerId
    ensures r.Some? ==> forall b :: b in bs && b.item.id == itemId && b.item.ownerId == ownerId ==> b.start <= r.value.start
  {
    First(bs, (b: Booking) => b.item.id == itemId && b.item.ownerId == ownerId, true)
  }

  /** The native `findLastBookingByItemId(itemId, ownerId)`, and the derived
      `findFirstByItem_Owner_IdAndItem_IdOrderByStart(ownerId, itemId)`: the
      booking of that item, under that owner, with the EARLIEST start. */
  function LastBooking(bs: seq<Booking>, itemId: int, ownerId: int): (r: Option<Booking>)
    ensures r.None? <==> forall b :: b in bs ==> !(b.item.id == itemId && b.item.ownerId == ownerId)
    ensures r.Some? ==> r.value in bs && r.value.item.id == itemId && r.value.item.ownerId == ownerId
    ensures r.Some? ==> forall b :: b in bs && b.item.id == itemId && b.item.ownerId == ownerId ==> r.value.start <= b.start
  {
    First(bs, (b: Booking) => b.item.id == itemId && b.item.ownerId == ownerId, false)
  }

  /** The derived `findFirstByItem_OwnerIdAndIdOrderByStartDesc(ownerId, id)`
      the item services call for the "next" booking: Spring Data reads `Id`
      as the BOOKING's id, so the item id they pass is compared with booking
      ids. */
  function NextBookingAsWritten(bs: seq<Booking>, ownerId: int, id: int): (r: Option<Booking>)
    ensures r.None? <==> forall b :: b in bs ==> !(b.item.ownerId == ownerId && b.id == id)
    ensures r.Some? ==> r.value in bs && r.value.id == id && r.value.item.ownerId == ownerId
  {
    First(bs, (b: Booking) => b.item.ownerId == ownerId && b.id == id, true)
  }

  /** With one stored booking, number 7, of item 5 owned by user 1, the
      "next booking" lookup the item services make for item 5 finds nothing,
      while the item does have a booking under that owner. */
  lemma NextBookingComparesBookingId()
    ensures var b := Booking(7, 100, 200, Item(5, "drill", "", true, 1, None), 2, Waiting);
      && NextBookingAsWritten([b], 1, 5) == None
      && NextBooking([b], 5, 1) == Some(b)
  {
    var b := Booking(7, 100, 200, Item(5, "drill", "", true, 1, None), 2, Waiting);
    assert b in [b];
  }

  /** `findAllByItemIdAndAndBooker_IdAndEndBefore`: the bookings of an item
      by a booker that ended strictly before `now`. */
  function PastByItemAndBooker(bs: seq<Booking>, itemId: int, bookerId: int, now: Time): (r: seq<Booking>)
    ensures forall b :: b in r <==> b in bs && b.item.id == itemId && b.bookerId == bookerId && b.end < now
    ensures forall b: Booking :: multiset(r)[b] == if b.item.id == itemId && b.bookerId == bookerId && b.end < now then multiset(bs)[b] else 0
  {
    Query(bs, (b: Booking) => b.item.id == itemId && b.bookerId == bookerId && b.end < now, Unordered)
  }

  // ---------------------------------------------------------------------
  // Properties of the listings

  /** For a booker's bookings that do not begin or end at exactly `now`, the
      CURRENT, PAST and FUTURE listings split the ALL listing: together they
      hold every booking of the booker exactly as often as it is stored. */
  lemma BookerStatesPartition(bs: seq<Booking>, bookerId: int, now: Time)
    requires forall b :: b in bs ==> b.start <= b.end && b.start != now && b.end != now
    ensures multiset(CurrentByBooker(bs, bookerId, now)) + multiset(PastByBooker(bs, bookerId, now))
            + multiset(FutureByBooker(bs, bookerId, now))
         == multiset(AllByBooker(bs, bookerId))
  {
    var cur, past, fut := CurrentByBooker(bs, bookerId, now), PastByBooker(bs, bookerId, now),
                          FutureByBooker(bs, bookerId, now);
    var all := AllByBooker(bs, bookerId);
    forall b ensures multiset(cur)[b] + multiset(past)[b] + multiset(fut)[b] == multiset(all)[b] {
      BookerStatesCount(bs, bookerId, now, b);
    }
    SumOfCounts(multiset(cur), multiset(past), multiset(fut), multiset(all));
  }

  lemma SumOfCounts<T>(x: multiset<T>, y: multiset<T>, z: multiset<T>, w: multiset<T>)
    requires forall b :: x[b] + y[b] + z[b] == w[b]
    ensures x + y + z == w
  {
    assert forall b :: (x + y + z)[b] == w[b];
  }

  /** The counting step of `BookerStatesPartition`, for one booking. */
  lemma BookerStatesCount(bs: seq<Booking>, bookerId: int, now: Time, b: Booking)
    requires forall b :: b in bs ==> b.start <= b.end && b.start != now && b.end != now
    ensures multiset(CurrentByBooker(bs, bookerId, now))[b] + multiset(PastByBooker(bs, bookerId, now))[b]
            + multiset(FutureByBooker(bs, bookerId, now))[b]
         == multiset(AllByBooker(bs, bookerId))[b]
  {
    var n := multiset(bs)[b];
    var cur, past, fut := CurrentByBooker(bs, bookerId, now), PastByBooker(bs, bookerId, now),
                          FutureByBooker(bs, bookerId, now);
    if b.bookerId != bookerId || n == 0 {
      assert multiset(cur)[b] == 0 && multiset(past)[b] == 0 && multiset(fut)[b] == 0;
    } else {
      assert b in bs;
      if b.end < now {
        assert multiset(cur)[b] == 0 && multiset(fut)[b] == 0;
      } else if b.start > now {
        assert multiset(cur)[b] == 0 && multiset(past)[b] == 0;
      } else {
        assert multiset(past)[b] == 0 && multiset(fut)[b] == 0;
      }
    }
  }

  /** A booking that starts at exactly `now` is in none of the booker's
      CURRENT, PAST and FUTURE listings, although ALL holds it. */
  lemma BookerStatesMissStartAtNow(bs: seq<Booking>, b: Booking, now: Time)
    requires b in bs && b.start == now && b.start <= b.end
    ensures b in AllByBooker(bs, b.bookerId)
    ensures b !in CurrentByBooker(bs, b.bookerId, now)
    ensures b !in PastByBooker(bs, b.bookerId, now)
    ensures b !in FutureByBooker(bs, b.bookerId, now)
  {
  }

  /** The owner's CURRENT, PAST and FUTURE listings leave out none of the
      owner's bookings whose end is not before their start. */
  lemma OwnerStatesCover(bs: seq<Booking>, b: Booking, now: Time)
    requires b in bs && b.start <= b.end
    ensures var o := b.item.ownerId;
      b in CurrentByOwner(bs, o, now) || b in PastByOwner(bs, o, now) || b in FutureByOwner(bs, o, now)
  {
  }

  /** A booking of the owner that starts at exactly `now` and ends later is
      in both the owner's CURRENT and FUTURE listings. */
  lemma OwnerStatesOverlapAtStart(bs: seq<Booking>, b: Booking, now: Time)
    requires b in bs && b.start == now < b.end
    ensures b in CurrentByOwner(bs, b.item.ownerId, now)
    ensures b in FutureByOwner(bs, b.item.ownerId, now)
  {
  }

  /** A booking that begins and ends on the same calendar day is never in
      the day-granularity CURRENT listing, whatever time it is. */
  lemma SameDayNeverCurrentByDays(bs: seq<Booking>, b: Booking, now: Time)
    requires Day(b.start) == Day(b.end)
    ensures b !in CurrentByOwnerDays(bs, b.item.ownerId, now)
  {
  }

  /** The day-granularity CURRENT, PAST and FUTURE listings leave out none
      of the owner's bookings whose end is not before their start; one that
      starts and ends today is in both PAST and FUTURE. */
  lemma DaysStatesCover(bs: seq<Booking>, b: Booking, now: Time)
    requires b in bs && b.start <= b.end
    ensures var o := b.item.ownerId;
      || b in CurrentByOwnerDays(bs, o, now)
      || b in PastByOwnerDays(bs, o, now)
      || b in FutureByOwnerDays(bs, o, now)
    ensures Day(b.start) == Day(now) == Day(b.end) ==>
      b in PastByOwnerDays(bs, b.item.ownerId, now) && b in FutureByOwnerDays(bs, b.item.ownerId, now)
  {
    DayMonotone(b.start, b.end);
  }

  lemma DayMonotone(s: Time, t: Time)
    requires s <= t
    ensures Day(s) <= Day(t)
  {
  }
}
