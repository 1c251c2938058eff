/** `BookingMapper`: the projections between a booking and its DTOs. */
module BookingMapper {
  import opened Common
  import opened Entities

  datatype ItemShortDto = ItemShortDto(id: int, name: string)

  datatype UserShortDto = UserShortDto(id: int)

  datatype BookingDto = BookingDto(
    id: int,
    start: Time,
    end: Time,
    itemId: int,
    item: ItemShortDto,
    booker: UserShortDto,
    status: BookingStatus)

  /** The booking decoration of an item view: the booking and its booker. */
  datatype BookingShortDto = BookingShortDto(id: int, bookerId: int)

  /** `toDto`: the booking with its item and booker shortened. It keeps
      the booking's id, period and status; both item fields name the booked
      item, and the booker field names the booker. */
  function ToDto(b: Booking): (d: BookingDto)
    ensures d.id == b.id && d.start == b.start && d.end == b.end && d.status == b.status
    ensures d.itemId == b.item.id && d.item.id == b.item.id && d.item.name == b.item.name
    ensures d.booker.id == b.bookerId
  {
    BookingDto(b.id, b.start, b.end, b.item.id, ItemShortDto(b.item.id, b.item.name),
               UserShortDto(b.bookerId), b.status)
  }

  /** `toDtoList`: `toDto` on every booking, in order. */
  function ToDtoList(bs: seq<Booking>): (r: seq<BookingDto>)
    ensures |r| == |bs|
    ensures forall i :: 0 <= i < |bs| ==> r[i] == ToDto(bs[i])
  {
    if bs == [] then [] else [ToDto(bs[0])] + ToDtoList(bs[1..])
  }

  /** Mapping a concatenation maps each part. */
  lemma ToDtoListAppend(a: seq<Booking>, b: seq<Booking>)
    ensures ToDtoList(a + b) == ToDtoList(a) + ToDtoList(b)
  {
  }

  /** The item a booking is made for, as `Item.builder().id(id).build()`
      leaves it: only the id is set; the other fields stand for `null`. */
  function StubItem(id: int): (it: Item)
    ensures it.id == id && it.name == [] && it.description == [] && it.requestId.None?
  {
    Item(id, "", "", false, 0, None)
  }

  /** `toBooking`: copies the id, the period, the booker and the status. The
      item is a stub whose id is the DTO's own `id`, not its `itemId`. */
  function ToBooking(d: BookingDto): (b: Booking)
    ensures b.id == d.id && b.start == d.start && b.end == d.end
    ensures b.bookerId == d.booker.id && b.status == d.status
    ensures b.item == StubItem(d.id)
  {
    Booking(d.id, d.start, d.end, StubItem(d.id), d.booker.id, d.status)
  }

  /** Converting a booking to its DTO and back keeps everything except the
      item, which comes back as a stub carrying the booking's id. */
  lemma ToBookingAfterToDto(b: Booking)
    ensures var r := ToBooking(ToDto(b));
      && r.id == b.id && r.start == b.start && r.end == b.end
      && r.bookerId == b.bookerId && r.status == b.status
      && r.item.id == b.id
  {
  }

  /** `toShortDto`: the booking's id and its booker's id. */
  function ToShortDto(b: Booking): (d: BookingShortDto)
    ensures d.id == b.id && d.bookerId == b.bookerId
  {
    BookingShortDto(b.id, b.bookerId)
  }

  /** The short form names the same booking and booker as the full DTO. */
  lemma ToShortDtoAgrees(b: Booking)
    ensures ToShortDto(b).id == ToDto(b).id
    ensures ToShortDto(b).bookerId == ToDto(b).booker.id
  {
  }
}
