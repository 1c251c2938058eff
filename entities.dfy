/** The persistent entities of the item-sharing service, the partial updates
    ("patches") clients send, and the field-copy DTOs of items and comments.
    A Java `null` in a patch is `None`. */
module Entities {
  import opened Common

  /** The stored lifecycle value of a booking. */
  datatype BookingStatus = Waiting | Approved | Rejected

  /** The `state` query parameter of the booking listings. */
  datatype BookingState =
    | All | Current | Past | Future | WaitingState | RejectedState | UnsupportedState

  datatype User = User(id: int, name: string, email: string)

  /** An item. The in-memory era keeps `ownerId`; the relational era keeps an
      owner reference, which this model also reduces to its id. `requestId`
      is the originating item request, if any. */
  datatype Item = Item(
    id: int,
    name: string,
    description: string,
    available: bool,
    ownerId: int,
    requestId: Option<int>)

  /** A booking holds the item it was made for as the service loaded it
      (its owner never changes afterwards). */
  datatype Booking = Booking(
    id: int,
    start: Time,
    end: Time,
    item: Item,
    bookerId: int,
    status: BookingStatus)

  datatype Comment = Comment(id: int, text: string, itemId: int, author: User, created: Time)

  /** An item request; `items` is the mapped collection of items created for
      it, which a Java caller may leave `null`. */
  datatype ItemRequest = ItemRequest(
    id: int,
    description: string,
    requestorId: int,
    created: Time,
    items: Option<seq<Item>>)

  /** The fields of an item update; a `None` field is left as it is. */
  datatype ItemPatch = ItemPatch(
    name: Option<string>,
    description: Option<string>,
    available: Option<bool>)

  /** The fields of a user update; a `None` field is left as it is. */
  datatype UserPatch = UserPatch(name: Option<string>, email: Option<string>)

  /** The three `Optional.ofNullable(...).ifPresent(setter)` lines of an item
      update. */
  function MergeItem(it: Item, p: ItemPatch): (r: Item)
    ensures r.id == it.id && r.ownerId == it.ownerId && r.requestId == it.requestId
    ensures p == ItemPatch(None, None, None) ==> r == it
  {
    it.(name := p.name.GetOr(it.name),
        description := p.description.GetOr(it.description),
        available := p.available.GetOr(it.available))
  }

  /** The two `Optional.ofNullable(...).ifPresent(setter)` lines of a user
      update. */
  function MergeUser(u: User, p: UserPatch): (r: User)
    ensures r.id == u.id
    ensures p == UserPatch(None, None) ==> r == u
  {
    u.(name := p.name.GetOr(u.name), email := p.email.GetOr(u.email))
  }

  /** An item patch never touches the id, the owner or the request, sets
      every field it carries, and keeps every field it leaves `null`. */
  lemma MergeItemFields(it: Item, p: ItemPatch)
    ensures var r := MergeItem(it, p);
      && r.id == it.id && r.ownerId == it.ownerId && r.requestId == it.requestId
      && (p.name.Some? ==> r.name == p.name.value)
      && (p.name.None? ==> r.name == it.name)
      && (p.description.Some? ==> r.description == p.description.value)
      && (p.description.None? ==> r.description == it.description)
      && (p.available.Some? ==> r.available == p.available.value)
      && (p.available.None? ==> r.available == it.available)
  {
  }

  /** Applying the same patch twice is applying it once. */
  lemma MergeItemIdempotent(it: Item, p: ItemPatch)
    ensures MergeItem(MergeItem(it, p), p) == MergeItem(it, p)
  {
  }

  /** A user patch never touches the id, sets every field it carries, and
      keeps every field it leaves `null`. */
  lemma MergeUserFields(u: User, p: UserPatch)
    ensures var r := MergeUser(u, p);
      && r.id == u.id
      && (p.name.Some? ==> r.name == p.name.value)
      && (p.name.None? ==> r.name == u.name)
      && (p.email.Some? ==> r.email == p.email.value)
      && (p.email.None? ==> r.email == u.email)
  {
  }

  /** `ItemDto`: the item's fields, with its owner reduced to an id. */
  datatype ItemDto = ItemDto(
    id: int,
    name: string,
    description: string,
    available: bool,
    ownerId: int,
    requestId: Option<int>)

  /** `ItemMapper.toDto`: copies the item and leaves the request id `null`. */
  function ItemToDto(it: Item): (d: ItemDto)
    ensures d.id == it.id && d.name == it.name && d.description == it.description
    ensures d.available == it.available && d.ownerId == it.ownerId && d.requestId.None?
  {
    ItemDto(it.id, it.name, it.description, it.available, it.ownerId, None)
  }

  /** `ItemMapper.toDtoWithRequest`: copies the item with its request id. */
  function ItemToDtoWithRequest(it: Item): (d: ItemDto)
    ensures d == ItemToDto(it).(requestId := it.requestId)
  {
    ItemDto(it.id, it.name, it.description, it.available, it.ownerId, it.requestId)
  }

  /** `CommentDto`: the comment with its author reduced to a display name. */
  datatype CommentDto = CommentDto(id: int, text: string, authorName: string, created: Time)

  function CommentToDto(c: Comment): (d: CommentDto)
    ensures d.id == c.id && d.text == c.text && d.created == c.created
    ensures d.authorName == c.author.name
  {
    CommentDto(c.id, c.text, c.author.name, c.created)
  }
}
