/** `ItemRequestMapper`: the projections between an item request and its
    DTO. */
module ItemRequestMapper {
  import opened Common
  import opened Entities
  import opened Seqs

  /** `ItemRequestDto`: the request with the items created for it. */
  datatype ItemRequestDto = ItemRequestDto(id: int, description: string, created: Time, items: seq<ItemDto>)

  /** `toDtoWithItems`: the request with each of its items shown with its
      request id, in order. A `null` item list would throw, so the request
      must carry one. */
  function ToDtoWithItems(q: ItemRequest): (r: ItemRequestDto)
    requires q.items.Some?
    ensures r.id == q.id && r.description == q.description && r.created == q.created
    ensures |r.items| == |q.items.value|
    ensures forall i :: 0 <= i < |r.items| ==> r.items[i] == ItemToDtoWithRequest(q.items.value[i])
  {
    ItemRequestDto(q.id, q.description, q.created, Map(q.items.value, ItemToDtoWithRequest))
  }

  /** `toDto`: the request with an empty item list, whatever it holds. */
  function ToDto(q: ItemRequest): (r: ItemRequestDto)
    ensures r.id == q.id && r.description == q.description && r.created == q.created
    ensures r.items == []
  {
    ItemRequestDto(q.id, q.description, q.created, [])
  }

  /** `toItemRequestNoItems`: a request by `userId` (a stub user carrying
      only the id) with an empty item list. */
  function ToItemRequestNoItems(d: ItemRequestDto, userId: int): (r: ItemRequest)
    ensures r.id == d.id && r.description == d.description && r.created == d.created
    ensures r.requestorId == userId && r.items == Some([])
  {
    ItemRequest(d.id, d.description, userId, d.created, Some([]))
  }

  /** A request with an empty item list shows the same either way. */
  lemma ToDtoOfEmpty(q: ItemRequest)
    requires q.items == Some([])
    ensures ToDto(q) == ToDtoWithItems(q)
  {
  }

  /** `toDto` always shows an empty item list and keeps the id, the
      description and the creation time. */
  lemma ToDtoFields(q: ItemRequest)
    ensures var d := ToDto(q);
      d.items == [] && d.id == q.id && d.description == q.description && d.created == q.created
  {
  }

  /** Turning a DTO into a request and back keeps the id, the description
      and the creation time, and empties the item list; the request belongs
      to the given user and has no items. */
  lemma NoItemsRoundTrip(d: ItemRequestDto, userId: int)
    ensures ToItemRequestNoItems(d, userId).requestorId == userId
    ensures ToItemRequestNoItems(d, userId).items == Some([])
    ensures ToDto(ToItemRequestNoItems(d, userId)) == d.(items := [])
  {
  }
}
