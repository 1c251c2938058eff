/** `ItemDaoImpl`: the in-memory item store, a list of items and the last id
    handed out. */
module ItemDao {
  import opened Common
  import opened Entities
  import opened Seqs
  import opened Text
  import opened Persistence

  /** The stored items an owner has, in insertion order. */
  function OwnedBy(items: seq<Item>, userId: int): (r: seq<Item>)
    ensures forall it :: it in r <==> it in items && it.ownerId == userId
    ensures forall i :: 0 <= i < |r| ==> r[i].ownerId == userId
  {
    Filter(items, (it: Item) => it.ownerId == userId)
  }

  /** `text` occurs in `s`, both lower-cased. The empty text occurs in
      every string, and no text occurs in a shorter one. */
  predicate ContainsIgnoreCase(s: string, text: string): (r: bool)
    ensures text == [] ==> r
    ensures r ==> |text| <= |s|
  {
    var ls, lt := Lower(s), Lower(text);
    assert text == [] ==> OccursAt(ls, lt, 0);
    Contains(ls, lt)
  }

  /** What the search matches: an available item whose name or description
      contains the text, ignoring case. */
  predicate SearchMatches(it: Item, text: string): (r: bool)
    ensures r ==> it.available
    ensures text == [] ==> (r <==> it.available)
  {
    it.available && (ContainsIgnoreCase(it.name, text) || ContainsIgnoreCase(it.description, text))
  }

  class ItemDaoImpl {
    var items: seq<Item>
    var id: int

    ghost predicate Valid()
      reads this
    {
      ItemsIssued(items, id)
    }

    constructor ()
      ensures Valid()
      ensures items == [] && id == 0
    {
      items := [];
      id := 0;
    }

    /** `generateId`: the counter, incremented first. */
    method GenerateId() returns (r: int)
      requires Valid()
      modifies this
      ensures r == old(id) + 1 && id == r
      ensures items == old(items)
      ensures forall i :: 0 <= i < |items| ==> items[i].id < r
    {
      id := id + 1;
      r := id;
    }

    /** `create`: the item gets the next id and is appended. */
    method Create(item: Item) returns (r: Item)
      requires Valid()
      modifies this
      ensures Valid()
      ensures r == item.(id := old(id) + 1)
      ensures items == old(items) + [r] && id == old(id) + 1
    {
      var newId := GenerateId();
      r := item.(id := newId);
      items := items + [r];
    }

    /** The position `stream().filter(id).findFirst()` stops at. */
    method Position(itemId: int) returns (k: Option<nat>)
      ensures k == ItemIndex(items, itemId)
    {
      var i := 0;
      while i < |items|
        invariant 0 <= i <= |items|
        invariant forall j :: 0 <= j < i ==> items[j].id != itemId
      {
        if items[i].id == itemId {
          FirstIndexAt(items, (it: Item) => it.id == itemId, i);
          return Some(i);
        }
        i := i + 1;
      }
      return None;
    }

    /** `getByItemId`: the first item with that id, or `ItemNotFoundException`. */
    method GetByItemId(itemId: int) returns (r: Result<Item>)
      ensures r.Success? <==> exists it :: it in items && it.id == itemId
      ensures r.Success? ==> r.value in items && r.value.id == itemId
      ensures r.Success? ==> r.value == items[ItemIndex(items, itemId).value]
      ensures r.Failure? ==> r.error == ItemNotFound
    {
      var k := Position(itemId);
      if k.None? {
        return Failure(ItemNotFound);
      }
      return Success(items[k.value]);
    }

    /** `update`: merges the patch into the stored item, in place; the list
      keeps its length and every other item. A missing id throws. */
    method Update(itemId: int, patch: ItemPatch) returns (r: Result<Item>)
      requires Valid()
      modifies this
      ensures Valid()
      ensures id == old(id) && |items| == |old(items)|
      ensures ItemIndex(old(items), itemId).None? ==> r == Failure(ItemNotFound) && items == old(items)
      ensures ItemIndex(old(items), itemId).Some? ==>
        var k := ItemIndex(old(items), itemId).value;
        && r == Success(MergeItem(old(items)[k], patch))
        && items == old(items)[k := MergeItem(old(items)[k], patch)]
    {
      var k := Position(itemId);
      if k.None? {
        return Failure(ItemNotFound);
      }
      var updated := MergeItem(items[k.value], patch);
      items := items[k.value := updated];
      r := Success(updated);
    }

    /** `getItemsByUserId`: the owner's items in insertion order. */
    method GetItemsByUserId(userId: int) returns (r: seq<Item>)
      ensures r == OwnedBy(items, userId)
    {
      r := [];
      var i := 0;
      while i < |items|
        invariant 0 <= i <= |items|
        invariant r == OwnedBy(items[..i], userId)
      {
        assert items[..i + 1][..i] == items[..i];
        if items[i].ownerId == userId {
          r := r + [items[i]];
        }
        i := i + 1;
      }
      assert items[..i] == items;
    }

    /** `search`: the available items whose name contains the text, and
      those whose description does, gathered into one set. */
    method Search(text: string) returns (r: set<Item>)
      ensures forall it :: it in r <==> it in items && SearchMatches(it, text)
    {
      var available := Filter(items, (it: Item) => it.available);
      var inName := Filter(available, (it: Item) => ContainsIgnoreCase(it.name, text));
      var inDescription := Filter(available, (it: Item) => ContainsIgnoreCase(it.description, text));
      var byDescription, byName := set it | it in inDescription, set it | it in inName;
      r := byDescription + byName;
      forall it ensures it in r <==> it in items && SearchMatches(it, text) {
        assert it in byName <==> it in inName;
        assert it in byDescription <==> it in inDescription;
      }
    }
  }
}
