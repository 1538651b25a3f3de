/** `InMemoryItemStorage`: a map from id to item and an id counter. The
    class was written against an item whose owner is a (nullable) user
    reference; here the owner is kept as that user's id, if any. */
module InMemoryItemStorage {
  import opened Common
  import opened Domain
  import Text
  import ItemRepository
  import ItemService

  /** An item as this storage keeps it. */
  datatype StoredItem = StoredItem(id: int, name: string, description: string, available: bool,
                                   owner: Option<int>)

  /** The field patch of `updateItem`: each non-null field of the incoming
      item replaces the stored one; id and owner are kept. */
  function Patch(stored: StoredItem, patch: ItemService.ItemDto): (r: StoredItem)
    ensures r.id == stored.id && r.owner == stored.owner
    ensures patch.name.Some? ==> r.name == patch.name.value
    ensures patch.description.Some? ==> r.description == patch.description.value
    ensures patch.available.Some? ==> r.available == patch.available.value
    ensures patch.name.None? ==> r.name == stored.name
    ensures patch.description.None? ==> r.description == stored.description
    ensures patch.available.None? ==> r.available == stored.available
  {
    var withName := if patch.name.Some? then stored.(name := patch.name.value) else stored;
    var withDescription := if patch.description.Some? then withName.(description := patch.description.value) else withName;
    if patch.available.Some? then withDescription.(available := patch.available.value) else withDescription
  }

  /** The storage's patch and the item service's merge (which skips a value
      equal to the stored one) leave the same name, description and
      availability behind. */
  lemma PatchAgreesWithMerge(stored: StoredItem, item: Item, patch: ItemService.ItemDto)
    requires item.name == stored.name && item.description == stored.description
    requires item.available == stored.available
    ensures var p := Patch(stored, patch);
            var m := ItemService.Merge(item, patch);
            p.name == m.name && p.description == m.description && p.available == m.available
  {
  }

  /** The filter of `searchByText`: the item must be available, and then its
      name or its description must contain the text, ignoring case. */
  predicate StorageMatches(it: StoredItem, text: string) {
    it.available
    && (Text.ContainsIgnoringCase(it.name, text) || Text.ContainsIgnoringCase(it.description, text))
  }

  /** The in-memory search and the database search of the server revision
      differ only on unavailable items: the storage never returns one, the
      query returns one whose name matches. */
  lemma SearchRevisionsDiffer(stored: StoredItem, item: Item, text: string)
    requires item.name == stored.name && item.description == stored.description
    requires item.available == stored.available
    ensures StorageMatches(stored, text) ==> ItemRepository.SearchMatches(item, text)
    ensures item.available ==> (StorageMatches(stored, text) <==> ItemRepository.SearchMatches(item, text))
    ensures !item.available ==> !StorageMatches(stored, text)
    ensures !item.available ==> (ItemRepository.SearchMatches(item, text) <==> Text.ContainsIgnoringCase(item.name, text))
  {
  }

  class ItemStorage {
    var itemMap: map<int, StoredItem>
    /** The last id handed out. */
    var id: int

    /** Every key was handed out by the counter and is the stored item's id. */
    ghost predicate Valid()
      reads this
    {
      id >= 0 && forall k :: k in itemMap ==> 1 <= k <= id && itemMap[k].id == k
    }

    constructor ()
      ensures Valid() && itemMap == map[] && id == 0
    {
      itemMap := map[];
      id := 0;
    }

    /** `createItem`: the item gets the next id, never used before, and is
        stored under it. */
    method CreateItem(item: StoredItem) returns (r: StoredItem)
      requires Valid()
      modifies this
      ensures Valid()
      ensures id == old(id) + 1 && r == item.(id := id)
      ensures r.id !in old(itemMap) && itemMap == old(itemMap)[r.id := r]
    {
      id := id + 1;
      r := item.(id := id);
      itemMap := itemMap[r.id := r];
    }

    /** `updateItem`: NotFound for an absent id; otherwise the patch is
        applied to that item alone. */
    method UpdateItem(key: int, patch: ItemService.ItemDto) returns (r: Result<StoredItem>)
      requires Valid()
      modifies this
      ensures Valid() && id == old(id)
      ensures key !in old(itemMap) ==> r == Err(NotFound) && itemMap == old(itemMap)
      ensures key in old(itemMap) ==> r == Ok(Patch(old(itemMap)[key], patch))
                                      && itemMap == old(itemMap)[key := r.value]
    {
      if key !in itemMap {
        return Err(NotFound);
      }
      var updated := Patch(itemMap[key], patch);
      itemMap := itemMap[key := updated];
      r := Ok(updated);
    }

    /** `findAllItems`: walks the stored items and keeps those owned by the
        caller; an ownerless item stops the walk with a null dereference.
        The walk visits the keys in ascending order. */
    method FindAllItems(sharerUserId: int) returns (r: Result<seq<StoredItem>>)
      requires Valid()
      ensures r.Err? <==> exists k :: k in itemMap && itemMap[k].owner.None?
      ensures r.Err? ==> r.error == Internal
      ensures r.Ok? ==> forall i :: 0 <= i < |r.value| ==>
                r.value[i].id in itemMap && itemMap[r.value[i].id] == r.value[i]
                && r.value[i].owner == Some(sharerUserId)
      ensures r.Ok? ==> forall k :: k in itemMap && itemMap[k].owner == Some(sharerUserId) ==> itemMap[k] in r.value
      ensures r.Ok? ==> forall i, j :: 0 <= i < j < |r.value| ==> r.value[i].id < r.value[j].id
    {
      var found: seq<StoredItem> := [];
      for k := 1 to id + 1
        invariant forall j :: j in itemMap && j < k ==> itemMap[j].owner.Some?
        invariant forall i :: 0 <= i < |found| ==>
                    found[i].id in itemMap && found[i].id < k && itemMap[found[i].id] == found[i]
                    && found[i].owner == Some(sharerUserId)
        invariant forall j :: j in itemMap && j < k && itemMap[j].owner == Some(sharerUserId) ==> itemMap[j] in found
        invariant forall i, j :: 0 <= i < j < |found| ==> found[i].id < found[j].id
      {
        if k in itemMap {
          var item := itemMap[k];
          if item.owner.None? {
            return Err(Internal);
          }
          if item.owner.value == sharerUserId {
            found := found + [item];
          }
        }
      }
      r := Ok(found);
    }

    /** `findItemById`: the item, if it exists, has an owner and that owner is
        the caller; NotFound otherwise. */
    function FindItemById(key: int, sharerUserId: int): (r: Result<StoredItem>)
      reads this
      ensures r.Ok? <==> key in itemMap && itemMap[key].owner == Some(sharerUserId)
      ensures r.Ok? ==> r.value == itemMap[key]
      ensures r.Err? ==> r.error == NotFound
    {
      if key in itemMap && itemMap[key].owner.Some? && itemMap[key].owner.value == sharerUserId
      then Ok(itemMap[key])
      else Err(NotFound)
    }

    /** `deleteItem`: removes exactly that key; NotFound for an absent id.
        The caller's id is not consulted. */
    method DeleteItem(key: int, sharerUserId: int) returns (error: Option<Error>)
      requires Valid()
      modifies this
      ensures Valid() && id == old(id)
      ensures error.Some? <==> key !in old(itemMap)
      ensures error.Some? ==> error.value == NotFound && itemMap == old(itemMap)
      ensures error.None? ==> itemMap == old(itemMap) - {key}
    {
      if key !in itemMap {
        return Some(NotFound);
      }
      itemMap := itemMap - {key};
      error := None;
    }

    /** `searchByText`: a null text is NotFound and a blank one finds
        nothing; otherwise the stored items the filter admits. */
    function SearchByText(text: Option<string>): (r: Result<set<StoredItem>>)
      reads this
      ensures r.Err? <==> text.None?
      ensures r.Err? ==> r.error == NotFound
      ensures text.Some? && Text.IsBlank(text.value) ==> r == Ok({})
      ensures r.Ok? ==> forall it :: it in r.value ==> it in itemMap.Values && it.available
      ensures text.Some? && !Text.IsBlank(text.value) ==>
                forall k :: k in itemMap ==> (itemMap[k] in r.value <==> StorageMatches(itemMap[k], text.value))
    {
      match text
      case None => Err(NotFound)
      case Some(t) =>
        if Text.IsBlank(t) then Ok({})
        else Ok(set it | it in itemMap.Values && StorageMatches(it, t))
    }
  }
}
