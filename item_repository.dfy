/** The item queries of the server revision's `ItemRepository`, as filters
    over the items table in id order. */
module ItemRepository {
  import opened Common
  import opened Domain
  import opened Seqs
  import Text

  /** `findByUserId`: the items `userId` owns. */
  function FindByUserId(table: seq<Item>, userId: int): (r: seq<Item>)
    ensures forall it :: multiset(r)[it] == if it.userId == userId then multiset(table)[it] else 0
    ensures forall i :: 0 <= i < |r| ==> r[i].userId == userId
  {
    Where(table, (it: Item) => it.userId == userId)
  }

  /** The `where` clause of `getItemsBySearchQuery`. The `and` binds
      tighter than the `or`: a name match needs nothing else, a description
      match needs the item to be available. */
  predicate SearchMatches(it: Item, text: string) {
    Text.ContainsIgnoringCase(it.name, text)
    || (Text.ContainsIgnoringCase(it.description, text) && it.available)
  }

  /** `getItemsBySearchQuery`: the items the search clause admits. */
  function GetItemsBySearchQuery(table: seq<Item>, text: string): (r: seq<Item>)
    ensures forall it :: multiset(r)[it] == if SearchMatches(it, text) then multiset(table)[it] else 0
  {
    Where(table, (it: Item) => SearchMatches(it, text))
  }

  /** An item whose name contains the text is found even when it is not
      available; an unavailable item whose name does not contain it is
      never found, whatever its description says. */
  lemma SearchAvailabilityOnlyGuardsDescription(table: seq<Item>, text: string, it: Item)
    requires it in table
    ensures Text.ContainsIgnoringCase(it.name, text) ==> it in GetItemsBySearchQuery(table, text)
    ensures !it.available && !Text.ContainsIgnoringCase(it.name, text) ==> it !in GetItemsBySearchQuery(table, text)
  {
    var r := GetItemsBySearchQuery(table, text);
    assert multiset(table)[it] > 0;
    assert it in r <==> multiset(r)[it] > 0;
  }

  /** `findAllByRequestId`: the items answering request `requestId`. */
  function FindAllByRequestId(table: seq<Item>, requestId: int): (r: seq<Item>)
    ensures forall it :: multiset(r)[it] == if it.requestId == Some(requestId) then multiset(table)[it] else 0
  {
    Where(table, (it: Item) => it.requestId == Some(requestId))
  }
}
