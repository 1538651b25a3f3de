/** `ItemRequestServiceImpl`: item requests are stored by `create` and read
    back by id, by their author, or, for everyone else, page by page. The
    returned DTO copies the stored request; its `items` list is filled by an
    item-service call that is not part of this model, so a request is
    returned as the `ItemRequest` record itself. */
module ItemRequestService {
  import opened Common
  import opened Domain
  import opened Seqs
  import opened Paging

  /** `findAllByRequestorId(requestorId, Sort.by(DESC, "created"))`. */
  function OwnRequests(table: seq<ItemRequest>, requestorId: int): (r: seq<ItemRequest>)
    ensures forall q :: multiset(r)[q] == if q.requestorId == requestorId then multiset(table)[q] else 0
    ensures SortedDesc(r, CreatedOf)
  {
    SortedSelection(table, (q: ItemRequest) => q.requestorId == requestorId, CreatedOf);
    SortDesc(Where(table, (q: ItemRequest) => q.requestorId == requestorId), CreatedOf)
  }

  /** `findAllByRequestorIdNot` under `Sort.by(DESC, "created")`, and
      `findAllByRequestorIdNotOrderByCreatedDesc`: the requests of everyone
      but `userId`, newest first. */
  function OthersRequests(table: seq<ItemRequest>, userId: int): (r: seq<ItemRequest>)
    ensures forall q :: multiset(r)[q] == if q.requestorId != userId then multiset(table)[q] else 0
    ensures SortedDesc(r, CreatedOf)
  {
    SortedSelection(table, (q: ItemRequest) => q.requestorId != userId, CreatedOf);
    SortDesc(Where(table, (q: ItemRequest) => q.requestorId != userId), CreatedOf)
  }

  /** `getItemRequestById`: the caller must be a known user, and the request
      must exist; both failures are NotFound. */
  function RequestById(table: seq<ItemRequest>, users: map<int, User>, requestId: int, userId: int)
    : (r: Result<ItemRequest>)
    requires RowNumbered(table, RequestId)
    ensures r.Ok? <==> userId in users && exists i :: 0 <= i < |table| && table[i].id == requestId
    ensures r.Err? ==> r.error == NotFound
    ensures r.Ok? ==> r.value in table && r.value.id == requestId
  {
    if userId !in users then Err(NotFound)
    else match FindById(table, requestId, RequestId)
      case None => Err(NotFound)
      case Some(q) => Ok(q)
  }

  /** `getOwnItemRequests`: NotFound for an unknown user, otherwise the
      caller's own requests, newest first. */
  function OwnItemRequests(table: seq<ItemRequest>, users: map<int, User>, requestorId: int)
    : (r: Result<seq<ItemRequest>>)
    ensures r.Err? <==> requestorId !in users
    ensures r.Err? ==> r.error == NotFound
    ensures r.Ok? ==> SortedDesc(r.value, CreatedOf)
                      && forall q :: multiset(r.value)[q] == if q.requestorId == requestorId then multiset(table)[q] else 0
  {
    if requestorId !in users then Err(NotFound) else Ok(OwnRequests(table, requestorId))
  }

  /** How `getAllItemRequests` assembles its answer from the others'
      requests, given the first page index, page size and page count that
      `Pagination` derives from `from` and `size`. Without `size`: every
      page from `index` on, followed by the whole list once more with its
      first `from` entries skipped. With `size`: the pages `index` to
      `totalPages - 1`, cut to `size` entries. */
  function Assembled(others: seq<ItemRequest>, from: nat, index: nat, pageSize: nat,
                     totalPages: int, size: Option<nat>): seq<ItemRequest>
    requires pageSize >= 1
  {
    match size
    case None => others[Min(index * pageSize, |others|)..] + others[Min(from, |others|)..]
    case Some(limit) => Take(Covered(others, index, pageSize, totalPages), limit)
  }

  /** What `getAllItemRequests` returns to a known user. */
  function AllRequests(table: seq<ItemRequest>, userId: int, from: nat, index: nat, pageSize: nat,
                       totalPages: int, size: Option<nat>): seq<ItemRequest>
    requires pageSize >= 1
  {
    Assembled(OthersRequests(table, userId), from, index, pageSize, totalPages, size)
  }

  /** The assembly only ever repeats rows of the query result. */
  lemma AssembledWithin(others: seq<ItemRequest>, from: nat, index: nat, pageSize: nat,
                        totalPages: int, size: Option<nat>, q: ItemRequest)
    requires pageSize >= 1
    requires q in Assembled(others, from, index, pageSize, totalPages, size)
    ensures q in others
  {
    if size.None? {
      var a := others[Min(index * pageSize, |others|)..];
      var b := others[Min(from, |others|)..];
      assert q in a + b;
      assert q in a || q in b;
    } else {
      var c := Covered(others, index, pageSize, totalPages);
      var t := Take(c, size.value);
      assert t == c[..|t|];
      assert q in c;
    }
  }

  /** However the pages are cut, a caller never sees their own requests. */
  lemma AllRequestsExcludeOwn(table: seq<ItemRequest>, userId: int, from: nat, index: nat,
                              pageSize: nat, totalPages: int, size: Option<nat>, q: ItemRequest)
    requires pageSize >= 1
    requires q in AllRequests(table, userId, from, index, pageSize, totalPages, size)
    ensures q.requestorId != userId
    ensures q in table
  {
    var others := OthersRequests(table, userId);
    AssembledWithin(others, from, index, pageSize, totalPages, size, q);
    assert multiset(others)[q] > 0;
  }

  /** With `size`, at most `size` requests come back, and they are the rows
      right after the first page's offset, so they keep the newest-first
      order. */
  lemma SizedIsBoundedAndOrdered(others: seq<ItemRequest>, from: nat, index: nat,
                                 pageSize: nat, totalPages: int, limit: nat)
    requires pageSize >= 1
    requires SortedDesc(others, CreatedOf)
    ensures var r := Assembled(others, from, index, pageSize, totalPages, Some(limit));
            var lo := Min(index * pageSize, |others|);
            |r| <= limit && SortedDesc(r, CreatedOf)
            && lo + |r| <= |others| && r == others[lo..lo + |r|]
  {
    var c := Covered(others, index, pageSize, totalPages);
    var lo := Min(index * pageSize, |others|);
    var t := Take(c, limit);
    assert t == c[..|t|];
    assert t == others[lo..lo + |t|];
    SliceSortedDesc(others, lo, lo + |t|, CreatedOf);
  }

  /** Without `size`, the list is two newest-first runs: the rows from the
      first page's offset on, then the rows from `from` on. */
  lemma UnsizedRunsOrdered(others: seq<ItemRequest>, from: nat, index: nat,
                           pageSize: nat, totalPages: int)
    requires pageSize >= 1
    requires SortedDesc(others, CreatedOf)
    ensures var r := Assembled(others, from, index, pageSize, totalPages, None);
            var k := |others| - Min(index * pageSize, |others|);
            k <= |r| && SortedDesc(r[..k], CreatedOf) && SortedDesc(r[k..], CreatedOf)
            && |r| == k + |others| - Min(from, |others|)
  {
    var lo := Min(index * pageSize, |others|);
    var r := Assembled(others, from, index, pageSize, totalPages, None);
    assert r[..|others| - lo] == others[lo..];
    assert r[|others| - lo..] == others[Min(from, |others|)..];
    SliceSortedDesc(others, lo, |others|, CreatedOf);
    SliceSortedDesc(others, Min(from, |others|), |others|, CreatedOf);
  }

  /** Asked from the start (`from` 0, first page 0) without `size`, every
      request of the others is listed twice: two stored requests of another
      user come back as four. */
  lemma UnsizedRepeatsEveryRequest(table: seq<ItemRequest>, userId: int, pageSize: nat, totalPages: int)
    requires pageSize >= 1
    ensures var others := OthersRequests(table, userId);
            var r := AllRequests(table, userId, 0, 0, pageSize, totalPages, None);
            r == others + others && |r| == 2 * |others|
            && forall q :: multiset(r)[q] == if q.requestorId != userId then 2 * multiset(table)[q] else 0
  {
    var others := OthersRequests(table, userId);
    assert others[0..] == others;
    assert multiset(others + others) == multiset(others) + multiset(others);
  }

  /** A request that was just created is found by id by any known user, with
      the description and time it was created with. */
  lemma CreatedRequestIsFound(table: seq<ItemRequest>, users: map<int, User>, description: string,
                              requestorId: int, created: int, userId: int)
    requires RowNumbered(table, RequestId)
    requires userId in users
    ensures var q := ItemRequest(|table| + 1, description, requestorId, created);
            RowNumbered(table + [q], RequestId)
            && RequestById(table + [q], users, |table| + 1, userId) == Ok(q)
  {
    var q := ItemRequest(|table| + 1, description, requestorId, created);
    var t := table + [q];
    assert t[|table|] == q;
  }

  /** The repository of item requests. */
  class Service {
    /** The item requests table; row `i` holds the request with id `i + 1`. */
    var requests: seq<ItemRequest>

    ghost predicate Valid()
      reads this
    {
      RowNumbered(requests, RequestId)
    }

    constructor ()
      ensures Valid() && requests == []
    {
      requests := [];
    }

    /** `create`: the requestor must be a known user (NotFound); the request
        is saved under the next id with the given description and time. */
    method Create(users: map<int, User>, description: string, requestorId: int, created: int)
      returns (r: Result<ItemRequest>)
      requires Valid()
      modifies this
      ensures Valid()
      ensures r.Err? <==> requestorId !in users
      ensures r.Err? ==> r.error == NotFound && requests == old(requests)
      ensures r.Ok? ==> r.value == ItemRequest(|old(requests)| + 1, description, requestorId, created)
                        && requests == old(requests) + [r.value]
    {
      if requestorId !in users {
        return Err(NotFound);
      }
      var q := ItemRequest(|requests| + 1, description, requestorId, created);
      requests := requests + [q];
      r := Ok(q);
    }

    /** `getAllItemRequests`: NotFound for an unknown user; otherwise the
        page loop without `size` followed by the skipped full list, or the
        bounded page loop cut to `size`. */
    method GetAllItemRequests(users: map<int, User>, userId: int, from: nat, index: nat,
                              pageSize: nat, totalPages: int, size: Option<nat>)
      returns (r: Result<seq<ItemRequest>>)
      requires pageSize >= 1
      ensures userId !in users ==> r == Err(NotFound)
      ensures userId in users ==> r == Ok(AllRequests(requests, userId, from, index, pageSize, totalPages, size))
    {
      if userId !in users {
        return Err(NotFound);
      }
      var others := OthersRequests(requests, userId);
      var list: seq<ItemRequest>;
      if size.None? {
        list := DrainPages(others, index, pageSize);
        list := list + others[Min(from, |others|)..];
      } else {
        list := CollectPages(others, index, pageSize, totalPages, size.value);
      }
      r := Ok(list);
    }
  }
}
