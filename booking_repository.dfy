/** The booking queries of the non-paged revision. Each query is the set of
    rows its `where` clause admits, counted with multiplicity, and, when the
    query has an `order by`, in that order. Queries without an `order by`
    return rows in table order. */
module BookingRepository {
  import opened Common
  import opened Domain
  import opened Seqs

  /** `findAllBookingsByBooker`: the booker's bookings, latest start first. */
  function FindAllBookingsByBooker(table: seq<Booking>, bookerId: int): (r: seq<Booking>)
    ensures SortedDesc(r, StartOf)
    ensures forall b :: multiset(r)[b] == if b.bookerId == bookerId then multiset(table)[b] else 0
  {
    SortDesc(Where(table, (b: Booking) => b.bookerId == bookerId), StartOf)
  }

  /** `findAllBookingsForBookerWithStartAndEndTime`: the booker's bookings
      running at `t` (strictly inside the interval), latest start first. */
  function FindAllBookingsForBookerWithStartAndEndTime(table: seq<Booking>, bookerId: int, t: int): (r: seq<Booking>)
    ensures SortedDesc(r, StartOf)
    ensures forall b :: multiset(r)[b]
                        == if b.bookerId == bookerId && b.start < t && b.end > t then multiset(table)[b] else 0
  {
    SortDesc(Where(table, (b: Booking) => b.bookerId == bookerId && b.start < t && b.end > t), StartOf)
  }

  /** `findAllByOwnerId`: bookings of the owner's items, latest start first. */
  function FindAllByOwnerId(table: seq<Booking>, items: map<int, Item>, ownerId: int): (r: seq<Booking>)
    ensures SortedDesc(r, StartOf)
    ensures forall b :: multiset(r)[b] == if OwnedBy(items, b, ownerId) then multiset(table)[b] else 0
  {
    SortDesc(Where(table, (b: Booking) => OwnedBy(items, b, ownerId)), StartOf)
  }

  /** `findAllByOwnerIdAndStartBeforeAndEndAfter`: same window as the
      booker's CURRENT query, but with no `order by`. */
  function FindAllByOwnerIdAndStartBeforeAndEndAfter(table: seq<Booking>, items: map<int, Item>, ownerId: int, t: int): (r: seq<Booking>)
    ensures forall b :: multiset(r)[b]
                        == if OwnedBy(items, b, ownerId) && b.start < t && b.end > t then multiset(table)[b] else 0
  {
    Where(table, (b: Booking) => OwnedBy(items, b, ownerId) && b.start < t && b.end > t)
  }

  /** `findAllByBookerIdAndEndBeforeOrderByStartDesc`. */
  function FindAllByBookerIdAndEndBeforeOrderByStartDesc(table: seq<Booking>, bookerId: int, t: int): (r: seq<Booking>)
    ensures SortedDesc(r, StartOf)
    ensures forall b :: multiset(r)[b] == if b.bookerId == bookerId && b.end < t then multiset(table)[b] else 0
  {
    SortDesc(Where(table, (b: Booking) => b.bookerId == bookerId && b.end < t), StartOf)
  }

  /** `findAllByBookerIdAndStartAfterOrderByStartDesc`. */
  function FindAllByBookerIdAndStartAfterOrderByStartDesc(table: seq<Booking>, bookerId: int, t: int): (r: seq<Booking>)
    ensures SortedDesc(r, StartOf)
    ensures forall b :: multiset(r)[b] == if b.bookerId == bookerId && b.start > t then multiset(table)[b] else 0
  {
    SortDesc(Where(table, (b: Booking) => b.bookerId == bookerId && b.start > t), StartOf)
  }

  /** `findAllByBookerIdAndStatus`: exact status match, table order. */
  function FindAllByBookerIdAndStatus(table: seq<Booking>, bookerId: int, status: BookingStatus): (r: seq<Booking>)
    ensures forall b :: multiset(r)[b] == if b.bookerId == bookerId && b.status == status then multiset(table)[b] else 0
  {
    Where(table, (b: Booking) => b.bookerId == bookerId && b.status == status)
  }

  /** `findAllByOwnerIdAndStatus`: exact status match, table order. */
  function FindAllByOwnerIdAndStatus(table: seq<Booking>, items: map<int, Item>, ownerId: int, status: BookingStatus): (r: seq<Booking>)
    ensures forall b :: multiset(r)[b] == if OwnedBy(items, b, ownerId) && b.status == status then multiset(table)[b] else 0
  {
    Where(table, (b: Booking) => OwnedBy(items, b, ownerId) && b.status == status)
  }

  /** `findAllByOwnerIdAndStartAfter`: latest start first. */
  function FindAllByOwnerIdAndStartAfter(table: seq<Booking>, items: map<int, Item>, ownerId: int, t: int): (r: seq<Booking>)
    ensures SortedDesc(r, StartOf)
    ensures forall b :: multiset(r)[b] == if OwnedBy(items, b, ownerId) && b.start > t then multiset(table)[b] else 0
  {
    SortDesc(Where(table, (b: Booking) => OwnedBy(items, b, ownerId) && b.start > t), StartOf)
  }

  /** `findAllByOwnerIdAndEndBefore`: latest start first. */
  function FindAllByOwnerIdAndEndBefore(table: seq<Booking>, items: map<int, Item>, ownerId: int, t: int): (r: seq<Booking>)
    ensures SortedDesc(r, StartOf)
    ensures forall b :: multiset(r)[b] == if OwnedBy(items, b, ownerId) && b.end < t then multiset(table)[b] else 0
  {
    SortDesc(Where(table, (b: Booking) => OwnedBy(items, b, ownerId) && b.end < t), StartOf)
  }

  /** `findFirstByItemIdAndEndBeforeOrderByEndDesc`: the item's booking that
      ended last before `t`, or none (`null`). Among equal ends the earliest
      row wins. */
  function FindFirstByItemIdAndEndBeforeOrderByEndDesc(table: seq<Booking>, itemId: int, t: int): (r: Option<Booking>)
    ensures r.Some? ==> r.value in table && r.value.itemId == itemId && r.value.end < t
    ensures r.Some? ==> forall b :: b in table && b.itemId == itemId && b.end < t ==> b.end <= r.value.end
    ensures r.None? <==> forall b :: b in table && b.itemId == itemId ==> b.end >= t
  {
    if table == [] then None
    else
      var rest := FindFirstByItemIdAndEndBeforeOrderByEndDesc(table[1..], itemId, t);
      var b := table[0];
      assert table == [b] + table[1..];
      if b.itemId == itemId && b.end < t && (rest.None? || b.end >= rest.value.end) then Some(b)
      else rest
  }

  /** `findFirstByItemIdAndStartAfterOrderByStartAsc`: the item's booking
      that starts first after `t`, or none. Among equal starts the earliest
      row wins. */
  function FindFirstByItemIdAndStartAfterOrderByStartAsc(table: seq<Booking>, itemId: int, t: int): (r: Option<Booking>)
    ensures r.Some? ==> r.value in table && r.value.itemId == itemId && r.value.start > t
    ensures r.Some? ==> forall b :: b in table && b.itemId == itemId && b.start > t ==> r.value.start <= b.start
    ensures r.None? <==> forall b :: b in table && b.itemId == itemId ==> b.start <= t
  {
    if table == [] then None
    else
      var rest := FindFirstByItemIdAndStartAfterOrderByStartAsc(table[1..], itemId, t);
      var b := table[0];
      assert table == [b] + table[1..];
      if b.itemId == itemId && b.start > t && (rest.None? || b.start <= rest.value.start) then Some(b)
      else rest
  }

  /** `test2`: every booking of the item, earliest start first. The time
      argument plays no part in the query. */
  function Test2(table: seq<Booking>, itemId: int, t: int): (r: seq<Booking>)
    ensures SortedAsc(r, StartOf)
    ensures forall b :: multiset(r)[b] == if b.itemId == itemId then multiset(table)[b] else 0
  {
    SortAsc(Where(table, (b: Booking) => b.itemId == itemId), StartOf)
  }
}
