/** The paged booking queries of the server revision. A paged query is
    modelled by its whole ordered result; the page assembly slices it. Every
    listing page is requested with `Sort.by(DESC, "start")`, so even the
    queries without an `order by` come back latest start first. Queries whose
    meaning is the same as in the non-paged revision are not repeated here:
    the listings use `BookingRepository`'s. */
module ServerBookingRepository {
  import opened Common
  import opened Domain
  import opened Seqs

  /** `findByBookerIdAndStartIsBeforeAndEndIsAfter(bookerId, start, end)`: a
      derived query with two separate bounds, `b.start < start` and
      `b.end > end`. */
  function FindByBookerIdAndStartIsBeforeAndEndIsAfter(table: seq<Booking>, bookerId: int, start: int, end: int): (r: seq<Booking>)
    ensures SortedDesc(r, StartOf)
    ensures forall b :: multiset(r)[b]
                        == if b.bookerId == bookerId && b.start < start && b.end > end then multiset(table)[b] else 0
  {
    SortDesc(Where(table, (b: Booking) => b.bookerId == bookerId && b.start < start && b.end > end), StartOf)
  }

  /** `findByItemOwnerIdAndStartIsBeforeAndEndIsAfter`: owner CURRENT, the
      window strictly around `t`. */
  function FindByItemOwnerIdAndStartIsBeforeAndEndIsAfter(table: seq<Booking>, items: map<int, Item>, ownerId: int, t: int): (r: seq<Booking>)
    ensures SortedDesc(r, StartOf)
    ensures forall b :: multiset(r)[b]
                        == if OwnedBy(items, b, ownerId) && b.start < t && b.end > t then multiset(table)[b] else 0
  {
    SortDesc(Where(table, (b: Booking) => OwnedBy(items, b, ownerId) && b.start < t && b.end > t), StartOf)
  }

  /** `findByBookerIdAndStatus`, paged in `start` order. */
  function FindByBookerIdAndStatus(table: seq<Booking>, bookerId: int, status: BookingStatus): (r: seq<Booking>)
    ensures SortedDesc(r, StartOf)
    ensures forall b :: multiset(r)[b] == if b.bookerId == bookerId && b.status == status then multiset(table)[b] else 0
  {
    SortDesc(Where(table, (b: Booking) => b.bookerId == bookerId && b.status == status), StartOf)
  }

  /** `findByItemOwnerIdAndStatus`, paged in `start` order. */
  function FindByItemOwnerIdAndStatus(table: seq<Booking>, items: map<int, Item>, ownerId: int, status: BookingStatus): (r: seq<Booking>)
    ensures SortedDesc(r, StartOf)
    ensures forall b :: multiset(r)[b] == if OwnedBy(items, b, ownerId) && b.status == status then multiset(table)[b] else 0
  {
    SortDesc(Where(table, (b: Booking) => OwnedBy(items, b, ownerId) && b.status == status), StartOf)
  }

  /** `findApprovedForItems(items, sort)` with the `DESC start` sort its one
      caller passes: the APPROVED bookings of the given items. */
  function FindApprovedForItems(table: seq<Booking>, itemIds: set<int>): (r: seq<Booking>)
    ensures SortedDesc(r, StartOf)
    ensures forall b :: multiset(r)[b] == if b.itemId in itemIds && b.status == Approved then multiset(table)[b] else 0
  {
    SortDesc(Where(table, (b: Booking) => b.itemId in itemIds && b.status == Approved), StartOf)
  }
}
