/** `BookingServiceImpl` of the non-paged revision: the bookings table, and
    the create, status change and listing operations over it. Users and
    items belong to other services; they are passed in as the maps those
    services would look them up in. The clock is the parameter `now`. */
module BookingService {
  import opened Common
  import opened Domain
  import opened Seqs
  import opened States
  import opened BookingRepository
  import opened BookingMapper
  import opened BookingRules

  /** The bookings of `bookerId` that the filter `state` lists, as the
      repository query that `getByUserId` picks for it returns them. */
  function BookerListing(table: seq<Booking>, bookerId: int, state: BookingState, now: int): (r: seq<Booking>)
    requires state != UNKNOWN
    ensures forall b :: multiset(r)[b] == if b.bookerId == bookerId && Admits(state, b, now) then multiset(table)[b] else 0
    ensures OrderedByStart(state) ==> SortedDesc(r, StartOf)
  {
    match state
    case ALL => FindAllBookingsByBooker(table, bookerId)
    case CURRENT =>
      var r := FindAllBookingsForBookerWithStartAndEndTime(table, bookerId, now);
      assert forall b :: Admits(CURRENT, b, now) == (b.start < now && b.end > now);
      r
    case PAST =>
      var r := FindAllByBookerIdAndEndBeforeOrderByStartDesc(table, bookerId, now);
      assert forall b :: Admits(PAST, b, now) == (b.end < now);
      r
    case FUTURE =>
      var r := FindAllByBookerIdAndStartAfterOrderByStartDesc(table, bookerId, now);
      assert forall b :: Admits(FUTURE, b, now) == (b.start > now);
      r
    case WAITING =>
      var r := FindAllByBookerIdAndStatus(table, bookerId, Waiting);
      assert forall b :: Admits(WAITING, b, now) == (b.status == Waiting);
      r
    case REJECTED =>
      var r := FindAllByBookerIdAndStatus(table, bookerId, Rejected);
      assert forall b :: Admits(REJECTED, b, now) == (b.status == Rejected);
      r
  }

  /** The bookings of `ownerId`'s items that `getByOwnerId` lists for
      `state`. Only ALL, PAST and FUTURE come back in `start` order. */
  function OwnerListing(table: seq<Booking>, items: map<int, Item>, ownerId: int, state: BookingState, now: int): (r: seq<Booking>)
    requires state != UNKNOWN
    ensures forall b :: multiset(r)[b] == if OwnedBy(items, b, ownerId) && Admits(state, b, now) then multiset(table)[b] else 0
    ensures state == ALL || state == PAST || state == FUTURE ==> SortedDesc(r, StartOf)
  {
    match state
    case ALL => FindAllByOwnerId(table, items, ownerId)
    case CURRENT =>
      var r := FindAllByOwnerIdAndStartBeforeAndEndAfter(table, items, ownerId, now);
      assert forall b :: Admits(CURRENT, b, now) == (b.start < now && b.end > now);
      r
    case PAST =>
      var r := FindAllByOwnerIdAndEndBefore(table, items, ownerId, now);
      assert forall b :: Admits(PAST, b, now) == (b.end < now);
      r
    case FUTURE =>
      var r := FindAllByOwnerIdAndStartAfter(table, items, ownerId, now);
      assert forall b :: Admits(FUTURE, b, now) == (b.start > now);
      r
    case WAITING =>
      var r := FindAllByOwnerIdAndStatus(table, items, ownerId, Waiting);
      assert forall b :: Admits(WAITING, b, now) == (b.status == Waiting);
      r
    case REJECTED =>
      var r := FindAllByOwnerIdAndStatus(table, items, ownerId, Rejected);
      assert forall b :: Admits(REJECTED, b, now) == (b.status == Rejected);
      r
  }

  /** `.map(BookingMapper::toBookingShortDto)`. */
  function Shorts(s: seq<Booking>): (r: seq<BookingShort>)
    ensures |r| == |s|
    ensures forall i :: 0 <= i < |s| ==> r[i] == ToBookingShortDto(s[i])
  {
    if s == [] then [] else [ToBookingShortDto(s[0])] + Shorts(s[1..])
  }

  /** A booking that has started and not ended, with `now` different from
      both its bounds, is listed by exactly one of PAST, CURRENT and FUTURE;
      at the very instant it starts or ends it is listed by none of them. */
  lemma TimeFiltersPartition(b: Booking, now: int)
    requires b.start < b.end
    ensures now != b.start && now != b.end ==>
              (if Admits(PAST, b, now) then 1 else 0) + (if Admits(CURRENT, b, now) then 1 else 0)
              + (if Admits(FUTURE, b, now) then 1 else 0) == 1
    ensures now == b.start || now == b.end ==>
              !Admits(PAST, b, now) && !Admits(CURRENT, b, now) && !Admits(FUTURE, b, now)
  {
  }

  /** Every filter lists a sub-multiset of what ALL lists. */
  lemma BookerListingWithinAll(table: seq<Booking>, bookerId: int, state: BookingState, now: int)
    requires state != UNKNOWN
    ensures multiset(BookerListing(table, bookerId, state, now)) <= multiset(BookerListing(table, bookerId, ALL, now))
  {
    var r := BookerListing(table, bookerId, state, now);
    var all := BookerListing(table, bookerId, ALL, now);
    forall b
      ensures multiset(r)[b] <= multiset(all)[b]
    {
    }
  }

  class Service {
    /** The bookings table; row `i` holds the booking with id `i + 1`. */
    var bookings: seq<Booking>

    ghost predicate Valid()
      reads this
    {
      RowNumbered(bookings, BookingId)
    }

    constructor ()
      ensures Valid() && bookings == []
    {
      bookings := [];
    }

    /** `createBooking`: runs the creation checks and, when they pass,
        saves a WAITING booking for the DTO's interval under the next id. */
    method CreateBooking(users: map<int, User>, items: map<int, Item>, bookerId: int, dto: BookingDto)
      returns (r: Result<Booking>)
      requires Valid()
      modifies this
      ensures Valid()
      ensures r.Err? <==> CreationError(users, items, bookerId, dto).Some?
      ensures r.Err? ==> r.error == CreationError(users, items, bookerId, dto).value && bookings == old(bookings)
      ensures r.Ok? ==> r.value == Booking(|old(bookings)| + 1, dto.start.value, dto.end.value, dto.itemId.value, bookerId, Waiting)
      ensures r.Ok? ==> bookings == old(bookings) + [r.value]
    {
      var error := CreationError(users, items, bookerId, dto);
      if error.Some? {
        return Err(error.value);
      }
      var booking := Booking(|bookings| + 1, dto.start.value, dto.end.value, dto.itemId.value, bookerId, Waiting);
      bookings := bookings + [booking];
      r := Ok(booking);
    }

    /** `updateBooking`: runs the status-change checks and, when they pass,
        sets APPROVED or REJECTED on that one booking. */
    method UpdateBooking(items: map<int, Item>, ownerId: int, bookingId: int, approved: Option<bool>)
      returns (r: Result<Booking>)
      requires Valid()
      modifies this
      ensures Valid()
      ensures r.Err? <==> UpdateError(old(bookings), items, ownerId, bookingId, approved).Some?
      ensures r.Err? ==> r.error == UpdateError(old(bookings), items, ownerId, bookingId, approved).value
                         && bookings == old(bookings)
      ensures r.Ok? ==> approved.Some? && FindById(old(bookings), bookingId, BookingId).Some?
                        && bookings == SetStatus(old(bookings), bookingId, Target(approved.value))
                        && r.value == FindById(old(bookings), bookingId, BookingId).value.(status := Target(approved.value))
    {
      var error := UpdateError(bookings, items, ownerId, bookingId, approved);
      if error.Some? {
        return Err(error.value);
      }
      var booking := FindById(bookings, bookingId, BookingId).value;
      var updated := booking.(status := if approved.value then Approved else Rejected);
      bookings := SetStatus(bookings, bookingId, updated.status);
      r := Ok(updated);
    }

    /** `getByUserId`: the caller must exist (NotFound), the token must
        name a filter (Validation); the listing is the booker's bookings
        that the filter admits. */
    method GetByUserId(users: map<int, User>, userId: int, token: string, now: int)
      returns (r: Result<seq<BookingShort>>)
      ensures userId !in users ==> r == Err(NotFound)
      ensures userId in users && ParseState(token) == UNKNOWN ==> r == Err(Validation)
      ensures userId in users && ParseState(token) != UNKNOWN
              ==> r == Ok(Shorts(BookerListing(bookings, userId, ParseState(token), now)))
    {
      if userId !in users {
        return Err(NotFound);
      }
      var state := ResolveState(token);
      if state == UNKNOWN {
        return Err(Validation);
      }
      r := Ok(Shorts(BookerListing(bookings, userId, state, now)));
    }

    /** `getByOwnerId`: as `GetByUserId`, over the bookings of the caller's
        items. */
    method GetByOwnerId(users: map<int, User>, items: map<int, Item>, userId: int, token: string, now: int)
      returns (r: Result<seq<BookingShort>>)
      ensures userId !in users ==> r == Err(NotFound)
      ensures userId in users && ParseState(token) == UNKNOWN ==> r == Err(Validation)
      ensures userId in users && ParseState(token) != UNKNOWN
              ==> r == Ok(Shorts(OwnerListing(bookings, items, userId, ParseState(token), now)))
    {
      if userId !in users {
        return Err(NotFound);
      }
      var state := ResolveState(token);
      if state == UNKNOWN {
        return Err(Validation);
      }
      r := Ok(Shorts(OwnerListing(bookings, items, userId, state, now)));
    }
  }
}
