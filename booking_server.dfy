/** `BookingServiceImpl` of the paged server revision. Creation and status
    change run the same checks as the non-paged revision and answer with a
    `BookingDto`; the listings are assembled page by page from a query
    chosen by the raw `state` string. The `Pagination` helper is not part of
    this model: the first page index, the page size and the page count it
    derives from `from` and `size` are parameters. */
module BookingServer {
  import opened Common
  import opened Domain
  import opened Seqs
  import opened States
  import opened BookingRepository
  import opened ServerBookingRepository
  import opened BookingMapper
  import opened BookingRules
  import opened Paging
  import BookingService

  /** What `getPageBooking`/`getPageBookingByOwner` yield for a token: the
      ordered rows of the selected query, the explicit refusal of the token
      "UNKNOWN" (ValidationException), or the `null` page left by a token
      that matches no case. */
  datatype PageSource = Rows(rows: seq<Booking>) | Refused | NullPage

  /** The query `getPageBooking` runs for a filter, paged in `start`
      descending order. */
  function BookerRows(table: seq<Booking>, bookerId: int, state: BookingState, now: int): (r: seq<Booking>)
    requires state != UNKNOWN
    ensures SortedDesc(r, StartOf)
    ensures forall b :: multiset(r)[b] == if b.bookerId == bookerId && Admits(state, b, now) then multiset(table)[b] else 0
  {
    match state
    case ALL => FindAllBookingsByBooker(table, bookerId)
    case CURRENT =>
      var r := FindByBookerIdAndStartIsBeforeAndEndIsAfter(table, bookerId, now, now);
      assert forall b :: Admits(CURRENT, b, now) == (b.start < now && b.end > now);
      r
    case PAST =>
      var r := FindAllByBookerIdAndEndBeforeOrderByStartDesc(table, bookerId, now);
      assert forall b :: Admits(PAST, b, now) == (b.end < now);
      r
    case FUTURE =>
      var r := FindAllByBookerIdAndStartAfterOrderByStartDesc(table, bookerId, now);
      assert forall b :: Admits(FUTURE, b, now) == (b.start > now);
      r
    case REJECTED =>
      var r := FindByBookerIdAndStatus(table, bookerId, Rejected);
      assert forall b :: Admits(REJECTED, b, now) == (b.status == Rejected);
      r
    case WAITING =>
      var r := FindByBookerIdAndStatus(table, bookerId, Waiting);
      assert forall b :: Admits(WAITING, b, now) == (b.status == Waiting);
      r
  }

  /** `getPageBooking`: the switch on the raw token. A case is taken only
      when the token is exactly a filter's name; "UNKNOWN" is refused, and
      any other token falls through every case. */
  function BookerPages(table: seq<Booking>, bookerId: int, token: string, now: int): (p: PageSource)
    ensures p.Rows? <==> ParseState(token) != UNKNOWN
    ensures p.Refused? <==> token == "UNKNOWN"
    ensures p.Rows? ==> SortedDesc(p.rows, StartOf)
    ensures p.Rows? ==> forall b :: multiset(p.rows)[b]
                          == if b.bookerId == bookerId && Admits(ParseState(token), b, now) then multiset(table)[b] else 0
  {
    var state := ParseState(token);
    if state != UNKNOWN then Rows(BookerRows(table, bookerId, state, now))
    else if token == "UNKNOWN" then Refused
    else NullPage
  }

  /** The query `getPageBookingByOwner` runs for a filter, paged in `start`
      descending order. */
  function OwnerRows(table: seq<Booking>, items: map<int, Item>, ownerId: int, state: BookingState, now: int)
    : (r: seq<Booking>)
    requires state != UNKNOWN
    ensures SortedDesc(r, StartOf)
    ensures forall b :: multiset(r)[b] == if OwnedBy(items, b, ownerId) && Admits(state, b, now) then multiset(table)[b] else 0
  {
    match state
    case ALL => FindAllByOwnerId(table, items, ownerId)
    case CURRENT =>
      var r := FindByItemOwnerIdAndStartIsBeforeAndEndIsAfter(table, items, ownerId, now);
      assert forall b :: Admits(CURRENT, b, now) == (b.start < now && b.end > now);
      r
    case FUTURE =>
      var r := FindAllByOwnerIdAndStartAfter(table, items, ownerId, now);
      assert forall b :: Admits(FUTURE, b, now) == (b.start > now);
      r
    case WAITING =>
      var r := FindByItemOwnerIdAndStatus(table, items, ownerId, Waiting);
      assert forall b :: Admits(WAITING, b, now) == (b.status == Waiting);
      r
    case REJECTED =>
      var r := FindByItemOwnerIdAndStatus(table, items, ownerId, Rejected);
      assert forall b :: Admits(REJECTED, b, now) == (b.status == Rejected);
      r
    case PAST =>
      var r := FindAllByOwnerIdAndEndBefore(table, items, ownerId, now);
      assert forall b :: Admits(PAST, b, now) == (b.end < now);
      r
  }

  /** `getPageBookingByOwner`: the same switch over the owner's queries. */
  function OwnerPages(table: seq<Booking>, items: map<int, Item>, ownerId: int, token: string, now: int): (p: PageSource)
    ensures p.Rows? <==> ParseState(token) != UNKNOWN
    ensures p.Refused? <==> token == "UNKNOWN"
    ensures p.Rows? ==> SortedDesc(p.rows, StartOf)
    ensures p.Rows? ==> forall b :: multiset(p.rows)[b]
                          == if OwnedBy(items, b, ownerId) && Admits(ParseState(token), b, now) then multiset(table)[b] else 0
  {
    var state := ParseState(token);
    if state != UNKNOWN then Rows(OwnerRows(table, items, ownerId, state, now))
    else if token == "UNKNOWN" then Refused
    else NullPage
  }

  /** The listing the page loops build. Without `size`, the do-while asks
      for at least one page, and a refused or `null` page becomes a
      Validation error. With `size`, no page is asked for when the first
      index is already at the page count; otherwise "UNKNOWN" is refused
      and a `null` page escapes as an uncaught NullPointerException. */
  function Assemble(source: PageSource, index: nat, pageSize: nat, totalPages: int, size: Option<nat>): (r: Result<seq<Booking>>)
    requires pageSize >= 1
    ensures r.Err? <==> !source.Rows? && (size.None? || index < totalPages)
    ensures r.Err? ==> r.error == if source.NullPage? && size.Some? then Internal else Validation
  {
    match size
    case None =>
      if source.Rows? then Ok(source.rows[Min(index * pageSize, |source.rows|)..]) else Err(Validation)
    case Some(limit) =>
      if totalPages <= index then Ok([])
      else match source
        case Rows(all) => Ok(Take(Covered(all, index, pageSize, totalPages), limit))
        case Refused => Err(Validation)
        case NullPage => Err(Internal)
  }

  /** Without `size`, the listing is every row from the first page's offset
      on: from offset 0, the whole query result. */
  lemma UnsizedIsSuffix(all: seq<Booking>, index: nat, pageSize: nat)
    requires pageSize >= 1
    ensures var r := Assemble(Rows(all), index, pageSize, 0, None);
            r.Ok? && |r.value| == |all| - Min(index * pageSize, |all|)
            && forall k :: 0 <= k < |r.value| ==> r.value[k] == all[Min(index * pageSize, |all|) + k]
    ensures index == 0 ==> Assemble(Rows(all), index, pageSize, 0, None) == Ok(all)
  {
  }

  /** With `size`, the listing is the first `size` rows of the pages from
      `index` up to the page count, and a prefix of the listing without
      `size`. */
  lemma SizedIsBoundedPrefix(all: seq<Booking>, index: nat, pageSize: nat, totalPages: int, limit: nat)
    requires pageSize >= 1
    ensures var sized := Assemble(Rows(all), index, pageSize, totalPages, Some(limit));
            var unsized := Assemble(Rows(all), index, pageSize, totalPages, None);
            sized.Ok? && unsized.Ok? && |sized.value| <= limit
            && |sized.value| == Min(limit, |Covered(all, index, pageSize, totalPages)|)
            && |sized.value| <= |unsized.value| && sized.value == unsized.value[..|sized.value|]
  {
    var lo := Min(index * pageSize, |all|);
    var covered := Covered(all, index, pageSize, totalPages);
    if index < totalPages {
      assert covered == all[lo..][..|covered|];
    }
  }

  /** Both page loops keep the query's `start` descending order. */
  lemma AssembledSortedDesc(source: PageSource, index: nat, pageSize: nat, totalPages: int, size: Option<nat>)
    requires pageSize >= 1
    requires source.Rows? ==> SortedDesc(source.rows, StartOf)
    ensures var r := Assemble(source, index, pageSize, totalPages, size);
            r.Ok? ==> SortedDesc(r.value, StartOf)
  {
    if source.Rows? {
      var all := source.rows;
      var lo := Min(index * pageSize, |all|);
      SliceSortedDesc(all, lo, |all|, StartOf);
      var covered := Covered(all, index, pageSize, totalPages);
      SliceSortedDesc(all, lo, lo + |covered|, StartOf);
    }
  }

  /** For every token the two revisions accept, the paged query lists the
      same bookings as the non-paged revision, with the same multiplicity. */
  lemma BookerPagesAgreeWithUnpaged(table: seq<Booking>, bookerId: int, token: string, now: int)
    requires ParseState(token) != UNKNOWN
    ensures BookerPages(table, bookerId, token, now).Rows?
    ensures multiset(BookerPages(table, bookerId, token, now).rows)
            == multiset(BookingService.BookerListing(table, bookerId, ParseState(token), now))
  {
    var paged := BookerPages(table, bookerId, token, now).rows;
    var unpaged := BookingService.BookerListing(table, bookerId, ParseState(token), now);
    assert forall b :: multiset(paged)[b] == multiset(unpaged)[b];
  }

  /** The owner listings of the two revisions agree in the same way. */
  lemma OwnerPagesAgreeWithUnpaged(table: seq<Booking>, items: map<int, Item>, ownerId: int, token: string, now: int)
    requires ParseState(token) != UNKNOWN
    ensures OwnerPages(table, items, ownerId, token, now).Rows?
    ensures multiset(OwnerPages(table, items, ownerId, token, now).rows)
            == multiset(BookingService.OwnerListing(table, items, ownerId, ParseState(token), now))
  {
    var paged := OwnerPages(table, items, ownerId, token, now).rows;
    var unpaged := BookingService.OwnerListing(table, items, ownerId, ParseState(token), now);
    assert forall b :: multiset(paged)[b] == multiset(unpaged)[b];
  }

  /** A result's bookings mapped to `BookingShortDto`. */
  function ShortsOf(r: Result<seq<Booking>>): Result<seq<BookingShort>> {
    match r
    case Ok(s) => Ok(BookingService.Shorts(s))
    case Err(e) => Err(e)
  }

  class Service {
    /** The bookings table; row `i` holds the booking with id `i + 1`. */
    var bookings: seq<Booking>

    ghost predicate Valid()
      reads this
    {
      RowNumbered(bookings, BookingId)
    }

    constructor ()
      ensures Valid() && bookings == []
    {
      bookings := [];
    }

    /** `createBooking`: the creation checks, then the DTO, stamped with the
        booker's id, goes through `toBooking` and is saved under the next
        id; the answer is the saved booking's DTO. */
    method CreateBooking(users: map<int, User>, items: map<int, Item>, bookerId: int, dto: BookingDto)
      returns (r: Result<BookingDto>)
      requires Valid()
      modifies this
      ensures Valid()
      ensures r.Err? <==> CreationError(users, items, bookerId, dto).Some?
      ensures r.Err? ==> r.error == CreationError(users, items, bookerId, dto).value && bookings == old(bookings)
      ensures r.Ok? ==> |bookings| == |old(bookings)| + 1 && bookings[..|old(bookings)|] == old(bookings)
      ensures r.Ok? ==> bookings[|old(bookings)|]
                        == Booking(|old(bookings)| + 1, dto.start.value, dto.end.value, dto.itemId.value, bookerId, Waiting)
      ensures r.Ok? ==> r.value == ToBookingDto(bookings[|old(bookings)|])
    {
      var error := CreationError(users, items, bookerId, dto);
      if error.Some? {
        return Err(error.value);
      }
      var stamped := dto.(userId := Some(bookerId));
      var mapped := ToBooking(stamped, items, users);
      if mapped.Err? {
        assert false;
        return Err(NotFound);
      }
      var saved := mapped.value.(id := |bookings| + 1);
      bookings := bookings + [saved];
      r := Ok(ToBookingDto(saved));
    }

    /** `updateBooking`: the status-change checks, then the new status on
        that one booking, answered as a DTO. */
    method UpdateBooking(items: map<int, Item>, ownerId: int, bookingId: int, approved: Option<bool>)
      returns (r: Result<BookingDto>)
      requires Valid()
      modifies this
      ensures Valid()
      ensures r.Err? <==> UpdateError(old(bookings), items, ownerId, bookingId, approved).Some?
      ensures r.Err? ==> r.error == UpdateError(old(bookings), items, ownerId, bookingId, approved).value
                         && bookings == old(bookings)
      ensures r.Ok? ==> approved.Some? && FindById(old(bookings), bookingId, BookingId).Some?
                        && bookings == SetStatus(old(bookings), bookingId, Target(approved.value))
                        && r.value == ToBookingDto(FindById(bookings, bookingId, BookingId).value)
                        && r.value.status == Some(Target(approved.value))
    {
      var error := UpdateError(bookings, items, ownerId, bookingId, approved);
      if error.Some? {
        return Err(error.value);
      }
      var booking := FindById(bookings, bookingId, BookingId).value;
      var updated := booking.(status := if approved.value then Approved else Rejected);
      bookings := SetStatus(bookings, bookingId, updated.status);
      r := Ok(ToBookingDto(updated));
    }

    /** `getByUserId` with paging: the caller must exist (NotFound); the
        listing is assembled from the booker's query for the token. */
    method GetByUserId(users: map<int, User>, userId: int, token: string, now: int,
                       index: nat, pageSize: nat, totalPages: int, size: Option<nat>)
      returns (r: Result<seq<BookingShort>>)
      requires pageSize >= 1
      ensures userId !in users ==> r == Err(NotFound)
      ensures userId in users
              ==> r == ShortsOf(Assemble(BookerPages(bookings, userId, token, now), index, pageSize, totalPages, size))
    {
      if userId !in users {
        return Err(NotFound);
      }
      var listing := Paged(BookerPages(bookings, userId, token, now), index, pageSize, totalPages, size);
      r := ShortsOf(listing);
    }

    /** `getByOwnerId` with paging, over the owner's query for the token. */
    method GetByOwnerId(users: map<int, User>, items: map<int, Item>, userId: int, token: string, now: int,
                        index: nat, pageSize: nat, totalPages: int, size: Option<nat>)
      returns (r: Result<seq<BookingShort>>)
      requires pageSize >= 1
      ensures userId !in users ==> r == Err(NotFound)
      ensures userId in users
              ==> r == ShortsOf(Assemble(OwnerPages(bookings, items, userId, token, now), index, pageSize, totalPages, size))
    {
      if userId !in users {
        return Err(NotFound);
      }
      var listing := Paged(OwnerPages(bookings, items, userId, token, now), index, pageSize, totalPages, size);
      r := ShortsOf(listing);
    }
  }

  /** The two page loops of the listings over one page source. */
  method Paged(source: PageSource, index: nat, pageSize: nat, totalPages: int, size: Option<nat>)
    returns (r: Result<seq<Booking>>)
    requires pageSize >= 1
    ensures r == Assemble(source, index, pageSize, totalPages, size)
  {
    match size
    case None =>
      if !source.Rows? {
        return Err(Validation);
      }
      var rows := DrainPages(source.rows, index, pageSize);
      r := Ok(rows);
    case Some(limit) =>
      if totalPages <= index {
        return Ok([]);
      }
      if source.Refused? {
        return Err(Validation);
      }
      if source.NullPage? {
        return Err(Internal);
      }
      var rows := CollectPages(source.rows, index, pageSize, totalPages, limit);
      r := Ok(rows);
  }
}
