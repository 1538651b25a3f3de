/** The checks of booking creation, status change and lookup. Both service
    revisions run them identically and in the same order; each returns the
    first failing check's error, or None when the operation may proceed. */
module BookingRules {
  import opened Common
  import opened Domain
  import opened Seqs
  import opened BookingMapper

  /** `checkItemIsAvailable`: `itemService.findItemById` fails with NotFound
      for an unknown user or item; an item that is not available fails with
      Validation. */
  function CheckItemIsAvailable(users: map<int, User>, items: map<int, Item>, itemId: int, userId: int): (r: Option<Error>)
    ensures r.None? <==> userId in users && itemId in items && items[itemId].available
    ensures r.Some? && userId in users && itemId in items ==> r.value == Validation
    ensures r.Some? && !(userId in users && itemId in items) ==> r.value == NotFound
  {
    if userId !in users then Some(NotFound)
    else if itemId !in items then Some(NotFound)
    else if !items[itemId].available then Some(Validation)
    else None
  }

  /** `checkBookingTime`: a missing bound, equal bounds or an inverted
      interval are all Validation errors. */
  function CheckBookingTime(start: Option<int>, end: Option<int>): (r: Option<Error>)
    ensures r.None? <==> start.Some? && end.Some? && start.value < end.value
    ensures r.Some? ==> r.value == Validation
  {
    if start.None? || end.None? then Some(Validation)
    else if start.value == end.value then Some(Validation)
    else if start.value > end.value then Some(Validation)
    else None
  }

  /** The checks of `createBooking`, in order: a null item id is unboxed
      into `checkItemIsAvailable(long, long)` outside its try block, so it
      escapes as a null dereference (Internal); then item lookup and
      availability, the interval, then "the owner may not book their own
      item" (NotFound). */
  function CreationError(users: map<int, User>, items: map<int, Item>, bookerId: int, dto: BookingDto): (r: Option<Error>)
    ensures r.None? <==> dto.itemId.Some? && bookerId in users && dto.itemId.value in items
                         && items[dto.itemId.value].available
                         && dto.start.Some? && dto.end.Some? && dto.start.value < dto.end.value
                         && items[dto.itemId.value].userId != bookerId
    ensures r == Some(Internal) <==> dto.itemId.None?
    ensures dto.itemId.Some? && bookerId !in users ==> r == Some(NotFound)
    ensures dto.itemId.Some? && bookerId in users && dto.itemId.value !in items ==> r == Some(NotFound)
    ensures (dto.itemId.Some? && bookerId in users && dto.itemId.value in items
             && !items[dto.itemId.value].available) ==> r == Some(Validation)
    ensures (dto.itemId.Some? && CheckItemIsAvailable(users, items, dto.itemId.value, bookerId).None?
             && !(dto.start.Some? && dto.end.Some? && dto.start.value < dto.end.value)) ==> r == Some(Validation)
    ensures (dto.itemId.Some? && CheckItemIsAvailable(users, items, dto.itemId.value, bookerId).None?
             && CheckBookingTime(dto.start, dto.end).None? && items[dto.itemId.value].userId == bookerId)
            ==> r == Some(NotFound)
    ensures r.None? || r == Some(Validation) || r == Some(NotFound) || r == Some(Internal)
  {
    if dto.itemId.None? then Some(Internal)
    else
      var availability := CheckItemIsAvailable(users, items, dto.itemId.value, bookerId);
      if availability.Some? then availability
      else
        var timing := CheckBookingTime(dto.start, dto.end);
        if timing.Some? then timing
        else if items[dto.itemId.value].userId == bookerId then Some(NotFound)
        else None
  }

  /** The owner of an item can never book it, whatever the interval. A
      known owner asking for an unavailable item or a bad interval gets
      Validation, since those checks come first; every other attempt by the
      owner gets the ownership check's NotFound. */
  lemma OwnerCannotBook(users: map<int, User>, items: map<int, Item>, dto: BookingDto)
    requires dto.itemId.Some? && dto.itemId.value in items
    ensures var item := items[dto.itemId.value];
            var r := CreationError(users, items, item.userId, dto);
            r.Some?
            && (item.userId in users && (!item.available || CheckBookingTime(dto.start, dto.end).Some?)
                ==> r == Some(Validation))
            && (item.userId !in users || (item.available && CheckBookingTime(dto.start, dto.end).None?)
                ==> r == Some(NotFound))
  {
  }

  /** The status `updateBooking` sets for an explicit flag. */
  function Target(approved: bool): BookingStatus {
    if approved then Approved else Rejected
  }

  /** The checks of `updateBooking`, in order: a missing flag (Validation),
      an unknown booking (NotFound), a repeat of the current status
      (Validation), a caller who does not own the item (NotFound). */
  function UpdateError(table: seq<Booking>, items: map<int, Item>, ownerId: int, bookingId: int,
                       approved: Option<bool>): (r: Option<Error>)
    requires RowNumbered(table, BookingId)
    ensures approved.None? ==> r == Some(Validation)
    ensures approved.Some? && FindById(table, bookingId, BookingId).None? ==> r == Some(NotFound)
    ensures (approved.Some? && FindById(table, bookingId, BookingId).Some?
             && FindById(table, bookingId, BookingId).value.status == Target(approved.value)) ==> r == Some(Validation)
    ensures r.None? <==> approved.Some? && FindById(table, bookingId, BookingId).Some?
                         && FindById(table, bookingId, BookingId).value.status != Target(approved.value)
                         && OwnedBy(items, FindById(table, bookingId, BookingId).value, ownerId)
    ensures (approved.Some? && FindById(table, bookingId, BookingId).Some?
             && FindById(table, bookingId, BookingId).value.status != Target(approved.value)
             && !OwnedBy(items, FindById(table, bookingId, BookingId).value, ownerId)) ==> r == Some(NotFound)
    ensures r.None? || r == Some(Validation) || r == Some(NotFound)
  {
    if approved.None? then Some(Validation)
    else
      match FindById(table, bookingId, BookingId)
      case None => Some(NotFound)
      case Some(b) =>
        if b.status == Approved && approved.value then Some(Validation)
        else if b.status == Rejected && !approved.value then Some(Validation)
        else if !OwnedBy(items, b, ownerId) then Some(NotFound)
        else None
  }

  /** The table after `booking.setStatus(status)` and `save`: that one row
      changes, and only in its status. */
  function SetStatus(table: seq<Booking>, bookingId: int, status: BookingStatus): (r: seq<Booking>)
    requires RowNumbered(table, BookingId)
    requires FindById(table, bookingId, BookingId).Some?
    ensures RowNumbered(r, BookingId) && |r| == |table|
    ensures FindById(r, bookingId, BookingId) == Some(FindById(table, bookingId, BookingId).value.(status := status))
    ensures forall i :: 0 <= i < |table| && table[i].id != bookingId ==> r[i] == table[i]
  {
    table[bookingId - 1 := table[bookingId - 1].(status := status)]
  }

  /** Repeating an accepted status change is rejected with Validation, and
      is rejected so before ownership is looked at. */
  lemma RepeatedUpdateRejected(table: seq<Booking>, items: map<int, Item>, ownerId: int, caller: int,
                               bookingId: int, approved: bool)
    requires RowNumbered(table, BookingId)
    requires UpdateError(table, items, ownerId, bookingId, Some(approved)).None?
    ensures UpdateError(SetStatus(table, bookingId, Target(approved)), items, caller, bookingId, Some(approved))
            == Some(Validation)
  {
  }

  /** Statuses are not terminal: once a change is accepted, the owner may
      switch to the opposite status (APPROVED to REJECTED and back). */
  lemma OppositeUpdateAccepted(table: seq<Booking>, items: map<int, Item>, ownerId: int, bookingId: int,
                               approved: bool)
    requires RowNumbered(table, BookingId)
    requires UpdateError(table, items, ownerId, bookingId, Some(approved)).None?
    ensures UpdateError(SetStatus(table, bookingId, Target(approved)), items, ownerId, bookingId, Some(!approved)).None?
  {
  }

  /** Who may read a booking: its booker or the owner of its item. */
  predicate CanView(items: map<int, Item>, b: Booking, userId: int) {
    b.bookerId == userId || OwnedBy(items, b, userId)
  }

  /** `getById`: an unknown booking and a caller who is neither booker nor
      owner both give NotFound; otherwise the booking's short projection. */
  function GetById(table: seq<Booking>, items: map<int, Item>, userId: int, bookingId: int): (r: Result<BookingShort>)
    requires RowNumbered(table, BookingId)
    ensures r.Ok? <==> FindById(table, bookingId, BookingId).Some?
                       && CanView(items, FindById(table, bookingId, BookingId).value, userId)
    ensures r.Ok? ==> r.value.id == bookingId
                      && r.value == ToBookingShortDto(FindById(table, bookingId, BookingId).value)
    ensures r.Err? ==> r.error == NotFound
  {
    match FindById(table, bookingId, BookingId)
    case None => Err(NotFound)
    case Some(b) =>
      if b.bookerId == userId || (b.itemId in items && items[b.itemId].userId == userId) then Ok(ToBookingShortDto(b))
      else Err(NotFound)
  }
}
