/** The server revision's `BookingMapper`: DTO to entity and back. The
    embedded item and user DTOs are left out; their ids are kept. */
module BookingMapper {
  import opened Common
  import opened Domain

  /** `toBookingDto`: id, interval and status as stored, and the ids of the
      item and the booker. */
  function ToBookingDto(b: Booking): (d: BookingDto)
    ensures d.id == Some(b.id) && d.start == Some(b.start) && d.end == Some(b.end)
    ensures d.status == Some(b.status) && d.itemId == Some(b.itemId) && d.userId == Some(b.bookerId)
  {
    BookingDto(Some(b.id), Some(b.start), Some(b.end), Some(b.status), Some(b.itemId), Some(b.bookerId))
  }

  /** `toBooking`: a null item id makes the repository lookup throw an
      unmapped exception (Internal); the item must exist (NotFound
      otherwise), the booker is looked up by `userId` (NotFound otherwise),
      the interval is copied and the status is always WAITING, whatever the
      DTO says. The id is left unassigned (0) until the booking is saved.
      Its one caller has already rejected DTOs without a start or an end
      and has set `userId`. */
  function ToBooking(d: BookingDto, items: map<int, Item>, users: map<int, User>): (r: Result<Booking>)
    requires d.start.Some? && d.end.Some? && d.userId.Some?
    ensures r.Ok? <==> d.itemId.Some? && d.itemId.value in items && d.userId.value in users
    ensures r.Err? ==> r.error == (if d.itemId.None? then Internal else NotFound)
    ensures r.Ok? ==> r.value.status == Waiting && r.value.id == 0
    ensures r.Ok? ==> r.value.start == d.start.value && r.value.end == d.end.value
    ensures r.Ok? ==> r.value.itemId == d.itemId.value && r.value.bookerId == d.userId.value
  {
    if d.itemId.None? then Err(Internal)
    else if d.itemId.value !in items then Err(NotFound)
    else if d.userId.value !in users then Err(NotFound)
    else Ok(Booking(0, d.start.value, d.end.value, d.itemId.value, d.userId.value, Waiting))
  }

  /** `toBookingShortDto`: id, interval and status preserved, `bookerId`
      the booker's id. */
  function ToBookingShortDto(b: Booking): (s: BookingShort)
    ensures s.id == b.id && s.start == b.start && s.end == b.end && s.status == b.status
    ensures s.itemId == b.itemId && s.bookerId == b.bookerId
  {
    BookingShort(b.id, b.start, b.end, b.itemId, b.bookerId, b.status)
  }

  /** A stored booking read back through its DTO is the same booking again,
      except that the id is not carried over and the status restarts at
      WAITING. */
  lemma DtoRoundTrip(b: Booking, items: map<int, Item>, users: map<int, User>)
    requires b.itemId in items && b.bookerId in users
    ensures ToBooking(ToBookingDto(b), items, users) == Ok(b.(id := 0, status := Waiting))
  {
  }
}
