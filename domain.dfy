/** The persistent entities of the booking core and the projections the
    services return. Ids are Java `long`s, timestamps are instants on one
    integer time line. */
module Domain {
  import opened Common

  /** `BookingStatus`: there is no cancelled state. */
  datatype BookingStatus = Waiting | Approved | Rejected

  /** A registered user (the JPA `User` entity). */
  datatype User = User(id: int, name: string, email: string)

  /** The JPA `Item` entity; `userId` is the owner, `requestId` the item
      request the item answers, if any. */
  datatype Item = Item(id: int, name: string, description: string, available: bool,
                       userId: int, requestId: Option<int>)

  /** The JPA `Booking` entity: the item and the booker are kept by id and
      resolved through the item and user directories. */
  datatype Booking = Booking(id: int, start: int, end: int, itemId: int, bookerId: int,
                             status: BookingStatus)

  /** `BookingShortDto`: the projection embedded in listings and item views. */
  datatype BookingShort = BookingShort(id: int, start: int, end: int, itemId: int,
                                       bookerId: int, status: BookingStatus)

  /** `BookingDto` as the server revision reads and writes it; nullable
      fields are `Option`s, the boxed `itemId` included. */
  datatype BookingDto = BookingDto(id: Option<int>, start: Option<int>, end: Option<int>,
                                   status: Option<BookingStatus>, itemId: Option<int>,
                                   userId: Option<int>)

  /** The `ItemRequest` entity: who asked, for what, and when. */
  datatype ItemRequest = ItemRequest(id: int, description: string, requestorId: int,
                                     created: int)

  /** Primary keys. */
  function BookingId(b: Booking): int { b.id }

  function ItemId(it: Item): int { it.id }

  function RequestId(r: ItemRequest): int { r.id }

  /** Sort keys of the `order by` clauses. */
  function StartOf(b: Booking): int { b.start }

  function EndOf(b: Booking): int { b.end }

  function CreatedOf(r: ItemRequest): int { r.created }

  /** The booking's item is in the directory and belongs to `ownerId`: the
      `b.item.userId = ?1` join of the owner queries. */
  predicate OwnedBy(items: map<int, Item>, b: Booking, ownerId: int) {
    b.itemId in items && items[b.itemId].userId == ownerId
  }
}
