# share-it, modelled in Dafny

share-it is a Spring backend where users lend items to each other. An owner
lists an item, another user books it for an interval, the owner approves or
rejects the booking, and users post item requests that others can answer. The
repository holds two revisions of the service layer:

- an older, non-paged one under `src/`;
- a paged one under `server/`.

This project models the core of both revisions:

- **Booking rules.** The creation checks, the approve/reject rules and the
  access rule of `getById` (`BookingRules`).
- **Non-paged booking service** (`BookingService`, over `BookingRepository`). It
  resolves the `state` token of the booking listings (`States`) and filters
  through its queries.
- **Paged booking service** (`BookingServer`, over `ServerBookingRepository`). It
  switches on the raw token and runs two page loops (`Paging`).
- **Booking mapper** (`BookingMapper`).
- **Item service** (`ItemService`). It covers:
  - item creation and partial update;
  - lookups and search;
  - the derivation of an item's last and next booking;
  - comment eligibility;
  - the overview that `findAllItems` builds.
- **Item queries** of the paged revision (`ItemRepository`).
- **Item request service** (`ItemRequestService`). It covers creation, lookups
  and the page assembly of `getAllItemRequests`, including the test-pinned
  repetition when `size` is absent.
- **In-memory stores** (`InMemoryItemStorage`, `InMemoryUserStorage`): maps plus an
  id counter. The user store also keeps emails unique.
- **Database-backed user service** (`UserService`): its checks, its merge, the
  entity validation its `save` runs and the unique email column.

How the model is built:

- Repository tables that are only appended to are `seq`s. Row `i` holds id
  `i + 1` (`Seqs.RowNumbered`).
- Directories that are only read (users, items) are `map`s.
- The stores whose fields the source updates in place are classes:
  - the three booking, item and request services;
  - the two in-memory stores;
  - the user service.
  Their methods state their whole new state.
- A query is a filter with an ordering. Its contract states which rows it
  keeps, counted with multiplicity, and the order it keeps them in.
- Errors are `Common.Error`:
  - `Validation` for `ValidationException` (400);
  - `NotFound` for `NoSuchElementException` (404);
  - `Conflict` for `ConflictException` (409);
  - `Internal` for a runtime exception no handler maps (a null dereference,
    an index out of range, a database constraint violation, or a failed
    commit), where the source lets one escape.
- Timestamps are integers. The current time is a parameter `now`.

Where the written code and the intended design disagree, the model follows
the code:

- **Unknown `state` tokens, paged revision.** In `getByUserId`/`getByOwnerId`,
  the token `UNKNOWN` is refused with Validation whenever a page is
  requested. Any other unknown token makes the page query return null.
  Without `size` that is also Validation. With `size` it escapes as an
  `Internal` error. With `size` and the first page index at or past the page
  count, no page is requested at all, so every token, `UNKNOWN` included,
  gives an empty list (`BookingServer.Assemble`).
- **`findAllItems`.** It takes the first upcoming booking of an item without
  checking that one exists. An owner whose item has APPROVED bookings that
  have all ended therefore gets an `Internal` error
  (`ItemService.OverviewFails`).
- **`InMemoryItemStorage`.** This class reads an item's owner as a nullable
  user reference. The `Item` entity of the same revision has a plain
  `userId`. The storage is modelled on the shape it reads: an optional owner
  id.

## Model

| member | source | states |
|---|---|---|
| BookingRepository.FindAllBookingsByBooker | src/main/java/ru/practicum/shareit/booking/BookingRepository.java:10-11 | keeps exactly the booker's bookings, each as often as stored, latest start first |
| BookingRepository.FindAllBookingsForBookerWithStartAndEndTime | src/main/java/ru/practicum/shareit/booking/BookingRepository.java:13-17 | keeps exactly the booker's bookings with start < t < end, latest start first |
| BookingRepository.FindAllByOwnerId | src/main/java/ru/practicum/shareit/booking/BookingRepository.java:19-21 | keeps exactly the bookings of items the owner owns, latest start first |
| BookingRepository.FindAllByOwnerIdAndStartBeforeAndEndAfter | src/main/java/ru/practicum/shareit/booking/BookingRepository.java:23-25 | keeps exactly the owner's bookings with start < t < end (no order clause) |
| BookingRepository.FindAllByBookerIdAndEndBeforeOrderByStartDesc | src/main/java/ru/practicum/shareit/booking/BookingRepository.java:27 | keeps exactly the booker's bookings that ended before t, latest start first |
| BookingRepository.FindAllByBookerIdAndStartAfterOrderByStartDesc | src/main/java/ru/practicum/shareit/booking/BookingRepository.java:29 | keeps exactly the booker's bookings starting after t, latest start first |
| BookingRepository.FindAllByBookerIdAndStatus | src/main/java/ru/practicum/shareit/booking/BookingRepository.java:31 | keeps exactly the booker's bookings with that status |
| BookingRepository.FindAllByOwnerIdAndStatus | src/main/java/ru/practicum/shareit/booking/BookingRepository.java:34-35 | keeps exactly the owner's bookings with that status |
| BookingRepository.FindAllByOwnerIdAndStartAfter | src/main/java/ru/practicum/shareit/booking/BookingRepository.java:37-40 | keeps exactly the owner's bookings starting after t, latest start first |
| BookingRepository.FindAllByOwnerIdAndEndBefore | src/main/java/ru/practicum/shareit/booking/BookingRepository.java:42-45 | keeps exactly the owner's bookings that ended before t, latest start first |
| BookingRepository.FindFirstByItemIdAndEndBeforeOrderByEndDesc | src/main/java/ru/practicum/shareit/booking/BookingRepository.java:47 | a stored booking of the item ending before t with the latest end, or none exactly when no booking of the item ends before t |
| BookingRepository.FindFirstByItemIdAndStartAfterOrderByStartAsc | src/main/java/ru/practicum/shareit/booking/BookingRepository.java:49 | a stored booking of the item starting after t with the earliest start, or none exactly when none starts after t |
| BookingRepository.Test2 | src/main/java/ru/practicum/shareit/booking/BookingRepository.java:51-54 | keeps exactly the item's bookings, earliest start first; the time argument is unused |
| ServerBookingRepository.FindByBookerIdAndStartIsBeforeAndEndIsAfter | server/src/main/java/ru/practicum/shareit/booking/BookingRepository.java:22-23 | keeps exactly the booker's bookings with start < `start` and end > `end`, in the page sort (latest start first) |
| ServerBookingRepository.FindByItemOwnerIdAndStartIsBeforeAndEndIsAfter | server/src/main/java/ru/practicum/shareit/booking/BookingRepository.java:29-31 | keeps exactly the owner's bookings with start < t < end, latest start first |
| ServerBookingRepository.FindByBookerIdAndStatus | server/src/main/java/ru/practicum/shareit/booking/BookingRepository.java:37 | keeps exactly the booker's bookings with that status, latest start first |
| ServerBookingRepository.FindByItemOwnerIdAndStatus | server/src/main/java/ru/practicum/shareit/booking/BookingRepository.java:39-40 | keeps exactly the owner's bookings with that status, latest start first |
| ServerBookingRepository.FindApprovedForItems | server/src/main/java/ru/practicum/shareit/booking/BookingRepository.java:59-63 | keeps exactly the APPROVED bookings of the given items, latest start first |
| BookingMapper.ToBookingDto | server/src/main/java/ru/practicum/shareit/booking/dto/BookingMapper.java:29-34 | carries id, interval, status, item id and booker id over unchanged |
| BookingMapper.ToBooking | server/src/main/java/ru/practicum/shareit/booking/dto/BookingMapper.java:36-50 | Internal for a null item id (the repository refuses a null key); NotFound exactly when the item or the booker is unknown; otherwise a WAITING, unsaved booking with the DTO's interval, item and booker |
| BookingMapper.ToBookingShortDto | server/src/main/java/ru/practicum/shareit/booking/dto/BookingMapper.java:52-56 | carries id, interval, status, item id and booker id over unchanged |
| BookingMapper.DtoRoundTrip | server/src/main/java/ru/practicum/shareit/booking/dto/BookingMapper.java:29-50 | a stored booking mapped to its DTO and back is the same booking, unsaved and WAITING again |
| BookingRules.CheckItemIsAvailable | server/src/main/java/ru/practicum/shareit/booking/BookingServiceImpl.java:302-312 | passes exactly when user and item exist and the item is available; unknown user or item is NotFound, an unavailable item Validation |
| BookingRules.CheckBookingTime | server/src/main/java/ru/practicum/shareit/booking/BookingServiceImpl.java:290-300 | passes exactly when both bounds are present and start is strictly before end; otherwise Validation |
| BookingRules.CreationError | server/src/main/java/ru/practicum/shareit/booking/BookingServiceImpl.java:40-45 | Internal exactly for a null item id, which is unboxed outside the try block of `checkItemIsAvailable`; otherwise passes exactly when booker and item are known, the item is available, the interval is valid and the booker is not the owner; an unknown booker or item is NotFound, then an unavailable item or a bad interval is Validation, then the owner booking their own item is NotFound |
| BookingRules.OwnerCannotBook | server/src/main/java/ru/practicum/shareit/booking/BookingServiceImpl.java:40-45 | the owner of an item can never book it: a known owner gets Validation for an unavailable item or a bad interval, and every other attempt gets NotFound |
| BookingRules.UpdateError | server/src/main/java/ru/practicum/shareit/booking/BookingServiceImpl.java:56-71 | a missing flag is Validation before any lookup, then an unknown booking is NotFound, a repeated status Validation, and a caller who does not own the item NotFound; passes exactly when none applies |
| BookingRules.SetStatus | server/src/main/java/ru/practicum/shareit/booking/BookingServiceImpl.java:72-77 | only the target booking changes, and only its status |
| BookingRules.RepeatedUpdateRejected | server/src/main/java/ru/practicum/shareit/booking/BookingServiceImpl.java:62-67 | after an accepted change, the same flag again is Validation for every caller |
| BookingRules.OppositeUpdateAccepted | server/src/main/java/ru/practicum/shareit/booking/BookingServiceImpl.java:62-77 | after an accepted change, the owner may switch to the opposite status |
| BookingRules.GetById | server/src/main/java/ru/practicum/shareit/booking/BookingServiceImpl.java:82-91 | returns the booking exactly when it exists and the caller is its booker or its item's owner; otherwise NotFound |
| States.ParseState | src/main/java/ru/practicum/shareit/booking/BookingServiceImpl.java:96-103 | a filter is selected only by its exact name; UNKNOWN exactly when no filter's name matches |
| States.BlankIsUnknown | src/main/java/ru/practicum/shareit/booking/BookingServiceImpl.java:96-103 | a blank token selects no filter |
| States.ResolveState | src/main/java/ru/practicum/shareit/booking/BookingServiceImpl.java:97-103 | the enum lookup loop yields the parsed filter |
| BookingService.BookerListing | src/main/java/ru/practicum/shareit/booking/BookingServiceImpl.java:104-153 | lists exactly the caller's bookings the filter admits at `now`, latest start first for ALL, PAST and FUTURE |
| BookingService.OwnerListing | src/main/java/ru/practicum/shareit/booking/BookingServiceImpl.java:176-224 | lists exactly the bookings of the caller's items the filter admits, latest start first for ALL, PAST and FUTURE |
| BookingService.Shorts | src/main/java/ru/practicum/shareit/booking/BookingServiceImpl.java:157-158 | maps each booking, in order, to its short DTO |
| BookingService.TimeFiltersPartition | src/main/java/ru/practicum/shareit/booking/BookingServiceImpl.java:114-136 | a well-formed booking is exactly one of PAST, CURRENT, FUTURE unless `now` equals a bound, when it is none |
| BookingService.BookerListingWithinAll | src/main/java/ru/practicum/shareit/booking/BookingServiceImpl.java:104-153 | every filter lists a sub-multiset of what ALL lists |
| BookingService.Service.CreateBooking | src/main/java/ru/practicum/shareit/booking/BookingServiceImpl.java:33-47 | fails with the creation checks' error and stores nothing, or appends one WAITING booking with the next id |
| BookingService.Service.UpdateBooking | src/main/java/ru/practicum/shareit/booking/BookingServiceImpl.java:51-74 | fails with the status-change checks' error and changes nothing, or sets the target status on that booking only |
| BookingService.Service.GetByUserId | src/main/java/ru/practicum/shareit/booking/BookingServiceImpl.java:91-159 | NotFound for an unknown caller, Validation for an unknown token, otherwise the booker listing as short DTOs |
| BookingService.Service.GetByOwnerId | src/main/java/ru/practicum/shareit/booking/BookingServiceImpl.java:163-230 | NotFound for an unknown caller, Validation for an unknown token, otherwise the owner listing as short DTOs |
| BookingServer.BookerRows | server/src/main/java/ru/practicum/shareit/booking/BookingServiceImpl.java:148-189 | the query run for a filter keeps exactly the booker's bookings that filter admits, latest start first |
| BookingServer.OwnerRows | server/src/main/java/ru/practicum/shareit/booking/BookingServiceImpl.java:242-280 | the query run for a filter keeps exactly the bookings of the owner's items that filter admits, latest start first |
| BookingServer.BookerPages | server/src/main/java/ru/practicum/shareit/booking/BookingServiceImpl.java:148-189 | rows exactly for the six filter names, refused exactly for `UNKNOWN`, a null page for any other token; rows are the booker's bookings the filter admits, latest start first |
| BookingServer.OwnerPages | server/src/main/java/ru/practicum/shareit/booking/BookingServiceImpl.java:242-280 | the same switch over the owner's queries |
| BookingServer.Assemble | server/src/main/java/ru/practicum/shareit/booking/BookingServiceImpl.java:112-144 | fails exactly when there are no rows and a page is actually asked for; Internal for a null page in the sized loop, Validation otherwise |
| BookingServer.UnsizedIsSuffix | server/src/main/java/ru/practicum/shareit/booking/BookingServiceImpl.java:112-127 | without `size` the listing is every row from the first page's offset on, so from page 0 the whole query result |
| BookingServer.SizedIsBoundedPrefix | server/src/main/java/ru/practicum/shareit/booking/BookingServiceImpl.java:128-144 | with `size` the listing has exactly `min(size, rows on the pages from the first index to the page count)` rows, and is a prefix of the unsized listing |
| BookingServer.AssembledSortedDesc | server/src/main/java/ru/practicum/shareit/booking/BookingServiceImpl.java:112-144 | both page loops keep the latest-start-first order |
| BookingServer.BookerPagesAgreeWithUnpaged | server/src/main/java/ru/practicum/shareit/booking/BookingServiceImpl.java:148-189 | for every accepted token the paged query lists the same bookings as the non-paged revision |
| BookingServer.OwnerPagesAgreeWithUnpaged | server/src/main/java/ru/practicum/shareit/booking/BookingServiceImpl.java:242-280 | the same agreement for the owner listings |
| BookingServer.Paged | server/src/main/java/ru/practicum/shareit/booking/BookingServiceImpl.java:112-144 | the do-while and the bounded page loop build exactly the assembled listing |
| BookingServer.Service.CreateBooking | server/src/main/java/ru/practicum/shareit/booking/BookingServiceImpl.java:40-52 | fails with the creation checks' error and stores nothing, or appends the mapped WAITING booking under the next id and returns its DTO |
| BookingServer.Service.UpdateBooking | server/src/main/java/ru/practicum/shareit/booking/BookingServiceImpl.java:56-79 | fails with the status-change checks' error, or sets the status of that booking only and returns its DTO |
| BookingServer.Service.GetByUserId | server/src/main/java/ru/practicum/shareit/booking/BookingServiceImpl.java:94-146 | NotFound for an unknown caller, otherwise the assembled pages of the token's query as short DTOs |
| BookingServer.Service.GetByOwnerId | server/src/main/java/ru/practicum/shareit/booking/BookingServiceImpl.java:192-240 | the same for the owner's queries |
| Paging.DrainPages | server/src/main/java/ru/practicum/shareit/booking/BookingServiceImpl.java:113-126 | the do-while page loop returns every row from the first page's offset to the end |
| Paging.CollectPages | server/src/main/java/ru/practicum/shareit/booking/BookingServiceImpl.java:129-143 | the bounded page loop returns the rows of pages `index` to `totalPages - 1`, cut to `size` |
| ItemRepository.FindByUserId | server/src/main/java/ru/practicum/shareit/item/ItemRepository.java:14 | keeps exactly the items the user owns |
| ItemRepository.GetItemsBySearchQuery | server/src/main/java/ru/practicum/shareit/item/ItemRepository.java:16-20 | keeps exactly the items whose name contains the text, or whose description does and that are available, ignoring case |
| ItemRepository.SearchAvailabilityOnlyGuardsDescription | server/src/main/java/ru/practicum/shareit/item/ItemRepository.java:16-20 | a name match is found even when unavailable; an unavailable item without a name match never is |
| ItemRepository.FindAllByRequestId | server/src/main/java/ru/practicum/shareit/item/ItemRepository.java:22 | keeps exactly the items answering that request |
| ItemService.CreationError | src/main/java/ru/practicum/shareit/item/ItemServiceImpl.java:44-58 | passes exactly when every field is present and name and description are not blank; otherwise Validation |
| ItemService.Merge | src/main/java/ru/practicum/shareit/item/ItemServiceImpl.java:74-90 | a present field replaces the stored one, a missing one keeps it; id, owner and request never change |
| ItemService.MergeIdempotent | src/main/java/ru/practicum/shareit/item/ItemServiceImpl.java:74-90 | the same patch twice is the patch once; the empty patch changes nothing |
| ItemService.FindItemById | src/main/java/ru/practicum/shareit/item/ItemServiceImpl.java:156-162 | the stored item with that id exactly when the caller and the item exist; otherwise NotFound |
| ItemService.SearchByText | src/main/java/ru/practicum/shareit/item/ItemServiceImpl.java:185-191 | NotFound for an unknown caller, nothing for a blank text, otherwise exactly the items the search clause admits |
| ItemService.LastBooking | src/main/java/ru/practicum/shareit/item/ItemServiceImpl.java:205-229 | only the owner sees a last booking. When some booking of the item has ended, it is the latest-ended one, shown exactly when that one is APPROVED. When none has ended, it is the item's only booking, shown exactly when it is APPROVED |
| ItemService.SoleBooking | src/main/java/ru/practicum/shareit/item/ItemServiceImpl.java:209-215 | the item's booking exactly when the item has one booking row, counted with multiplicity |
| ItemService.NextBooking | src/main/java/ru/practicum/shareit/item/ItemServiceImpl.java:231-248 | only the owner sees a next booking: the upcoming booking that starts soonest, shown exactly when it is APPROVED |
| ItemService.LastIsLatestEndedApproved | src/main/java/ru/practicum/shareit/item/ItemServiceImpl.java:205-222 | if the latest-ended booking is APPROVED, the owner sees it as last, whatever the statuses of earlier ones |
| ItemService.LatestEndedUnapprovedHidesLast | src/main/java/ru/practicum/shareit/item/ItemServiceImpl.java:218-224 | if the latest-ended booking is not APPROVED, the owner sees no last booking even when an earlier one is APPROVED |
| ItemService.SoleApprovedBookingIsLast | src/main/java/ru/practicum/shareit/item/ItemServiceImpl.java:209-215 | before any booking has ended, an item's only booking is shown as last when it is APPROVED, although it lies ahead |
| ItemService.NextIsEarliestUpcoming | src/main/java/ru/practicum/shareit/item/ItemServiceImpl.java:231-243 | the soonest upcoming booking is shown as next when it is APPROVED, and no next booking is shown when it is not |
| ItemService.View | src/main/java/ru/practicum/shareit/item/ItemServiceImpl.java:200-259 | the item's fields with its last and next bookings as that viewer sees them |
| ItemService.FindItemDtoById | src/main/java/ru/practicum/shareit/item/ItemServiceImpl.java:146-153 | NotFound for an unknown caller or item, otherwise the view of that item |
| ItemService.StrangerSeesNoBookings | src/main/java/ru/practicum/shareit/item/ItemServiceImpl.java:205-248 | a viewer who does not own the item sees neither a last nor a next booking |
| ItemService.CheckUserMadeBooking | src/main/java/ru/practicum/shareit/item/ItemServiceImpl.java:261-274 | passes exactly when the user has an APPROVED booking of the item that started before `now`; otherwise Validation |
| ItemService.Overview | src/main/java/ru/practicum/shareit/item/ItemServiceImpl.java:115-141 | no bookings: no last/next; otherwise last is the group's last entry and next the first upcoming one, or Internal when none is upcoming |
| ItemService.OverviewFails | src/main/java/ru/practicum/shareit/item/ItemServiceImpl.java:125-134 | the overview fails exactly when the item has APPROVED bookings and all have ended |
| ItemService.OverviewPresence | src/main/java/ru/practicum/shareit/item/ItemServiceImpl.java:122-136 | last and next are shown exactly when the item has APPROVED bookings (and the overview succeeds) |
| ItemService.OverviewLast | src/main/java/ru/practicum/shareit/item/ItemServiceImpl.java:128 | in start-descending input, last is the item's APPROVED booking with the earliest start |
| ItemService.OverviewNext | src/main/java/ru/practicum/shareit/item/ItemServiceImpl.java:129-134 | next is the item's APPROVED booking with the earliest start among those not yet ended |
| ItemService.ItemListFacts | src/main/java/ru/practicum/shareit/item/ItemServiceImpl.java:110-112 | an item's group holds exactly its bookings, in the query's order |
| ItemService.LastIsEarliest | src/main/java/ru/practicum/shareit/item/ItemServiceImpl.java:128 | the last entry of a start-descending list has the smallest start |
| ItemService.FirstIsEarliest | src/main/java/ru/practicum/shareit/item/ItemServiceImpl.java:129-134 | the first entry of a start-ascending list has the smallest start |
| ItemService.UpcomingFacts | src/main/java/ru/practicum/shareit/item/ItemServiceImpl.java:129-132 | the upcoming list is exactly the group's bookings ending after `now`, earliest start first |
| ItemService.Service.CreateItem | src/main/java/ru/practicum/shareit/item/ItemServiceImpl.java:44-62 | Validation for bad fields, NotFound for an unknown owner, otherwise appends the item under the next id, owned by its creator |
| ItemService.Service.UpdateItem | src/main/java/ru/practicum/shareit/item/ItemServiceImpl.java:66-93 | NotFound for an unknown caller, item or non-owner, Internal when a changed item fails the entity's `@NotBlank` checks at commit, and nothing changes on either error; otherwise only that item is replaced by the merge; every stored item stays persistable |
| ItemService.PatchError | src/main/java/ru/practicum/shareit/item/ItemServiceImpl.java:80-92 | the patched item is refused exactly when the merge changed it and left a blank name or description, and then with Internal |
| ItemService.BlankPatchRejected | src/main/java/ru/practicum/shareit/item/model/Item.java:56-62 | a patch that blanks a stored item's name or description is never written |
| ItemService.CreatedIsPersistable | src/main/java/ru/practicum/shareit/item/ItemServiceImpl.java:45-52 | an item that passes the creation checks satisfies the entity's `@NotBlank` checks |
| ItemService.Service.FindAllItems | src/main/java/ru/practicum/shareit/item/ItemServiceImpl.java:96-143 | NotFound for an unknown caller; otherwise one overview per owned item in id order, or Internal exactly when some overview fails |
| ItemService.BuildOverview | src/main/java/ru/practicum/shareit/item/ItemServiceImpl.java:116-140 | one pass of the item loop builds exactly the item's overview |
| ItemService.SetLastAndNext | src/main/java/ru/practicum/shareit/item/ItemServiceImpl.java:125-135 | the loop over an item's bookings leaves last = the group's last entry and next = the first booking that has not ended, or fails with Internal when every booking has ended |
| ItemService.ItemIds | src/main/java/ru/practicum/shareit/item/ItemServiceImpl.java:110 | the ids of the listed items, the collection the approved-bookings query is asked about |
| ItemRequestService.OwnRequests | src/main/java/ru/practicum/shareit/request/ItemRequestServiceImpl.java:52-53 | keeps exactly the requestor's requests, newest first |
| ItemRequestService.OthersRequests | src/main/java/ru/practicum/shareit/request/ItemRequestServiceImpl.java:67-83 | keeps exactly the requests of everyone else, newest first |
| ItemRequestService.RequestById | src/main/java/ru/practicum/shareit/request/ItemRequestServiceImpl.java:42-47 | the stored request with that id exactly when the caller and the request exist; otherwise NotFound |
| ItemRequestService.OwnItemRequests | src/main/java/ru/practicum/shareit/request/ItemRequestServiceImpl.java:50-56 | NotFound exactly for an unknown caller; otherwise exactly the caller's requests, newest first |
| ItemRequestService.AssembledWithin | src/main/java/ru/practicum/shareit/request/ItemRequestServiceImpl.java:67-99 | the assembled list only repeats rows of the query result |
| ItemRequestService.AllRequestsExcludeOwn | src/main/java/ru/practicum/shareit/request/ItemRequestServiceImpl.java:67-99 | whatever the paging, no caller sees their own requests, and every listed request is stored |
| ItemRequestService.SizedIsBoundedAndOrdered | src/main/java/ru/practicum/shareit/request/ItemRequestServiceImpl.java:84-99 | with `size`: at most `size` requests, a contiguous run from the first page's offset, newest first |
| ItemRequestService.UnsizedRunsOrdered | src/main/java/ru/practicum/shareit/request/ItemRequestServiceImpl.java:67-83 | without `size`: the drained pages then the list skipped by `from`, each run newest first |
| ItemRequestService.UnsizedRepeatsEveryRequest | src/main/java/ru/practicum/shareit/request/ItemRequestServiceImpl.java:67-83 | from the start without `size`, every request of the others is listed exactly twice (two requests give four) |
| ItemRequestService.CreatedRequestIsFound | src/main/java/ru/practicum/shareit/request/ItemRequestServiceImpl.java:36-47 | a request just created is found by id with the description and time it was created with |
| ItemRequestService.Service.Create | src/main/java/ru/practicum/shareit/request/ItemRequestServiceImpl.java:36-39 | NotFound exactly for an unknown requestor, storing nothing; otherwise appends the request under the next id |
| ItemRequestService.Service.GetAllItemRequests | src/main/java/ru/practicum/shareit/request/ItemRequestServiceImpl.java:59-101 | NotFound for an unknown caller; otherwise the page loops build exactly the assembled list |
| InMemoryItemStorage.Patch | src/main/java/ru/practicum/shareit/item/InMemoryItemStorage.java:29-38 | each non-null field replaces the stored one, a null one keeps it; id and owner kept |
| InMemoryItemStorage.PatchAgreesWithMerge | src/main/java/ru/practicum/shareit/item/InMemoryItemStorage.java:29-38 | the storage's patch and the item service's merge leave the same fields |
| InMemoryItemStorage.SearchRevisionsDiffer | src/main/java/ru/practicum/shareit/item/InMemoryItemStorage.java:88-92 | the in-memory search agrees with the database query on available items and never returns an unavailable one |
| InMemoryItemStorage.ItemStorage.CreateItem | src/main/java/ru/practicum/shareit/item/InMemoryItemStorage.java:18-22 | the counter grows by one and the item is stored under that fresh key |
| InMemoryItemStorage.ItemStorage.UpdateItem | src/main/java/ru/practicum/shareit/item/InMemoryItemStorage.java:25-41 | NotFound for an absent id, map unchanged; otherwise only that entry is patched |
| InMemoryItemStorage.ItemStorage.FindAllItems | src/main/java/ru/practicum/shareit/item/InMemoryItemStorage.java:44-52 | exactly the stored items the caller owns, each once; Internal exactly when some item has no owner |
| InMemoryItemStorage.ItemStorage.FindItemById | src/main/java/ru/practicum/shareit/item/InMemoryItemStorage.java:61-69 | the item exactly when it exists and its owner is the caller; otherwise NotFound |
| InMemoryItemStorage.ItemStorage.DeleteItem | src/main/java/ru/practicum/shareit/item/InMemoryItemStorage.java:72-78 | removes exactly that key; NotFound for an absent id, map unchanged |
| InMemoryItemStorage.ItemStorage.SearchByText | src/main/java/ru/practicum/shareit/item/InMemoryItemStorage.java:81-96 | NotFound exactly for a null text, nothing for a blank one, otherwise exactly the stored items that are available and match by name or description |
| InMemoryUserStorage.CreationError | src/main/java/ru/practicum/shareit/user/InMemoryUserStorage.java:32-38 | passes exactly when the email is present and no user has it; null is Validation, taken is Conflict |
| InMemoryUserStorage.UpdateError | src/main/java/ru/practicum/shareit/user/InMemoryUserStorage.java:48-72 | NotFound for an unknown id; otherwise passes exactly when the email is null or no other user has it, Conflict otherwise |
| InMemoryUserStorage.Updated | src/main/java/ru/practicum/shareit/user/InMemoryUserStorage.java:57-65 | keeps the stored id and takes each null field from the stored user |
| InMemoryUserStorage.OwnEmailIsNoConflict | src/main/java/ru/practicum/shareit/user/InMemoryUserStorage.java:56 | re-submitting one's own email passes; another user's email is Conflict |
| InMemoryUserStorage.UpdatedIdempotent | src/main/java/ru/practicum/shareit/user/InMemoryUserStorage.java:57-65 | the same update twice is the update once; the empty update changes nothing |
| InMemoryUserStorage.UserStorage.FindAllUsers | src/main/java/ru/practicum/shareit/user/InMemoryUserStorage.java:20-23 | every stored user, and only those, each under its own id |
| InMemoryUserStorage.UserStorage.FindUserById | src/main/java/ru/practicum/shareit/user/InMemoryUserStorage.java:26-28 | the user exactly when the id is stored, null otherwise |
| InMemoryUserStorage.UserStorage.CreateUser | src/main/java/ru/practicum/shareit/user/InMemoryUserStorage.java:31-45 | null or taken email stores nothing; otherwise the next id enters both maps; keys stay equal and emails distinct |
| InMemoryUserStorage.UserStorage.UpdateUser | src/main/java/ru/practicum/shareit/user/InMemoryUserStorage.java:48-72 | the update checks' error and no change, or that one user replaced and its email entry following a new email; invariant kept |
| InMemoryUserStorage.UserStorage.DeleteUser | src/main/java/ru/practicum/shareit/user/InMemoryUserStorage.java:75-82 | NotFound for an unknown id; otherwise the id leaves both maps |
| UserService.FindUserById | src/main/java/ru/practicum/shareit/user/UserService.java:31-38 | the stored user exactly when the id is known; otherwise NotFound |
| UserService.CreationError | src/main/java/ru/practicum/shareit/user/UserService.java:42-47 | passes exactly when both fields are present and not both blank; otherwise Validation |
| UserService.CreateError | src/main/java/ru/practicum/shareit/user/UserService.java:41-49 | the service's checks, then the insert's entity validation (a blank name or a malformed email: Validation), then the unique email column (Internal); passes exactly when none applies |
| UserService.BlankNameRejectedOnSave | src/test/java/ru/practicum/shareit/User/UserJpaTest.java:58-62 | a blank name with a well-formed email passes the service's checks and is still refused with Validation |
| UserService.MalformedEmailRejectedOnSave | src/test/java/ru/practicum/shareit/User/UserJpaTest.java:64-68 | a malformed email with a name passes the service's checks and is still refused with Validation |
| UserService.TakenEmailRejected | src/test/java/ru/practicum/shareit/User/UserJpaTest.java:70-78 | a new user with a stored user's email is refused |
| UserService.UpdateError | src/main/java/ru/practicum/shareit/user/UserService.java:51-70 | NotFound for an unknown id; otherwise Internal exactly when the merge changed the user and the result fails the entity validation or takes another user's email |
| UserService.BlankNamePatchRejected | src/main/java/ru/practicum/shareit/user/model/User.java:26-28 | a patch that blanks a stored user's name is never written |
| UserService.OwnEmailAccepted | src/main/java/ru/practicum/shareit/user/UserService.java:65-69 | resubmitting one's own email is no conflict |
| UserService.Merge | src/main/java/ru/practicum/shareit/user/UserService.java:61-69 | a present field replaces the stored one, a null one keeps it; the id is kept |
| UserService.MergeIdempotent | src/main/java/ru/practicum/shareit/user/UserService.java:61-69 | the same patch twice is the patch once; the empty patch changes nothing |
| UserService.MergeAgreesWithStorage | src/main/java/ru/practicum/shareit/user/UserService.java:61-69 | the database merge and the in-memory update store the same user |
| UserService.Service.CreateUser | src/main/java/ru/practicum/shareit/user/UserService.java:41-49 | fails exactly with `CreateError`'s error and stores nothing (a refused insert still uses up its identity value); otherwise the user is saved under a fresh id; stored users stay valid and keep distinct emails |
| UserService.Service.UpdateUser | src/main/java/ru/practicum/shareit/user/UserService.java:51-70 | fails exactly with `UpdateError`'s error and changes nothing; otherwise only that user is replaced by the merge; stored users stay valid and keep distinct emails |

## Left out

- HTTP controllers, the gateway and the error handler. Only the exceptions they map are modelled, as `Common.Error`.
- Comments: `createComment`, the comment lists of item views and `findAllItems`, and `CommentMapper`. `checkUserMadeBooking` is modelled.
- The `Pagination` helper is not part of this model. The first page index, the page size and the page count are parameters, and its validation of `from`/`size` is not modelled.
- Each page query of the paged revision reads the clock afresh. The model uses one `now` for the whole call.
- `ItemService.LastBooking`, `ItemService.NextBooking`, `ItemService.Overview`, `ItemService.SetLastAndNext` and `ItemService.CheckUserMadeBooking`: the non-paged `ItemServiceImpl` reads the clock again for each query and, in `findAllItems`, for each booking it filters. Each of these members takes a single `now`, so the model does not capture the clock moving between those reads.
- Bookings with equal sort keys come back in insertion-sort order. The database's order for ties is not modelled.
- `LIKE` wildcards (`%`, `_`) inside a search text are not modelled. Case folding covers ASCII letters only, and `isBlank` covers ASCII whitespace only.
- The item directory and the booker lookups behind `BookingMapper` are maps. Lazy JPA associations and the embedded item and user DTOs are not modelled.
- The paged revision's `ItemService.findItemById` is not part of this model. `BookingRules.CheckItemIsAvailable` and `BookingRules.CreationError` use the non-paged `ItemServiceImpl.findItemById` (src/main/java/ru/practicum/shareit/item/ItemServiceImpl.java:156-162) in its place: NotFound for an unknown caller or item, otherwise the stored item.
- The non-paged revision's `BookingDto` is not part of this model. Both revisions' `createBooking` use the paged revision's `BookingDto`, whose `itemId` is a nullable `Long`.
- The non-paged revision's `ItemRepository.search` query is not part of this model. `ItemService.SearchByText` uses the paged revision's `getItemsBySearchQuery`.
- `BookingMapper.ToBooking`: requires the interval and the booker id to be present. Its one caller, `createBooking`, checks the interval and sets the booker id first. A direct call with null bounds would copy the nulls, and that is not modelled.
- In the paged revision, `getByUserId`/`getByOwnerId` also look the token up in `BookingState` by a loop whose result is never used. The switch on the raw string decides, and only that is modelled.
- `ItemService.deleteItem` has an empty body and is not modelled.
- The item list of an `ItemRequestDto` comes from an item-service method that is not part of this model. A request is returned as its stored record.
- `user.dto.UserMapper` is not part of this model. `UserService.createUser` is taken to save a new user under a fresh id, and its `deleteUser`/`findAllUsers` delegate to the repository unchanged.
- `UserService`: the address grammar of the `@Email` validator is not modelled. `isEmail` stands for it, fixed when the service is built and passed to its functions.
- `UserService.Service.CreateUser`: a refused insert is taken to use up one identity value, as database identity columns do. Its exact effect on the counter depends on the database and is not otherwise modelled.
- `InMemoryItemStorage.ItemStorage.FindAllItems`: visits keys in ascending order rather than the map's iteration order, which the source leaves unspecified.
- `InMemoryItemStorage`: the name, description and availability of a stored item are never null here. The exceptions a null field would raise in `searchByText` are not modelled.
- `InMemoryItemStorage.ItemStorage.SearchByText`: returns a set, because the list order follows the hash map's iteration order. No item is stored twice.
- `InMemoryUserStorage.UserStorage.FindAllUsers`: returns a set rather than a list, because the list order follows the hash map's iteration order. Each user is stored once, under its own id.
- `InMemoryUserStorage`: the caller's `User` object is updated in place and then stored, so the caller and the store share it. Only the stored value is modelled.
- `InMemoryUserStorage.UpdateError`: requires the store's invariant (same keys, distinct emails), which the storage always keeps.
- Ids are unbounded integers. Overflow of the `long` counters is not modelled.
- `ItemService.OverviewLast`: requires the approved bookings in latest-start-first order. This is the order the query is asked for.
