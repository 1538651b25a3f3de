/** `ItemServiceImpl` of the non-paged revision: item creation and partial
    update over the items table, lookups and search, the last/next booking
    an owner sees on an item, and who may comment. Users and bookings belong
    to other services and are passed in. The clock is the parameter `now`. */
module ItemService {
  import opened Common
  import opened Domain
  import opened Seqs
  import opened BookingRepository
  import opened ServerBookingRepository
  import opened BookingMapper
  import opened ItemRepository
  import Text

  /** `ItemDto` as a request: every field may be missing (`null`). */
  datatype ItemDto = ItemDto(name: Option<string>, description: Option<string>, available: Option<bool>)

  /** `ItemDto` as an answer: the item's fields and, for its owner, the
      last and next bookings. Comments are not part of this model. */
  datatype ItemView = ItemView(name: string, description: string, available: bool,
                               lastBooking: Option<BookingShort>, nextBooking: Option<BookingShort>)

  /** The field checks of `createItem`: every field present, name and
      description not blank. */
  function CreationError(dto: ItemDto): (r: Option<Error>)
    ensures r.None? <==> dto.name.Some? && dto.description.Some? && dto.available.Some?
                         && !Text.IsBlank(dto.name.value) && !Text.IsBlank(dto.description.value)
    ensures r.Some? ==> r.value == Validation
  {
    if dto.name.None? || dto.description.None? || dto.available.None? then Some(Validation)
    else if Text.IsBlank(dto.name.value) || Text.IsBlank(dto.description.value) then Some(Validation)
    else None
  }

  /** The partial update of `updateItem`: a present field replaces the
      stored one (setting an equal value changes nothing), a missing field
      keeps it; id, owner and request never change. */
  function Merge(item: Item, dto: ItemDto): (r: Item)
    ensures r.id == item.id && r.userId == item.userId && r.requestId == item.requestId
    ensures r.name == (if dto.name.Some? then dto.name.value else item.name)
    ensures r.description == (if dto.description.Some? then dto.description.value else item.description)
    ensures r.available == (if dto.available.Some? then dto.available.value else item.available)
  {
    var name := if item.name != dto.name.GetOr(item.name) && dto.name.Some? then dto.name.value else item.name;
    var description := if item.description != dto.description.GetOr(item.description) && dto.description.Some?
                       then dto.description.value else item.description;
    var available := if item.available != dto.available.GetOr(item.available) && dto.available.Some?
                     then dto.available.value else item.available;
    item.(name := name, description := description, available := available)
  }

  /** Applying the same patch twice is applying it once, and the empty
      patch changes nothing. */
  lemma MergeIdempotent(item: Item, dto: ItemDto)
    ensures Merge(Merge(item, dto), dto) == Merge(item, dto)
    ensures Merge(item, ItemDto(None, None, None)) == item
  {
  }

  /** The bean validation Hibernate runs on an `Item` before writing it:
      `@NotBlank` on the name and on the description. */
  predicate Persistable(item: Item) {
    !Text.IsBlank(item.name) && !Text.IsBlank(item.description)
  }

  /** Whether the patched item can be written back. It is written only if
      the merge changed it (Hibernate's dirty check), and only at commit,
      where a failed entity validation is rethrown as an exception no
      handler maps (Internal). */
  function PatchError(item: Item, dto: ItemDto): (r: Option<Error>)
    ensures r.None? <==> Merge(item, dto) == item || Persistable(Merge(item, dto))
    ensures r.Some? ==> r.value == Internal
  {
    var merged := Merge(item, dto);
    if merged != item && !Persistable(merged) then Some(Internal) else None
  }

  /** An item that passes creation is persistable, and a patch that blanks
      its name or its description is never written. */
  lemma BlankPatchRejected(item: Item, dto: ItemDto)
    requires Persistable(item)
    requires (dto.name.Some? && Text.IsBlank(dto.name.value))
             || (dto.description.Some? && Text.IsBlank(dto.description.value))
    ensures PatchError(item, dto) == Some(Internal)
  {
  }

  /** Every item that passes the creation checks can be written. */
  lemma CreatedIsPersistable(dto: ItemDto, id: int, userId: int)
    requires CreationError(dto).None?
    ensures Persistable(Item(id, dto.name.value, dto.description.value, dto.available.value, userId, None))
  {
  }

  /** `findItemById`: NotFound for an unknown user or an unknown item. */
  function FindItemById(table: seq<Item>, users: map<int, User>, id: int, userId: int): (r: Result<Item>)
    requires RowNumbered(table, ItemId)
    ensures r.Ok? <==> userId in users && exists i :: 0 <= i < |table| && table[i].id == id
    ensures r.Ok? ==> r.value in table && r.value.id == id
    ensures r.Err? ==> r.error == NotFound
  {
    if userId !in users then Err(NotFound)
    else match FindById(table, id, ItemId)
      case None => Err(NotFound)
      case Some(it) => Ok(it)
  }

  /** `searchByText`: NotFound for an unknown user, nothing for a blank
      text, otherwise the search query's items. */
  function SearchByText(table: seq<Item>, users: map<int, User>, text: string, userId: int): (r: Result<seq<Item>>)
    ensures userId !in users <==> r == Err(NotFound)
    ensures userId in users && Text.IsBlank(text) ==> r == Ok([])
    ensures r.Ok? ==> forall it :: it in r.value ==> it in table && SearchMatches(it, text)
    ensures userId in users && !Text.IsBlank(text)
            ==> r.Ok? && forall it :: it in table && SearchMatches(it, text) ==> it in r.value
  {
    if userId !in users then Err(NotFound)
    else if Text.IsBlank(text) then Ok([])
    else
      var found := GetItemsBySearchQuery(table, text);
      assert forall it :: it in found <==> multiset(found)[it] > 0;
      assert forall it :: it in table <==> multiset(table)[it] > 0;
      Ok(found)
  }

  /** The item's booking when the item has exactly one booking row, counted
      with multiplicity; none otherwise. */
  function SoleBooking(table: seq<Booking>, itemId: int): (r: Option<Booking>)
    ensures r.Some? <==> exists b :: b in table && b.itemId == itemId && multiset(table)[b] == 1
                                     && forall c :: c in table && c.itemId == itemId ==> c == b
    ensures r.Some? ==> r.value in table && r.value.itemId == itemId && multiset(table)[r.value] == 1
                        && forall c :: c in table && c.itemId == itemId ==> c == r.value
  {
    var all := Test2(table, itemId, 0);
    if |all| == 1 then
      SingleRowIsSole(table, itemId, all);
      Some(all[0])
    else
      NoSingleRow(table, itemId, all);
      None
  }

  /** When the item's rows, counted with multiplicity, form a list of one,
      that one booking is the item's only booking. */
  lemma SingleRowIsSole(table: seq<Booking>, itemId: int, all: seq<Booking>)
    requires forall b :: multiset(all)[b] == if b.itemId == itemId then multiset(table)[b] else 0
    requires |all| == 1
    ensures all[0] in table && all[0].itemId == itemId && multiset(table)[all[0]] == 1
    ensures forall c :: c in table && c.itemId == itemId ==> c == all[0]
  {
    var b := all[0];
    assert all == [b];
    assert multiset(all)[b] == 1;
    forall c | c in table && c.itemId == itemId ensures c == b {
      assert multiset(table)[c] > 0;
      assert multiset(all)[c] > 0;
    }
  }

  /** When the item's rows form a list of any other length, no booking is
      the item's only row. */
  lemma NoSingleRow(table: seq<Booking>, itemId: int, all: seq<Booking>)
    requires forall b :: multiset(all)[b] == if b.itemId == itemId then multiset(table)[b] else 0
    requires |all| != 1
    ensures !exists b :: b in table && b.itemId == itemId && multiset(table)[b] == 1
                         && forall c :: c in table && c.itemId == itemId ==> c == b
  {
    forall b | b in table && b.itemId == itemId && multiset(table)[b] == 1
      ensures exists c :: c in table && c.itemId == itemId && c != b
    {
      assert multiset(all)[b] == 1;
      OnlyOneOccurrence(all, b);
      var c := all[if all[0] == b then 1 else 0];
      assert multiset(all)[c] > 0;
      assert multiset(table)[c] > 0;
    }
  }

  /** A sequence with one occurrence of `b` and more than one element holds
      some other element. */
  lemma OnlyOneOccurrence(s: seq<Booking>, b: Booking)
    requires multiset(s)[b] == 1 && |s| != 1
    ensures |s| >= 2 && s[if s[0] == b then 1 else 0] != b
  {
    assert s[0] in multiset(s);
    if s[0] == b {
      assert s == [s[0]] + s[1..];
      assert multiset(s[1..])[b] == 0;
      assert s[1] in multiset(s[1..]);
    }
  }

  /** The `last` booking `addNextAndLastBookingsAndComments` shows. Only
      the owner sees one, and only an APPROVED one: the booking of the item
      that ended last before `now`; when none has ended and the item has
      exactly one booking at all, that booking. */
  function LastBooking(table: seq<Booking>, item: Item, viewerId: int, now: int): (r: Option<BookingShort>)
    ensures item.userId != viewerId ==> r.None?
    ensures r.Some? ==> exists b :: b in table && b.itemId == item.id && b.status == Approved && r.value == ToBookingShortDto(b)
    ensures r.Some? && (exists b :: b in table && b.itemId == item.id && b.end < now)
            ==> r.value.end < now
                && forall b :: b in table && b.itemId == item.id && b.end < now ==> b.end <= r.value.end
    ensures r.Some? && (forall b :: b in table && b.itemId == item.id ==> b.end >= now)
            ==> exists b :: b in table && b.itemId == item.id && multiset(table)[b] == 1 && r.value == ToBookingShortDto(b)
                            && forall c :: c in table && c.itemId == item.id ==> c == b
    ensures (item.userId == viewerId && (exists b :: b in table && b.itemId == item.id && b.end < now)
             && forall b :: b in table && b.itemId == item.id && b.end < now ==> b.status == Approved) ==> r.Some?
    ensures item.userId == viewerId && FindFirstByItemIdAndEndBeforeOrderByEndDesc(table, item.id, now).Some?
            ==> var f := FindFirstByItemIdAndEndBeforeOrderByEndDesc(table, item.id, now).value;
                (r.Some? <==> f.status == Approved) && (r.Some? ==> r.value == ToBookingShortDto(f))
    ensures item.userId == viewerId && FindFirstByItemIdAndEndBeforeOrderByEndDesc(table, item.id, now).None?
            ==> (r.Some? <==> SoleBooking(table, item.id).Some? && SoleBooking(table, item.id).value.status == Approved)
                && (r.Some? ==> r.value == ToBookingShortDto(SoleBooking(table, item.id).value))
  {
    if item.userId != viewerId then None
    else match FindFirstByItemIdAndEndBeforeOrderByEndDesc(table, item.id, now)
      case Some(b) => if b.status == Approved then Some(ToBookingShortDto(b)) else None
      case None =>
        match SoleBooking(table, item.id)
        case Some(b) => if b.status == Approved then Some(ToBookingShortDto(b)) else None
        case None => None
  }

  /** The `next` booking: for the owner only, the item's booking that
      starts first after `now`, if it is APPROVED. */
  function NextBooking(table: seq<Booking>, item: Item, viewerId: int, now: int): (r: Option<BookingShort>)
    ensures item.userId != viewerId ==> r.None?
    ensures r.Some? ==> exists b :: b in table && b.itemId == item.id && b.status == Approved && b.start > now
                                    && r.value == ToBookingShortDto(b)
                                    && forall c :: c in table && c.itemId == item.id && c.start > now ==> b.start <= c.start
    ensures (item.userId == viewerId && (exists b :: b in table && b.itemId == item.id && b.start > now)
             && forall b :: b in table && b.itemId == item.id && b.start > now ==> b.status == Approved) ==> r.Some?
    ensures item.userId == viewerId
            ==> var f := FindFirstByItemIdAndStartAfterOrderByStartAsc(table, item.id, now);
                (r.Some? <==> f.Some? && f.value.status == Approved) && (r.Some? ==> r.value == ToBookingShortDto(f.value))
  {
    if item.userId != viewerId then None
    else match FindFirstByItemIdAndStartAfterOrderByStartAsc(table, item.id, now)
      case Some(b) => if b.status == Approved then Some(ToBookingShortDto(b)) else None
      case None => None
  }

  /** The owner sees as last booking the APPROVED booking that ended most
      recently, whatever the statuses of the bookings that ended before it. */
  lemma LastIsLatestEndedApproved(table: seq<Booking>, item: Item, b: Booking, now: int)
    requires b in table && b.itemId == item.id && b.end < now && b.status == Approved
    requires forall c :: c in table && c.itemId == item.id && c.end < now && c != b ==> c.end < b.end
    ensures LastBooking(table, item, item.userId, now) == Some(ToBookingShortDto(b))
  {
    var f := FindFirstByItemIdAndEndBeforeOrderByEndDesc(table, item.id, now);
    assert f.Some?;
    assert f.value == b;
  }

  /** A booking that ended most recently and is not APPROVED hides every
      earlier APPROVED one: the owner then sees no last booking. */
  lemma LatestEndedUnapprovedHidesLast(table: seq<Booking>, item: Item, b: Booking, now: int)
    requires b in table && b.itemId == item.id && b.end < now && b.status != Approved
    requires forall c :: c in table && c.itemId == item.id && c.end < now && c != b ==> c.end < b.end
    ensures LastBooking(table, item, item.userId, now).None?
  {
    var f := FindFirstByItemIdAndEndBeforeOrderByEndDesc(table, item.id, now);
    assert f.Some?;
    assert f.value == b;
  }

  /** Before any booking has ended, an item whose only booking is APPROVED
      shows that booking as its last one, even though it lies ahead. */
  lemma SoleApprovedBookingIsLast(table: seq<Booking>, item: Item, b: Booking, now: int)
    requires b in table && b.itemId == item.id && b.end >= now && b.status == Approved
    requires multiset(table)[b] == 1
    requires forall c :: c in table && c.itemId == item.id ==> c == b
    ensures LastBooking(table, item, item.userId, now) == Some(ToBookingShortDto(b))
  {
    var sole := SoleBooking(table, item.id);
    assert sole.Some?;
    assert sole.value == b;
  }

  /** The owner sees as next booking the upcoming booking that starts
      soonest when it is APPROVED, and none when it is not. */
  lemma NextIsEarliestUpcoming(table: seq<Booking>, item: Item, b: Booking, now: int)
    requires b in table && b.itemId == item.id && b.start > now
    requires forall c :: c in table && c.itemId == item.id && c.start > now && c != b ==> b.start < c.start
    ensures b.status == Approved ==> NextBooking(table, item, item.userId, now) == Some(ToBookingShortDto(b))
    ensures b.status != Approved ==> NextBooking(table, item, item.userId, now).None?
  {
    var f := FindFirstByItemIdAndStartAfterOrderByStartAsc(table, item.id, now);
    assert f.Some?;
    assert f.value == b;
  }

  /** `addNextAndLastBookingsAndComments` without the comments. */
  function View(table: seq<Booking>, item: Item, viewerId: int, now: int): (r: ItemView)
    ensures r.name == item.name && r.description == item.description && r.available == item.available
    ensures r.lastBooking == LastBooking(table, item, viewerId, now)
    ensures r.nextBooking == NextBooking(table, item, viewerId, now)
  {
    ItemView(item.name, item.description, item.available,
             LastBooking(table, item, viewerId, now), NextBooking(table, item, viewerId, now))
  }

  /** `findItemDtoById`: as `findItemById`, then the view for the caller. */
  function FindItemDtoById(table: seq<Item>, users: map<int, User>, bookings: seq<Booking>, id: int, userId: int, now: int)
    : (r: Result<ItemView>)
    requires RowNumbered(table, ItemId)
    ensures r.Ok? <==> FindItemById(table, users, id, userId).Ok?
    ensures r.Err? ==> r.error == NotFound
    ensures r.Ok? ==> r.value == View(bookings, FindItemById(table, users, id, userId).value, userId, now)
  {
    match FindItemById(table, users, id, userId)
    case Err(e) => Err(e)
    case Ok(it) => Ok(View(bookings, it, userId, now))
  }

  /** A viewer who does not own the item never sees its bookings. */
  lemma StrangerSeesNoBookings(table: seq<Booking>, item: Item, viewerId: int, now: int)
    requires item.userId != viewerId
    ensures View(table, item, viewerId, now).lastBooking.None?
    ensures View(table, item, viewerId, now).nextBooking.None?
  {
  }

  /** `checkUserMadeBooking`: the author may comment only after an APPROVED
      booking of that item has started; otherwise Validation. */
  function CheckUserMadeBooking(table: seq<Booking>, userId: int, itemId: int, now: int): (r: Option<Error>)
    ensures r.None? <==> exists b :: b in table && b.bookerId == userId && b.itemId == itemId
                                      && b.status == Approved && b.start < now
    ensures r.Some? ==> r.value == Validation
  {
    var own := FindAllBookingsByBooker(table, userId);
    var p := (b: Booking) => b.itemId == itemId && b.bookerId == userId && b.status == Approved && b.start < now;
    var made := Where(own, p);
    MadeBookingsFacts(table, userId, own, p, made);
    if made == [] then Some(Validation) else
      assert made[0] in made;
      None
  }

  /** The booker's bookings that pass the filter `p` are exactly the stored
      bookings of that booker passing it. */
  lemma MadeBookingsFacts(table: seq<Booking>, userId: int, own: seq<Booking>, p: Booking -> bool,
                          made: seq<Booking>)
    requires own == FindAllBookingsByBooker(table, userId)
    requires made == Where(own, p)
    ensures forall b :: b in made <==> b in table && b.bookerId == userId && p(b)
  {
    forall b ensures b in made <==> b in table && b.bookerId == userId && p(b) {
      assert (b in made) == (multiset(made)[b] > 0);
      assert (b in own) == (multiset(own)[b] > 0);
      assert (b in table) == (multiset(table)[b] > 0);
    }
  }

  /** The item overview `findAllItems` builds for each of the owner's
      items from the APPROVED bookings of those items (latest start first):
      `last` is the last of the item's list, `next` the first of those that
      have not ended, earliest start first. When the item has APPROVED
      bookings but all of them have ended, `sorted.get(0)` throws; that
      uncaught exception is Internal. */
  function Overview(approved: seq<Booking>, item: Item, now: int): (r: Result<ItemView>)
    ensures r.Err? ==> r.error == Internal
    ensures r.Ok? ==> r.value.name == item.name && r.value.description == item.description
                      && r.value.available == item.available
  {
    var list := ItemList(approved, item);
    if list == [] then Ok(ItemView(item.name, item.description, item.available, None, None))
    else
      var upcoming := Upcoming(list, now);
      if upcoming == [] then Err(Internal)
      else Ok(ItemView(item.name, item.description, item.available,
                       Some(ToBookingShortDto(list[|list| - 1])), Some(ToBookingShortDto(upcoming[0]))))
  }

  /** The overview fails exactly when the item has APPROVED bookings and
      every one of them has ended. */
  lemma OverviewFails(approved: seq<Booking>, item: Item, now: int)
    ensures Overview(approved, item, now).Err?
            <==> (exists b :: b in approved && b.itemId == item.id)
                 && forall b :: b in approved && b.itemId == item.id ==> b.end <= now
  {
    var list := ItemList(approved, item);
    ItemListFacts(approved, item);
    UpcomingFacts(list, now);
    if list != [] {
      assert list[0] in list;
      var upcoming := Upcoming(list, now);
      if upcoming != [] {
        assert upcoming[0] in upcoming;
      }
    }
  }

  /** The overview shows `last` and `next` exactly when the item has an
      APPROVED booking. */
  lemma OverviewPresence(approved: seq<Booking>, item: Item, now: int)
    requires Overview(approved, item, now).Ok?
    ensures var v := Overview(approved, item, now).value;
            (v.lastBooking.Some? <==> exists b :: b in approved && b.itemId == item.id)
            && (v.nextBooking.Some? <==> exists b :: b in approved && b.itemId == item.id)
  {
    var list := ItemList(approved, item);
    ItemListFacts(approved, item);
    if list != [] {
      assert list[0] in list;
    }
  }

  /** In the overview, `last` is the item's APPROVED booking that starts
      first, whether or not it has ended. */
  lemma OverviewLast(approved: seq<Booking>, item: Item, now: int)
    requires SortedDesc(approved, StartOf)
    requires Overview(approved, item, now).Ok?
    ensures var v := Overview(approved, item, now).value;
            v.lastBooking.Some? ==> (exists b :: b in approved && b.itemId == item.id && v.lastBooking.value == ToBookingShortDto(b))
                                    && forall c :: c in approved && c.itemId == item.id ==> v.lastBooking.value.start <= c.start
  {
    var list := ItemList(approved, item);
    ItemListFacts(approved, item);
    if list != [] {
      var last := list[|list| - 1];
      assert last in list;
      LastIsEarliest(list);
      assert last in approved && last.itemId == item.id;
      assert forall c :: c in approved && c.itemId == item.id ==> last.start <= c.start by {
        forall c | c in approved && c.itemId == item.id
          ensures last.start <= c.start
        {
          assert c in list;
        }
      }
    }
  }

  /** In the overview, `next` is the earliest-starting APPROVED booking of
      the item that has not ended. */
  lemma OverviewNext(approved: seq<Booking>, item: Item, now: int)
    requires Overview(approved, item, now).Ok?
    ensures var v := Overview(approved, item, now).value;
            v.nextBooking.Some? ==> (exists b :: b in approved && b.itemId == item.id && b.end > now
                                                 && v.nextBooking.value == ToBookingShortDto(b))
                                    && forall c :: c in approved && c.itemId == item.id && c.end > now
                                                   ==> v.nextBooking.value.start <= c.start
  {
    var list := ItemList(approved, item);
    ItemListFacts(approved, item);
    UpcomingFacts(list, now);
    if list != [] {
      var upcoming := Upcoming(list, now);
      assert upcoming[0] in upcoming;
      FirstIsEarliest(upcoming);
    }
  }

  /** The item's group of the `groupingBy(Booking::getItem)` map, in the
      query's order. */
  function ItemList(approved: seq<Booking>, item: Item): seq<Booking> {
    Where(approved, (b: Booking) => b.itemId == item.id)
  }

  /** The group holds exactly the item's bookings, in the query's order. */
  lemma ItemListFacts(approved: seq<Booking>, item: Item)
    ensures SortedDesc(approved, StartOf) ==> SortedDesc(ItemList(approved, item), StartOf)
    ensures forall b :: b in ItemList(approved, item) <==> b in approved && b.itemId == item.id
  {
    var r := ItemList(approved, item);
    if SortedDesc(approved, StartOf) {
      WhereSortedDesc(approved, (b: Booking) => b.itemId == item.id, StartOf);
    }
    assert forall b :: b in r <==> multiset(r)[b] > 0;
    assert forall b :: b in approved <==> multiset(approved)[b] > 0;
  }

  lemma LastIsEarliest(list: seq<Booking>)
    requires SortedDesc(list, StartOf) && list != []
    ensures forall c :: c in list ==> list[|list| - 1].start <= c.start
  {
    forall c | c in list ensures list[|list| - 1].start <= c.start {
      var k :| 0 <= k < |list| && list[k] == c;
      if k < |list| - 1 {
        assert StartOf(list[k]) >= StartOf(list[|list| - 1]);
      }
    }
  }

  lemma FirstIsEarliest(list: seq<Booking>)
    requires SortedAsc(list, StartOf) && list != []
    ensures forall c :: c in list ==> list[0].start <= c.start
  {
    forall c | c in list ensures list[0].start <= c.start {
      var k :| 0 <= k < |list| && list[k] == c;
      if 0 < k {
        assert StartOf(list[0]) <= StartOf(list[k]);
      }
    }
  }

  /** The group's bookings that have not ended, earliest start first. */
  function Upcoming(list: seq<Booking>, now: int): seq<Booking> {
    SortAsc(Where(list, (b: Booking) => b.end > now), StartOf)
  }

  /** They are the group's bookings ending after `now`, in `start` order. */
  lemma UpcomingFacts(list: seq<Booking>, now: int)
    ensures SortedAsc(Upcoming(list, now), StartOf)
    ensures forall b :: b in Upcoming(list, now) <==> b in list && b.end > now
  {
    var r := Upcoming(list, now);
    assert forall b :: b in r <==> multiset(r)[b] > 0;
    assert forall b :: b in list <==> multiset(list)[b] > 0;
  }

  class Service {
    /** The items table; row `i` holds the item with id `i + 1`. */
    var items: seq<Item>

    ghost predicate Valid()
      reads this
    {
      RowNumbered(items, ItemId) && forall i :: 0 <= i < |items| ==> Persistable(items[i])
    }

    constructor ()
      ensures Valid() && items == []
    {
      items := [];
    }

    /** `createItem`: the field checks (Validation), then the owner must
        exist (NotFound); the item is saved under the next id, owned by its
        creator and answering no request. */
    method CreateItem(users: map<int, User>, dto: ItemDto, sharerUserId: int) returns (r: Result<Item>)
      requires Valid()
      modifies this
      ensures Valid()
      ensures CreationError(dto).Some? ==> r == Err(Validation)
      ensures CreationError(dto).None? && sharerUserId !in users ==> r == Err(NotFound)
      ensures r.Err? ==> items == old(items)
      ensures r.Ok? <==> CreationError(dto).None? && sharerUserId in users
      ensures r.Ok? ==> r.value == Item(|old(items)| + 1, dto.name.value, dto.description.value, dto.available.value, sharerUserId, None)
                        && items == old(items) + [r.value]
    {
      var error := CreationError(dto);
      if error.Some? {
        return Err(error.value);
      }
      if sharerUserId !in users {
        return Err(NotFound);
      }
      var item := Item(|items| + 1, dto.name.value, dto.description.value, dto.available.value, sharerUserId, None);
      items := items + [item];
      r := Ok(item);
    }

    /** `updateItem`: NotFound for an unknown user, an unknown item or a
        caller who does not own it; Internal when the entity validation
        refuses the merge at commit; otherwise the patch is merged into that
        one item. */
    method UpdateItem(users: map<int, User>, id: int, dto: ItemDto, sharerUserId: int) returns (r: Result<Item>)
      requires Valid()
      modifies this
      ensures Valid()
      ensures var found := FindItemById(old(items), users, id, sharerUserId);
              r.Ok? <==> found.Ok? && found.value.userId == sharerUserId && PatchError(found.value, dto).None?
      ensures var found := FindItemById(old(items), users, id, sharerUserId);
              r.Err? && r.error == Internal <==> found.Ok? && found.value.userId == sharerUserId
                                                 && PatchError(found.value, dto).Some?
      ensures r.Err? ==> (r.error == NotFound || r.error == Internal) && items == old(items)
      ensures r.Ok? ==> 1 <= id <= |items| && |items| == |old(items)|
                        && r.value == Merge(old(items)[id - 1], dto)
                        && items == old(items)[id - 1 := r.value]
    {
      var found := FindItemById(items, users, id, sharerUserId);
      if found.Err? {
        return Err(found.error);
      }
      if found.value.userId != sharerUserId {
        return Err(NotFound);
      }
      var error := PatchError(found.value, dto);
      if error.Some? {
        return Err(error.value);
      }
      var updated := Merge(found.value, dto);
      items := items[id - 1 := updated];
      r := Ok(updated);
    }

    /** `findAllItems`: NotFound for an unknown user; otherwise one overview
        per item the caller owns, in id order, unless an overview fails. */
    method FindAllItems(users: map<int, User>, bookings: seq<Booking>, sharerUserId: int, now: int)
      returns (r: Result<seq<ItemView>>)
      requires Valid()
      ensures sharerUserId !in users ==> r == Err(NotFound)
      ensures var owned := FindByUserId(items, sharerUserId);
              var approved := FindApprovedForItems(bookings, ItemIds(owned));
              sharerUserId in users && r.Ok?
              ==> |r.value| == |owned| && forall k :: 0 <= k < |owned| ==> Overview(approved, owned[k], now) == Ok(r.value[k])
      ensures var owned := FindByUserId(items, sharerUserId);
              var approved := FindApprovedForItems(bookings, ItemIds(owned));
              sharerUserId in users && r.Err?
              ==> r.error == Internal && exists k :: 0 <= k < |owned| && Overview(approved, owned[k], now).Err?
    {
      if sharerUserId !in users {
        return Err(NotFound);
      }
      var owned := FindByUserId(items, sharerUserId);
      var approved := FindApprovedForItems(bookings, ItemIds(owned));
      var results: seq<ItemView> := [];
      for k := 0 to |owned|
        invariant |results| == k
        invariant forall j :: 0 <= j < k ==> Overview(approved, owned[j], now) == Ok(results[j])
      {
        var info := BuildOverview(approved, owned[k], now);
        if info.Err? {
          return Err(info.error);
        }
        ghost var before := results;
        results := results + [info.value];
        forall j | 0 <= j < k + 1
          ensures Overview(approved, owned[j], now) == Ok(results[j])
        {
          if j < k {
            assert results[j] == before[j];
          }
        }
      }
      r := Ok(results);
    }
  }

  /** One pass of `findAllItems`' item loop: the item's fields, then, when
      there are APPROVED bookings at all and the item has some, the inner
      loop that sets `last` and `next`. */
  method BuildOverview(approved: seq<Booking>, item: Item, now: int) returns (r: Result<ItemView>)
    ensures r == Overview(approved, item, now)
  {
    var info := ItemView(item.name, item.description, item.available, None, None);
    var list := ItemList(approved, item);
    if approved != [] && list != [] {
      r := SetLastAndNext(list, info, now);
    } else {
      assert approved == [] ==> list == [];
      r := Ok(info);
    }
  }

  /** The inner loop of `findAllItems`: once per booking of the item, `last`
      becomes the group's last entry and `next` the first of the group's
      bookings that have not ended; `sorted.get(0)` on an empty list is the
      uncaught exception (Internal). */
  method SetLastAndNext(list: seq<Booking>, info: ItemView, now: int) returns (r: Result<ItemView>)
    requires list != []
    ensures Upcoming(list, now) == [] ==> r == Err(Internal)
    ensures Upcoming(list, now) != [] ==>
              r == Ok(info.(lastBooking := Some(ToBookingShortDto(list[|list| - 1])),
                            nextBooking := Some(ToBookingShortDto(Upcoming(list, now)[0]))))
  {
    var current := info;
    for j := 0 to |list|
      invariant j == 0 ==> current == info
      invariant j > 0 ==> Upcoming(list, now) != []
                          && current == info.(lastBooking := Some(ToBookingShortDto(list[|list| - 1])),
                                              nextBooking := Some(ToBookingShortDto(Upcoming(list, now)[0])))
    {
      var upcoming := Upcoming(list, now);
      if upcoming == [] {
        return Err(Internal);
      }
      current := current.(lastBooking := Some(ToBookingShortDto(list[|list| - 1])),
                          nextBooking := Some(ToBookingShortDto(upcoming[0])));
    }
    r := Ok(current);
  }

  /** The ids of a list of items (the `items` collection `findApprovedForItems`
      is given). */
  function ItemIds(s: seq<Item>): (r: set<int>)
    ensures forall it :: it in s ==> it.id in r
    ensures forall id :: id in r ==> exists it :: it in s && it.id == id
  {
    set it | it in s :: it.id
  }
}
