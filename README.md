# A verified model of the ShareIt business rules

ShareIt is an item-sharing web service. Users list items they are willing to lend, other users book them for a period, the owner approves or rejects each booking, past bookers may comment on an item, and users post requests for items nobody offers yet. This project models the rules underneath the web layer in Dafny and proves what they promise.

The repository holds two generations of the same service, and the model keeps both in their own form.

- **The in-memory generation.** `ItemDaoImpl` and `UserDaoImpl` each keep a list and an id counter and update both in place. They become Dafny classes:
  - `ItemDao.ItemDaoImpl` and `UserDao.UserDaoImpl`, each with a `seq` field and an `id` field;
  - methods with `modifies` clauses;
  - the id-lookup and owner-filter loops, with their invariants.

  The `ItemService` and `UserService` classes that guard these stores become classes holding references to them.
- **The relational generation.** `BookingServiceImpl`, both versions of `ItemServiceImpl`, `UserServiceImpl` and `ItemRequestServiceImpl` work through repositories. The model stands one `Persistence.Database` object for all tables. It holds:
  - one `seq` per table (users, items, bookings, comments, requests);
  - the identity counter of each table.

  Each service operation is a module-level method or function over that database:
  - Operations that save take the `Database` and state the whole new `State()`.
  - Pure lookups and listings are functions of the stored sequences.
  - The checks an operation makes before it saves are a separate function. Its contract says which error comes first and when the operation succeeds.
- **The repository queries** (`BookingRepository`) are pure functions over the bookings. Each keeps the rows satisfying its `WHERE` clause and orders them as its `ORDER BY` says. The native queries that compare at day granularity are modelled with `Day(t) = t / 86400`.
- **The mappers** (`BookingMapper`, `ItemRequestMapper`, and the item, comment and user field copies) are functions over datatypes.

Time is an integer number of seconds, and "now" is a parameter of every operation that reads the clock. Thrown exceptions become `Failure` values of `Common.Error`. Each carries the exception kind, and for booking errors also which check failed. `null` becomes `Option`.

## Model

| member | source | states |
|---|---|---|
| BookingMapper.ToDto | src/main/java/ru/practicum/shareit/booking/mapper/BookingMapper.java:17-27 | `toDto` keeps id, period and status; `itemId` and `item.id` both name the booked item, `item.name` its name; `booker.id` names the booker |
| BookingMapper.ToDtoList | src/main/java/ru/practicum/shareit/booking/mapper/BookingMapper.java:29-33 | `toDtoList` has the input's length and maps element `i` to `toDto` of element `i` |
| BookingMapper.ToDtoListAppend | src/main/java/ru/practicum/shareit/booking/mapper/BookingMapper.java:29-33 | mapping a concatenation maps each part |
| BookingMapper.StubItem | src/main/java/ru/practicum/shareit/booking/mapper/BookingMapper.java:40 | the item `toBooking` builds carries only an id: no name, no description, no request |
| BookingMapper.ToBooking | src/main/java/ru/practicum/shareit/booking/mapper/BookingMapper.java:35-44 | `toBooking` keeps id, period, booker and status; its item is a stub carrying the DTO's own id, not `itemId` |
| BookingMapper.ToShortDto | src/main/java/ru/practicum/shareit/booking/mapper/BookingMapper.java:46-51 | `toShortDto` keeps the booking id and the booker id |
| BookingMapper.ToBookingAfterToDto | src/main/java/ru/practicum/shareit/booking/mapper/BookingMapper.java:35-44 | `toBooking(toDto(b))` keeps id, period, booker and status; the item stub carries the booking id, not the item id |
| BookingMapper.ToShortDtoAgrees | src/main/java/ru/practicum/shareit/booking/mapper/BookingMapper.java:46-51 | `toShortDto` names the same booking id and booker id as `toDto` |
| BookingRepository.Query | src/main/java/ru/practicum/shareit/booking/repository/BookingRepository.java:14-92 | a query holds each stored booking satisfying its condition exactly as often as it is stored, and nothing else, in the requested order |
| BookingRepository.AllByBooker | src/main/java/ru/practicum/shareit/booking/repository/BookingRepository.java:14 | exactly the booker's bookings, with multiplicity, latest start first |
| BookingRepository.CurrentByBooker | src/main/java/ru/practicum/shareit/booking/repository/BookingRepository.java:16-17 | exactly the booker's bookings with start < now < end (both strict), latest start first; each such booking as often as it is stored |
| BookingRepository.PastByBooker | src/main/java/ru/practicum/shareit/booking/repository/BookingRepository.java:19 | exactly the booker's bookings with end < now, latest start first; each such booking as often as it is stored |
| BookingRepository.FutureByBooker | src/main/java/ru/practicum/shareit/booking/repository/BookingRepository.java:21-22 | exactly the booker's bookings with start > now, latest start first; each such booking as often as it is stored |
| BookingRepository.ByBookerAndStatus | src/main/java/ru/practicum/shareit/booking/repository/BookingRepository.java:24 | exactly the booker's bookings with that status, latest start first; each such booking as often as it is stored |
| BookingRepository.AllByOwner | src/main/java/ru/practicum/shareit/booking/repository/BookingRepository.java:26-32 | exactly the bookings of the owner's items, latest start first; each such booking as often as it is stored |
| BookingRepository.CurrentByOwner | src/main/java/ru/practicum/shareit/booking/service/BookingServiceImpl.java:139-140 | owner CURRENT as the service calls it: start <= now < end, earliest start first; each such booking as often as it is stored |
| BookingRepository.PastByOwner | src/main/java/ru/practicum/shareit/booking/service/BookingServiceImpl.java:142-143 | owner PAST as the service calls it: end <= now, no order; each such booking as often as it is stored |
| BookingRepository.FutureByOwner | src/main/java/ru/practicum/shareit/booking/service/BookingServiceImpl.java:145-146 | owner FUTURE as the service calls it: start >= now, latest start first; each such booking as often as it is stored |
| BookingRepository.ByOwnerAndStatusByStart | src/main/java/ru/practicum/shareit/booking/repository/BookingRepository.java:61-67 | the owner's bookings with that status, earliest start first; each such booking as often as it is stored |
| BookingRepository.ByOwnerAndStatus | src/main/java/ru/practicum/shareit/booking/repository/BookingRepository.java:69-74 | the owner's bookings with that status, no order; each such booking as often as it is stored |
| BookingRepository.CurrentByOwnerDays | src/main/java/ru/practicum/shareit/booking/repository/BookingRepository.java:34-42 | day(start) <= day(now) < day(end), earliest start first; each such booking as often as it is stored |
| BookingRepository.PastByOwnerDays | src/main/java/ru/practicum/shareit/booking/repository/BookingRepository.java:44-50 | day(end) <= day(now); each such booking as often as it is stored |
| BookingRepository.FutureByOwnerDays | src/main/java/ru/practicum/shareit/booking/repository/BookingRepository.java:52-59 | day(start) >= day(now), latest start first; each such booking as often as it is stored |
| BookingRepository.First | src/main/java/ru/practicum/shareit/booking/repository/BookingRepository.java:76-92 | `LIMIT 1`: none iff no row qualifies; otherwise a qualifying row whose start is first in the order |
| BookingRepository.NextBooking | src/main/java/ru/practicum/shareit/booking/repository/BookingRepository.java:76-83 | none iff the owner has no booking of the item; otherwise that item's booking with the latest start; "now" plays no part |
| BookingRepository.LastBooking | src/main/java/ru/practicum/shareit/booking/repository/BookingRepository.java:85-92 | none iff the owner has no booking of the item; otherwise that item's booking with the earliest start |
| BookingRepository.NextBookingAsWritten | src/main/java/ru/practicum/shareit/item/service/ItemServiceImpl.java:78 | the derived "next" lookup: matches the booking's own id against the id passed |
| BookingRepository.NextBookingComparesBookingId | src/main/java/ru/practicum/shareit/item/service/ItemServiceImpl.java:78 | with booking 7 of item 5 under owner 1, the as-written lookup for item 5 finds nothing while the item's booking exists |
| BookingRepository.PastByItemAndBooker | src/main/java/ru/practicum/shareit/booking/repository/BookingRepository.java:94 | exactly the item's bookings by that booker that ended strictly before now; each such booking as often as it is stored |
| BookingRepository.BookerStatesPartition | src/main/java/ru/practicum/shareit/booking/repository/BookingRepository.java:14-22 | when no booking starts or ends at exactly now, the booker's CURRENT, PAST and FUTURE listings together hold ALL, with multiplicity |
| BookingRepository.BookerStatesCount | src/main/java/ru/practicum/shareit/booking/repository/BookingRepository.java:14-22 | the per-booking count step of the partition |
| BookingRepository.SumOfCounts | src/main/java/ru/practicum/shareit/booking/repository/BookingRepository.java:14-22 | multisets agreeing on every count are equal |
| BookingRepository.BookerStatesMissStartAtNow | src/main/java/ru/practicum/shareit/booking/repository/BookingRepository.java:16-22 | a booking starting at exactly now is in ALL but in none of CURRENT, PAST, FUTURE |
| BookingRepository.OwnerStatesCover | src/main/java/ru/practicum/shareit/booking/service/BookingServiceImpl.java:139-146 | every owner booking with start <= end, as every stored booking has, is in CURRENT, PAST or FUTURE |
| BookingRepository.OwnerStatesOverlapAtStart | src/main/java/ru/practicum/shareit/booking/service/BookingServiceImpl.java:139-146 | a booking starting at exactly now and ending later is in both CURRENT and FUTURE |
| BookingRepository.SameDayNeverCurrentByDays | src/main/java/ru/practicum/shareit/booking/repository/BookingRepository.java:34-42 | a booking within one calendar day is never in the day-granularity CURRENT |
| BookingRepository.DaysStatesCover | src/main/java/ru/practicum/shareit/booking/repository/BookingRepository.java:34-59 | the day-granularity CURRENT, PAST, FUTURE cover every booking; one starting and ending today is in both PAST and FUTURE |
| BookingRepository.DayMonotone | src/main/java/ru/practicum/shareit/booking/repository/BookingRepository.java:39-57 | the calendar day never decreases as time goes on |
| BookingServiceImpl.CreateCheck | src/main/java/ru/practicum/shareit/booking/service/BookingServiceImpl.java:46-54 | create succeeds iff start <= end, the item exists, the caller does not own it, it is available and the caller exists; the value is the stored item |
| BookingServiceImpl.CreateCheckOrder | src/main/java/ru/practicum/shareit/booking/service/BookingServiceImpl.java:46-54 | the order of the checks: dates, item, own item, availability, user; end == start passes |
| BookingServiceImpl.Create | src/main/java/ru/practicum/shareit/booking/service/BookingServiceImpl.java:40-60 | on success one new WAITING booking of the found item by the caller, with the requested period and the next id, is appended; on failure nothing changes |
| BookingServiceImpl.Decision | src/main/java/ru/practicum/shareit/booking/service/BookingServiceImpl.java:77-81 | the new status is APPROVED iff the owner approved, otherwise REJECTED; never WAITING |
| BookingServiceImpl.StatusCheck | src/main/java/ru/practicum/shareit/booking/service/BookingServiceImpl.java:64-75 | a decision is allowed iff the booking exists, the caller owns its item and it is not APPROVED; a missing booking fails with BookingNotFound, a caller who does not own the item (its booker included) with BookingNotFound, an owner deciding an APPROVED booking with UnavailableBooking |
| BookingServiceImpl.Decide | src/main/java/ru/practicum/shareit/booking/service/BookingServiceImpl.java:77-82 | only the decided booking's status changes, to APPROVED iff approved; every other row is kept |
| BookingServiceImpl.SetBookingStatus | src/main/java/ru/practicum/shareit/booking/service/BookingServiceImpl.java:63-83 | on success the store's bookings become `Decide(...)` and the updated DTO is returned; on failure nothing changes |
| BookingServiceImpl.ApprovedIsFinal | src/main/java/ru/practicum/shareit/booking/service/BookingServiceImpl.java:73-75 | after an approval every further decision fails, with "already approved" for the owner |
| BookingServiceImpl.RejectedCanBeDecidedAgain | src/main/java/ru/practicum/shareit/booking/service/BookingServiceImpl.java:73-81 | after a rejection the owner may decide again, and the result is as if the rejection had not happened |
| BookingServiceImpl.GetById | src/main/java/ru/practicum/shareit/booking/service/BookingServiceImpl.java:86-100 | the DTO is returned iff the booking exists and the caller is its booker or its item's owner; otherwise BookingNotFound |
| BookingServiceImpl.BookerQuery | src/main/java/ru/practicum/shareit/booking/service/BookingServiceImpl.java:107-128 | the query each supported state calls returns stored bookings only, no more often than stored, all of them the caller's |
| BookingServiceImpl.BookerQuerySelects | src/main/java/ru/practicum/shareit/booking/service/BookingServiceImpl.java:107-128 | each supported state's booker query holds exactly the bookings that state describes, latest start first |
| BookingServiceImpl.BookerQueryCounts | src/main/java/ru/practicum/shareit/booking/service/BookingServiceImpl.java:107-128 | each supported state's booker query holds every described booking exactly as often as it is stored, and no other |
| BookingServiceImpl.FindAllByUserId | src/main/java/ru/practicum/shareit/booking/service/BookingServiceImpl.java:103-129 | a missing user fails with UserNotFound, then an unsupported state with UnsupportedStatus; it succeeds exactly otherwise |
| BookingServiceImpl.FindAllByUserIdMeaning | src/main/java/ru/practicum/shareit/booking/service/BookingServiceImpl.java:103-129 | a successful booker listing shows the DTO of every booking the state describes and of no other, latest start first |
| BookingServiceImpl.FindAllByUserIdCount | src/main/java/ru/practicum/shareit/booking/service/BookingServiceImpl.java:103-129 | a successful booker listing has exactly as many rows as there are stored bookings the state describes |
| BookingServiceImpl.BookerListing | src/main/java/ru/practicum/shareit/booking/service/BookingServiceImpl.java:107-128 | the DTO list of a booker query shows exactly the described bookings, latest start first |
| BookingServiceImpl.ListingOfQuery | src/main/java/ru/practicum/shareit/booking/service/BookingServiceImpl.java:107-128 | a DTO list of a query shows every selected booking, only those, in the query's order |
| BookingServiceImpl.ListingComplete | src/main/java/ru/practicum/shareit/booking/service/BookingServiceImpl.java:107-128 | every selected booking's DTO is listed |
| BookingServiceImpl.ListingSound | src/main/java/ru/practicum/shareit/booking/service/BookingServiceImpl.java:107-128 | every listed DTO is a selected booking's |
| BookingServiceImpl.ListingOrder | src/main/java/ru/practicum/shareit/booking/mapper/BookingMapper.java:29-33 | an order on start carries over to the DTO list |
| BookingServiceImpl.OwnerQuery | src/main/java/ru/practicum/shareit/booking/service/BookingServiceImpl.java:135-155 | the query each supported state calls returns stored bookings only, no more often than stored, all of them of the caller's items |
| BookingServiceImpl.OwnerQuerySelects | src/main/java/ru/practicum/shareit/booking/service/BookingServiceImpl.java:135-155 | each supported state's owner query holds exactly the bookings that state describes, in that state's order |
| BookingServiceImpl.OwnerQueryCounts | src/main/java/ru/practicum/shareit/booking/service/BookingServiceImpl.java:135-155 | each supported state's owner query holds every described booking exactly as often as it is stored, and no other |
| BookingServiceImpl.FindAllByOwnerId | src/main/java/ru/practicum/shareit/booking/service/BookingServiceImpl.java:132-156 | a missing user fails with UserNotFound, then an unsupported state with UnsupportedStatus; it succeeds exactly otherwise |
| BookingServiceImpl.FindAllByOwnerIdMeaning | src/main/java/ru/practicum/shareit/booking/service/BookingServiceImpl.java:132-156 | a successful owner listing shows the DTO of every booking the state describes and of no other |
| BookingServiceImpl.FindAllByOwnerIdCount | src/main/java/ru/practicum/shareit/booking/service/BookingServiceImpl.java:132-156 | a successful owner listing has exactly as many rows as there are stored bookings the state describes |
| BookingServiceImpl.OwnerListing | src/main/java/ru/practicum/shareit/booking/service/BookingServiceImpl.java:135-155 | the DTO list of an owner query shows exactly the described bookings |
| BookingServiceImpl.OwnerListingOf | src/main/java/ru/practicum/shareit/booking/mapper/BookingMapper.java:29-33 | the DTO list of any selection of exactly the described bookings shows each of them and no other |
| BookingServiceImpl.FindAllByOwnerIdOrder | src/main/java/ru/practicum/shareit/booking/service/BookingServiceImpl.java:136-149 | ALL and FUTURE list latest start first; CURRENT and WAITING earliest first |
| BookingServiceImpl.PagedByBooker | src/main/java/ru/practicum/shareit/booking/service/BookingServiceImpl.java:159-162 | the paged booker listing never checks the user; it succeeds iff size >= 1 and from > -size; a zero size fails with DivisionByZero, any other failure with InvalidArgument |
| BookingServiceImpl.PagedByOwner | src/main/java/ru/practicum/shareit/booking/service/BookingServiceImpl.java:165-168 | the paged owner listing never checks the user; it succeeds iff size >= 1 and from > -size; a zero size fails with DivisionByZero, any other failure with InvalidArgument |
| BookingServiceImpl.PagedByBookerContents | src/main/java/ru/practicum/shareit/booking/service/BookingServiceImpl.java:159-162 | a booker page has min(size, rows left after the offset) rows; row i is the DTO of the booker's booking at offset + i of the latest-start-first listing |
| BookingServiceImpl.PagedByOwnerContents | src/main/java/ru/practicum/shareit/booking/service/BookingServiceImpl.java:165-168 | an owner page has min(size, rows left after the offset) rows; row i is the DTO of the owner listing's booking at offset + i, a booking of the owner's item; latest start first |
| BookingServiceImpl.PageOfListing | src/main/java/ru/practicum/shareit/booking/service/BookingServiceImpl.java:159-168 | the DTOs of a page of a listing are those of its rows from the page offset on, min(size, rows left) of them; a latest-start-first listing gives a page in the same order |
| BookingServiceImpl.PageKeepsOrder | src/main/java/ru/practicum/shareit/booking/service/BookingServiceImpl.java:159-168 | a page of a latest-start-first listing is again latest start first |
| BookingServiceImpl.OwnerListingsCoverStore | src/main/java/ru/practicum/shareit/booking/service/BookingServiceImpl.java:139-146 | in a well-formed store, where every booking ends no earlier than it starts, every booking is in its owner's CURRENT, PAST or FUTURE listing |
| BookingServiceImpl.BookerListingsPartitionStore | src/main/java/ru/practicum/shareit/booking/service/BookingServiceImpl.java:107-128 | in a well-formed store where no booking starts or ends at exactly now, the booker's CURRENT, PAST and FUTURE listings together hold ALL, with multiplicity |
| Entities.MergeItem | src/main/java/ru/practicum/shareit/item/dao/impl/ItemDaoImpl.java:30-32 | an item patch never changes the id, the owner or the request; an all-null patch changes nothing |
| Entities.MergeUser | src/main/java/ru/practicum/shareit/user/dao/impl/UserDaoImpl.java:33-34 | a user patch never changes the id; an all-null patch changes nothing |
| Entities.ItemToDto | server/src/main/java/ru/practicum/shareit/item/mapper/ItemMapper.java:17-26 | `toDto` copies id, name, description, availability and owner, and leaves the request id null |
| Entities.ItemToDtoWithRequest | server/src/main/java/ru/practicum/shareit/item/mapper/ItemMapper.java:43-51 | `toDtoWithRequest` is `toDto` with the item's request id filled in |
| Entities.CommentToDto | server/src/main/java/ru/practicum/shareit/item/comments/CommentMapper.java:8-15 | `toDto` of a comment copies id, text and creation time and shows the author by name |
| Entities.MergeItemFields | src/main/java/ru/practicum/shareit/item/dao/impl/ItemDaoImpl.java:27-35 | an item patch sets each field it carries, keeps each null one, and never changes id, owner or request |
| Entities.MergeItemIdempotent | src/main/java/ru/practicum/shareit/item/service/ItemServiceImpl.java:60-62 | applying the same patch twice equals applying it once |
| Entities.MergeUserFields | src/main/java/ru/practicum/shareit/user/dao/impl/UserDaoImpl.java:30-37 | a user patch sets each field it carries, keeps each null one, and never changes the id |
| ItemDao.ContainsIgnoreCase | src/main/java/ru/practicum/shareit/item/dao/impl/ItemDaoImpl.java:56 | `toLowerCase().contains(text.toLowerCase())`: the empty text is contained in every string, and no text in a shorter string |
| ItemDao.SearchMatches | src/main/java/ru/practicum/shareit/item/dao/impl/ItemDaoImpl.java:53-65 | an item matches only if available; with the empty text every available item matches |
| ItemDao.OwnedBy | src/main/java/ru/practicum/shareit/item/dao/impl/ItemDaoImpl.java:48-50 | exactly the stored items of that owner, in table order |
| ItemDao.ItemDaoImpl.constructor | src/main/java/ru/practicum/shareit/item/dao/impl/ItemDaoImpl.java:16-17 | an empty list and a counter of zero |
| ItemDao.ItemDaoImpl.GenerateId | src/main/java/ru/practicum/shareit/item/dao/impl/ItemDaoImpl.java:68-70 | the counter goes up by one and the new value is above every stored id |
| ItemDao.ItemDaoImpl.Create | src/main/java/ru/practicum/shareit/item/dao/impl/ItemDaoImpl.java:20-24 | the item gets the next id and is appended; ids stay strictly increasing |
| ItemDao.ItemDaoImpl.Position | src/main/java/ru/practicum/shareit/item/dao/impl/ItemDaoImpl.java:40 | the loop finds the first position holding that id, or none |
| ItemDao.ItemDaoImpl.GetByItemId | src/main/java/ru/practicum/shareit/item/dao/impl/ItemDaoImpl.java:38-45 | success iff an item has that id, and then the first such item; otherwise ItemNotFound |
| ItemDao.ItemDaoImpl.Update | src/main/java/ru/practicum/shareit/item/dao/impl/ItemDaoImpl.java:27-35 | the first item with that id is replaced by its merge with the patch, nothing else changes; a missing id changes nothing |
| ItemDao.ItemDaoImpl.GetItemsByUserId | src/main/java/ru/practicum/shareit/item/dao/impl/ItemDaoImpl.java:48-50 | the loop returns `OwnedBy(items, userId)` |
| ItemDao.ItemDaoImpl.Search | src/main/java/ru/practicum/shareit/item/dao/impl/ItemDaoImpl.java:53-66 | an item is in the result iff it is stored, available, and its lower-cased name or description contains the lower-cased text |
| ItemService.ItemService.constructor | src/main/java/ru/practicum/shareit/item/service/ItemService.java:17-20 | the service holds the given store and user service |
| ItemService.ItemService.Create | src/main/java/ru/practicum/shareit/item/service/ItemService.java:22-26 | a missing user fails and changes nothing; otherwise the item is stored as the caller's under the next id |
| ItemService.ItemService.Update | src/main/java/ru/practicum/shareit/item/service/ItemService.java:28-34 | missing item, then another owner (ForbiddenAccess), fail unchanged; otherwise the merge is stored; a result always belongs to the caller |
| ItemService.ItemService.GetByItemId | src/main/java/ru/practicum/shareit/item/service/ItemService.java:36-38 | success iff the item exists, and then that item |
| ItemService.ItemService.GetItemsByUserId | src/main/java/ru/practicum/shareit/item/service/ItemService.java:40-43 | fails iff the user is missing; otherwise the owner's items in order |
| ItemService.ItemService.Search | src/main/java/ru/practicum/shareit/item/service/ItemService.java:45-51 | blank text gives the empty set; otherwise exactly the matching available items |
| ItemServiceImpl.ShortOf | src/main/java/ru/practicum/shareit/item/service/ItemServiceImpl.java:72-81 | null iff no booking was found; otherwise the booking's id and booker id |
| ItemServiceImpl.Decorate | src/main/java/ru/practicum/shareit/item/service/ItemServiceImpl.java:72-87 | copies the item's fields and the comments; the last booking is null iff the caller owns no booking of the item; the next booking is null iff no booking under the caller has the item's id as its own id |
| ItemServiceImpl.ItemView | src/main/java/ru/practicum/shareit/item/service/ItemServiceImpl.java:83-87 | the single-item view shows every comment on the item as a DTO, never null |
| ItemServiceImpl.CommentsOf | src/main/java/ru/practicum/shareit/item/service/ItemServiceImpl.java:149-152 | exactly the comments on that item |
| ItemServiceImpl.CommentDtos | src/main/java/ru/practicum/shareit/item/service/ItemServiceImpl.java:83-85 | one comment DTO per comment on the item, in order |
| ItemServiceImpl.OwnedItems | src/main/java/ru/practicum/shareit/item/service/ItemServiceImpl.java:93-96 | exactly the owner's items; empty iff the user owns none |
| ItemServiceImpl.GetItemById | src/main/java/ru/practicum/shareit/item/service/ItemServiceImpl.java:155-161 | fails with ItemNotFound iff no item has the id; otherwise a stored item with that id |
| ItemServiceImpl.GetAllByItemId | src/main/java/ru/practicum/shareit/item/service/ItemServiceImpl.java:149-152 | fails iff the item is missing; otherwise exactly the item's comments |
| ItemServiceImpl.Create | src/main/java/ru/practicum/shareit/item/service/ItemServiceImpl.java:44-50 | a missing user fails unchanged; otherwise the item is appended as the caller's, without request, under the next id |
| ItemServiceImpl.UpdateCheck | src/main/java/ru/practicum/shareit/item/service/ItemServiceImpl.java:54-58 | update fails with UserNotFound, then ItemNotFound, then ForbiddenAccess iff the stored owner differs; otherwise the item's position |
| ItemServiceImpl.Update | src/main/java/ru/practicum/shareit/item/service/ItemServiceImpl.java:53-65 | on success the item at that position becomes its merge with the patch and only that row changes; on failure nothing changes |
| ItemServiceImpl.UpdateKeepsOwner | src/main/java/ru/practicum/shareit/item/service/ItemServiceImpl.java:56-64 | an update keeps the item's id and owner |
| ItemServiceImpl.GetByItemId | src/main/java/ru/practicum/shareit/item/service/ItemServiceImpl.java:68-88 | missing user, then missing item, fail; otherwise the item view with its last and next bookings and comments |
| ItemServiceImpl.ItemViewShows | src/main/java/ru/practicum/shareit/item/service/ItemServiceImpl.java:68-88 | the view copies the item; the last booking is null iff the caller owns no booking of the item, else the earliest-starting one; the next booking is null iff no booking under the caller has the item's id as its id, else such a booking; the comments are all the item's comment DTOs |
| ItemServiceImpl.NonOwnerSeesNoLastBooking | src/main/java/ru/practicum/shareit/item/service/ItemServiceImpl.java:74-77 | a caller who does not own the item sees no last booking |
| ItemServiceImpl.CorrectedItemView | src/main/java/ru/practicum/shareit/booking/repository/BookingRepository.java:76-83 | the corrected view's next booking is null iff the caller owns no booking of the item |
| ItemServiceImpl.CorrectedItemViewShows | src/main/java/ru/practicum/shareit/item/service/ItemServiceImpl.java:68-88 | the corrected view copies the item, shows the earliest and the latest booking of the item under the caller, each null iff there is none, and all its comment DTOs |
| ItemServiceImpl.CorrectedNonOwnerSeesNoBookings | src/main/java/ru/practicum/shareit/item/service/ItemServiceImpl.java:74-81 | in the corrected view a caller who does not own the item sees neither a last nor a next booking |
| ItemServiceImpl.OwnerMissesNextBooking | src/main/java/ru/practicum/shareit/item/service/ItemServiceImpl.java:78 | the owner of item 5 with one booking, number 7, sees no next booking as written and that booking in the corrected view |
| ItemServiceImpl.NonOwnerSeesForeignBooking | src/main/java/ru/practicum/shareit/item/service/ItemServiceImpl.java:78 | user 1, owner of item 9 with booking 5, viewing item 5 of user 2 in a store whose owners agree, sees booking 5 as next booking as written and none in the corrected view |
| ItemServiceImpl.GetItemsByUserId | src/main/java/ru/practicum/shareit/item/service/ItemServiceImpl.java:91-117 | missing user, then no owned items, fail; otherwise element i is the view of the i-th owned item |
| ItemServiceImpl.Views | src/main/java/ru/practicum/shareit/item/service/ItemServiceImpl.java:97-114 | the loop yields one view per item, in order |
| ItemServiceImpl.OwnerListMatchesItemView | src/main/java/ru/practicum/shareit/item/service/ItemServiceImpl.java:91-117 | each entry of the owner's list is what the single-item view shows for that item |
| ItemServiceImpl.Search | src/main/java/ru/practicum/shareit/item/service/ItemServiceImpl.java:120-130 | blank text gives the empty set; otherwise exactly the DTOs of the matching available items |
| ItemServiceImpl.CommentCheck | src/main/java/ru/practicum/shareit/item/service/ItemServiceImpl.java:133-142 | missing user first; then no past booking of the item or empty text; then, with a user, a text and a past booking, a missing item fails with ItemNotFound; succeeds exactly when all hold, with the user and the item |
| ItemServiceImpl.CreateComment | src/main/java/ru/practicum/shareit/item/service/ItemServiceImpl.java:133-146 | on success a comment by the caller on the item, dated now, is appended and its DTO returned; on failure nothing changes |
| ItemServiceImpl.CommentNeedsEndedBooking | src/main/java/ru/practicum/shareit/item/service/ItemServiceImpl.java:136-140 | an accepted comment has non-empty text and a booking of the item by the caller that ended before now |
| ServerItemServiceImpl.Create | server/src/main/java/ru/practicum/shareit/item/service/ItemServiceImpl.java:50-64 | a missing user fails unchanged; otherwise the item is appended as the caller's with the given request id (or none) |
| ServerItemServiceImpl.Shown | server/src/main/java/ru/practicum/shareit/item/service/ItemServiceImpl.java:127-135 | no comments are shown as null, otherwise the list itself |
| ServerItemServiceImpl.ListedView | server/src/main/java/ru/practicum/shareit/item/service/ItemServiceImpl.java:109-135 | a listed item shows its comment DTOs, or null when there are none, and otherwise exactly what the single-item view shows |
| ServerItemServiceImpl.ListedViewComments | server/src/main/java/ru/practicum/shareit/item/service/ItemServiceImpl.java:127-135 | a listed item shows null comments iff nobody commented on it; otherwise the single-item view |
| ServerItemServiceImpl.GetItemsByUserId | server/src/main/java/ru/practicum/shareit/item/service/ItemServiceImpl.java:109-138 | missing user, then no owned items, fail; otherwise element i is the listed view of the i-th owned item |
| Persistence.UserIndex | src/main/java/ru/practicum/shareit/user/service/UserServiceImpl.java:30 | the first position holding that user id, or none iff none does |
| Persistence.FindUser | src/main/java/ru/practicum/shareit/user/service/UserServiceImpl.java:42 | `findById`: a stored user with that id, or none iff none exists |
| Persistence.ItemIndex | src/main/java/ru/practicum/shareit/item/service/ItemServiceImpl.java:156 | the first position holding that item id, or none iff none does |
| Persistence.FindItem | src/main/java/ru/practicum/shareit/item/service/ItemServiceImpl.java:156 | a stored item with that id, or none iff none exists |
| Persistence.BookingIndex | src/main/java/ru/practicum/shareit/booking/service/BookingServiceImpl.java:64 | the first position holding that booking id, or none iff none does |
| Persistence.FindBooking | src/main/java/ru/practicum/shareit/booking/service/BookingServiceImpl.java:64 | a stored booking with that id, or none iff none exists |
| Persistence.FindRequest | src/main/java/ru/practicum/shareit/request/service/ItemRequestServiceImpl.java:45 | a stored request with that id, or none iff none exists |
| Persistence.FindBookingAfterOverwrite | src/main/java/ru/practicum/shareit/booking/service/BookingServiceImpl.java:82 | after saving a booking in place, looking its id up finds it there |
| Persistence.BookingsIssuedAppend | src/main/java/ru/practicum/shareit/booking/service/BookingServiceImpl.java:59 | saving a new booking under the next id keeps booking ids increasing |
| Persistence.BookingsIssuedOverwrite | src/main/java/ru/practicum/shareit/booking/service/BookingServiceImpl.java:82 | saving a booking in place keeps booking ids increasing |
| Persistence.UsersIssuedRemove | src/main/java/ru/practicum/shareit/user/dao/impl/UserDaoImpl.java:57-63 | removing a user keeps user ids increasing and leaves no user with the removed id |
| Persistence.UsersIssuedAppend | src/main/java/ru/practicum/shareit/user/dao/impl/UserDaoImpl.java:23-27 | appending under the next id keeps user ids increasing |
| Persistence.UsersIssuedOverwrite | src/main/java/ru/practicum/shareit/user/dao/impl/UserDaoImpl.java:30-37 | an in-place save with the same id keeps user ids increasing |
| Persistence.ItemsIssuedAppend | src/main/java/ru/practicum/shareit/item/dao/impl/ItemDaoImpl.java:20-24 | appending under the next id keeps item ids increasing |
| Persistence.ItemsIssuedOverwrite | src/main/java/ru/practicum/shareit/item/dao/impl/ItemDaoImpl.java:27-35 | an in-place save with the same id keeps item ids increasing |
| Persistence.CommentsIssuedAppend | src/main/java/ru/practicum/shareit/item/service/ItemServiceImpl.java:145 | appending under the next id keeps comment ids increasing |
| Persistence.RequestsIssuedAppend | src/main/java/ru/practicum/shareit/request/service/ItemRequestServiceImpl.java:32 | appending under the next id keeps request ids increasing |
| Persistence.Database.constructor | src/main/java/ru/practicum/shareit/user/service/UserServiceImpl.java:25 | the empty database: no rows, every identity counter at zero, well formed |
| Persistence.Database.SaveNewUser | src/main/java/ru/practicum/shareit/user/service/UserServiceImpl.java:25 | `save` of a new user appends it under the next user id and changes nothing else; ids stay in issue order |
| Persistence.Database.SaveUserAt | src/main/java/ru/practicum/shareit/user/service/UserServiceImpl.java:38 | `save` of a stored user overwrites its row in place and changes nothing else; ids stay in issue order |
| Persistence.Database.DeleteUserAt | src/main/java/ru/practicum/shareit/user/service/UserServiceImpl.java:57 | `deleteById`: the row goes, no user keeps that id, nothing else changes |
| Persistence.Database.SaveNewItem | src/main/java/ru/practicum/shareit/item/service/ItemServiceImpl.java:49 | `save` of a new item appends it under the next item id and changes nothing else |
| Persistence.Database.SaveItemAt | src/main/java/ru/practicum/shareit/item/service/ItemServiceImpl.java:64 | `save` of a stored item overwrites its row in place and changes nothing else |
| Persistence.Database.SaveNewBooking | src/main/java/ru/practicum/shareit/booking/service/BookingServiceImpl.java:59 | `save` of a new booking (one `checkDates` has passed, so it ends no earlier than it starts) appends it under the next booking id, keeps the store well formed and changes nothing else |
| Persistence.Database.SaveBookingAt | src/main/java/ru/practicum/shareit/booking/service/BookingServiceImpl.java:82 | `save` of a stored booking overwrites its row in place, keeps the store well formed (every period has start <= end) and changes nothing else |
| Persistence.Database.SaveNewComment | src/main/java/ru/practicum/shareit/item/service/ItemServiceImpl.java:145 | `save` of a new comment appends it under the next comment id and changes nothing else |
| Persistence.Database.SaveNewRequest | src/main/java/ru/practicum/shareit/request/service/ItemRequestServiceImpl.java:32 | `save` of a new request appends it under the next request id and changes nothing else |
| UserDao.UserDaoImpl.constructor | src/main/java/ru/practicum/shareit/user/dao/impl/UserDaoImpl.java:18-20 | an empty list and a counter of zero |
| UserDao.UserDaoImpl.GenerateId | src/main/java/ru/practicum/shareit/user/dao/impl/UserDaoImpl.java:65-67 | the counter goes up by one and the new value is above every stored id |
| UserDao.UserDaoImpl.Create | src/main/java/ru/practicum/shareit/user/dao/impl/UserDaoImpl.java:23-27 | the user gets the next id and is appended; ids stay strictly increasing |
| UserDao.UserDaoImpl.Position | src/main/java/ru/practicum/shareit/user/dao/impl/UserDaoImpl.java:42-44 | the loop finds the first position holding that id, or none |
| UserDao.UserDaoImpl.GetById | src/main/java/ru/practicum/shareit/user/dao/impl/UserDaoImpl.java:40-49 | success iff a user has that id, and then the first such user; otherwise UserNotFound |
| UserDao.UserDaoImpl.Update | src/main/java/ru/practicum/shareit/user/dao/impl/UserDaoImpl.java:30-37 | the first user with that id is replaced by its merge with the patch, nothing else changes; a missing id changes nothing |
| UserDao.UserDaoImpl.GetAll | src/main/java/ru/practicum/shareit/user/dao/impl/UserDaoImpl.java:52-54 | the stored list itself, in insertion order |
| UserDao.UserDaoImpl.RemoveUser | src/main/java/ru/practicum/shareit/user/dao/impl/UserDaoImpl.java:57-63 | a missing id fails and changes nothing; otherwise exactly the first user with that id is removed, the rest kept in order |
| UserService.EmailTaken | src/main/java/ru/practicum/shareit/user/service/UserService.java:39-43 | true iff an email is given and some stored user has it; a null email never clashes |
| UserService.OwnEmailIsTaken | src/main/java/ru/practicum/shareit/user/service/UserService.java:22-25 | resubmitting one's own current email is reported as taken |
| UserService.DistinctAfterAppend | src/main/java/ru/practicum/shareit/user/service/UserService.java:17-20 | appending a user with an untaken email keeps emails pairwise distinct |
| UserService.DistinctAfterMerge | src/main/java/ru/practicum/shareit/user/service/UserService.java:22-25 | merging a patch with an untaken or null email keeps emails pairwise distinct |
| UserService.UserService.constructor | src/main/java/ru/practicum/shareit/user/service/UserService.java:13-15 | the service holds the given store |
| UserService.UserService.Create | src/main/java/ru/practicum/shareit/user/service/UserService.java:17-20 | a taken email fails with DuplicateEmail and changes nothing; otherwise the store's create; distinct emails stay distinct |
| UserService.UserService.Update | src/main/java/ru/practicum/shareit/user/service/UserService.java:22-25 | a taken email fails with DuplicateEmail unchanged; otherwise the store's update; distinct emails stay distinct |
| UserService.UserService.GetById | src/main/java/ru/practicum/shareit/user/service/UserService.java:27-29 | success iff a user has that id; otherwise UserNotFound |
| UserService.UserService.GetAll | src/main/java/ru/practicum/shareit/user/service/UserService.java:31-33 | the stored users |
| UserService.UserService.RemoveUser | src/main/java/ru/practicum/shareit/user/service/UserService.java:35-37 | fails iff no user has the id; on success the first user with it is removed and the others keep their order; afterwards no user has it; the id counter is unchanged |
| UserServiceImpl.Create | src/main/java/ru/practicum/shareit/user/service/UserServiceImpl.java:23-26 | the user is appended under the next identity value |
| UserServiceImpl.Update | src/main/java/ru/practicum/shareit/user/service/UserServiceImpl.java:28-39 | a missing id fails with UserNotFound unchanged; otherwise the stored user becomes its merge with the patch |
| UserServiceImpl.FindById | src/main/java/ru/practicum/shareit/user/service/UserServiceImpl.java:41-48 | fails with UserNotFound iff no user has the id; otherwise a stored user with that id |
| UserServiceImpl.FindByIdUnique | src/main/java/ru/practicum/shareit/user/service/UserServiceImpl.java:60-62 | with ids issued in order, the lookup returns the one user with that id |
| UserServiceImpl.RemoveUser | src/main/java/ru/practicum/shareit/user/service/UserServiceImpl.java:56-58 | a missing id fails with NoRowToDelete and changes nothing; otherwise the first user with that id is removed, nothing else changes, and no user with it remains |
| ItemRequestMapper.ToDto | src/main/java/ru/practicum/shareit/request/mapper/ItemRequestMapper.java:23-30 | `toDto` copies id, description and created and shows an empty item list, whatever the request holds |
| ItemRequestMapper.ToItemRequestNoItems | src/main/java/ru/practicum/shareit/request/mapper/ItemRequestMapper.java:32-40 | `toItemRequestNoItems` copies id, description and created, makes the given user the requestor, and gives an empty item list |
| ItemRequestMapper.ToDtoWithItems | src/main/java/ru/practicum/shareit/request/mapper/ItemRequestMapper.java:14-21 | keeps id, description and created; one item DTO per item, with its request id, in order |
| ItemRequestMapper.ToDtoOfEmpty | src/main/java/ru/practicum/shareit/request/mapper/ItemRequestMapper.java:14-30 | for a request with no items `toDto` and `toDtoWithItems` agree |
| ItemRequestMapper.ToDtoFields | src/main/java/ru/practicum/shareit/request/mapper/ItemRequestMapper.java:23-30 | `toDto` keeps id, description and created and always shows no items |
| ItemRequestMapper.NoItemsRoundTrip | src/main/java/ru/practicum/shareit/request/mapper/ItemRequestMapper.java:23-40 | `toItemRequestNoItems` sets the requestor and empty items; `toDto` of it gives back the DTO with no items |
| ItemRequestServiceImpl.Loaded | src/main/java/ru/practicum/shareit/request/service/ItemRequestServiceImpl.java:38 | a loaded request keeps its fields and holds exactly the items naming it as their request |
| ItemRequestServiceImpl.LoadAll | src/main/java/ru/practicum/shareit/request/service/ItemRequestServiceImpl.java:59 | one loaded request per request, in order |
| ItemRequestServiceImpl.ToDtos | src/main/java/ru/practicum/shareit/request/service/ItemRequestServiceImpl.java:65-69 | `toDto` of each request, in order |
| ItemRequestServiceImpl.ToDtosWithItems | src/main/java/ru/practicum/shareit/request/service/ItemRequestServiceImpl.java:70-74 | `toDtoWithItems` of each request, in order |
| ItemRequestServiceImpl.MapToDtoRequestsWithItemsAndWithout | src/main/java/ru/practicum/shareit/request/service/ItemRequestServiceImpl.java:63-78 | same length as the input; no DTO without items follows one with items; the DTOs of the requests without items, then of those with |
| ItemRequestServiceImpl.PartitionPermutes | src/main/java/ru/practicum/shareit/request/service/ItemRequestServiceImpl.java:63-78 | the two groups together are a rearrangement of the input |
| ItemRequestServiceImpl.PartitionGroupsByItems | src/main/java/ru/practicum/shareit/request/service/ItemRequestServiceImpl.java:63-78 | every DTO of the first group shows no items and every DTO of the second shows some |
| ItemRequestServiceImpl.PartitionStable | src/main/java/ru/practicum/shareit/request/service/ItemRequestServiceImpl.java:63-78 | the output starts with the requests without items in input order, then those with items in input order |
| ItemRequestServiceImpl.PartitionIds | src/main/java/ru/practicum/shareit/request/service/ItemRequestServiceImpl.java:63-78 | the ids on the output DTOs are a rearrangement of the input requests' ids: each request is shown exactly once |
| ItemRequestServiceImpl.Create | src/main/java/ru/practicum/shareit/request/service/ItemRequestServiceImpl.java:28-33 | a missing user fails unchanged; otherwise a request by the caller, dated now, with no items, is appended under the next id and its DTO returned |
| ItemRequestServiceImpl.CreatedRequestDto | src/main/java/ru/practicum/shareit/request/service/ItemRequestServiceImpl.java:30-32 | the created DTO has the new id, the description, now, and no items |
| ItemRequestServiceImpl.ByRequestor | src/main/java/ru/practicum/shareit/request/service/ItemRequestServiceImpl.java:38 | exactly the caller's requests |
| ItemRequestServiceImpl.GetAllByUserId | src/main/java/ru/practicum/shareit/request/service/ItemRequestServiceImpl.java:36-40 | fails with UserNotFound iff the user is missing; otherwise the caller's requests, loaded with their items and regrouped without items first |
| ItemRequestServiceImpl.GetAllByUserIdShowsOwnRequests | src/main/java/ru/practicum/shareit/request/service/ItemRequestServiceImpl.java:36-40 | the ids on a user's listing are a rearrangement of the ids of the user's requests: each shown exactly once, nothing else |
| ItemRequestServiceImpl.GetAllByUserIdRowsAreOwn | src/main/java/ru/practicum/shareit/request/service/ItemRequestServiceImpl.java:36-40 | every row of a user's listing is one of the user's stored requests |
| ItemRequestServiceImpl.GetByItemRequestId | src/main/java/ru/practicum/shareit/request/service/ItemRequestServiceImpl.java:43-54 | missing user, then missing request (RequestNotFound), fail; otherwise the request's id, description and creation time, and the DTOs of exactly the items created for it, in storage order |
| ItemRequestServiceImpl.OthersNewestFirst | src/main/java/ru/practicum/shareit/request/service/ItemRequestServiceImpl.java:59 | a rearrangement of the other users' requests, newest first |
| ItemRequestServiceImpl.FindAllByRequestorIdNot | src/main/java/ru/practicum/shareit/request/service/ItemRequestServiceImpl.java:57-61 | succeeds iff size >= 1 and from > -size, a zero size failing with DivisionByZero and any other failure with InvalidArgument; otherwise the regrouped page of the newest-first list |
| ItemRequestServiceImpl.FindAllByRequestorIdNotPage | src/main/java/ru/practicum/shareit/request/service/ItemRequestServiceImpl.java:57-61 | a page has min(size, requests left after the offset) rows; their ids are a rearrangement of the page's request ids, each request another user's |
| ItemRequestServiceImpl.LoadedShowsAll | src/main/java/ru/practicum/shareit/request/service/ItemRequestServiceImpl.java:59-60 | regrouping loaded requests gives one row per request, the ids a rearrangement of the requests' ids |
| ItemRequestServiceImpl.OthersNewestFirstMembers | src/main/java/ru/practicum/shareit/request/service/ItemRequestServiceImpl.java:59 | everybody else's requests, newest first, are stored requests none of which is the caller's |
| ItemRequestServiceImpl.LoadAllIds | src/main/java/ru/practicum/shareit/request/service/ItemRequestServiceImpl.java:59 | loading keeps every request's id, in order |
| Seqs.PageOffset | src/main/java/ru/practicum/shareit/booking/service/BookingServiceImpl.java:160 | the first row of page `from / size`: a non-negative offset at most max(from, 0) and within size of it |
| Seqs.PageNumber | src/main/java/ru/practicum/shareit/booking/service/BookingServiceImpl.java:160 | Java's truncating `from / size` is negative iff from <= -size; otherwise page times size is the page offset |
| Seqs.Page | src/main/java/ru/practicum/shareit/booking/service/BookingServiceImpl.java:160 | `PageRequest.of(from / size, size)` on a result: success iff size >= 1 and from > -size; a zero size fails with DivisionByZero, other failures with InvalidArgument |
| Seqs.PageContents | src/main/java/ru/practicum/shareit/booking/service/BookingServiceImpl.java:160 | a page has min(size, rows left after the offset) rows, row i being the result's row at offset + i |
| Seqs.PageWithin | src/main/java/ru/practicum/shareit/request/service/ItemRequestServiceImpl.java:58-59 | a page has at most size rows, all from the result |
| Seqs.PageHoldsFrom | src/main/java/ru/practicum/shareit/booking/service/BookingServiceImpl.java:160 | the row at position from is on the page, at from mod size |
| Text.Lower | src/main/java/ru/practicum/shareit/item/dao/impl/ItemDaoImpl.java:56 | `toLowerCase` keeps the length and lowers each character |
| Text.LowerIdempotent | src/main/java/ru/practicum/shareit/item/dao/impl/ItemDaoImpl.java:56 | lowering twice equals lowering once |
| Text.Contains | src/main/java/ru/practicum/shareit/item/dao/impl/ItemDaoImpl.java:56-60 | `String.contains`: true iff the text occurs at some position |
| Text.OccursLater | src/main/java/ru/practicum/shareit/item/dao/impl/ItemDaoImpl.java:56-60 | when the text is not a prefix, it occurs in the string iff it occurs in the string without its first character |
| Text.IsWhitespace | src/main/java/ru/practicum/shareit/item/service/ItemService.java:47 | `Character.isWhitespace`, on which `isBlank` rests: space, tab, line feed and carriage return are whitespace; the no-break spaces U+00A0, U+2007 and U+202F, digits and ASCII letters are not |
| Text.IsBlank | src/main/java/ru/practicum/shareit/item/service/ItemService.java:47 | `StringUtils.isBlank`: true iff every character is Java whitespace; the empty string is blank |
| Text.BlankExamples | src/main/java/ru/practicum/shareit/item/service/ItemServiceImpl.java:121 | the ideographic space and tab are blank; the no-break space is not; a string with a letter is not |

## Left out

- The HTTP controllers, the gateway and its REST clients, the error handlers that map exceptions to status codes, and bean validation (`@Email`, `@Future`, `@NotEmpty`). They are framework dispatch and library code not shown here.
- `LocalDateTime.now()`: "now" is a parameter, so two reads of the clock within one call see the same instant.
- Transactions, concurrency and the database's own constraints are not modelled. This covers foreign keys and the unique email column of the relational user table. `UserServiceImpl.Create` therefore never fails on a duplicate email.
- Bookings hold a copy of the item they were made for. A later rename of the item is not reflected in stored bookings. Owners never change in any code path, so every filter by owner is exact.
- `ItemDao.ItemDaoImpl.Update`, `UserDao.UserDaoImpl.Update`: the Java code changes the stored object through a shared reference. The model replaces the element in the sequence, so aliasing between a returned object and the stored one is not captured.
- `Text.LowerChar` lowers ASCII letters only; Unicode case folding of `toLowerCase` is not modelled.
- `ItemServiceImpl.CreateComment`: a `null` comment text throws `NullPointerException` in the Java code; text is never `null` in the model.
- `ItemRequestServiceImpl.MapToDtoRequestsWithItemsAndWithout` requires every request to carry an item list. In the Java code a `null` list throws `NullPointerException`; loaded requests always carry a list.
- `ItemRequestServiceImpl.GetByItemRequestId`: a loaded request always carries an item list, so the `toDto` branch for a `null` list is never taken in the model.
- Creation ignores an id carried by the incoming DTO. A `save` with an id would update that row instead. Each created item, request, comment and booking gets the next identity value; for bookings the DTO's id reaches `toBooking` (BookingServiceImpl.java lines 42-44) but the saved row is a new one.
- `UserServiceImpl.RemoveUser`: an id no user has fails with `NoRowToDelete`, as `deleteById` of Spring Data JPA 2 throws `EmptyResultDataAccessException`; under Spring Data JPA 3 the same call would return silently.
- Paging: a zero `size` fails with `DivisionByZero`, standing for the `ArithmeticException` of `from / size`; a negative page or a size below one fails with `InvalidArgument`, standing for the `IllegalArgumentException` of `PageRequest.of`.
- `Text.IsWhitespace` follows `Character.isWhitespace` of Java 11 and later; Java 8 also counts U+180E.
- `getAll` of `UserServiceImpl` is a field-by-field copy of every user into a DTO and is not modelled separately; `UserService.UserService.GetAll` and `UserDao.UserDaoImpl.GetAll` are.
- The database leaves the order of rows with equal sort keys unspecified. The model keeps storage order there, and the contracts promise only the sort order.
- The relational search uses a repository method whose `ContainsIgnoreCase ... AndIsAvailableTrue` semantics are taken from its name. It is modelled by the same predicate as the in-memory search.
- Java `long` overflow of the id counters is not modelled.

## Findings

| source | as written | input that shows it | evidently intended | confidence | as-written member | corrected member |
|---|---|---|---|---|---|---|
| src/main/java/ru/practicum/shareit/item/service/ItemServiceImpl.java:78 | the "next booking" of an item is looked up with `findFirstByItem_OwnerIdAndIdOrderByStartDesc(userId, itemId)`; Spring Data reads `Id` as the booking's own id, so the item id is compared with booking ids (the item list at line 102 and the server version, lines 92 and 120, do the same) | (1) one booking, id 7, of item 5 owned by user 1; the owner views item 5 and sees no next booking. (2) user 1 owns item 9, which has booking 5; user 2 owns item 5; user 1 views item 5 and is shown booking 5, a booking of another item | the latest-starting booking of the item under that owner, as the native `findNextBookingByItemId` (BookingRepository.java lines 76-83) selects it | not executed | BookingRepository.NextBookingAsWritten, BookingRepository.NextBookingComparesBookingId, ItemServiceImpl.Decorate, ItemServiceImpl.ItemView, ItemServiceImpl.OwnerMissesNextBooking, ItemServiceImpl.NonOwnerSeesForeignBooking | BookingRepository.NextBooking, ItemServiceImpl.CorrectedItemView, ItemServiceImpl.CorrectedItemViewShows, ItemServiceImpl.CorrectedNonOwnerSeesNoBookings |
