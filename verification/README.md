# Hotel booking: a Dafny model of the request handlers

This project models the server and client logic of a small hotel booking web
application (Next.js with PostgreSQL). It covers these parts:

- the booking endpoint: creating a booking, and listing one user's bookings;
- the hotel listing with its search, location, couple-friendly and price
  filters;
- account registration;
- the booking dialog's stay pricing and its checks before it submits;
- database initialisation with its seed data;
- the schema diagnosis endpoint.

The database is an immutable `Store`. It holds:

- one sequence of rows per table (users, hotels, rooms, bookings, reviews);
- the set of tables that exist;
- one `SERIAL` counter per table.

Each handler is a function from a store and a request to an outcome and the
next store. Each SQL statement is one step, with the table's constraints:

- `SERIAL` ids come from the counter. An insert that fails still uses up its
  id.
- Foreign keys are checked.
- `ON CONFLICT (email) DO UPDATE SET id` re-keys an existing row.

The handlers do not use transactions. When a later statement fails, the
effects of the earlier ones persist.

Some values are modelled in other units:

- Money is in integer cents: 1000.00 is `100000`, and the `999999` COALESCE
  sentinel is `99999900`.
- Ratings are in tenths: 4.5 is `45`.
- Dates are integer milliseconds.

Some steps are parameters rather than part of the model:

- bcrypt is `hash`;
- `toISOString().split("T")[0]` is `format`;
- the database clock at the INSERT is `now`;
- the per-table `COUNT(*)` queries of the diagnosis are `probe`.

Modules:

- `Common`: `Option`, a filter, a descending sort by key, and uniqueness by key.
- `Text`: `Number.parseInt` for decimal text, and ASCII case-insensitive substring search (`ILIKE '%…%'`).
- `Store`: the rows, the store and primary-key lookups.
- `Bookings`: POST and GET `/api/bookings`.
- `Hotels`: GET `/api/hotels`.
- `Register`: POST `/api/auth/register`.
- `BookingModal`: `calculateNights`, `calculateTotal`, the guest select, and `handleBooking`.
- `InitDb`: POST `/api/init-db`.
- `DbStatus`: GET `/api/db-status`.
- `Scenarios`: end-to-end runs on a freshly initialised database.

## Model

| member | source | states |
|---|---|---|
| Store.FindRoom | app/api/bookings/route.ts:62-70 | The lookup by id finds nothing exactly when no room has that id. Otherwise it returns a stored room with that id, the only one when ids are unique. |
| Store.FindHotel | app/api/bookings/route.ts:16 | The join partner by id is missing exactly when no hotel has that id. Otherwise it is a stored hotel with that id. |
| Store.FindUserByEmail | app/api/auth/register/route.ts:19-21 | Finds a user with the given e-mail if and only if one exists. |
| Bookings.CreateBooking | app/api/bookings/route.ts:29-96 | The seven required fields are checked first. If any is absent, empty or 0, the result is MissingFields and nothing changes; negative values pass. A complete request is booked (Created) if and only if the user step succeeds, the room exists with `available_rooms >= 1`, and the hotel exists. ConstraintViolation happens exactly when the user step fails, which changes nothing, or when the hotel is unknown for a bookable room; that failed INSERT still uses up a booking id. After a successful user step, an unknown room gives RoomNotFound and an exhausted one RoomNotAvailable, each an if-and-only-if, and neither changes rooms or bookings. The users table is what the user step left. On success, one booking is appended with the next booking id: status `confirmed`, every field copied from the request (the total is not recomputed), missing special requests stored as "". The booked room loses exactly one unit, its other columns unchanged, and no other room changes. Hotels, reviews, the table set and the user, hotel, room and review sequences never change. With unique room ids, non-negative counters stay non-negative. |
| Bookings.EnsureUser | app/api/bookings/route.ts:44-58 | If user `uid` exists, nothing changes. Otherwise, when no user has the demo e-mail, the users table becomes the old one plus the demo row with id `uid`. When a user has the demo e-mail, that row alone is re-keyed to `uid` and every other user is unchanged. The re-key fails (None) exactly when bookings or reviews refer to the old id. Afterwards user `uid` exists and only the users table changed. |
| Bookings.DemoUser | app/api/bookings/route.ts:52-56 | The fallback row carries the requested id, the e-mail `demo@example.com`, and no password. |
| Bookings.DecrementRoom | app/api/bookings/route.ts:88-92 | Every room with the given id loses one unit. Every other room is unchanged. |
| Bookings.NewBooking | app/api/bookings/route.ts:78-82 | The inserted row takes the id drawn from the sequence and the database time. |
| Bookings.CreateStatus | app/api/bookings/route.ts:39-96 | 201 exactly on success, 404 exactly for an unknown room, and 400 for every other rejection. |
| Bookings.CreateBookingStatus | app/api/bookings/route.ts:39-96 | A request missing a required field gets 400. It gets 201 if and only if the user step succeeds, the room has a unit left and the hotel exists. It gets 404 if and only if the user step succeeds and the room is unknown. A known room with no unit left gets 400. |
| Bookings.RunKeepsCountersNonNegative | app/api/bookings/route.ts:72-92 | Over any sequence of requests, counters that start non-negative stay non-negative. Room ids stay unique. |
| Bookings.TotalAvailableDecrement | app/api/bookings/route.ts:88-92 | With unique room ids, decrementing an existing room lowers the total of free units by exactly one. |
| Bookings.TotalAvailableUnchanged | app/api/bookings/route.ts:88-92 | Decrementing a room id that does not exist leaves the total unchanged. |
| Bookings.CreateConservesUnits | app/api/bookings/route.ts:72-92 | One request keeps (free units + number of bookings) constant, whatever its outcome. |
| Bookings.RunConservesUnits | app/api/bookings/route.ts:72-92 | Any sequence of requests keeps (free units + number of bookings) constant. |
| Bookings.JoinRows | app/api/bookings/route.ts:13-17 | The inner join yields no more rows than bookings, and every row's booking is one of the given bookings. Each row's `hotel_name` is the name of the booking's hotel and its `room_type` the type of the booking's room, both of which exist. |
| Bookings.JoinRowsComplete | app/api/bookings/route.ts:13-17 | When every booking's hotel and room exist, the join keeps every booking in order: row `i` carries booking `i`. |
| Bookings.Mine | app/api/bookings/route.ts:18 | The WHERE clause keeps every stored booking of the user and nothing else. |
| Bookings.UserRows | app/api/bookings/route.ts:13-19 | The user's joined rows are sorted by `created_at`, newest first. Each row is a stored booking of that user and carries its hotel's name and its room's type. |
| Bookings.UserRowsComplete | app/api/bookings/route.ts:13-19 | With intact foreign keys, a user has as many rows as bookings, and each of the user's bookings is shown. |
| Bookings.ListBookings | app/api/bookings/route.ts:4-26 | A missing or empty `userId` gives 400, exactly. The query fails (500) exactly when the id is NaN for `parseInt`, lies outside the `integer` range of `user_id`, or one of the bookings, hotels and rooms tables is missing. Otherwise the rows are sorted by `created_at` descending, and each row is a stored booking of the parsed user with its hotel's `name` and its room's `room_type`. |
| Bookings.ListedExactlyOwnBookings | app/api/bookings/route.ts:13-22 | With the three tables present and intact foreign keys, any text that parses to an `integer` `n` gets the rows of user `n`, one per booking of `n`. A booking is listed if and only if it is stored and belongs to `n`. |
| Bookings.CreateKeepsReferences | app/api/bookings/route.ts:60-92 | A POST keeps every booking's hotel and room present: the room check and the hotel foreign key guard the new row, and decrementing keeps the room ids. |
| Bookings.CreatedBookingIsListed | app/api/bookings/route.ts:13-22 | After a successful POST on a store with the three tables and intact foreign keys, the new booking appears in the listing for any text that parses to its user id, when that id is an `integer`. |
| Hotels.ReadParams | app/api/hotels/route.ts:38-42 | Missing parameters default to search "", location "all", and a price window from 0 to 1000.00. `coupleFriendly` holds exactly for the text "true". |
| Hotels.MinRoomPrice | app/api/hotels/route.ts:56 | NULL exactly when the hotel has no rooms. Otherwise it is one of its rooms' prices and no greater than any of them. |
| Hotels.MaxRoomPrice | app/api/hotels/route.ts:57 | NULL exactly when the hotel has no rooms. Otherwise it is one of its rooms' prices and no smaller than any of them. |
| Hotels.RowOf | app/api/hotels/route.ts:55-57 | `min_price` and `max_price` are attained by rooms of the hotel and bound all of its room prices. Both are 0 when the hotel has no rooms. |
| Hotels.BranchWhereAgrees | app/api/hotels/route.ts:53-162 | The WHERE clause of the query the if-chain picks holds exactly when each active text and flag filter holds. |
| Hotels.BranchesAgree | app/api/hotels/route.ts:53-162 | Whichever of the eight hand-written queries the if-chain picks, it selects the same hotels as one conjunctive predicate. The predicate requires each active filter and the price window. |
| Hotels.ListHotels | app/api/hotels/route.ts:13-181 | A missing hotels table gives TablesNotFound (404), exactly. A missing rooms table gives QueryFailed (500), exactly. A listing is sorted by rating, descending. Under an active filter it is a permutation of the rows of the hotels satisfying the conjunctive predicate; with no active filter, of the rows of all hotels. |
| Hotels.UnfilteredListsEveryHotel | app/api/hotels/route.ts:163-173 | With no active filter, every hotel is listed, including a hotel without rooms. |
| Hotels.FilteredListingMatches | app/api/hotels/route.ts:49-162 | Under an active filter, a hotel is listed if and only if it passes each active filter and the price window. |
| Hotels.RoomlessHotelUnderFilter | app/api/hotels/route.ts:64-65 | Under an active filter, a hotel without rooms is listed if and only if it passes the text and flag filters, the floor is at most 0, and the ceiling reaches the 999999 sentinel. |
| Hotels.MatchesWithoutRooms | app/api/hotels/route.ts:64-65 | For a hotel without rooms, MIN(price) is NULL, so the price window reduces to floor <= 0 and ceiling >= 999999. |
| Hotels.ListingHasOneRowPerHotel | app/api/hotels/route.ts:58-63 | With unique hotel ids, no hotel appears twice in a listing. |
| Common.SortDesc | app/api/hotels/route.ts:172 | The result is a permutation of the input, sorted by the key in descending order. |
| Common.Filter | app/api/db-status/route.ts:25 | Keeps exactly the elements satisfying the predicate, as a sub-multiset of the input. |
| Common.UniqueBySubMultiset | app/api/hotels/route.ts:63 | A sub-multiset of a list with unique keys has unique keys. |
| Text.ParseInt | app/api/bookings/route.ts:18 | Text with no digit, or whose trimmed start is neither a sign nor a digit, reads as NaN. |
| Text.ParseIntOfDecimal | components/booking-modal.tsx:107 | A natural number written in decimal parses back to itself. |
| Text.ParseIntIgnoresSuffix | app/api/bookings/route.ts:18 | Parsing stops at the first non-digit. With a leading minus sign the number is negated; a leading plus sign leaves it unchanged. |
| Text.ParseIntSkipsSpace | app/api/bookings/route.ts:18 | Leading white space does not change the result: `" 5"` reads as `"5"`. |
| Text.Utf16Length | app/api/auth/register/route.ts:14 | JavaScript's `length`: at least the number of characters and at most twice it, and 0 only for the empty string. |
| Text.BmpLength | app/api/auth/register/route.ts:14 | A string of characters up to U+FFFF has one code unit per character. |
| Text.AstralLength | app/api/auth/register/route.ts:14 | A string of characters above U+FFFF has two code units per character. |
| Text.ContainsIgnoreCase | app/api/hotels/route.ts:60 | True exactly when the lower-cased search text occurs in the lower-cased name. |
| Text.Infix | app/api/hotels/route.ts:60 | True exactly when the needle occurs at some position of the text. |
| Text.EmptyNeedleMatches | app/api/hotels/route.ts:60 | The pattern `%%` matches every name. |
| Text.CaseOfNeedleIrrelevant | app/api/hotels/route.ts:60 | The case of the search text does not change the result. |
| Register.RegisterUser | app/api/auth/register/route.ts:5-47 | The checks run in order, each an if-and-only-if: all four fields present and non-empty, then a password of at least 6 UTF-16 code units, then an unused e-mail. Each rejection leaves the store unchanged. A request past the checks fails the INSERT (500) if and only if a user already holds the sequence's next id; the id is used up. Otherwise it is registered: exactly one user is appended, with the sequence's next id, the given names and e-mail, the hashed password, and `USD`/`english`. The response carries only id, e-mail and names. |
| Register.BmpPasswordLength | app/api/auth/register/route.ts:14 | For a password of characters up to U+FFFF, the length check counts characters. |
| Register.ThreeAstralCharactersSuffice | app/api/auth/register/route.ts:14 | Three characters above U+FFFF are six code units, so they pass the length check. |
| Register.RegisterStatus | app/api/auth/register/route.ts:11-46 | 201 exactly on success, 500 exactly for a failed insert, and 400 otherwise. |
| Register.SecondRegistrationRejected | app/api/auth/register/route.ts:19-25 | A second registration with the same e-mail is refused and changes nothing. |
| Register.RegisterKeepsEmailsUnique | app/api/auth/register/route.ts:19-35 | If e-mails were unique before a registration, they are unique after it. |
| BookingModal.CeilDiv | components/booking-modal.tsx:74 | `Math.ceil(x / d)` is the least `q` with `x <= q * d`. |
| BookingModal.Nights | components/booking-modal.tsx:72-75 | 0 when a date is unset. Otherwise the millisecond difference is in `((n-1)·day, n·day]`. |
| BookingModal.AtLeastOneNightIffOrdered | components/booking-modal.tsx:74 | At least one night is charged if and only if check-out is later than check-in. |
| BookingModal.WholeDays | components/booking-modal.tsx:74 | A difference of `k` whole days gives exactly `k` nights. |
| BookingModal.Total | components/booking-modal.tsx:77-80 | 0 with a date unset. At most 0 for unordered dates, and at least one night's rate for ordered dates, when the rate is non-negative. |
| BookingModal.TotalOfWholeDays | components/booking-modal.tsx:77-80 | `k` whole days cost `k` times the rate. |
| BookingModal.GuestOptions | components/booking-modal.tsx:291 | The options are 1, 2, …, up to the maximum occupancy, and none when that is not positive. |
| BookingModal.GuestOptionsAreOneToMax | components/booking-modal.tsx:291 | `g` is offered if and only if `1 <= g <= maxOccupancy`. |
| BookingModal.HandleBooking | components/booking-modal.tsx:82-115 | The guards, each an if-and-only-if and in order: no session redirects, a missing date shows the date error, and check-out not after check-in shows the order error. A request is sent exactly when all three pass. Its body has at least one night, a total of nights × rate, the parsed session id, the given room, hotel, guests and requests, and the formatted dates. |
| BookingModal.ToRequest | components/booking-modal.tsx:106-124 | The server receives every field of the body unchanged: user id, hotel id, room id, both dates, guests, total and special requests. |
| BookingModal.SentRequestHasRequiredFields | components/booking-modal.tsx:106-115 | With both dates set and check-out after check-in the dialog sends a body; for a numeric session id, a guest count from the select and a non-zero rate, that body passes the server's required-field check. It carries the session's user id. |
| InitDb.DemoSeedUser | app/api/init-db/route.ts:128-131 | The seeded demo user has the demo e-mail and the fixed bcrypt hash as its password. |
| InitDb.SeedHotels | app/api/init-db/route.ts:142-185 | Three hotels, each rated between 0.0 and 5.0; the seed data stays in that range, which `DECIMAL(2,1)` (-9.9 to 9.9) would not enforce. |
| InitDb.SeedRooms | app/api/init-db/route.ts:199-272 | Six rooms, each with `0 <= available_rooms <= total_rooms`, a positive price, room for at least one guest, and a hotel id in 1..3. |
| InitDb.SeedReviews | app/api/init-db/route.ts:285-291 | Three reviews by user 1, one for each of hotels 1, 2 and 3, with ratings in 1..5 as the table's CHECK requires. |
| InitDb.InsertHotels | app/api/init-db/route.ts:187-192 | The hotels are appended in order, with consecutive ids starting at the sequence's next value. The sequence advances by the number of hotels. Nothing else changes. |
| InitDb.RoomsPlaceable | app/api/init-db/route.ts:274-279 | Counts the rooms, from the front, whose hotel exists: all of those have a hotel, and the next one does not. |
| InitDb.AllRoomsPlaceable | app/api/init-db/route.ts:274-279 | Every room is placeable if and only if every room's hotel exists. |
| InitDb.InsertRooms | app/api/init-db/route.ts:274-279 | Succeeds exactly when every room's hotel exists. The rooms before the first missing hotel are appended in order, with consecutive ids, and stay after a failure. The failed insert uses up one id. Only rooms and their sequence change. |
| InitDb.InsertReviews | app/api/init-db/route.ts:285-291 | The single INSERT succeeds exactly when every named user and hotel exists. It then adds all rows; otherwise it adds none, and the ids it drew stay used. |
| InitDb.WithDemoUser | app/api/init-db/route.ts:13-135 | The five tables exist afterwards. The demo user is inserted if and only if the users table was empty. |
| InitDb.SeedWith | app/api/init-db/route.ts:138-292 | Seeding keeps users, bookings and tables. It always appends the hotels with sequence ids. When it succeeds it has appended all rooms and all reviews, each with sequence ids. Rooms and reviews already present are kept as a prefix, even when it fails. The user and booking sequences are untouched. |
| InitDb.SeedWithSucceeds | app/api/init-db/route.ts:138-292 | On an empty hotels table with the sequence at 1 and user 1 present, seeding succeeds whenever rooms and reviews name hotels 1 to n (n hotels) and reviews are by user 1. |
| InitDb.SeedFailsOnMovedSequence | app/api/init-db/route.ts:187-279 | With the hotel sequence past 1, a first room naming hotel 1 fails, and no room is inserted. |
| InitDb.DemoUserIsUserOne | app/api/init-db/route.ts:126-131 | On an empty users table with the sequence at 1, the demo user is user 1. |
| InitDb.Init | app/api/init-db/route.ts:118-295 | The demo user is added if and only if users were empty. Seeding happens if and only if hotels were empty, whatever the rooms and reviews. A seeding run adds 3 hotels and, when it succeeds, 6 rooms and 3 reviews. Existing rooms and reviews are kept as a prefix, whether seeding succeeds or fails, and bookings are unchanged. Afterwards users and hotels are non-empty. The table set becomes the old one plus the five tables. The user sequence advances by one exactly when the demo user is added, and the booking sequence never moves. |
| InitDb.InitTwiceIsInitOnce | app/api/init-db/route.ts:126-138 | A second initialisation succeeds, inserts nothing, and leaves the store as the first left it. |
| InitDb.FirstInitSeedsEverything | app/api/init-db/route.ts:118-295 | With no users and no hotels, and both sequences at 1, the run succeeds. The demo user is the only user, with id 1. The hotels are the three seed hotels with ids 1 to 3. All six rooms and all three reviews are appended with sequence ids. |
| InitDb.FreshInitSeedsEverything | app/api/init-db/route.ts:118-295 | A database that was never initialised is seeded with 6 rooms and 3 reviews. |
| InitDb.SeedingNeedsFreshHotelSequence | app/api/init-db/route.ts:199-201 | When the hotels table is empty but its sequence is past 1, the hotels get other ids. The first room's hotel 1 is then missing, and the run fails after inserting the hotels. |
| DbStatus.MissingTables | app/api/db-status/route.ts:24-25 | Holds exactly the required tables absent from the listing, and is no longer than the required list. |
| DbStatus.FilterIsSubsequence | app/api/db-status/route.ts:25 | The missing tables keep the order of the required list. |
| DbStatus.Counts | app/api/db-status/route.ts:27-38 | One entry per required table, in order. Each entry is its own table's count, or "Error: " followed by that table's message. A failure affects no other entry. |
| DbStatus.Status | app/api/db-status/route.ts:4-64 | An unreachable database gives a 500, exactly. Otherwise the report lists all tables and the five required ones. It lists the missing ones, in required order and at most five. `tablesReady` holds exactly when none is missing, that is, when every required table exists. Counts are empty unless ready. When ready, every required table is probed in order, and each entry is that table's own count or its own error text, as Counts states. |
| Scenarios.SeededListing | app/api/hotels/route.ts:163-173 | After the first initialisation, the unfiltered listing is Seaside Resort (200.00–400.00), Grand Plaza Hotel (120.00–250.00), City Comfort Inn (85.00–120.00). |
| Scenarios.RowOfTwoRooms | app/api/hotels/route.ts:55-57 | A hotel owning exactly two rooms priced `lo <= hi` gets the row (`lo`, `hi`). |
| Scenarios.ListingOfSeedShape | app/api/hotels/route.ts:163-173 | Any store with the seed's hotels and rooms lists them in that order, with those price ranges. |
| Scenarios.SeededBooking | app/api/bookings/route.ts:29-96 | On the seeded database, booking the Beach Villa for user 1 gives 201 and a confirmed booking. The villa's free units go from 3 to 2, and the booking shows in user 1's listing. |

## Left out

- SQL text, DDL and driver or connection errors are not modelled. Two outcomes remain:
  - A missing table gives QueryFailed in the hotels listing (rooms table) and in the bookings listing (bookings, hotels or rooms table).
  - An unreachable database gives StatusFailed in the diagnosis.
  
  The `catch` branches that answer 500 for other driver errors are not modelled. Among them are the column limits: a `first_name` or `last_name` over 100 characters, an `email` over 255, or a `total_price` beyond `DECIMAL(10,2)` fails its INSERT with a 500, while the model accepts it.
- Concurrency is not modelled. Requests are sequential transitions, so the race between the availability check and the decrement is outside the model.
- Floating-point prices, totals and ratings are not modelled. They are integers in cents and in tenths.
- `image_url` columns, timestamps other than a booking's `created_at`, and the other profile columns of users are not modelled.
- Text.ParseInt: reads decimal text with ASCII white space only. The `0x` hexadecimal prefix and Unicode white space are not modelled.
- Text.ContainsIgnoreCase: folds ASCII letters only. `ILIKE` wildcards inside the search text (`%`, `_`) and locale-dependent case folding are not modelled.
- Hotels.ReadParams: price parameters are taken as already-parsed numbers. `parseFloat` of non-numeric text gives NaN, which is not modelled. In the handler's JavaScript comparisons NaN makes `minPrice > 0` and `maxPrice < 1000` false; in the SQL comparison PostgreSQL orders a numeric NaN above every other value.
- Hotels.ListHotels: the order of hotels with equal ratings is left open, as `ORDER BY rating DESC` leaves it. The table-existence guard checks only hotels; a missing rooms table is the query failure.
- Bookings.ListBookings: a NaN user id, an id outside the `integer` range and a missing table stand for the query error each causes. Ids are exact integers: `parseInt` of more than 15 significant digits rounds to a double, which is not modelled; every such id is outside the `integer` range anyway. The image column of the join is not modelled.
- Bookings.CreateBooking: a hotel id that does not exist makes the INSERT fail on the foreign key. That is the handler's 400 "constraint error". The room was already checked, and earlier user-step effects stay. Of the driver errors, only the foreign-key failure answers 400. The other driver failures, each a 500, are not modelled: a missing table, a `user_id`, `hotel_id`, `room_id` or `guests` outside the `integer` range, and dates that PostgreSQL cannot read as `DATE`. The model takes ids and guest counts as unbounded integers and dates as text.
- The `format` parameter of `BookingModal.HandleBooking` stands for `Date.toISOString` and its time-zone behaviour.
- The client's handling of the response (`fetch`, success callback, dialog state) is not modelled.
- The response of `/api/init-db` reports the final row counts. These are the lengths of the store's sequences, and no member states them separately.
- The endpoints `/api/health`, `/api/auth/health`, `/api/test-db`, `/api/users`, `/api/users/[id]`, `/api/hotels/[id]` and hotel POST are not part of this model. Neither are `/api/repair-sequences` (sequence `setval`), NextAuth sign-in, `lib/api-utils.ts`, and all React rendering.
- Bookings.CreateBooking: the numeric fields are taken as JSON numbers (or absent/`null`). A truthy non-number passes the source's `!guests` / `!user_id` check: the string "0" gets through, so the source can store 0 guests or user id 0, while in the model every created booking has non-zero ids and guests. Such bodies are not modelled.
- Bookings.CreateBooking: negative `guests` and `total_price` are accepted. The handler only rejects falsy values (absent, `null`, 0, ""), so a stricter rule of positive values is not enforced, and the model does not enforce it either.
- Register.RegisterUser: fields are JSON strings or absent/`null`. A truthy non-string value (the number 5, `true`) passes the source's `!firstName` check and would be stored as its text; a non-string password has no `length` and fails later in bcrypt. Neither is modelled. Registration without a users table (a 500) is not modelled either.
