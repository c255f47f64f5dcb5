/** The bookings endpoint (app/api/bookings/route.ts): POST creates a
    confirmed booking and takes one unit of the room off its availability
    counter; GET lists one user's bookings, newest first.

    Each SQL statement is modelled as one step on the store. The handler
    runs its statements without a transaction, so when a later step fails
    the effects of the earlier ones stay. */
module Bookings {
  import opened Common
  import opened Store
  import Text

  const DemoEmail := "demo@example.com"
  const ConfirmedStatus := "confirmed"

  /** The JSON body of POST /api/bookings. None stands for an absent field,
      `null` or NaN. */
  datatype BookingRequest = BookingRequest(
    userId: Option<int>,
    hotelId: Option<int>,
    roomId: Option<int>,
    checkInDate: Option<string>,
    checkOutDate: Option<string>,
    guests: Option<int>,
    totalPrice: Option<int>,
    specialRequests: Option<string>)

  /** JavaScript truthiness of a number field: present and not 0. */
  predicate NumGiven(v: Option<int>) {
    v.Some? && v.value != 0
  }

  /** JavaScript truthiness of a text field: present and not empty. */
  predicate TextGiven(v: Option<string>) {
    v.Some? && v.value != ""
  }

  /** The required-field check: seven fields must be truthy. Negative
      numbers pass. */
  predicate HasRequiredFields(req: BookingRequest) {
    && NumGiven(req.userId)
    && NumGiven(req.hotelId)
    && NumGiven(req.roomId)
    && TextGiven(req.checkInDate)
    && TextGiven(req.checkOutDate)
    && NumGiven(req.guests)
    && NumGiven(req.totalPrice)
  }

  datatype CreateError =
    | MissingFields        // 400 "Missing required fields"
    | RoomNotFound         // 404 "Room not found"
    | RoomNotAvailable     // 400 "Room not available"
    | ConstraintViolation  // 400 "Database constraint error" (a foreign key was violated)

  datatype CreateOutcome = Created(booking: Booking) | Rejected(error: CreateError)

  /** The HTTP status the handler answers with. */
  function CreateStatus(o: CreateOutcome): (code: int)
    ensures o.Created? <==> code == 201
    ensures code == 404 <==> o == Rejected(RoomNotFound)
    ensures code == 201 || code == 400 || code == 404
  {
    match o
    case Created(_) => 201
    case Rejected(RoomNotFound) => 404
    case Rejected(_) => 400
  }

  /** The user row the fallback inserts when `user_id` is unknown. */
  function DemoUser(id: int): (u: User)
    ensures u.id == id && u.email == DemoEmail && u.password.None?
  {
    User(id, DemoEmail, "Demo", "User", Some("+1-555-0123"), Some("passport"), Some("AB123456"),
         "USD", "english", None)
  }

  /** Some booking or review row points at user `id` (ON UPDATE NO ACTION). */
  predicate UserReferenced(s: Store, id: int) {
    || (exists i :: 0 <= i < |s.bookings| && s.bookings[i].userId == id)
    || (exists i :: 0 <= i < |s.reviews| && s.reviews[i].userId == id)
  }

  /** The user step: nothing when user `uid` exists; otherwise insert the demo
      user with id `uid`, or, when a user with the demo e-mail already exists,
      move that user to id `uid` (ON CONFLICT (email) DO UPDATE SET id). The
      move violates a foreign key, and fails, when bookings or reviews refer
      to the old id. None is that failure. */
  function EnsureUser(s: Store, uid: int): (r: Option<Store>)
    ensures HasUser(s.users, uid) ==> r == Some(s)
    ensures r.None? <==>
      && !HasUser(s.users, uid)
      && FindUserByEmail(s.users, DemoEmail).Some?
      && UserReferenced(s, s.users[FindUserByEmail(s.users, DemoEmail).value].id)
    ensures r.Some? ==> HasUser(r.value.users, uid)
    ensures r.Some? ==> r.value == s.(users := r.value.users)
    ensures r.Some? ==> |s.users| <= |r.value.users| <= |s.users| + 1
    // an unknown id gets the demo row appended, or the existing demo row re-keyed
    ensures r.Some? && !HasUser(s.users, uid) && FindUserByEmail(s.users, DemoEmail).None? ==>
      r.value.users == s.users + [DemoUser(uid)]
    ensures r.Some? && !HasUser(s.users, uid) && FindUserByEmail(s.users, DemoEmail).Some? ==>
      var k := FindUserByEmail(s.users, DemoEmail).value;
      r.value.users == s.users[k := s.users[k].(id := uid)]
  {
    if HasUser(s.users, uid) then Some(s)
    else
      match FindUserByEmail(s.users, DemoEmail)
      case None =>
        var users := s.users + [DemoUser(uid)];
        assert users[|s.users|].id == uid;
        Some(s.(users := users))
      case Some(k) =>
        if UserReferenced(s, s.users[k].id) then None
        else
          var users := s.users[k := s.users[k].(id := uid)];
          assert users[k].id == uid;
          Some(s.(users := users))
  }

  /** `UPDATE rooms SET available_rooms = available_rooms - 1 WHERE id = ...` */
  function DecrementRoom(rooms: seq<Room>, id: int): (r: seq<Room>)
    ensures |r| == |rooms|
    ensures forall i :: 0 <= i < |rooms| && rooms[i].id != id ==> r[i] == rooms[i]
    ensures forall i :: 0 <= i < |rooms| && rooms[i].id == id ==>
      r[i] == rooms[i].(availableRooms := rooms[i].availableRooms - 1)
  {
    seq(|rooms|, i requires 0 <= i < |rooms| =>
      if rooms[i].id == id then rooms[i].(availableRooms := rooms[i].availableRooms - 1) else rooms[i])
  }

  /** The booking row the INSERT creates: every field copied from the request
      (the total price is not recomputed), status `confirmed`, missing
      special requests stored as the empty string. */
  function NewBooking(id: int, req: BookingRequest, now: int): (b: Booking)
    requires HasRequiredFields(req)
    ensures b.id == id && b.createdAt == now
  {
    Booking(id, req.userId.value, req.hotelId.value, req.roomId.value,
            req.checkInDate.value, req.checkOutDate.value, req.guests.value,
            req.totalPrice.value, ConfirmedStatus,
            if req.specialRequests.Some? then req.specialRequests.value else "",
            now)
  }

  /** The request passes validation and the user step: the user exists, or
      the demo row can be inserted or moved to the requested id. */
  predicate UserStepSucceeds(s: Store, req: BookingRequest) {
    HasRequiredFields(req) && EnsureUser(s, req.userId.value).Some?
  }

  /** The requested room exists and has a unit left. */
  predicate RoomHasUnitLeft(s: Store, req: BookingRequest) {
    req.roomId.Some? && HasRoom(s.rooms, req.roomId.value)
    && FindRoom(s.rooms, req.roomId.value).value.availableRooms >= 1
  }

  /** The requested hotel exists, so the INSERT meets its foreign key. */
  predicate HotelExists(s: Store, req: BookingRequest) {
    req.hotelId.Some? && HasHotel(s.hotels, req.hotelId.value)
  }

  /** POST /api/bookings. `now` is the database clock at the INSERT. */
  function CreateBooking(s: Store, req: BookingRequest, now: int): (r: (CreateOutcome, Store))
    // validation comes first and changes nothing
    ensures r.0 == Rejected(MissingFields) <==> !HasRequiredFields(req)
    ensures !HasRequiredFields(req) ==> r.1 == s
    // a complete request is booked exactly when the user step succeeds, the
    // room has a unit left and the hotel exists
    ensures r.0.Created? <==> UserStepSucceeds(s, req) && RoomHasUnitLeft(s, req) && HotelExists(s, req)
    // a foreign key fails in the user step, or in the INSERT for an unknown hotel
    ensures r.0 == Rejected(ConstraintViolation) <==>
      HasRequiredFields(req) && (!UserStepSucceeds(s, req) || (RoomHasUnitLeft(s, req) && !HotelExists(s, req)))
    ensures HasRequiredFields(req) && !UserStepSucceeds(s, req) ==> r.1 == s
    // an unknown room is reported as such, an exhausted one as unavailable
    ensures UserStepSucceeds(s, req) ==>
      (r.0 == Rejected(RoomNotFound) <==> !HasRoom(s.rooms, req.roomId.value))
    ensures UserStepSucceeds(s, req) && HasRoom(s.rooms, req.roomId.value) ==>
      (r.0 == Rejected(RoomNotAvailable) <==> FindRoom(s.rooms, req.roomId.value).value.availableRooms < 1)
    // the users table is what the user step left; hotels and reviews never change
    ensures UserStepSucceeds(s, req) ==> r.1.users == EnsureUser(s, req.userId.value).value.users
    ensures r.1.hotels == s.hotels && r.1.reviews == s.reviews && r.1.tables == s.tables
    ensures r.1.nextUserId == s.nextUserId
    ensures r.1.nextHotelId == s.nextHotelId && r.1.nextRoomId == s.nextRoomId && r.1.nextReviewId == s.nextReviewId
    // after the user step the user exists
    ensures r.0.Created? || r.0 == Rejected(RoomNotFound) || r.0 == Rejected(RoomNotAvailable) ==>
      HasUser(r.1.users, req.userId.value)
    // the INSERT draws a booking id whether it succeeds or fails on the hotel
    ensures r.1.nextBookingId ==
      if r.0.Created? || (UserStepSucceeds(s, req) && r.0 == Rejected(ConstraintViolation))
      then s.nextBookingId + 1 else s.nextBookingId
    ensures r.0.Rejected? ==> r.1.rooms == s.rooms && r.1.bookings == s.bookings
    // success: one confirmed booking appended, copied verbatim from the request
    ensures r.0.Created? ==>
      && HasRequiredFields(req)
      && r.1.bookings == s.bookings + [r.0.booking]
      && r.0.booking == Booking(s.nextBookingId, req.userId.value, req.hotelId.value, req.roomId.value,
                                req.checkInDate.value, req.checkOutDate.value, req.guests.value,
                                req.totalPrice.value, "confirmed",
                                if req.specialRequests.Some? then req.specialRequests.value else "", now)
      && HasHotel(s.hotels, req.hotelId.value)
    // success: the booked room had a unit left and loses exactly one; no other room changes
    ensures r.0.Created? ==>
      && FindRoom(s.rooms, req.roomId.value).Some?
      && FindRoom(s.rooms, req.roomId.value).value.availableRooms >= 1
      && |r.1.rooms| == |s.rooms|
      && (forall i :: 0 <= i < |s.rooms| && s.rooms[i].id != req.roomId.value ==> r.1.rooms[i] == s.rooms[i])
      && (forall i :: 0 <= i < |s.rooms| && s.rooms[i].id == req.roomId.value ==>
            r.1.rooms[i] == s.rooms[i].(availableRooms := s.rooms[i].availableRooms - 1))
    // room ids are never changed, so the primary key stays unique
    ensures |r.1.rooms| == |s.rooms| && forall i :: 0 <= i < |s.rooms| ==> r.1.rooms[i].id == s.rooms[i].id
    // the availability counter cannot be driven below zero
    ensures UniqueRoomIds(s.rooms) && CountersNonNegative(s.rooms) ==> CountersNonNegative(r.1.rooms)
  {
    if !HasRequiredFields(req) then (Rejected(MissingFields), s)
    else
      var uid := req.userId.value;
      var rid := req.roomId.value;
      match EnsureUser(s, uid)
      case None =>
        assert !UserStepSucceeds(s, req);
        (Rejected(ConstraintViolation), s)
      case Some(s1) =>
        assert s1.rooms == s.rooms && s1.hotels == s.hotels && UserStepSucceeds(s, req);
        match FindRoom(s1.rooms, rid)
        case None => (Rejected(RoomNotFound), s1)
        case Some(room) =>
          if room.availableRooms < 1 then (Rejected(RoomNotAvailable), s1)
          else if !HasHotel(s1.hotels, req.hotelId.value) then
            // the INSERT draws an id from the sequence, then fails on the hotel foreign key
            (Rejected(ConstraintViolation), s1.(nextBookingId := s1.nextBookingId + 1))
          else
            var b := NewBooking(s1.nextBookingId, req, now);
            (Created(b), s1.(bookings := s1.bookings + [b],
                             rooms := DecrementRoom(s1.rooms, rid),
                             nextBookingId := s1.nextBookingId + 1))
  }

  /** The status of the result of CreateBooking. */
  function CreateBookingStatus(s: Store, req: BookingRequest, now: int): (code: int)
    ensures !HasRequiredFields(req) ==> code == 400
    ensures code == 201 <==> UserStepSucceeds(s, req) && RoomHasUnitLeft(s, req) && HotelExists(s, req)
    ensures code == 404 <==> UserStepSucceeds(s, req) && !HasRoom(s.rooms, req.roomId.value)
    ensures UserStepSucceeds(s, req) && HasRoom(s.rooms, req.roomId.value) ==>
      (FindRoom(s.rooms, req.roomId.value).value.availableRooms < 1 ==> code == 400)
    ensures code == 201 ==> HasRoom(s.rooms, req.roomId.value)
  {
    CreateStatus(CreateBooking(s, req, now).0)
  }

  /** A sequence of booking requests, each with the time it is handled. */
  function RunBookings(s: Store, reqs: seq<(BookingRequest, int)>): Store
    decreases |reqs|
  {
    if |reqs| == 0 then s
    else RunBookings(CreateBooking(s, reqs[0].0, reqs[0].1).1, reqs[1..])
  }

  /** Handling requests one after another never drives a counter below
      zero, because each decrement is preceded by the `available_rooms >= 1`
      check. */
  lemma {:induction false} RunKeepsCountersNonNegative(s: Store, reqs: seq<(BookingRequest, int)>)
    requires UniqueRoomIds(s.rooms) && CountersNonNegative(s.rooms)
    ensures CountersNonNegative(RunBookings(s, reqs).rooms)
    ensures UniqueRoomIds(RunBookings(s, reqs).rooms)
    decreases |reqs|
  {
    if |reqs| > 0 {
      var s1 := CreateBooking(s, reqs[0].0, reqs[0].1).1;
      assert UniqueRoomIds(s1.rooms);
      RunKeepsCountersNonNegative(s1, reqs[1..]);
    }
  }

  lemma {:induction false} TotalAvailableDecrement(rooms: seq<Room>, id: int)
    requires UniqueRoomIds(rooms) && HasRoom(rooms, id)
    ensures TotalAvailable(DecrementRoom(rooms, id)) == TotalAvailable(rooms) - 1
    decreases |rooms|
  {
    var n := |rooms|;
    var front := rooms[..n - 1];
    DecrementFront(rooms, id);
    if rooms[n - 1].id == id {
      assert !HasRoom(front, id) by {
        forall i | 0 <= i < n - 1
          ensures front[i].id != id
        {
          assert front[i] == rooms[i] && rooms[i].id != rooms[n - 1].id;
        }
      }
      TotalAvailableUnchanged(front, id);
    } else {
      var i :| 0 <= i < n && rooms[i].id == id;
      assert front[i].id == id;
      assert UniqueRoomIds(front) by {
        forall a, b | 0 <= a < b < n - 1
          ensures front[a].id != front[b].id
        {
          assert front[a] == rooms[a] && front[b] == rooms[b];
        }
      }
      TotalAvailableDecrement(front, id);
    }
  }

  lemma {:induction false} TotalAvailableUnchanged(rooms: seq<Room>, id: int)
    requires !HasRoom(rooms, id)
    ensures TotalAvailable(DecrementRoom(rooms, id)) == TotalAvailable(rooms)
    decreases |rooms|
  {
    var n := |rooms|;
    if n > 0 {
      var front := rooms[..n - 1];
      DecrementFront(rooms, id);
      assert !HasRoom(front, id) by {
        forall i | 0 <= i < n - 1
          ensures front[i].id != id
        {
          assert front[i] == rooms[i];
        }
      }
      TotalAvailableUnchanged(front, id);
    }
  }

  /** Decrementing all rooms but the last is the decrement cut short. */
  lemma DecrementFront(rooms: seq<Room>, id: int)
    requires |rooms| > 0
    ensures DecrementRoom(rooms[..|rooms| - 1], id) == DecrementRoom(rooms, id)[..|rooms| - 1]
  {
  }

  /** Units are conserved: every successful booking moves exactly one unit
      from the rooms' availability counters into the bookings table, and a
      rejected request moves none. */
  lemma CreateConservesUnits(s: Store, req: BookingRequest, now: int)
    requires UniqueRoomIds(s.rooms)
    ensures var s' := CreateBooking(s, req, now).1;
      TotalAvailable(s'.rooms) + |s'.bookings| == TotalAvailable(s.rooms) + |s.bookings|
  {
    var (o, s') := CreateBooking(s, req, now);
    if o.Created? {
      var s1 := EnsureUser(s, req.userId.value).value;
      assert s'.rooms == DecrementRoom(s1.rooms, req.roomId.value);
      TotalAvailableDecrement(s.rooms, req.roomId.value);
    }
  }

  lemma {:induction false} RunConservesUnits(s: Store, reqs: seq<(BookingRequest, int)>)
    requires UniqueRoomIds(s.rooms)
    ensures var s' := RunBookings(s, reqs);
      TotalAvailable(s'.rooms) + |s'.bookings| == TotalAvailable(s.rooms) + |s.bookings|
    decreases |reqs|
  {
    if |reqs| > 0 {
      var s1 := CreateBooking(s, reqs[0].0, reqs[0].1).1;
      CreateConservesUnits(s, reqs[0].0, reqs[0].1);
      assert UniqueRoomIds(s1.rooms);
      RunConservesUnits(s1, reqs[1..]);
    }
  }

  // ---------------------------------------------------------------------
  // GET /api/bookings?userId=...

  /** A row of the listing: the booking joined with its hotel's name and its
      room's type. */
  datatype BookingRow = BookingRow(booking: Booking, hotelName: string, roomType: string)

  datatype ListOutcome =
    | UserIdRequired          // 400 "User ID is required"
    | QueryFailed             // 500: the id is NaN or outside int4, or a joined table is missing
    | Listed(rows: seq<BookingRow>)

  /** The row's hotel and room exist, and it carries the hotel's `name` and
      the room's `room_type`. */
  predicate JoinedWith(s: Store, row: BookingRow) {
    && FindHotel(s.hotels, row.booking.hotelId).Some?
    && row.hotelName == FindHotel(s.hotels, row.booking.hotelId).value.name
    && FindRoom(s.rooms, row.booking.roomId).Some?
    && row.roomType == FindRoom(s.rooms, row.booking.roomId).value.roomType
  }

  /** The inner join with hotels and rooms: a booking whose hotel or room row
      is missing produces no row. */
  function JoinRows(s: Store, bs: seq<Booking>): (r: seq<BookingRow>)
    ensures |r| <= |bs|
    ensures forall j :: 0 <= j < |r| ==> r[j].booking in bs
    // each row carries its hotel's name and its room's type
    ensures forall j :: 0 <= j < |r| ==> JoinedWith(s, r[j])
  {
    if |bs| == 0 then []
    else
      var rest := JoinRows(s, bs[1..]);
      match (FindHotel(s.hotels, bs[0].hotelId), FindRoom(s.rooms, bs[0].roomId))
      case (Some(h), Some(rm)) => [BookingRow(bs[0], h.name, rm.roomType)] + rest
      case _ => rest
  }

  /** With every hotel and room present the join loses no booking: row `i`
      carries booking `i`. */
  lemma {:induction false} JoinRowsComplete(s: Store, bs: seq<Booking>)
    requires forall i :: 0 <= i < |bs| ==> HasHotel(s.hotels, bs[i].hotelId) && HasRoom(s.rooms, bs[i].roomId)
    ensures |JoinRows(s, bs)| == |bs|
    ensures forall i :: 0 <= i < |bs| ==> JoinRows(s, bs)[i].booking == bs[i]
  {
    if |bs| > 0 {
      var r := JoinRows(s, bs);
      var rest := JoinRows(s, bs[1..]);
      JoinRowsComplete(s, bs[1..]);
      assert r == [r[0]] + rest && r[0].booking == bs[0];
      forall i | 1 <= i < |bs|
        ensures r[i].booking == bs[i]
      {
        assert r[i] == rest[i - 1] && bs[i] == bs[1..][i - 1];
      }
    }
  }

  function CreatedAtOf(row: BookingRow): int {
    row.booking.createdAt
  }

  predicate OwnedBy(uid: int, b: Booking) {
    b.userId == uid
  }

  /** The bookings of user `uid`, in table order (the WHERE clause). */
  function Mine(s: Store, uid: int): (mine: seq<Booking>)
    ensures forall i :: 0 <= i < |mine| ==> mine[i] in s.bookings && mine[i].userId == uid
    ensures forall i :: 0 <= i < |s.bookings| && s.bookings[i].userId == uid ==> s.bookings[i] in mine
  {
    Filter(s.bookings, b => OwnedBy(uid, b))
  }

  /** The joined rows of user `uid`, newest first. */
  function UserRows(s: Store, uid: int): (rows: seq<BookingRow>)
    ensures SortedDesc(rows, CreatedAtOf)
    ensures forall j :: 0 <= j < |rows| ==> rows[j].booking in s.bookings && rows[j].booking.userId == uid
    ensures forall j :: 0 <= j < |rows| ==> JoinedWith(s, rows[j])
  {
    var joined := JoinRows(s, Mine(s, uid));
    var rows := SortDesc(joined, CreatedAtOf);
    forall j | 0 <= j < |rows|
      ensures rows[j].booking in s.bookings && rows[j].booking.userId == uid
      ensures JoinedWith(s, rows[j])
    {
      SortDescMembers(joined, CreatedAtOf, rows[j]);
    }
    rows
  }

  /** The range of the `integer` column `user_id`: a parameter outside it
      makes the comparison fail. */
  const Int4Min := -2147483648
  const Int4Max := 2147483647

  /** The tables the listing's join reads. */
  predicate ListingTablesExist(s: Store) {
    BookingsTable in s.tables && HotelsTable in s.tables && RoomsTable in s.tables
  }

  /** GET /api/bookings: `userId` is the raw query parameter. */
  function ListBookings(s: Store, userId: Option<string>): (r: ListOutcome)
    ensures r == UserIdRequired <==> userId.None? || userId.value == ""
    ensures r == QueryFailed <==>
      && userId.Some? && userId.value != ""
      && (|| Text.ParseInt(userId.value).None?
          || !(Int4Min <= Text.ParseInt(userId.value).value <= Int4Max)
          || !ListingTablesExist(s))
    ensures r.Listed? ==> SortedDesc(r.rows, CreatedAtOf)
    ensures r.Listed? ==> forall j :: 0 <= j < |r.rows| ==>
      r.rows[j].booking in s.bookings && r.rows[j].booking.userId == Text.ParseInt(userId.value).value
    ensures r.Listed? ==> forall j :: 0 <= j < |r.rows| ==> JoinedWith(s, r.rows[j])
  {
    if userId.None? || userId.value == "" then UserIdRequired
    else
      match Text.ParseInt(userId.value)
      case None => QueryFailed
      case Some(uid) =>
        if !(Int4Min <= uid <= Int4Max) || !ListingTablesExist(s) then QueryFailed
        else Listed(UserRows(s, uid))
  }

  /** Every booking references an existing hotel and room (the foreign keys
      of the bookings table). */
  predicate ReferencesIntact(s: Store) {
    forall i :: 0 <= i < |s.bookings| ==> HasHotel(s.hotels, s.bookings[i].hotelId) && HasRoom(s.rooms, s.bookings[i].roomId)
  }

  /** With intact foreign keys, a query parameter that reads as the number
      `uid` lists exactly the user's bookings: the rows of user `uid`, as
      many as the user has bookings, and a booking appears exactly when it
      is stored under `uid`. */
  lemma ListedExactlyOwnBookings(s: Store, text: string, uid: int, b: Booking)
    requires ReferencesIntact(s) && ListingTablesExist(s)
    requires Text.ParseInt(text) == Some(uid) && Int4Min <= uid <= Int4Max
    ensures var r := ListBookings(s, Some(text));
      && r == Listed(UserRows(s, uid))
      && |r.rows| == |Mine(s, uid)|
      && (b in s.bookings && b.userId == uid <==> exists j :: 0 <= j < |r.rows| && r.rows[j].booking == b)
  {
    var rows := UserRows(s, uid);
    ListingOfIntegerId(s, text, uid);
    UserRowsComplete(s, uid, b);
    forall j | 0 <= j < |rows| && rows[j].booking == b
      ensures b in s.bookings && b.userId == uid
    {
    }
  }

  /** The listing's outcome for a parameter that parses to an `integer`. */
  lemma ListingOfIntegerId(s: Store, text: string, uid: int)
    requires ListingTablesExist(s)
    requires Text.ParseInt(text) == Some(uid) && Int4Min <= uid <= Int4Max
    ensures ListBookings(s, Some(text)) == Listed(UserRows(s, uid))
  {
    assert text != "";
  }

  /** With intact foreign keys every booking of the user has a row. */
  lemma UserRowsComplete(s: Store, uid: int, b: Booking)
    requires ReferencesIntact(s)
    ensures |UserRows(s, uid)| == |Mine(s, uid)|
    ensures b in s.bookings && b.userId == uid ==>
      exists j :: 0 <= j < |UserRows(s, uid)| && UserRows(s, uid)[j].booking == b
  {
    var mine := Mine(s, uid);
    var joined := JoinRows(s, mine);
    var rows := UserRows(s, uid);
    assert rows == SortDesc(joined, CreatedAtOf);
    JoinRowsComplete(s, mine);
    if b in s.bookings && b.userId == uid {
      var i :| 0 <= i < |s.bookings| && s.bookings[i] == b;
      var k :| 0 <= k < |mine| && mine[k] == b;
      assert joined[k].booking == b;
      SortDescMembers(joined, CreatedAtOf, joined[k]);
    }
  }

  /** A room id found among rooms is still found after an update that
      keeps every room's id. */
  lemma RoomStillThere(rooms: seq<Room>, rooms': seq<Room>, id: int)
    requires |rooms'| == |rooms| && forall i :: 0 <= i < |rooms| ==> rooms'[i].id == rooms[i].id
    requires HasRoom(rooms, id)
    ensures HasRoom(rooms', id)
  {
    var k :| 0 <= k < |rooms| && rooms[k].id == id;
    assert rooms'[k].id == id;
  }

  /** POST /api/bookings keeps the foreign keys of the bookings table
      intact: a booking is only inserted for an existing hotel and room, and
      no hotel or room id ever changes. */
  lemma CreateKeepsReferences(s: Store, req: BookingRequest, now: int)
    requires ReferencesIntact(s)
    ensures ReferencesIntact(CreateBooking(s, req, now).1)
  {
    var (o, s') := CreateBooking(s, req, now);
    forall i | 0 <= i < |s'.bookings|
      ensures HasHotel(s'.hotels, s'.bookings[i].hotelId) && HasRoom(s'.rooms, s'.bookings[i].roomId)
    {
      if i < |s.bookings| {
        assert s'.bookings[i] == s.bookings[i];
        RoomStillThere(s.rooms, s'.rooms, s.bookings[i].roomId);
      } else {
        assert s'.bookings[i] == o.booking;
        RoomStillThere(s.rooms, s'.rooms, req.roomId.value);
      }
    }
  }

  /** The scenario of a booking followed by the user's listing: the new
      booking is listed for its user. */
  lemma CreatedBookingIsListed(s: Store, req: BookingRequest, now: int, text: string)
    requires ReferencesIntact(s) && ListingTablesExist(s)
    requires CreateBooking(s, req, now).0.Created?
    requires Text.ParseInt(text) == req.userId && Int4Min <= req.userId.value <= Int4Max
    ensures var (o, s') := CreateBooking(s, req, now);
      var r := ListBookings(s', Some(text));
      r.Listed? && exists j :: 0 <= j < |r.rows| && r.rows[j].booking == o.booking
  {
    var (o, s') := CreateBooking(s, req, now);
    CreateKeepsReferences(s, req, now);
    assert s'.bookings[|s.bookings|] == o.booking;
    ListedExactlyOwnBookings(s', text, req.userId.value, o.booking);
  }
}
