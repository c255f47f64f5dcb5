/** Schema initialisation (POST /api/init-db): create the five tables if
    absent, then seed. The demo user is inserted when the users table is
    empty; the three hotels, six rooms and three reviews are inserted when
    the hotels table is empty. Both decisions use the counts read before any
    insert. Rooms and reviews name their hotels and user by the literal ids
    1, 2 and 3, so seeding relies on the hotel sequence handing out exactly
    those ids. */
module InitDb {
  import opened Common
  import opened Store

  const RequiredTables: set<string> := {UsersTable, HotelsTable, RoomsTable, BookingsTable, ReviewsTable}

  const DemoPasswordHash := "$2a$12$LQv3c1yqBWVHxkd0LHAkCOYz6TtxMQJqhN8/LewdBMY9f5zqiUm4W"

  function DemoSeedUser(id: int): (u: User)
    ensures u.id == id && u.email == "demo@example.com" && u.password == Some(DemoPasswordHash)
  {
    User(id, "demo@example.com", "Demo", "User", Some("+1-555-0123"), Some("passport"), Some("AB123456"),
         "USD", "english", Some(DemoPasswordHash))
  }

  // Long descriptive texts of the seed rows.
  const GrandPlazaDescription := "Luxury hotel in the heart of downtown with world-class amenities"
  const SeasideDescription := "Beautiful beachfront resort with stunning ocean views"
  const CityComfortDescription := "Comfortable and affordable accommodation in midtown"
  const GrandPlazaReview := "The Grand Plaza Hotel exceeded all expectations. The service was impeccable and the amenities were top-notch."
  const SeasideReview := "The Seaside Resort had stunning views and great beach access. Would definitely return!"
  const CityComfortReview := "City Comfort Inn provided exactly what we needed at a reasonable price. Clean and comfortable."

  /** The three seed hotels; `id` is assigned by the sequence on insert. */
  function SeedHotels(): (hs: seq<Hotel>)
    ensures |hs| == 3
    ensures forall i :: 0 <= i < |hs| ==> 0 <= hs[i].rating <= 50
  {
    seq(3, i requires 0 <= i < 3 => SeedHotel(i))
  }

  function SeedHotel(i: nat): (h: Hotel)
    requires i < 3
    ensures 0 <= h.rating <= 50
  {
    match i
    case 0 =>
      Hotel(0, "Grand Plaza Hotel", GrandPlazaDescription,
            "Downtown", "123 Main Street", "New York", "USA", 45, 1250,
            ["Free WiFi", "Pool", "Spa", "Gym", "Restaurant"], true)
    case 1 =>
      Hotel(0, "Seaside Resort", SeasideDescription,
            "Beachfront", "456 Ocean Drive", "Miami", "USA", 48, 890,
            ["Ocean View", "Restaurant", "Gym", "Beach Access", "Pool"], true)
    case _ =>
      Hotel(0, "City Comfort Inn", CityComfortDescription,
            "Midtown", "789 City Avenue", "New York", "USA", 40, 650,
            ["Free Breakfast", "Parking", "Pet Friendly", "Free WiFi"], false)
  }

  /** The six seed rooms (prices in cents); `id` is assigned on insert. */
  function SeedRooms(): (rs: seq<Room>)
    ensures |rs| == 6
    ensures forall i :: 0 <= i < |rs| ==> 0 <= rs[i].availableRooms <= rs[i].totalRooms
    ensures forall i :: 0 <= i < |rs| ==> 1 <= rs[i].hotelId <= 3 && rs[i].pricePerNight > 0 && rs[i].maxOccupancy >= 1
  {
    seq(6, i requires 0 <= i < 6 => SeedRoom(i))
  }

  function SeedRoom(i: nat): (r: Room)
    requires i < 6
    ensures 0 <= r.availableRooms <= r.totalRooms
    ensures 1 <= r.hotelId <= 3 && r.pricePerNight > 0 && r.maxOccupancy >= 1
  {
    match i
    case 0 => Room(0, 1, "Standard Room", "Comfortable room with city view", 12000, 2,
                   ["Free WiFi", "Air Conditioning", "TV"], 20, 15)
    case 1 => Room(0, 1, "Deluxe Suite", "Spacious suite with premium amenities", 25000, 4,
                   ["Free WiFi", "Air Conditioning", "TV", "Mini Bar", "Balcony"], 10, 8)
    case 2 => Room(0, 2, "Ocean View Room", "Room with stunning ocean views", 20000, 2,
                   ["Ocean View", "Free WiFi", "Air Conditioning", "TV"], 30, 25)
    case 3 => Room(0, 2, "Beach Villa", "Private villa steps from the beach", 40000, 6,
                   ["Ocean View", "Private Beach", "Kitchen", "Free WiFi"], 5, 3)
    case 4 => Room(0, 3, "Standard Room", "Clean and comfortable standard room", 8500, 2,
                   ["Free WiFi", "Air Conditioning", "TV"], 40, 35)
    case _ => Room(0, 3, "Family Room", "Spacious room perfect for families", 12000, 4,
                   ["Free WiFi", "Air Conditioning", "TV", "Microwave"], 15, 12)
  }

  /** The three seed reviews, all by user 1; `id` is assigned on insert. */
  function SeedReviews(): (rv: seq<Review>)
    ensures |rv| == 3
    ensures forall i :: 0 <= i < |rv| ==> 1 <= rv[i].rating <= 5
    ensures forall i :: 0 <= i < |rv| ==> rv[i].userId == 1 && rv[i].hotelId == i + 1 && rv[i].bookingId.None?
  {
    seq(3, i requires 0 <= i < 3 => SeedReview(i))
  }

  function SeedReview(i: nat): (r: Review)
    requires i < 3
    ensures 1 <= r.rating <= 5
    ensures r.userId == 1 && r.hotelId == i + 1 && r.bookingId.None?
  {
    match i
    case 0 => Review(0, 1, 1, None, 5, "Excellent stay!", GrandPlazaReview)
    case 1 => Review(0, 1, 2, None, 4, "Beautiful ocean views", SeasideReview)
    case _ => Review(0, 1, 3, None, 4, "Good value for money", CityComfortReview)
  }

  /** `hs` with the ids `first`, `first + 1`, ... the sequence hands out. */
  function StampHotels(hs: seq<Hotel>, first: int): (r: seq<Hotel>)
    ensures |r| == |hs| && forall i :: 0 <= i < |hs| ==> r[i] == hs[i].(id := first + i)
  {
    seq(|hs|, i requires 0 <= i < |hs| => hs[i].(id := first + i))
  }

  function StampRooms(rs: seq<Room>, first: int): (r: seq<Room>)
    ensures |r| == |rs| && forall i :: 0 <= i < |rs| ==> r[i] == rs[i].(id := first + i)
  {
    seq(|rs|, i requires 0 <= i < |rs| => rs[i].(id := first + i))
  }

  function StampReviews(rv: seq<Review>, first: int): (r: seq<Review>)
    ensures |r| == |rv| && forall i :: 0 <= i < |rv| ==> r[i] == rv[i].(id := first + i)
  {
    seq(|rv|, i requires 0 <= i < |rv| => rv[i].(id := first + i))
  }

  lemma StampHotelsCons(hs: seq<Hotel>, first: int)
    requires |hs| > 0
    ensures [hs[0].(id := first)] + StampHotels(hs[1..], first + 1) == StampHotels(hs, first)
  {
    var l := [hs[0].(id := first)] + StampHotels(hs[1..], first + 1);
    forall i | 0 <= i < |hs|
      ensures l[i] == StampHotels(hs, first)[i]
    {
      if i > 0 {
        assert l[i] == StampHotels(hs[1..], first + 1)[i - 1];
      }
    }
  }

  lemma StampRoomsCons(rs: seq<Room>, first: int)
    requires |rs| > 0
    ensures [rs[0].(id := first)] + StampRooms(rs[1..], first + 1) == StampRooms(rs, first)
  {
    var l := [rs[0].(id := first)] + StampRooms(rs[1..], first + 1);
    forall i | 0 <= i < |rs|
      ensures l[i] == StampRooms(rs, first)[i]
    {
      if i > 0 {
        assert l[i] == StampRooms(rs[1..], first + 1)[i - 1];
      }
    }
  }

  lemma AppendAssoc<T>(a: seq<T>, b: seq<T>, c: seq<T>)
    ensures a + b + c == a + (b + c)
  {
  }

  lemma PrefixOfPrefix<T>(xs: seq<T>, m: nat, n: nat)
    requires m <= n <= |xs|
    ensures xs[..n][..m] == xs[..m]
  {
  }

  /** One INSERT per hotel, each taking the next id. */
  function InsertHotels(s: Store, hs: seq<Hotel>): (r: Store)
    ensures r == s.(hotels := s.hotels + StampHotels(hs, s.nextHotelId), nextHotelId := s.nextHotelId + |hs|)
    decreases |hs|
  {
    if |hs| == 0 then
      assert s.hotels + StampHotels(hs, s.nextHotelId) == s.hotels;
      s
    else
      var s1 := s.(hotels := s.hotels + [hs[0].(id := s.nextHotelId)], nextHotelId := s.nextHotelId + 1);
      var r := InsertHotels(s1, hs[1..]);
      OneMoreHotel(s, hs, s1, r);
      r
  }

  /** Inserting the first hotel, then the rest, inserts them all. */
  lemma OneMoreHotel(s: Store, hs: seq<Hotel>, s1: Store, r: Store)
    requires |hs| > 0
    requires s1 == s.(hotels := s.hotels + [hs[0].(id := s.nextHotelId)], nextHotelId := s.nextHotelId + 1)
    requires r == s1.(hotels := s1.hotels + StampHotels(hs[1..], s1.nextHotelId), nextHotelId := s1.nextHotelId + |hs[1..]|)
    ensures r == s.(hotels := s.hotels + StampHotels(hs, s.nextHotelId), nextHotelId := s.nextHotelId + |hs|)
  {
    StampHotelsCons(hs, s.nextHotelId);
    AppendAssoc(s.hotels, [hs[0].(id := s.nextHotelId)], StampHotels(hs[1..], s1.nextHotelId));
    assert r.hotels == s.hotels + StampHotels(hs, s.nextHotelId);
  }

  /** How many of `rs`, from the front, name an existing hotel. */
  function RoomsPlaceable(hotels: seq<Hotel>, rs: seq<Room>): (k: nat)
    ensures k <= |rs|
    ensures forall i :: 0 <= i < k ==> HasHotel(hotels, rs[i].hotelId)
    ensures k < |rs| ==> !HasHotel(hotels, rs[k].hotelId)
  {
    if |rs| == 0 || !HasHotel(hotels, rs[0].hotelId) then 0
    else
      var k := RoomsPlaceable(hotels, rs[1..]);
      assert forall i :: 1 <= i < |rs| ==> rs[i] == rs[1..][i - 1];
      1 + k
  }

  /** Every room can be placed exactly when every room names an existing
      hotel. */
  lemma AllRoomsPlaceable(hotels: seq<Hotel>, rs: seq<Room>)
    ensures RoomsPlaceable(hotels, rs) == |rs| <==> forall i :: 0 <= i < |rs| ==> HasHotel(hotels, rs[i].hotelId)
  {
    var k := RoomsPlaceable(hotels, rs);
    if k < |rs| {
      assert !HasHotel(hotels, rs[k].hotelId);
    }
  }

  /** One INSERT per room, each taking the next id; an insert whose hotel
      does not exist fails on the foreign key and stops the run (false). The
      rooms inserted before it stay, and the failed insert has drawn an id. */
  function InsertRooms(s: Store, rs: seq<Room>): (r: (bool, Store))
    ensures var k := RoomsPlaceable(s.hotels, rs);
      && (r.0 <==> k == |rs|)
      && r.1 == s.(rooms := s.rooms + StampRooms(rs[..k], s.nextRoomId),
                   nextRoomId := s.nextRoomId + k + (if r.0 then 0 else 1))
    decreases |rs|
  {
    if |rs| == 0 then
      NothingStamped(s.rooms, rs, s.nextRoomId);
      (true, s)
    else if !HasHotel(s.hotels, rs[0].hotelId) then
      NothingStamped(s.rooms, rs, s.nextRoomId);
      (false, s.(nextRoomId := s.nextRoomId + 1))
    else
      var s1 := s.(rooms := s.rooms + [rs[0].(id := s.nextRoomId)], nextRoomId := s.nextRoomId + 1);
      var r := InsertRooms(s1, rs[1..]);
      OneMoreRoom(s, rs, s1, r);
      r
  }

  /** Inserting the first room, which names an existing hotel, then the
      rest, inserts as many as the whole run places. */
  lemma OneMoreRoom(s: Store, rs: seq<Room>, s1: Store, r: (bool, Store))
    requires |rs| > 0 && HasHotel(s.hotels, rs[0].hotelId)
    requires s1 == s.(rooms := s.rooms + [rs[0].(id := s.nextRoomId)], nextRoomId := s.nextRoomId + 1)
    requires var k := RoomsPlaceable(s1.hotels, rs[1..]);
      && (r.0 <==> k == |rs[1..]|)
      && r.1 == s1.(rooms := s1.rooms + StampRooms(rs[1..][..k], s1.nextRoomId),
                    nextRoomId := s1.nextRoomId + k + (if r.0 then 0 else 1))
    ensures var k := RoomsPlaceable(s.hotels, rs);
      && (r.0 <==> k == |rs|)
      && r.1 == s.(rooms := s.rooms + StampRooms(rs[..k], s.nextRoomId),
                   nextRoomId := s.nextRoomId + k + (if r.0 then 0 else 1))
  {
    var k := RoomsPlaceable(s.hotels, rs);
    var k1 := RoomsPlaceable(s1.hotels, rs[1..]);
    assert s1.hotels == s.hotels;
    assert k == 1 + k1;
    OneMoreStamped(s.rooms, rs, s.nextRoomId, k);
    assert r.1.rooms == s.rooms + StampRooms(rs[..k], s.nextRoomId);
    assert r.1.nextRoomId == s.nextRoomId + k + (if r.0 then 0 else 1);
    assert r.1 == s.(rooms := r.1.rooms, nextRoomId := r.1.nextRoomId);
  }

  lemma NothingStamped(rooms: seq<Room>, rs: seq<Room>, first: int)
    ensures rooms + StampRooms(rs[..0], first) == rooms
  {
    assert StampRooms(rs[..0], first) == [];
  }

  /** Placing the first room, then `k - 1` more, places `k`. */
  lemma OneMoreStamped(rooms: seq<Room>, rs: seq<Room>, first: int, k: nat)
    requires 1 <= k <= |rs|
    ensures rooms + [rs[0].(id := first)] + StampRooms(rs[1..][..k - 1], first + 1)
         == rooms + StampRooms(rs[..k], first)
  {
    assert rs[1..][..k - 1] == rs[..k][1..];
    StampRoomsCons(rs[..k], first);
    AppendAssoc(rooms, [rs[0].(id := first)], StampRooms(rs[..k][1..], first + 1));
  }

  /** The reviews are one multi-row INSERT: it adds all rows or, when a user
      or hotel they name is missing, none (the ids it drew stay used). */
  function InsertReviews(s: Store, rv: seq<Review>): (r: (bool, Store))
    ensures r.0 <==> forall i :: 0 <= i < |rv| ==> HasUser(s.users, rv[i].userId) && HasHotel(s.hotels, rv[i].hotelId)
    ensures r.0 ==> r.1 == s.(reviews := s.reviews + StampReviews(rv, s.nextReviewId), nextReviewId := s.nextReviewId + |rv|)
    ensures !r.0 ==> r.1 == s.(nextReviewId := s.nextReviewId + |rv|)
  {
    var ok := forall i :: 0 <= i < |rv| ==> HasUser(s.users, rv[i].userId) && HasHotel(s.hotels, rv[i].hotelId);
    if ok then (true, s.(reviews := s.reviews + StampReviews(rv, s.nextReviewId), nextReviewId := s.nextReviewId + |rv|))
    else (false, s.(nextReviewId := s.nextReviewId + |rv|))
  }

  datatype InitOutcome = Initialized | InitFailed   // 200 success / 500 "Failed to initialize database"

  /** The store after the tables exist and the demo user step has run. */
  function WithDemoUser(s: Store): (r: Store)
    ensures r.tables == s.tables + RequiredTables
    ensures r.hotels == s.hotels && r.rooms == s.rooms && r.reviews == s.reviews && r.bookings == s.bookings
    ensures |s.users| > 0 ==> r.users == s.users && r.nextUserId == s.nextUserId
    ensures |s.users| == 0 ==> r.users == [DemoSeedUser(s.nextUserId)] && r.nextUserId == s.nextUserId + 1
    ensures r == s.(tables := r.tables, users := r.users, nextUserId := r.nextUserId)
  {
    var s0 := s.(tables := s.tables + RequiredTables);
    if |s.users| == 0 then s0.(users := [DemoSeedUser(s.nextUserId)], nextUserId := s.nextUserId + 1)
    else s0
  }

  /** The seeding branch for the rows `hs`, `rs` and `rv`: hotels one by
      one, then rooms one by one, then the reviews in one statement; a
      failure ends the run. */
  function SeedWith(s: Store, hs: seq<Hotel>, rs: seq<Room>, rv: seq<Review>): (r: (InitOutcome, Store))
    ensures r.1.users == s.users && r.1.bookings == s.bookings && r.1.tables == s.tables
    ensures r.1.hotels == s.hotels + StampHotels(hs, s.nextHotelId)
    ensures r.0 == Initialized ==>
      && r.1.rooms == s.rooms + StampRooms(rs, s.nextRoomId)
      && r.1.reviews == s.reviews + StampReviews(rv, s.nextReviewId)
    // rows already present are never removed, even when seeding fails
    ensures s.rooms <= r.1.rooms && s.reviews <= r.1.reviews
    // the user and booking sequences are not touched
    ensures r.1.nextUserId == s.nextUserId && r.1.nextBookingId == s.nextBookingId
  {
    var s2 := InsertHotels(s, hs);
    var (roomsOk, s3) := InsertRooms(s2, rs);
    assert s3.rooms == s.rooms + StampRooms(rs[..RoomsPlaceable(s2.hotels, rs)], s.nextRoomId);
    if !roomsOk then (InitFailed, s3)
    else
      assert rs[..|rs|] == rs;
      var (reviewsOk, s4) := InsertReviews(s3, rv);
      if reviewsOk then (Initialized, s4) else (InitFailed, s4)
  }

  /** The seeding branch of the handler, with its three hotels, six rooms
      and three reviews. */
  function Seed(s: Store): (InitOutcome, Store) {
    SeedWith(s, SeedHotels(), SeedRooms(), SeedReviews())
  }

  /** POST /api/init-db. */
  function Init(s: Store): (r: (InitOutcome, Store))
    ensures RequiredTables <= r.1.tables
    ensures r.1.tables == s.tables + RequiredTables
    // the demo user is added exactly when there were no users
    ensures |s.users| == 0 ==> r.1.users == [DemoSeedUser(s.nextUserId)]
    ensures |s.users| > 0 ==> r.1.users == s.users
    ensures r.1.nextUserId == if |s.users| == 0 then s.nextUserId + 1 else s.nextUserId
    ensures r.1.nextBookingId == s.nextBookingId
    // seeding happens exactly when there were no hotels, whatever the rooms and reviews
    ensures |s.hotels| > 0 ==> r.0 == Initialized && r.1 == WithDemoUser(s)
    ensures |s.hotels| == 0 ==> r.1.hotels == StampHotels(SeedHotels(), s.nextHotelId)
    ensures |s.hotels| == 0 && r.0 == Initialized ==>
      && r.1.rooms == s.rooms + StampRooms(SeedRooms(), s.nextRoomId)
      && r.1.reviews == s.reviews + StampReviews(SeedReviews(), s.nextReviewId)
    ensures r.1.bookings == s.bookings
    // existing rooms and reviews are kept, whether seeding succeeds or fails
    ensures s.rooms <= r.1.rooms && s.reviews <= r.1.reviews
    // after any run both counts that gate seeding are positive
    ensures |r.1.users| > 0 && |r.1.hotels| > 0
  {
    var s1 := WithDemoUser(s);
    if |s.hotels| > 0 then (Initialized, s1)
    else
      assert s1.hotels + StampHotels(SeedHotels(), s1.nextHotelId) == StampHotels(SeedHotels(), s.nextHotelId);
      assert s1.rooms == s.rooms && s1.reviews == s.reviews;
      Seed(s1)
  }

  /** Initialisation is idempotent: a second run inserts nothing, succeeds,
      and leaves the store exactly as the first run left it. */
  lemma InitTwiceIsInitOnce(s: Store)
    ensures Init(Init(s).1) == (Initialized, Init(s).1)
  {
    var s1 := Init(s).1;
    assert s1.tables + RequiredTables == s1.tables;
    assert WithDemoUser(s1) == s1;
  }

  /** From a store with no users and no hotels whose user and hotel
      sequences are at 1, initialisation succeeds: the demo user becomes
      user 1, the hotels get the ids 1 to 3 their rooms and reviews name, and
      every seed room and review is added. */
  lemma FirstInitSeedsEverything(s: Store)
    requires |s.users| == 0 && |s.hotels| == 0 && s.nextUserId == 1 && s.nextHotelId == 1
    ensures var (o, s') := Init(s);
      && o == Initialized
      && s'.users == [DemoSeedUser(1)]
      && s'.hotels == StampHotels(SeedHotels(), 1)
      && s'.rooms == s.rooms + StampRooms(SeedRooms(), s.nextRoomId)
      && s'.reviews == s.reviews + StampReviews(SeedReviews(), s.nextReviewId)
  {
    var s1 := WithDemoUser(s);
    DemoUserIsUserOne(s);
    SeedWithSucceeds(s1, SeedHotels(), SeedRooms(), SeedReviews());
    assert Init(s).0 == Initialized by {
      assert Init(s) == SeedWith(s1, SeedHotels(), SeedRooms(), SeedReviews());
    }
  }

  /** On an empty users table the demo user becomes user 1. */
  lemma DemoUserIsUserOne(s: Store)
    requires |s.users| == 0 && s.nextUserId == 1
    ensures HasUser(WithDemoUser(s).users, 1)
  {
    assert WithDemoUser(s).users[0].id == 1;
  }

  /** Seeding a store with no hotels, its hotel sequence at 1 and a user 1
      succeeds for any rows whose references stay within the hotels being
      inserted and user 1. */
  lemma SeedWithSucceeds(s: Store, hs: seq<Hotel>, rs: seq<Room>, rv: seq<Review>)
    requires |s.hotels| == 0 && s.nextHotelId == 1 && HasUser(s.users, 1)
    requires forall i :: 0 <= i < |rs| ==> 1 <= rs[i].hotelId <= |hs|
    requires forall i :: 0 <= i < |rv| ==> rv[i].userId == 1 && 1 <= rv[i].hotelId <= |hs|
    ensures SeedWith(s, hs, rs, rv).0 == Initialized
  {
    var s2 := InsertHotels(s, hs);
    FreshHotelsNumbered(s, hs);
    RoomsAllPlaced(s2, rs, |hs|);
    var s3 := InsertRooms(s2, rs).1;
    ReviewsAllPlaced(s3, rv, |hs|);
  }

  /** Hotels inserted into an empty table on a fresh sequence get the ids
      1, 2, ... */
  lemma FreshHotelsNumbered(s: Store, hs: seq<Hotel>)
    requires |s.hotels| == 0 && s.nextHotelId == 1
    ensures forall id :: 1 <= id <= |hs| ==> HasHotel(InsertHotels(s, hs).hotels, id)
  {
    var s2 := InsertHotels(s, hs);
    assert s2.hotels == StampHotels(hs, 1) by {
      assert s.hotels + StampHotels(hs, 1) == StampHotels(hs, 1);
    }
    HotelsOneToN(s2.hotels);
  }

  /** Rooms that all name one of the hotels 1 to `n` are all inserted. */
  lemma RoomsAllPlaced(s: Store, rs: seq<Room>, n: int)
    requires forall id :: 1 <= id <= n ==> HasHotel(s.hotels, id)
    requires forall i :: 0 <= i < |rs| ==> 1 <= rs[i].hotelId <= n
    ensures InsertRooms(s, rs).0
    ensures InsertRooms(s, rs).1.hotels == s.hotels && InsertRooms(s, rs).1.users == s.users
  {
    AllRoomsPlaceable(s.hotels, rs);
  }

  /** Reviews by user 1 of the hotels 1 to `n` are all inserted. */
  lemma ReviewsAllPlaced(s: Store, rv: seq<Review>, n: int)
    requires HasUser(s.users, 1)
    requires forall id :: 1 <= id <= n ==> HasHotel(s.hotels, id)
    requires forall i :: 0 <= i < |rv| ==> rv[i].userId == 1 && 1 <= rv[i].hotelId <= n
    ensures InsertReviews(s, rv).0
  {
  }

  lemma HotelsOneToN(hotels: seq<Hotel>)
    requires forall i :: 0 <= i < |hotels| ==> hotels[i].id == i + 1
    ensures forall id :: 1 <= id <= |hotels| ==> HasHotel(hotels, id)
  {
    forall id | 1 <= id <= |hotels|
      ensures HasHotel(hotels, id)
    {
      assert hotels[id - 1].id == id;
    }
  }

  /** The same for a database that was never initialised. */
  lemma FreshInitSeedsEverything()
    ensures Init(EmptyStore).0 == Initialized
    ensures |Init(EmptyStore).1.rooms| == 6 && |Init(EmptyStore).1.reviews| == 3
  {
    FirstInitSeedsEverything(EmptyStore);
  }

  /** Seeding assumes the hotel sequence starts at 1. When the hotels table
      is empty but its sequence has moved on (rows were deleted), the new
      hotels get other ids, the first room's hotel 1 is missing, and the run
      fails after inserting the hotels. */
  lemma SeedingNeedsFreshHotelSequence(s: Store)
    requires |s.hotels| == 0 && s.nextHotelId > 1
    ensures Init(s).0 == InitFailed
    ensures |Init(s).1.hotels| == 3 && Init(s).1.rooms == s.rooms
  {
    assert SeedRooms()[0].hotelId == 1;
    SeedFailsOnMovedSequence(WithDemoUser(s), SeedHotels(), SeedRooms(), SeedReviews());
  }

  lemma SeedFailsOnMovedSequence(s: Store, hs: seq<Hotel>, rs: seq<Room>, rv: seq<Review>)
    requires |s.hotels| == 0 && s.nextHotelId > 1
    requires |rs| > 0 && rs[0].hotelId == 1
    ensures SeedWith(s, hs, rs, rv).0 == InitFailed && SeedWith(s, hs, rs, rv).1.rooms == s.rooms
  {
    var s2 := InsertHotels(s, hs);
    assert !HasHotel(s2.hotels, 1) by {
      forall i | 0 <= i < |s2.hotels|
        ensures s2.hotels[i].id != 1
      {
        assert s2.hotels[i] == hs[i].(id := s.nextHotelId + i);
      }
    }
    assert RoomsPlaceable(s2.hotels, rs) == 0;
    NothingStamped(s.rooms, rs, s.nextRoomId);
    var (ok, s3) := InsertRooms(s2, rs);
    assert !ok && s3.rooms == s.rooms;
    assert SeedWith(s, hs, rs, rv) == (InitFailed, s3);
  }
}
