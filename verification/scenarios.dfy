/** End-to-end runs on a database that was never initialised: seed it, list
    the hotels, book a room. */
module Scenarios {
  import opened Common
  import opened Store
  import Hotels
  import Bookings
  import InitDb
  import Text

  /** The store after the first initialisation of an empty database. */
  function Seeded(): (s: Store)
    ensures s.hotels == InitDb.StampHotels(InitDb.SeedHotels(), 1)
    ensures s.rooms == InitDb.StampRooms(InitDb.SeedRooms(), 1)
    ensures s.users == [InitDb.DemoSeedUser(1)] && s.bookings == []
    ensures InitDb.RequiredTables <= s.tables
  {
    InitDb.FirstInitSeedsEverything(EmptyStore);
    var s := FirstInit().1;
    assert s.rooms == InitDb.StampRooms(InitDb.SeedRooms(), 1) by {
      assert [] + InitDb.StampRooms(InitDb.SeedRooms(), 1) == InitDb.StampRooms(InitDb.SeedRooms(), 1);
    }
    s
  }

  /** The first initialisation of an empty database. */
  function FirstInit(): (r: (InitDb.InitOutcome, Store))
    ensures r.0 == InitDb.Initialized
  {
    InitDb.FreshInitSeedsEverything();
    InitDb.Init(EmptyStore)
  }

  /** The hotels table after seeding: ids 1 to 3 in insertion order, with
      their ratings in tenths. */
  predicate SeedHotelsShape(hotels: seq<Hotel>) {
    && |hotels| == 3
    && hotels[0].id == 1 && hotels[0].rating == 45
    && hotels[1].id == 2 && hotels[1].rating == 48
    && hotels[2].id == 3 && hotels[2].rating == 40
  }

  /** The names of the three seed hotels. */
  predicate SeedHotelNames(hotels: seq<Hotel>) {
    && |hotels| == 3
    && hotels[0].name == "Grand Plaza Hotel"
    && hotels[1].name == "Seaside Resort"
    && hotels[2].name == "City Comfort Inn"
  }

  /** The hotel of seed room `i` (counted from 0): two rooms per hotel. */
  function SeedRoomHotel(i: int): int {
    if i < 2 then 1 else if i < 4 then 2 else 3
  }

  /** The seed rooms' hotels and nightly prices (in cents), and the three
      free units of the Beach Villa. */
  predicate SeedRoomRows(rooms: seq<Room>) {
    && |rooms| == 6
    && (forall i :: 0 <= i < 6 ==> rooms[i].hotelId == SeedRoomHotel(i))
    && rooms[0].pricePerNight == 12000 && rooms[1].pricePerNight == 25000
    && rooms[2].pricePerNight == 20000 && rooms[3].pricePerNight == 40000
    && rooms[4].pricePerNight == 8500 && rooms[5].pricePerNight == 12000
    && rooms[3].availableRooms == 3
  }

  /** The rooms table after seeding: the seed rooms with ids 1 to 6. */
  predicate SeedRoomsShape(rooms: seq<Room>) {
    SeedRoomRows(rooms) && forall i :: 0 <= i < 6 ==> rooms[i].id == i + 1
  }

  lemma SeededHotels()
    ensures SeedHotelsShape(Seeded().hotels) && SeedHotelNames(Seeded().hotels)
  {
    var hs := InitDb.SeedHotels();
    assert hs[0] == InitDb.SeedHotel(0) && hs[1] == InitDb.SeedHotel(1) && hs[2] == InitDb.SeedHotel(2);
  }

  lemma SeededRooms()
    ensures SeedRoomsShape(Seeded().rooms)
  {
    SeedRoomsAreSeedRows();
    StampedSeedRows(InitDb.SeedRooms());
  }

  lemma SeedRoomsAreSeedRows()
    ensures SeedRoomRows(InitDb.SeedRooms())
  {
    var rs := InitDb.SeedRooms();
    forall i | 0 <= i < 6
      ensures rs[i].hotelId == SeedRoomHotel(i)
    {
      assert rs[i] == InitDb.SeedRoom(i);
    }
    assert rs[0] == InitDb.SeedRoom(0) && rs[1] == InitDb.SeedRoom(1) && rs[2] == InitDb.SeedRoom(2);
    assert rs[3] == InitDb.SeedRoom(3) && rs[4] == InitDb.SeedRoom(4) && rs[5] == InitDb.SeedRoom(5);
  }

  /** Inserting the seed rows into an empty rooms table gives them ids 1 to 6
      and changes nothing else. */
  lemma StampedSeedRows(rs: seq<Room>)
    requires SeedRoomRows(rs)
    ensures SeedRoomsShape(InitDb.StampRooms(rs, 1))
  {
    var rooms := InitDb.StampRooms(rs, 1);
    assert forall i :: 0 <= i < 6 ==> rooms[i] == rs[i].(id := 1 + i);
  }

  const NoFilter := Hotels.HotelQuery(None, None, None, None, None)

  /** With no filter the three seed hotels are listed best rated first, each
      with the price range of its two rooms. */
  lemma SeededListing()
    ensures var r := Hotels.ListHotels(Seeded(), NoFilter);
      && r.Listed? && |r.rows| == 3
      && r.rows[0].hotel.name == "Seaside Resort" && r.rows[0].minPrice == 20000 && r.rows[0].maxPrice == 40000
      && r.rows[1].hotel.name == "Grand Plaza Hotel" && r.rows[1].minPrice == 12000 && r.rows[1].maxPrice == 25000
      && r.rows[2].hotel.name == "City Comfort Inn" && r.rows[2].minPrice == 8500 && r.rows[2].maxPrice == 12000
  {
    SeededHotels();
    SeededRooms();
    ListingOfSeedShape(Seeded());
  }

  /** The unfiltered listing of any store whose hotels and rooms tables hold
      the seed rows. */
  lemma ListingOfSeedShape(s: Store)
    requires HotelsTable in s.tables && RoomsTable in s.tables
    requires SeedHotelsShape(s.hotels) && SeedRoomsShape(s.rooms)
    ensures var r := Hotels.ListHotels(s, NoFilter);
      && r.Listed?
      && r.rows == [Hotels.HotelRow(s.hotels[1], 20000, 40000),
                    Hotels.HotelRow(s.hotels[0], 12000, 25000),
                    Hotels.HotelRow(s.hotels[2], 8500, 12000)]
  {
    var r := Hotels.ListHotels(s, NoFilter);
    assert !Hotels.Active(Hotels.ReadParams(NoFilter));
    SeedShapeRows(s.rooms, s.hotels);
    var a := Hotels.HotelRow(s.hotels[0], 12000, 25000);
    var b := Hotels.HotelRow(s.hotels[1], 20000, 40000);
    var c := Hotels.HotelRow(s.hotels[2], 8500, 12000);
    assert multiset(r.rows) == multiset([a, b, c]);
    assert multiset([a, b, c]) == multiset{a, b, c};
    ThreeSorted(r.rows, a, b, c);
  }

  lemma SeedShapeRows(rooms: seq<Room>, hotels: seq<Hotel>)
    requires SeedRoomsShape(rooms) && SeedHotelsShape(hotels)
    ensures Hotels.Rows(rooms, hotels) == [Hotels.HotelRow(hotels[0], 12000, 25000),
                                           Hotels.HotelRow(hotels[1], 20000, 40000),
                                           Hotels.HotelRow(hotels[2], 8500, 12000)]
  {
    RowOfTwoRooms(rooms, hotels[0], 0, 12000, 25000);
    RowOfTwoRooms(rooms, hotels[1], 2, 20000, 40000);
    RowOfTwoRooms(rooms, hotels[2], 4, 8500, 12000);
    RowsOfThree(rooms, hotels, Hotels.HotelRow(hotels[0], 12000, 25000),
                Hotels.HotelRow(hotels[1], 20000, 40000), Hotels.HotelRow(hotels[2], 8500, 12000));
  }

  lemma RowsOfThree(rooms: seq<Room>, hotels: seq<Hotel>, a: Hotels.HotelRow, b: Hotels.HotelRow, c: Hotels.HotelRow)
    requires |hotels| == 3
    requires Hotels.RowOf(rooms, hotels[0]) == a && Hotels.RowOf(rooms, hotels[1]) == b
    requires Hotels.RowOf(rooms, hotels[2]) == c
    ensures Hotels.Rows(rooms, hotels) == [a, b, c]
  {
    var r := Hotels.Rows(rooms, hotels);
    assert r[0] == a && r[1] == b && r[2] == c;
  }

  /** The row of a hotel that owns exactly two adjacent rooms, priced `lo`
      and `hi` with `lo <= hi`. */
  lemma RowOfTwoRooms(rooms: seq<Room>, h: Hotel, k: nat, lo: int, hi: int)
    requires k + 1 < |rooms|
    requires rooms[k].hotelId == h.id && rooms[k + 1].hotelId == h.id
    requires rooms[k].pricePerNight == lo && rooms[k + 1].pricePerNight == hi && lo <= hi
    requires forall i :: 0 <= i < |rooms| && rooms[i].hotelId == h.id ==> i == k || i == k + 1
    ensures Hotels.RowOf(rooms, h) == Hotels.HotelRow(h, lo, hi)
  {
    assert Hotels.HasRoomIn(rooms, h.id) by {
      assert rooms[k].hotelId == h.id;
    }
  }

  /** Sorting three rows of distinct ratings 48 > 45 > 40. */
  lemma ThreeSorted(xs: seq<Hotels.HotelRow>, a: Hotels.HotelRow, b: Hotels.HotelRow, c: Hotels.HotelRow)
    requires a.hotel.rating == 45 && b.hotel.rating == 48 && c.hotel.rating == 40
    requires multiset(xs) == multiset{a, b, c}
    requires SortedDesc(xs, Hotels.RatingOf)
    ensures xs == [b, a, c]
  {
    assert |xs| == 3 by {
      assert |multiset(xs)| == 3;
    }
    assert xs[0] in multiset(xs) && xs[1] in multiset(xs) && xs[2] in multiset(xs);
    assert Hotels.RatingOf(xs[0]) >= Hotels.RatingOf(xs[1]) >= Hotels.RatingOf(xs[2]);
    assert a in multiset(xs) && b in multiset(xs) && c in multiset(xs);
  }

  /** Two nights in the Beach Villa (room 4 of hotel 2) for the demo user. */
  const VillaRequest := Bookings.BookingRequest(Some(1), Some(2), Some(4), Some("2025-07-01"), Some("2025-07-03"),
                                                Some(2), Some(80000), None)

  /** Booking the Beach Villa on the seeded database: the booking is
      confirmed (201), the villa goes from 3 free units to 2, and the demo
      user's listing shows the booking. */
  lemma SeededBooking(now: int)
    ensures var (o, s') := Bookings.CreateBooking(Seeded(), VillaRequest, now);
      && o.Created? && Bookings.CreateStatus(o) == 201
      && o.booking.status == "confirmed" && o.booking.totalPrice == 80000 && o.booking.specialRequests == ""
      && s'.rooms[3].id == 4 && s'.rooms[3].availableRooms == 2
      && var listing := Bookings.ListBookings(s', Some("1"));
         listing.Listed? && exists j :: 0 <= j < |listing.rows| && listing.rows[j].booking == o.booking
  {
    SeededHotels();
    SeededRooms();
    BookingOnSeedShape(Seeded(), now);
  }

  lemma BookingOnSeedShape(s: Store, now: int)
    requires |s.users| >= 1 && s.users[0].id == 1
    requires SeedHotelsShape(s.hotels) && SeedRoomsShape(s.rooms)
    requires s.bookings == [] && Bookings.ListingTablesExist(s)
    ensures var (o, s') := Bookings.CreateBooking(s, VillaRequest, now);
      && o.Created? && Bookings.CreateStatus(o) == 201
      && o.booking.status == "confirmed" && o.booking.totalPrice == 80000 && o.booking.specialRequests == ""
      && s'.rooms[3].id == 4 && s'.rooms[3].availableRooms == 2
      && var listing := Bookings.ListBookings(s', Some("1"));
         listing.Listed? && exists j :: 0 <= j < |listing.rows| && listing.rows[j].booking == o.booking
  {
    var req := VillaRequest;
    assert Bookings.HasRequiredFields(req);
    assert HasUser(s.users, 1);
    assert HasHotel(s.hotels, 2);
    assert UniqueRoomIds(s.rooms);
    assert s.rooms[3].id == 4;
    assert FindRoom(s.rooms, 4) == Some(s.rooms[3]);
    var (o, s') := Bookings.CreateBooking(s, req, now);
    assert o.Created?;
    assert Bookings.ReferencesIntact(s);
    assert Text.NatToDecimal(1) == "1";
    Text.ParseIntOfDecimal(1);
    Bookings.CreatedBookingIsListed(s, req, now, "1");
  }
}
