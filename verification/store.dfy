/** The database as an immutable value: one sequence of rows per table, the
    set of tables that exist, and the next value of each table's SERIAL id
    sequence. Money is in integer cents and hotel ratings in tenths of a
    star. */
module Store {
  import opened Common

  /** Names of the five tables the schema creates. */
  const UsersTable := "users"
  const HotelsTable := "hotels"
  const RoomsTable := "rooms"
  const BookingsTable := "bookings"
  const ReviewsTable := "reviews"

  datatype User = User(
    id: int,
    email: string,
    firstName: string,
    lastName: string,
    phone: Option<string>,
    idType: Option<string>,
    idNumber: Option<string>,
    preferredCurrency: string,
    preferredLanguage: string,
    /** The password hash; None for accounts created by social sign-in. */
    password: Option<string>)

  datatype Hotel = Hotel(
    id: int,
    name: string,
    description: string,
    location: string,
    address: string,
    city: string,
    country: string,
    /** Tenths of a star: 45 is 4.5. */
    rating: int,
    totalReviews: int,
    amenities: seq<string>,
    coupleFriendly: bool)

  datatype Room = Room(
    id: int,
    hotelId: int,
    roomType: string,
    description: string,
    /** Cents per night. */
    pricePerNight: int,
    maxOccupancy: int,
    amenities: seq<string>,
    totalRooms: int,
    availableRooms: int)

  datatype Booking = Booking(
    id: int,
    userId: int,
    hotelId: int,
    roomId: int,
    checkInDate: string,
    checkOutDate: string,
    guests: int,
    /** Cents, as submitted by the client. */
    totalPrice: int,
    status: string,
    specialRequests: string,
    /** Creation time in milliseconds. */
    createdAt: int)

  datatype Review = Review(
    id: int,
    userId: int,
    hotelId: int,
    bookingId: Option<int>,
    rating: int,
    title: string,
    comment: string)

  datatype Store = Store(
    tables: set<string>,
    users: seq<User>,
    hotels: seq<Hotel>,
    rooms: seq<Room>,
    bookings: seq<Booking>,
    reviews: seq<Review>,
    nextUserId: int,
    nextHotelId: int,
    nextRoomId: int,
    nextBookingId: int,
    nextReviewId: int)

  /** A database that has never been initialised: no tables, no rows, every
      id sequence at its start value 1. */
  const EmptyStore := Store({}, [], [], [], [], [], 1, 1, 1, 1, 1)

  predicate HasUser(users: seq<User>, id: int) {
    exists i :: 0 <= i < |users| && users[i].id == id
  }

  predicate HasHotel(hotels: seq<Hotel>, id: int) {
    exists i :: 0 <= i < |hotels| && hotels[i].id == id
  }

  /** The row `SELECT ... FROM hotels WHERE id = ...` returns: the first
      hotel with that id. */
  function FindHotel(hotels: seq<Hotel>, id: int): (r: Option<Hotel>)
    ensures r.None? <==> !HasHotel(hotels, id)
    ensures r.Some? ==> r.value in hotels && r.value.id == id
  {
    if |hotels| == 0 then None
    else if hotels[0].id == id then Some(hotels[0])
    else
      var r := FindHotel(hotels[1..], id);
      assert HasHotel(hotels, id) ==> HasHotel(hotels[1..], id) by {
        if HasHotel(hotels, id) {
          var i :| 0 <= i < |hotels| && hotels[i].id == id;
          assert hotels[1..][i - 1].id == id;
        }
      }
      r
  }

  predicate HasRoom(rooms: seq<Room>, id: int) {
    exists i :: 0 <= i < |rooms| && rooms[i].id == id
  }

  /** The row `SELECT ... FROM rooms WHERE id = ...` returns: the first room
      with that id. */
  function FindRoom(rooms: seq<Room>, id: int): (r: Option<Room>)
    ensures r.None? <==> !HasRoom(rooms, id)
    ensures r.Some? ==> r.value in rooms && r.value.id == id
    ensures r.Some? ==> forall i :: 0 <= i < |rooms| && rooms[i].id == id && UniqueRoomIds(rooms) ==> rooms[i] == r.value
  {
    if |rooms| == 0 then None
    else if rooms[0].id == id then Some(rooms[0])
    else
      var r := FindRoom(rooms[1..], id);
      assert HasRoom(rooms, id) ==> HasRoom(rooms[1..], id) by {
        if HasRoom(rooms, id) {
          var i :| 0 <= i < |rooms| && rooms[i].id == id;
          assert rooms[1..][i - 1].id == id;
        }
      }
      r
  }

  /** `id SERIAL PRIMARY KEY` on rooms: no two rooms share an id. */
  predicate UniqueRoomIds(rooms: seq<Room>) {
    forall i, j :: 0 <= i < j < |rooms| ==> rooms[i].id != rooms[j].id
  }

  /** `id SERIAL PRIMARY KEY` on hotels. */
  predicate UniqueHotelIds(hotels: seq<Hotel>) {
    forall i, j :: 0 <= i < j < |hotels| ==> hotels[i].id != hotels[j].id
  }

  /** The index of the first user with the given e-mail address. */
  function FindUserByEmail(users: seq<User>, email: string): (r: Option<nat>)
    ensures r.Some? ==> r.value < |users| && users[r.value].email == email
    ensures r.None? <==> forall i :: 0 <= i < |users| ==> users[i].email != email
  {
    if |users| == 0 then None
    else if users[0].email == email then Some(0)
    else
      match FindUserByEmail(users[1..], email)
      case None => None
      case Some(k) => Some(k + 1)
  }

  /** No room's availability counter is negative. */
  predicate CountersNonNegative(rooms: seq<Room>) {
    forall i :: 0 <= i < |rooms| ==> rooms[i].availableRooms >= 0
  }

  /** The total number of unbooked units over all rooms. */
  function TotalAvailable(rooms: seq<Room>): int {
    if |rooms| == 0 then 0 else TotalAvailable(rooms[..|rooms| - 1]) + rooms[|rooms| - 1].availableRooms
  }
}
