/** The hotel listing (GET /api/hotels in app/api/hotels/route.ts). The
    handler picks one of eight hand-written SQL queries depending on which
    filters are active; each joins hotels with their rooms, groups by hotel,
    keeps a group when the cheapest room's price lies in the price window, and
    orders by rating. The model keeps the eight-way choice as written and
    proves that it computes one conjunctive filter. */
module Hotels {
  import opened Common
  import opened Store
  import Text

  /** Price parameters are in cents: 1000.00 and the 999999 COALESCE sentinel. */
  const DefaultMinPrice := 0
  const DefaultMaxPrice := 100000
  const NoRoomPriceCeiling := 99999900
  const AllLocations := "all"

  /** The raw query string. None is an absent or empty parameter. */
  datatype HotelQuery = HotelQuery(
    search: Option<string>,
    location: Option<string>,
    minPrice: Option<int>,
    maxPrice: Option<int>,
    coupleFriendly: Option<string>)

  /** The parameters after defaults are applied. */
  datatype Params = Params(
    search: string,
    location: string,
    minPrice: int,
    maxPrice: int,
    coupleFriendly: bool)

  /** Defaults: search "", location "all", price window 0..1000.00;
      `coupleFriendly` holds only for the exact text "true". */
  function ReadParams(q: HotelQuery): (p: Params)
    ensures q.search.None? || q.search == Some("") <==> p.search == ""
    ensures q.search.Some? && q.search.value != "" ==> p.search == q.search.value
    ensures q.location.None? || q.location == Some("") ==> p.location == AllLocations
    ensures q.location.Some? && q.location.value != "" ==> p.location == q.location.value
    ensures q.minPrice.None? ==> p.minPrice == 0
    ensures q.minPrice.Some? ==> p.minPrice == q.minPrice.value
    ensures q.maxPrice.None? ==> p.maxPrice == 100000
    ensures q.maxPrice.Some? ==> p.maxPrice == q.maxPrice.value
    ensures p.coupleFriendly <==> q.coupleFriendly == Some("true")
  {
    Params(
      if q.search.Some? && q.search.value != "" then q.search.value else "",
      if q.location.Some? && q.location.value != "" then q.location.value else AllLocations,
      if q.minPrice.Some? then q.minPrice.value else DefaultMinPrice,
      if q.maxPrice.Some? then q.maxPrice.value else DefaultMaxPrice,
      q.coupleFriendly == Some("true"))
  }

  /** Whether the handler takes the filtered path at all. */
  predicate Active(p: Params) {
    p.search != "" || p.location != AllLocations || p.coupleFriendly
    || p.minPrice > DefaultMinPrice || p.maxPrice < DefaultMaxPrice
  }

  // ---------------------------------------------------------------------
  // Aggregates over a hotel's rooms

  predicate HasRoomIn(rooms: seq<Room>, hotelId: int) {
    exists i :: 0 <= i < |rooms| && rooms[i].hotelId == hotelId
  }

  /** MIN(r.price_per_night) over the hotel's rooms; None is SQL NULL. */
  function MinRoomPrice(rooms: seq<Room>, hotelId: int): (r: Option<int>)
    ensures r.None? <==> !HasRoomIn(rooms, hotelId)
    ensures r.Some? ==> exists i :: 0 <= i < |rooms| && rooms[i].hotelId == hotelId && rooms[i].pricePerNight == r.value
    ensures r.Some? ==> forall i :: 0 <= i < |rooms| && rooms[i].hotelId == hotelId ==> r.value <= rooms[i].pricePerNight
  {
    if |rooms| == 0 then None
    else
      var rest := MinRoomPrice(rooms[1..], hotelId);
      assert forall i :: 1 <= i < |rooms| ==> rooms[i] == rooms[1..][i - 1];
      if rooms[0].hotelId != hotelId then rest
      else if rest.None? || rooms[0].pricePerNight <= rest.value then Some(rooms[0].pricePerNight)
      else rest
  }

  /** MAX(r.price_per_night) over the hotel's rooms; None is SQL NULL. */
  function MaxRoomPrice(rooms: seq<Room>, hotelId: int): (r: Option<int>)
    ensures r.None? <==> !HasRoomIn(rooms, hotelId)
    ensures r.Some? ==> exists i :: 0 <= i < |rooms| && rooms[i].hotelId == hotelId && rooms[i].pricePerNight == r.value
    ensures r.Some? ==> forall i :: 0 <= i < |rooms| && rooms[i].hotelId == hotelId ==> rooms[i].pricePerNight <= r.value
  {
    if |rooms| == 0 then None
    else
      var rest := MaxRoomPrice(rooms[1..], hotelId);
      assert forall i :: 1 <= i < |rooms| ==> rooms[i] == rooms[1..][i - 1];
      if rooms[0].hotelId != hotelId then rest
      else if rest.None? || rooms[0].pricePerNight >= rest.value then Some(rooms[0].pricePerNight)
      else rest
  }

  function Coalesce(v: Option<int>, default: int): int {
    if v.Some? then v.value else default
  }

  /** One result row: the hotel and its `min_price`/`max_price` columns. */
  datatype HotelRow = HotelRow(hotel: Hotel, minPrice: int, maxPrice: int)

  /** The row of hotel `h`: the cheapest and dearest room price, or 0 for
      both when the hotel has no rooms. */
  function RowOf(rooms: seq<Room>, h: Hotel): (row: HotelRow)
    ensures row.hotel == h
    ensures !HasRoomIn(rooms, h.id) ==> row.minPrice == 0 && row.maxPrice == 0
    ensures HasRoomIn(rooms, h.id) ==>
      && (exists i :: 0 <= i < |rooms| && rooms[i].hotelId == h.id && rooms[i].pricePerNight == row.minPrice)
      && (exists i :: 0 <= i < |rooms| && rooms[i].hotelId == h.id && rooms[i].pricePerNight == row.maxPrice)
      && (forall i :: 0 <= i < |rooms| && rooms[i].hotelId == h.id ==>
            row.minPrice <= rooms[i].pricePerNight <= row.maxPrice)
  {
    HotelRow(h, Coalesce(MinRoomPrice(rooms, h.id), 0), Coalesce(MaxRoomPrice(rooms, h.id), 0))
  }

  function Rows(rooms: seq<Room>, hs: seq<Hotel>): (r: seq<HotelRow>)
    ensures |r| == |hs|
    ensures forall i :: 0 <= i < |hs| ==> r[i] == RowOf(rooms, hs[i])
  {
    seq(|hs|, i requires 0 <= i < |hs| => RowOf(rooms, hs[i]))
  }

  // ---------------------------------------------------------------------
  // The eight queries as written

  datatype Branch =
    | SearchLocationCouple | SearchLocation | SearchCouple | LocationCouple
    | SearchOnly | LocationOnly | CoupleOnly | PriceOnly

  /** The if/else-if chain that picks the query. */
  function ChooseBranch(p: Params): Branch {
    var s := p.search != "";
    var l := p.location != AllLocations;
    var c := p.coupleFriendly;
    if s && l && c then SearchLocationCouple
    else if s && l then SearchLocation
    else if s && c then SearchCouple
    else if l && c then LocationCouple
    else if s then SearchOnly
    else if l then LocationOnly
    else if c then CoupleOnly
    else PriceOnly
  }

  predicate NameMatches(p: Params, h: Hotel) {
    Text.ContainsIgnoreCase(h.name, p.search)
  }

  /** The WHERE clause of each query. */
  predicate BranchWhere(b: Branch, p: Params, h: Hotel) {
    match b
    case SearchLocationCouple => NameMatches(p, h) && h.location == p.location && h.coupleFriendly
    case SearchLocation => NameMatches(p, h) && h.location == p.location
    case SearchCouple => NameMatches(p, h) && h.coupleFriendly
    case LocationCouple => h.location == p.location && h.coupleFriendly
    case SearchOnly => NameMatches(p, h)
    case LocationOnly => h.location == p.location
    case CoupleOnly => h.coupleFriendly
    case PriceOnly => true
  }

  /** The HAVING clause shared by all eight queries: only the cheapest room
      is compared, NULL becomes 0 against the floor and 999999 against the
      ceiling. */
  predicate PriceWindow(p: Params, minPrice: Option<int>) {
    Coalesce(minPrice, 0) >= p.minPrice && Coalesce(minPrice, NoRoomPriceCeiling) <= p.maxPrice
  }

  /** The row filter of the query the handler picks for `p`. */
  predicate SelectedByBranch(p: Params, rooms: seq<Room>, h: Hotel) {
    BranchWhere(ChooseBranch(p), p, h) && PriceWindow(p, MinRoomPrice(rooms, h.id))
  }

  /** The single predicate the eight queries are meant to spell out: every
      active text/flag filter, and the price window. */
  predicate Matches(p: Params, rooms: seq<Room>, h: Hotel) {
    && (p.search != "" ==> NameMatches(p, h))
    && (p.location != AllLocations ==> h.location == p.location)
    && (p.coupleFriendly ==> h.coupleFriendly)
    && PriceWindow(p, MinRoomPrice(rooms, h.id))
  }

  function RatingOf(row: HotelRow): int {
    row.hotel.rating
  }

  datatype HotelsOutcome =
    | TablesNotFound     // 404, code TABLES_NOT_FOUND
    | QueryFailed        // 500, code API_ERROR
    | Listed(rows: seq<HotelRow>)

  /** The rows before ORDER BY, as the handler computes them. */
  function Unordered(s: Store, p: Params): seq<HotelRow> {
    if Active(p) then Rows(s.rooms, Filter(s.hotels, h => SelectedByBranch(p, s.rooms, h)))
    else Rows(s.rooms, s.hotels)
  }

  lemma {:induction false} FilterAgrees<T>(xs: seq<T>, f: T -> bool, g: T -> bool)
    requires forall i :: 0 <= i < |xs| ==> f(xs[i]) == g(xs[i])
    ensures Filter(xs, f) == Filter(xs, g)
  {
    if |xs| > 0 {
      FilterAgrees(xs[1..], f, g);
    }
  }

  /** Every query the chain can pick filters with the same predicate. */
  lemma BranchesAgree(p: Params, rooms: seq<Room>, hs: seq<Hotel>)
    ensures Filter(hs, h => SelectedByBranch(p, rooms, h)) == Filter(hs, h => Matches(p, rooms, h))
  {
    forall i | 0 <= i < |hs|
      ensures SelectedByBranch(p, rooms, hs[i]) == Matches(p, rooms, hs[i])
    {
      BranchWhereAgrees(p, hs[i]);
    }
    FilterAgrees(hs, h => SelectedByBranch(p, rooms, h), h => Matches(p, rooms, h));
  }

  /** The WHERE clause of the chosen query is the conjunction of the active
      text and flag filters. */
  lemma BranchWhereAgrees(p: Params, h: Hotel)
    ensures BranchWhere(ChooseBranch(p), p, h) <==>
      && (p.search != "" ==> NameMatches(p, h))
      && (p.location != AllLocations ==> h.location == p.location)
      && (p.coupleFriendly ==> h.coupleFriendly)
  {
  }

  /** GET /api/hotels. */
  function ListHotels(s: Store, q: HotelQuery): (r: HotelsOutcome)
    ensures r == TablesNotFound <==> HotelsTable !in s.tables
    ensures r == QueryFailed <==> HotelsTable in s.tables && RoomsTable !in s.tables
    ensures r.Listed? ==> SortedDesc(r.rows, RatingOf)
    ensures r.Listed? && Active(ReadParams(q)) ==>
      multiset(r.rows) == multiset(Rows(s.rooms, Filter(s.hotels, h => Matches(ReadParams(q), s.rooms, h))))
    ensures r.Listed? && !Active(ReadParams(q)) ==>
      multiset(r.rows) == multiset(Rows(s.rooms, s.hotels))
  {
    if HotelsTable !in s.tables then TablesNotFound
    else if RoomsTable !in s.tables then QueryFailed
    else
      var p := ReadParams(q);
      BranchesAgree(p, s.rooms, s.hotels);
      Listed(SortDesc(Unordered(s, p), RatingOf))
  }

  /** The rows of a listing that belong to hotel `h`. */
  predicate Lists(rows: seq<HotelRow>, h: Hotel) {
    exists j :: 0 <= j < |rows| && rows[j].hotel == h
  }

  lemma ListsIffIn(s: Store, p: Params, rows: seq<HotelRow>, hs: seq<Hotel>, h: Hotel)
    requires multiset(rows) == multiset(Rows(s.rooms, hs))
    ensures Lists(rows, h) <==> h in hs
  {
    var base := Rows(s.rooms, hs);
    if Lists(rows, h) {
      var j :| 0 <= j < |rows| && rows[j].hotel == h;
      assert rows[j] in multiset(base);
      var i :| 0 <= i < |base| && base[i] == rows[j];
      assert hs[i] == h;
    }
    if h in hs {
      var i :| 0 <= i < |hs| && hs[i] == h;
      assert base[i] in multiset(rows);
      var j :| 0 <= j < |rows| && rows[j] == base[i];
    }
  }

  /** With no active filter every hotel is listed, including one without
      rooms (the unfiltered query has no HAVING clause). */
  lemma UnfilteredListsEveryHotel(s: Store, q: HotelQuery, h: Hotel)
    requires HotelsTable in s.tables && RoomsTable in s.tables
    requires !Active(ReadParams(q))
    requires h in s.hotels
    ensures ListHotels(s, q).Listed? && Lists(ListHotels(s, q).rows, h)
  {
    ListsIffIn(s, ReadParams(q), ListHotels(s, q).rows, s.hotels, h);
  }

  /** A listed hotel under an active filter satisfies every active filter. */
  lemma FilteredListingMatches(s: Store, q: HotelQuery, h: Hotel)
    requires HotelsTable in s.tables && RoomsTable in s.tables
    requires Active(ReadParams(q))
    ensures Lists(ListHotels(s, q).rows, h) <==> h in s.hotels && Matches(ReadParams(q), s.rooms, h)
  {
    var p := ReadParams(q);
    var hs := Filter(s.hotels, x => Matches(p, s.rooms, x));
    ListsIffIn(s, p, ListHotels(s, q).rows, hs, h);
    if h in s.hotels && Matches(p, s.rooms, h) {
      var i :| 0 <= i < |s.hotels| && s.hotels[i] == h;
    }
  }

  /** The edge case of a hotel with no rooms: shown by the unfiltered query,
      but under any active filter it survives the price window only when the
      floor is at most 0 and the ceiling reaches the 999999 sentinel. */
  lemma RoomlessHotelUnderFilter(s: Store, q: HotelQuery, h: Hotel)
    requires HotelsTable in s.tables && RoomsTable in s.tables
    requires Active(ReadParams(q))
    requires h in s.hotels && !HasRoomIn(s.rooms, h.id)
    ensures var p := ReadParams(q);
      Lists(ListHotels(s, q).rows, h) <==>
        && (p.search != "" ==> NameMatches(p, h))
        && (p.location != AllLocations ==> h.location == p.location)
        && (p.coupleFriendly ==> h.coupleFriendly)
        && p.minPrice <= 0 && p.maxPrice >= NoRoomPriceCeiling
  {
    FilteredListingMatches(s, q, h);
    MatchesWithoutRooms(ReadParams(q), s.rooms, h);
  }

  /** The filter predicate for a hotel without rooms: MIN(price) is NULL,
      so the window compares 0 with the floor and 999999 with the ceiling. */
  lemma MatchesWithoutRooms(p: Params, rooms: seq<Room>, h: Hotel)
    requires !HasRoomIn(rooms, h.id)
    ensures Matches(p, rooms, h) <==>
      && (p.search != "" ==> NameMatches(p, h))
      && (p.location != AllLocations ==> h.location == p.location)
      && (p.coupleFriendly ==> h.coupleFriendly)
      && p.minPrice <= 0 && p.maxPrice >= NoRoomPriceCeiling
  {
    assert MinRoomPrice(rooms, h.id) == None;
  }

  // ---------------------------------------------------------------------
  // One row per hotel

  function RowHotelId(row: HotelRow): int {
    row.hotel.id
  }

  function HotelId(h: Hotel): int {
    h.id
  }

  /** With hotel ids unique (the primary key), no hotel is listed twice. */
  lemma ListingHasOneRowPerHotel(s: Store, q: HotelQuery)
    requires UniqueHotelIds(s.hotels)
    requires HotelsTable in s.tables && RoomsTable in s.tables
    ensures UniqueBy(ListHotels(s, q).rows, RowHotelId)
  {
    var p := ReadParams(q);
    assert UniqueBy(s.hotels, HotelId);
    var picked := if Active(p) then Filter(s.hotels, h => SelectedByBranch(p, s.rooms, h)) else s.hotels;
    UniqueBySubMultiset(s.hotels, picked, HotelId);
    var rows := Rows(s.rooms, picked);
    assert rows == Unordered(s, p);
    assert UniqueBy(rows, RowHotelId) by {
      forall i, j | 0 <= i < j < |rows|
        ensures RowHotelId(rows[i]) != RowHotelId(rows[j])
      {
        assert HotelId(picked[i]) != HotelId(picked[j]);
      }
    }
    UniqueBySubMultiset(rows, ListHotels(s, q).rows, RowHotelId);
  }
}
