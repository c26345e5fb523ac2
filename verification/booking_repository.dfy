/** The booking table and the four queries the service issues against it:
    first booking of a user, all bookings of a room, insert, and change of
    room by booking id. The table is a sequence of rows in insertion order
    together with the next id the database sequence will hand out. */
module BookingRepository {
  import opened Entities
  import opened Outcomes

  datatype Store = Store(rows: seq<Booking>, nextId: BookingId)

  /** The table as the database keeps it: ids are positive, strictly
      increasing in insertion order, and below the next id to be issued. */
  predicate Valid(s: Store)
  {
    && 0 < s.nextId
    && (forall i :: 0 <= i < |s.rows| ==> 0 < s.rows[i].id < s.nextId)
    && (forall i, j :: 0 <= i < j < |s.rows| ==> s.rows[i].id < s.rows[j].id)
  }

  predicate HasId(s: Store, id: BookingId)
  {
    exists i :: 0 <= i < |s.rows| && s.rows[i].id == id
  }

  predicate HasUser(s: Store, userId: UserId)
  {
    exists i :: 0 <= i < |s.rows| && s.rows[i].userId == userId
  }

  /** The foreign key from a booking to its room: every row names a room
      present in the room table. */
  predicate RoomsExist(s: Store, rooms: map<RoomId, Room>)
  {
    forall i :: 0 <= i < |s.rows| ==> s.rows[i].roomId in rooms
  }

  /** Position of the first row at or after `from` owned by `userId`. */
  function FirstOfUser(rows: seq<Booking>, userId: UserId, from: nat): (r: Option<nat>)
    requires from <= |rows|
    ensures r.None? <==> forall i :: from <= i < |rows| ==> rows[i].userId != userId
    ensures r.Some? ==>
      && from <= r.value < |rows|
      && rows[r.value].userId == userId
      && forall i :: from <= i < r.value ==> rows[i].userId != userId
    decreases |rows| - from
  {
    if from == |rows| then None
    else if rows[from].userId == userId then Some(from)
    else FirstOfUser(rows, userId, from + 1)
  }

  /** Position of the first row at or after `from` whose id is `id`. */
  function IndexOfId(rows: seq<Booking>, id: BookingId, from: nat): (r: Option<nat>)
    requires from <= |rows|
    ensures r.None? <==> forall i :: from <= i < |rows| ==> rows[i].id != id
    ensures r.Some? ==> from <= r.value < |rows| && rows[r.value].id == id
    decreases |rows| - from
  {
    if from == |rows| then None
    else if rows[from].id == id then Some(from)
    else IndexOfId(rows, id, from + 1)
  }

  function View(b: Booking, rooms: map<RoomId, Room>): BookingView
    requires b.roomId in rooms
  {
    BookingView(b.id, rooms[b.roomId])
  }

  /** getBooking: the user's first booking with its room joined, or nothing.
      Under `Valid` the first booking is the one with the smallest id. */
  function FindByUser(s: Store, rooms: map<RoomId, Room>, userId: UserId): (r: Option<BookingView>)
    requires RoomsExist(s, rooms)
    ensures r.None? <==> !HasUser(s, userId)
    ensures r.Some? ==>
      exists b :: b in s.rows && b.userId == userId && r.value == View(b, rooms)
    ensures r.Some? && Valid(s) ==>
      forall i :: 0 <= i < |s.rows| && s.rows[i].userId == userId ==> r.value.id <= s.rows[i].id
  {
    match FirstOfUser(s.rows, userId, 0)
    case None => None
    case Some(k) =>
      assert s.rows[k] in s.rows;
      Some(View(s.rows[k], rooms))
  }

  /** The rows of `rows` that reference `roomId`, in their original order. */
  function FilterRoom(rows: seq<Booking>, roomId: RoomId): (r: seq<Booking>)
    ensures |r| <= |rows|
    ensures forall b :: b in r <==> b in rows && b.roomId == roomId
  {
    if |rows| == 0 then []
    else
      var last := rows[|rows| - 1];
      assert rows == rows[..|rows| - 1] + [last];
      FilterRoom(rows[..|rows| - 1], roomId) + (if last.roomId == roomId then [last] else [])
  }

  /** getBookingByRoomId: exactly the bookings that reference the room. */
  function FindByRoom(s: Store, roomId: RoomId): (r: seq<Booking>)
    ensures |r| <= |s.rows|
    ensures forall b :: b in r <==> b in s.rows && b.roomId == roomId
  {
    FilterRoom(s.rows, roomId)
  }

  /** The number of bookings the service compares with a room's capacity. */
  function Occupancy(s: Store, roomId: RoomId): nat
  {
    |FindByRoom(s, roomId)|
  }

  /** postBooking: one new row carrying `userId` and `roomId` under a fresh id,
      appended after every pre-existing row, which are all kept as they were.
      No check is made for another booking of the same user. */
  function Insert(s: Store, userId: UserId, roomId: RoomId): (r: (Store, Booking))
    requires Valid(s)
    ensures Valid(r.0)
    ensures r.1.userId == userId && r.1.roomId == roomId
    ensures !HasId(s, r.1.id) && HasId(r.0, r.1.id)
    ensures r.0.rows == s.rows + [r.1]
  {
    var b := Booking(s.nextId, userId, roomId);
    var s' := Store(s.rows + [b], s.nextId + 1);
    assert forall i :: 0 <= i < |s.rows| ==> s'.rows[i] == s.rows[i];
    assert s'.rows[|s.rows|] == b;
    assert Valid(s');
    assert !HasId(s, b.id);
    assert HasId(s', b.id);
    (s', b)
  }

  /** putBooking: the row with id `bookingId` now references `roomId`; its id
      and owner are kept, and every other row is untouched. The row is
      selected by id alone: no owner is consulted. */
  function UpdateRoom(s: Store, bookingId: BookingId, roomId: RoomId): (r: (Store, Booking))
    requires Valid(s) && HasId(s, bookingId)
    ensures Valid(r.0) && r.0.nextId == s.nextId && |r.0.rows| == |s.rows|
    ensures r.1.id == bookingId && r.1.roomId == roomId && r.1 in r.0.rows
    ensures forall i :: 0 <= i < |s.rows| ==>
      && r.0.rows[i].id == s.rows[i].id
      && r.0.rows[i].userId == s.rows[i].userId
      && r.0.rows[i].roomId == (if s.rows[i].id == bookingId then roomId else s.rows[i].roomId)
  {
    var k := IndexOfId(s.rows, bookingId, 0).value;
    var b := s.rows[k].(roomId := roomId);
    var s' := Store(s.rows[k := b], s.nextId);
    assert s'.rows[k] == b;
    (s', b)
  }

  /** Inserting a booking raises the occupancy of its room by one and leaves
      every other room's occupancy as it was. */
  lemma InsertOccupancy(s: Store, userId: UserId, roomId: RoomId, other: RoomId)
    requires Valid(s)
    ensures Occupancy(Insert(s, userId, roomId).0, other)
         == Occupancy(s, other) + (if other == roomId then 1 else 0)
  {
  }

  /** Replacing row `k` by `b` moves one unit of occupancy from the old row's
      room to `b`'s room. */
  lemma {:induction false} ReplaceOccupancy(rows: seq<Booking>, k: nat, b: Booking, x: RoomId)
    requires k < |rows|
    ensures |FilterRoom(rows[k := b], x)| + (if rows[k].roomId == x then 1 else 0)
         == |FilterRoom(rows, x)| + (if b.roomId == x then 1 else 0)
    decreases |rows|
  {
    var n := |rows|;
    var rows' := rows[k := b];
    if k == n - 1 {
      assert rows'[..n - 1] == rows[..n - 1];
    } else {
      assert rows'[..n - 1] == rows[..n - 1][k := b];
      ReplaceOccupancy(rows[..n - 1], k, b, x);
    }
  }

  /** Moving booking `bookingId` out of `from` into `roomId` lowers the
      occupancy of `from` by one, raises that of `roomId` by one (the two
      cancel when they are the same room), and changes no other room. */
  lemma UpdateOccupancy(s: Store, bookingId: BookingId, roomId: RoomId, from: RoomId, x: RoomId)
    requires Valid(s) && HasId(s, bookingId)
    requires exists i :: 0 <= i < |s.rows| && s.rows[i].id == bookingId && s.rows[i].roomId == from
    ensures Occupancy(UpdateRoom(s, bookingId, roomId).0, x) + (if from == x then 1 else 0)
         == Occupancy(s, x) + (if roomId == x then 1 else 0)
  {
    var k := IndexOfId(s.rows, bookingId, 0).value;
    var i :| 0 <= i < |s.rows| && s.rows[i].id == bookingId && s.rows[i].roomId == from;
    assert i == k;
    ReplaceOccupancy(s.rows, k, s.rows[k].(roomId := roomId), x);
  }

  /** Occupancy, counted independently: under `Valid` the room's bookings
      are distinct rows, so the length of the query result is the number of
      distinct bookings that reference the room. */
  lemma {:induction false} OccupancyCountsDistinctBookings(s: Store, roomId: RoomId)
    requires Valid(s)
    ensures Occupancy(s, roomId) == |RoomSet(s.rows, roomId)|
  {
    IncreasingFilterCount(s.rows, roomId);
  }

  lemma {:induction false} IncreasingFilterCount(rows: seq<Booking>, roomId: RoomId)
    requires forall i, j :: 0 <= i < j < |rows| ==> rows[i].id < rows[j].id
    ensures |FilterRoom(rows, roomId)| == |RoomSet(rows, roomId)|
    decreases |rows|
  {
    if |rows| > 0 {
      var n := |rows|;
      var front, last := rows[..n - 1], rows[n - 1];
      assert rows == front + [last];
      IncreasingFilterCount(front, roomId);
      LastIsNew(rows);
      RoomSetSnoc(front, last, roomId);
      assert FilterRoom(rows, roomId) == FilterRoom(front, roomId) + (if last.roomId == roomId then [last] else []);
    }
  }

  function RoomSet(rows: seq<Booking>, roomId: RoomId): set<Booking>
  {
    set b | b in rows && b.roomId == roomId
  }

  lemma RoomSetSnoc(front: seq<Booking>, last: Booking, roomId: RoomId)
    ensures RoomSet(front + [last], roomId)
         == RoomSet(front, roomId) + (if last.roomId == roomId then {last} else {})
  {
  }

  lemma LastIsNew(rows: seq<Booking>)
    requires |rows| > 0
    requires forall i, j :: 0 <= i < j < |rows| ==> rows[i].id < rows[j].id
    ensures rows[|rows| - 1] !in rows[..|rows| - 1]
  {
  }
}
