/** Properties that relate several calls of the booking service: the table
    invariants every write keeps, what a read returns after a write, and the
    gaps in ownership and capacity checking that the service leaves open. */
module ServiceProperties {
  import opened Entities
  import opened Outcomes
  import opened BookingRepository
  import opened BookingsService

  /** The most bookings the capacity test lets a room reach: two beyond its
      capacity, and none at all for a capacity below -2, since such a room
      refuses even its first booking. */
  function Bound(capacity: int): nat
  {
    if capacity + 2 < 0 then 0 else capacity + 2
  }

  /** No room holds more bookings than the capacity test lets through. */
  predicate WithinBound(s: Store, rooms: map<RoomId, Room>)
  {
    forall x :: x in rooms ==> Occupancy(s, x) <= Bound(rooms[x].capacity)
  }

  /** Everything the table is expected to satisfy between requests. */
  predicate Consistent(s: Store, rooms: map<RoomId, Room>)
  {
    Valid(s) && RoomsExist(s, rooms) && WithinBound(s, rooms)
  }

  // ---------------------------------------------------------------------
  // Invariants kept by the writes
  // ---------------------------------------------------------------------

  /** The empty table is consistent with every room table, whatever the
      capacities, so the invariant below is never vacuous. */
  lemma EmptyStoreConsistent(rooms: map<RoomId, Room>)
    ensures Consistent(Store([], 1), rooms)
  {
  }

  /** postBooking keeps the table consistent: ids stay fresh and ordered,
      every booking names an existing room, and no room exceeds its
      capacity by more than two (nor holds any booking when its capacity
      is below -2). */
  lemma PostBookingKeepsConsistency(db: Lookups, s: Store, userId: UserId, roomId: RoomId)
    requires HasTicket(db, userId) && Consistent(s, db.rooms)
    ensures Consistent(PostBooking(db, s, userId, roomId).store, db.rooms)
  {
  }

  /** putBooking keeps the table consistent as well. The room left behind
      loses a booking; the target room gains one only after passing the
      capacity test. */
  lemma PutBookingKeepsConsistency(rooms: map<RoomId, Room>, s: Store, userId: UserId, roomId: RoomId, bookingId: BookingId)
    requires Consistent(s, rooms)
    requires HasUser(s, userId) && Admits(s, rooms, roomId) ==> HasId(s, bookingId)
    ensures Consistent(PutBooking(rooms, s, userId, roomId, bookingId).store, rooms)
  {
    var r := PutBooking(rooms, s, userId, roomId, bookingId);
    if r.result.Ok? {
      var k := IndexOfId(s.rows, bookingId, 0).value;
      var from := s.rows[k].roomId;
      forall x | x in rooms
        ensures Occupancy(r.store, x) <= Bound(rooms[x].capacity)
      {
        UpdateOccupancy(s, bookingId, roomId, from, x);
      }
    }
  }

  // ---------------------------------------------------------------------
  // Reading after writing
  // ---------------------------------------------------------------------

  /** Appending a row changes the first row of a user only when the user
      had none before. */
  lemma FirstOfUserSnoc(rows: seq<Booking>, b: Booking, userId: UserId)
    ensures FirstOfUser(rows + [b], userId, 0) ==
      (if FirstOfUser(rows, userId, 0).Some? then FirstOfUser(rows, userId, 0)
       else if b.userId == userId then Some(|rows|)
       else None)
  {
    var rows' := rows + [b];
    assert forall i :: 0 <= i < |rows| ==> rows'[i] == rows[i];
    assert rows'[|rows|] == b;
  }

  /** The first row of a user depends only on who owns each row: two tables
      whose rows have the same owners position by position select the same
      row for every user, whatever rooms those rows reference. This is why a
      change of room never changes which booking getBooking returns. */
  lemma {:induction false} FirstOfUserSameOwners(rows: seq<Booking>, rows': seq<Booking>, userId: UserId, from: nat)
    requires from <= |rows| == |rows'|
    requires forall i :: 0 <= i < |rows| ==> rows'[i].userId == rows[i].userId
    ensures FirstOfUser(rows', userId, from) == FirstOfUser(rows, userId, from)
    decreases |rows| - from
  {
  }

  /** A first booking is visible at once: after a successful postBooking for
      a user who had no booking, getBooking returns the new booking in the
      chosen room. */
  lemma PostThenGet(db: Lookups, s: Store, userId: UserId, roomId: RoomId)
    requires HasTicket(db, userId) && Valid(s) && RoomsExist(s, db.rooms)
    requires !HasUser(s, userId)
    requires PostBooking(db, s, userId, roomId).result.Ok?
    ensures var r := PostBooking(db, s, userId, roomId);
      GetBooking(r.store, db.rooms, userId) == Ok(BookingView(r.result.value, db.rooms[roomId]))
  {
  }

  /** postBooking does not stop a user from booking twice, and the second
      booking is invisible to getBooking, which keeps returning the first. */
  lemma SecondPostIsShadowed(db: Lookups, s: Store, userId: UserId, roomId: RoomId)
    requires HasTicket(db, userId) && Valid(s) && RoomsExist(s, db.rooms)
    requires HasUser(s, userId)
    requires PostBooking(db, s, userId, roomId).result.Ok?
    ensures var r := PostBooking(db, s, userId, roomId);
      && GetBooking(r.store, db.rooms, userId) == GetBooking(s, db.rooms, userId)
      && GetBooking(s, db.rooms, userId).value.id != r.result.value
      && exists i, j :: 0 <= i < j < |r.store.rows|
           && r.store.rows[i].userId == userId && r.store.rows[j].userId == userId
  {
    var r := PostBooking(db, s, userId, roomId);
    var b := Booking(r.result.value, userId, roomId);
    FirstOfUserSnoc(s.rows, b, userId);
    var k := FirstOfUser(s.rows, userId, 0).value;
    assert r.store.rows[k] == s.rows[k];
    assert r.store.rows[|s.rows|] == b;
  }

  /** Moving the user's own booking is visible at once: getBooking then
      returns the same booking id in the new room. */
  lemma PutThenGet(rooms: map<RoomId, Room>, s: Store, userId: UserId, roomId: RoomId, bookingId: BookingId)
    requires Valid(s) && RoomsExist(s, rooms)
    requires HasUser(s, userId) && Admits(s, rooms, roomId) ==> HasId(s, bookingId)
    requires PutBooking(rooms, s, userId, roomId, bookingId).result.Ok?
    requires GetBooking(s, rooms, userId).value.id == bookingId
    ensures GetBooking(PutBooking(rooms, s, userId, roomId, bookingId).store, rooms, userId)
         == Ok(BookingView(bookingId, rooms[roomId]))
  {
  }

  // ---------------------------------------------------------------------
  // Gaps the service leaves open
  // ---------------------------------------------------------------------

  /** Ownership is not checked: a user who holds any booking can move
      another user's booking by naming its id, and the caller's own bookings
      stay where they were. */
  lemma PutMovesAnotherUsersBooking(rooms: map<RoomId, Room>, s: Store, userId: UserId, roomId: RoomId, k: nat)
    requires Valid(s) && RoomsExist(s, rooms)
    requires HasUser(s, userId) && Admits(s, rooms, roomId)
    requires k < |s.rows| && s.rows[k].userId != userId
    ensures var r := PutBooking(rooms, s, userId, roomId, s.rows[k].id);
      && r.result == Ok(s.rows[k].id)
      && r.store.rows[k] == Booking(s.rows[k].id, s.rows[k].userId, roomId)
      && forall j :: 0 <= j < |s.rows| && s.rows[j].userId == userId ==> r.store.rows[j] == s.rows[j]
  {
  }

  /** The booking being moved counts towards the occupancy of its target:
      moving a booking into the room it already occupies is refused when
      that room is at `capacity + 2`, although the move would not change
      the room's occupancy. */
  lemma PutCountsTheMovedBooking(rooms: map<RoomId, Room>, s: Store, userId: UserId, k: nat)
    requires Valid(s) && RoomsExist(s, rooms)
    requires HasUser(s, userId)
    requires k < |s.rows|
    requires Occupancy(s, s.rows[k].roomId) == rooms[s.rows[k].roomId].capacity + 2
    ensures PutBooking(rooms, s, userId, s.rows[k].roomId, s.rows[k].id).result == Forbidden
    ensures Occupancy(UpdateRoom(s, s.rows[k].id, s.rows[k].roomId).0, s.rows[k].roomId)
         == Occupancy(s, s.rows[k].roomId)
  {
    UpdateOccupancy(s, s.rows[k].id, s.rows[k].roomId, s.rows[k].roomId, s.rows[k].roomId);
  }

  /** The capacity test admits a booking into a room that already holds
      `capacity + 1` bookings, leaving it with `capacity + 2`: a room is
      not treated as full once its occupancy reaches its capacity. */
  lemma PostBookingOverfills(db: Lookups, s: Store, userId: UserId, roomId: RoomId)
    requires HasTicket(db, userId) && Valid(s)
    requires Eligible(TicketOf(db, userId)) && roomId in db.rooms
    requires Occupancy(s, roomId) == db.rooms[roomId].capacity + 1
    ensures var r := PostBooking(db, s, userId, roomId);
      && r.result.Ok?
      && Occupancy(r.store, roomId) == db.rooms[roomId].capacity + 2
  {
  }
}
