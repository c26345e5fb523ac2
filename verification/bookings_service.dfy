/** The booking service: reading a user's booking, creating one and moving
    one to another room. Each write is an ordered chain of checks that stops
    at the first failure; a failure leaves the booking table as it was. */
module BookingsService {
  import opened Entities
  import opened Outcomes
  import opened BookingRepository

  /** The outcome of a write together with the booking table after it. */
  datatype Transition = Transition(result: Result<BookingId>, store: Store)

  /** A ticket entitles its holder to a room when it is for in-person
      attendance, includes the hotel, and has been paid. */
  predicate Eligible(t: Ticket)
  {
    !t.ticketType.isRemote && t.ticketType.includesHotel && t.status == Paid
  }

  /** The capacity test as the service writes it: a room is refused only
      when it already holds more than `capacity + 1` bookings. */
  predicate Overbooked(occupancy: nat, capacity: int)
  {
    occupancy > capacity + 1
  }

  /** The room exists and its current occupancy passes the capacity test. */
  predicate Admits(s: Store, rooms: map<RoomId, Room>, roomId: RoomId)
  {
    roomId in rooms && !Overbooked(Occupancy(s, roomId), rooms[roomId].capacity)
  }

  /** The user has an enrollment and the enrollment has a ticket; the service
      dereferences both without checking. */
  predicate HasTicket(db: Lookups, userId: UserId)
  {
    userId in db.enrollments && db.enrollments[userId].id in db.tickets
  }

  function TicketOf(db: Lookups, userId: UserId): Ticket
    requires HasTicket(db, userId)
  {
    db.tickets[db.enrollments[userId].id]
  }

  /** getBooking: the user's booking, with its room, or NotFound. */
  function GetBooking(s: Store, rooms: map<RoomId, Room>, userId: UserId): (r: Result<BookingView>)
    requires RoomsExist(s, rooms)
    ensures r.NotFound? <==> !HasUser(s, userId)
    ensures !r.Forbidden?
    ensures r.Ok? ==>
      exists b :: b in s.rows && b.userId == userId && r.value == View(b, rooms)
    ensures r.Ok? && Valid(s) ==>
      forall i :: 0 <= i < |s.rows| && s.rows[i].userId == userId ==> r.value.id <= s.rows[i].id
  {
    match FindByUser(s, rooms, userId)
    case None => NotFound
    case Some(v) => Ok(v)
  }

  /** postBooking: ticket eligibility first, then room existence, then
      capacity; on success one booking is inserted and its id returned. */
  function PostBooking(db: Lookups, s: Store, userId: UserId, roomId: RoomId): (r: Transition)
    requires HasTicket(db, userId)
    requires Valid(s)
    ensures !r.result.Ok? ==> r.store == s
    ensures !Eligible(TicketOf(db, userId)) ==> r.result == Forbidden
    ensures Eligible(TicketOf(db, userId)) && roomId !in db.rooms ==> r.result == NotFound
    ensures Eligible(TicketOf(db, userId)) && roomId in db.rooms ==>
      (r.result == Forbidden <==> Overbooked(Occupancy(s, roomId), db.rooms[roomId].capacity))
    ensures Eligible(TicketOf(db, userId)) && Admits(s, db.rooms, roomId) ==> r.result.Ok?
    ensures r.result.Ok? ==>
      && Valid(r.store)
      && !HasId(s, r.result.value)
      && r.store.rows == s.rows + [Booking(r.result.value, userId, roomId)]
  {
    if !Eligible(TicketOf(db, userId)) then Transition(Forbidden, s)
    else if roomId !in db.rooms then Transition(NotFound, s)
    else if Overbooked(Occupancy(s, roomId), db.rooms[roomId].capacity) then Transition(Forbidden, s)
    else
      var (s', b) := Insert(s, userId, roomId);
      Transition(Ok(b.id), s')
  }

  /** putBooking: the user must hold a booking, then the room must exist,
      then pass the capacity test; on success booking `bookingId` is moved
      to the room and its id returned. The booking moved is chosen by id,
      not checked against the user's own booking, and it counts towards the
      occupancy of the room it is moving into if it is already there. A
      `bookingId` that names no row is a database failure not modelled here,
      so it is required to exist whenever every check passes. */
  function PutBooking(rooms: map<RoomId, Room>, s: Store, userId: UserId, roomId: RoomId, bookingId: BookingId): (r: Transition)
    requires Valid(s) && RoomsExist(s, rooms)
    requires HasUser(s, userId) && Admits(s, rooms, roomId) ==> HasId(s, bookingId)
    ensures !r.result.Ok? ==> r.store == s
    ensures !HasUser(s, userId) ==> r.result == Forbidden
    ensures HasUser(s, userId) && roomId !in rooms ==> r.result == NotFound
    ensures HasUser(s, userId) && roomId in rooms ==>
      (r.result == Forbidden <==> Overbooked(Occupancy(s, roomId), rooms[roomId].capacity))
    ensures HasUser(s, userId) && Admits(s, rooms, roomId) ==> r.result.Ok?
    ensures r.result.Ok? ==>
      && r.result.value == bookingId
      && Valid(r.store)
      && RoomsExist(r.store, rooms)
      && |r.store.rows| == |s.rows|
      && forall i :: 0 <= i < |s.rows| ==>
           r.store.rows[i] == (if s.rows[i].id == bookingId then s.rows[i].(roomId := roomId) else s.rows[i])
  {
    if FindByUser(s, rooms, userId).None? then Transition(Forbidden, s)
    else if roomId !in rooms then Transition(NotFound, s)
    else if Overbooked(Occupancy(s, roomId), rooms[roomId].capacity) then Transition(Forbidden, s)
    else
      var (s', b) := UpdateRoom(s, bookingId, roomId);
      Transition(Ok(b.id), s')
  }
}
