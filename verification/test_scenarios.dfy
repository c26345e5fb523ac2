/** The scenarios of the unit tests, replayed on concrete tables. Each test
    stubs the repositories; here the stubs become a small snapshot of the
    lookup tables and of the booking table. */
module TestScenarios {
  import opened Entities
  import opened Outcomes
  import opened BookingRepository
  import opened BookingsService

  /** The capacity-exclusive rule: a room is full once its occupancy
      reaches its capacity. */
  predicate AtCapacity(occupancy: nat, capacity: int)
  {
    occupancy >= capacity
  }

  /** User 3 holds enrollment 1, whose ticket has the given status and type;
      the room table is `rooms`. */
  function Snapshot(status: TicketStatus, kind: TicketType, rooms: map<RoomId, Room>): Lookups
  {
    Lookups(
      map[3 := Enrollment(1, 3)],
      map[1 := Ticket(1, 1, status, kind)],
      rooms)
  }

  const InPersonWithHotel := TicketType(false, true)

  /** Bookings 1 and 2 of users 1 and 2, both in room 1. */
  const TwoInRoomOne := Store([Booking(1, 1, 1), Booking(2, 2, 1)], 3)

  /** Booking 1 of user 1 in room 1. */
  const OneInRoomOne := Store([Booking(1, 1, 1)], 2)

  /** Booking 1 of user 1 in room 1 and booking 2 of user 2 in room 2. */
  const OneInEachRoom := Store([Booking(1, 1, 1), Booking(2, 2, 2)], 3)

  /** The three ticket tests: remote, without hotel, or reserved but unpaid;
      each is refused with no room in the table at all. */
  lemma IneligibleTicketsForbidden()
    ensures PostBooking(Snapshot(Paid, TicketType(true, true), map[]), OneInRoomOne, 3, 2)
         == Transition(Forbidden, OneInRoomOne)
    ensures PostBooking(Snapshot(Paid, TicketType(false, false), map[]), OneInRoomOne, 3, 2)
         == Transition(Forbidden, OneInRoomOne)
    ensures PostBooking(Snapshot(Reserved, InPersonWithHotel, map[]), OneInRoomOne, 3, 2)
         == Transition(Forbidden, OneInRoomOne)
  {
  }

  /** A paid in-person ticket asking for a room that does not exist. */
  lemma MissingRoomNotFound()
    ensures PostBooking(Snapshot(Paid, InPersonWithHotel, map[]), OneInRoomOne, 3, 2)
         == Transition(NotFound, OneInRoomOne)
  {
  }

  /** Room of capacity 0 holding two bookings: refused, and the
      capacity-exclusive rule refuses it too. */
  lemma FullRoomForbidden()
    ensures Occupancy(TwoInRoomOne, 1) == 2
    ensures PostBooking(Snapshot(Paid, InPersonWithHotel, map[1 := Room(1, 0, 1)]), TwoInRoomOne, 3, 1)
         == Transition(Forbidden, TwoInRoomOne)
    ensures AtCapacity(2, 0)
  {
  }

  /** Room of capacity 2 holding one booking: admitted, the new booking gets
      the next id, and the capacity-exclusive rule admits it too. */
  lemma FreeRoomReturnsBookingId()
    ensures Occupancy(OneInRoomOne, 1) == 1
    ensures PostBooking(Snapshot(Paid, InPersonWithHotel, map[1 := Room(1, 2, 1)]), OneInRoomOne, 3, 1)
         == Transition(Ok(2), Store([Booking(1, 1, 1), Booking(2, 3, 1)], 3))
    ensures !AtCapacity(1, 2)
  {
  }

  /** Where the two capacity rules part: a room of capacity 1 holding one
      booking is full under the capacity-exclusive rule, yet postBooking
      admits a second booking into it. */
  lemma RulesPartAtCapacity()
    ensures AtCapacity(Occupancy(OneInRoomOne, 1), 1)
    ensures PostBooking(Snapshot(Paid, InPersonWithHotel, map[1 := Room(1, 1, 1)]), OneInRoomOne, 3, 1).result == Ok(2)
  {
  }

  /** Three putBooking tests: no booking, missing room, and full room. */
  lemma PutScenarios()
    ensures PutBooking(map[1 := Room(1, 2, 1)], OneInRoomOne, 7, 1, 1) == Transition(Forbidden, OneInRoomOne)
    ensures PutBooking(map[1 := Room(1, 2, 1)], OneInRoomOne, 1, 2, 1) == Transition(NotFound, OneInRoomOne)
    ensures PutBooking(map[1 := Room(1, 0, 1)], TwoInRoomOne, 1, 1, 1) == Transition(Forbidden, TwoInRoomOne)
  {
  }

  /** The successful putBooking test: booking 1 moves into room 2, of
      capacity 2, which already holds one booking. */
  lemma PutReturnsBookingId()
    ensures Occupancy(OneInEachRoom, 2) == 1
    ensures PutBooking(map[1 := Room(1, 2, 1), 2 := Room(2, 2, 1)], OneInEachRoom, 1, 2, 1)
         == Transition(Ok(1), Store([Booking(1, 1, 2), Booking(2, 2, 2)], 3))
  {
    assert OneInEachRoom.rows[..1] == [Booking(1, 1, 1)];
    assert HasUser(OneInEachRoom, 1) by { assert OneInEachRoom.rows[0].userId == 1; }
    assert HasId(OneInEachRoom, 1) by { assert OneInEachRoom.rows[0].id == 1; }
  }
}
