/** The records the booking service reads and writes. Identifiers are the
    database's integer keys; timestamps, names and addresses are not modelled. */
module Entities {

  type UserId = int
  type RoomId = int
  type BookingId = int
  type EnrollmentId = int

  /** A hotel room; `capacity` is an integer column with no sign constraint. */
  datatype Room = Room(id: RoomId, capacity: int, hotelId: int)

  datatype TicketType = TicketType(isRemote: bool, includesHotel: bool)

  /** The ticket status enumeration; only `Paid` makes a ticket usable. */
  datatype TicketStatus = Reserved | Paid

  datatype Ticket = Ticket(id: int, enrollmentId: EnrollmentId, status: TicketStatus, ticketType: TicketType)

  datatype Enrollment = Enrollment(id: EnrollmentId, userId: UserId)

  /** One row of the booking table. */
  datatype Booking = Booking(id: BookingId, userId: UserId, roomId: RoomId)

  /** What a booking lookup by user selects: the booking id and its room row. */
  datatype BookingView = BookingView(id: BookingId, room: Room)

  /** The read-only tables the service consults: enrollment by user id,
      ticket by enrollment id, and room by room id. */
  datatype Lookups = Lookups(
    enrollments: map<UserId, Enrollment>,
    tickets: map<EnrollmentId, Ticket>,
    rooms: map<RoomId, Room>)
}
