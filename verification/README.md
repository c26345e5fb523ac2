# Booking eligibility and capacity engine

A Dafny model of the booking core of an event-management back end. Attendees
who hold a paid, in-person ticket that includes a hotel may book a hotel room,
read their booking back, and move it to another room.

The core has two parts:

- the booking service (`getBooking`, `postBooking`, and the `putBooking` the tests call);
- the booking repository it writes through.

The model has these modules:

- `Entities` (entities.dfy) holds the records: room, ticket type, ticket, enrollment, booking, and the booking-with-room view that `getBooking` selects.
- `Outcomes` (outcomes.dfy) holds `Option` for a lookup that finds nothing. It also holds `Result` (`Ok`, `NotFound`, `Forbidden`) for the service's two thrown errors.
- `BookingRepository` (booking_repository.dfy) models the booking table. It is a sequence of rows in insertion order plus the next id the database sequence hands out. It provides the four queries: first booking of a user, bookings of a room, insert, and change of room by id.
- `BookingsService` (bookings_service.dfy) models the service. Each operation is a pure function over a snapshot of the lookup tables and the booking table. A write returns its `Result` together with the table after it.
- `ServiceProperties` (service_properties.dfy) holds the properties that span several calls: the invariants every write keeps, reading after writing, and the ownership and capacity gaps.
- `TestScenarios` (test_scenarios.dfy) replays the unit-test scenarios on concrete tables.

Points where the model makes a modelling choice, or where the tests expect more than the service code does:

- **Capacity.** The service refuses a room only when it already holds more than `capacity + 1` bookings (src/services/bookings-service.ts:22). A capacity-exclusive rule, under which a room is full at `capacity` bookings, would refuse earlier. The model keeps the code's rule. `PostBookingOverfills` shows that a room can end with `capacity + 2` bookings. `RulesPartAtCapacity` shows a concrete room where the two rules disagree. The two unit-test points (capacity 0 with 2 bookings; capacity 2 with 1 booking) are decided the same way by both rules (`FullRoomForbidden`, `FreeRoomReturnsBookingId`).
- **postBooking success.** As written, `postBooking` stops after its checks. It neither inserts nor returns anything (src/services/bookings-service.ts:21-25). The unit tests expect `{ bookingId }` of an inserted record. The model's success branch therefore inserts through the repository and returns the new id. This branch follows the tests, not the code.
- **putBooking.** The service does not define `putBooking`, but both test suites call it. The model follows the tests: Forbidden without a booking, then NotFound for a missing room, then the same capacity test, then an update by id through the repository. This operation follows the tests, not the code.
- **Missing enrollment or ticket.** The service dereferences both without a check (src/services/bookings-service.ts:13-15). The model requires them to exist (`HasTicket`).
- **Duplicate repository.** src/repositories/bookings-repository.ts repeats the two read queries of src/repositories/booking-repository.ts, and it is the copy the service imports. Both are modelled once, by `BookingRepository`.

## Model

| member | source | states |
|---|---|---|
| BookingRepository.FindByUser | src/repositories/booking-repository.ts:3-12 | Returns nothing exactly when no row belongs to the user. Otherwise it returns a row of that user with its room joined, and under the table invariant that row has the user's smallest booking id. |
| BookingRepository.FindByRoom | src/repositories/booking-repository.ts:14-21 | Returns exactly the rows that reference the room, and no more rows than the table holds. |
| BookingRepository.Insert | src/repositories/booking-repository.ts:23-31 | Appends one row with the given user and room under an id no existing row has. Every earlier row is kept, the table invariant still holds, and an existing booking of the same user is not checked. |
| BookingRepository.UpdateRoom | src/repositories/booking-repository.ts:33-43 | Only the room of the row with the given id changes; ids, owners and every other row are kept. The row is chosen by id alone. |
| BookingRepository.InsertOccupancy | src/repositories/booking-repository.ts:14-31 | An insert raises the occupancy of its room by one and leaves every other room's occupancy unchanged. |
| BookingRepository.ReplaceOccupancy | src/repositories/booking-repository.ts:14-21 | Replacing one row moves one unit of room occupancy from the old row's room to the new row's room. |
| BookingRepository.UpdateOccupancy | src/repositories/booking-repository.ts:33-43 | Moving a booking lowers the occupancy of its old room by one and raises the target's by one; no other room changes. |
| BookingRepository.OccupancyCountsDistinctBookings | src/repositories/booking-repository.ts:14-21 | The length of the room query equals the number of distinct bookings in that room, counted as a set. |
| BookingsService.GetBooking | src/services/bookings-service.ts:5-10 | NotFound exactly when the user has no booking; never Forbidden. Otherwise it returns one of the user's bookings with its room, the one with the smallest id. |
| BookingsService.PostBooking | src/services/bookings-service.ts:12-25 | An ineligible ticket (remote, no hotel, or not paid) gives Forbidden. An eligible ticket with a missing room gives NotFound. With an existing room, Forbidden holds exactly when occupancy exceeds capacity + 1, and otherwise the result is Ok. Every failure leaves the table unchanged. Success appends one fresh booking for the user and room. |
| BookingsService.PutBooking | tests/unit/bookings-unit.test.ts:216-287 | Forbidden without a booking, then NotFound for a missing room, then Forbidden exactly when the room is overbooked, and Ok whenever the user holds a booking and the room admits it. Failures leave the table unchanged. Success returns the given id and changes only that row's room. |
| ServiceProperties.EmptyStoreConsistent | src/services/bookings-service.ts:22 | The empty table satisfies the invariants for every room table, including rooms of negative capacity. |
| ServiceProperties.PostBookingKeepsConsistency | src/services/bookings-service.ts:19-22 | postBooking keeps the table invariants: fresh ordered ids, every booking's room exists, and no room exceeds its capacity by more than two; a room of capacity below -2 holds no booking at all. |
| ServiceProperties.PutBookingKeepsConsistency | tests/unit/bookings-unit.test.ts:216-287 | putBooking keeps the same invariants. |
| ServiceProperties.FirstOfUserSameOwners | src/repositories/booking-repository.ts:3-12 | The user's first booking depends only on who owns each row, not on room references. |
| ServiceProperties.PostThenGet | tests/integration/booking.test.ts:56-77 | After a first successful booking, getBooking returns the new booking id with the chosen room. |
| ServiceProperties.SecondPostIsShadowed | src/repositories/booking-repository.ts:23-31 | A user who already has a booking can book again, and then owns two rows. getBooking keeps returning the earlier booking, not the new one. |
| ServiceProperties.PutThenGet | src/repositories/booking-repository.ts:33-43 | Derived from the model: after the update moves the user's own booking, the lookup by user (src/repositories/booking-repository.ts:3-12) returns the same id in the new room. |
| ServiceProperties.PutMovesAnotherUsersBooking | src/repositories/booking-repository.ts:34-37 | A user holding any booking can move another user's booking by naming its id. The caller's own bookings are not touched. |
| ServiceProperties.PutCountsTheMovedBooking | src/services/bookings-service.ts:21-22 | The moved booking counts toward its target room. A move into the room it already occupies is refused at capacity + 2, though the move would not change occupancy. |
| ServiceProperties.PostBookingOverfills | src/services/bookings-service.ts:22 | A room holding capacity + 1 bookings still admits one more and ends at capacity + 2. |
| TestScenarios.IneligibleTicketsForbidden | tests/unit/bookings-unit.test.ts:50-114 | Remote, hotel-less and reserved tickets are each refused with Forbidden, with no room in the table. |
| TestScenarios.MissingRoomNotFound | tests/unit/bookings-unit.test.ts:116-138 | A paid in-person ticket asking for a missing room gets NotFound. |
| TestScenarios.FullRoomForbidden | tests/unit/bookings-unit.test.ts:140-172 | A capacity-0 room holding 2 bookings is refused, and the capacity-exclusive rule refuses it too. |
| TestScenarios.FreeRoomReturnsBookingId | tests/unit/bookings-unit.test.ts:174-213 | A capacity-2 room holding 1 booking is admitted with the next id, and the capacity-exclusive rule admits it too. |
| TestScenarios.RulesPartAtCapacity | src/services/bookings-service.ts:22 | A capacity-1 room holding 1 booking is full under the capacity-exclusive rule, yet the service admits another booking. |
| TestScenarios.PutScenarios | tests/unit/bookings-unit.test.ts:216-257 | The three failing putBooking cases: no booking gives Forbidden, a missing room gives NotFound, a full room gives Forbidden. |
| TestScenarios.PutReturnsBookingId | tests/unit/bookings-unit.test.ts:259-286 | Moving a booking into a capacity-2 room that holds one booking succeeds and returns the booking's id, with only that row's room changed. |

## Left out

- HTTP routing, authentication, body-schema validation and the controllers are transport plumbing in front of the service.
- Logging statements are diagnostics with no effect on outcomes. `async`/`await` becomes plain sequential calls.
- The race between the occupancy count and the insert is not modelled, because the model is sequential.
- The database is abstracted to a table of rows. Booking ids come from a counter that stands in for the database sequence; only freshness and increase matter. Timestamps and room names are not modelled.
- BookingRepository.FindByUser: the database returns an unspecified first match. The model fixes it to the earliest-inserted row.
- BookingRepository.UpdateRoom: an update naming no existing id raises a database error in the source. That failure is not modelled, so the id is required to exist.
- BookingsService.PutBooking: for the same reason, the booking id must exist whenever every check passes.
- The error objects' names and messages are represented by the `NotFound` and `Forbidden` constructors.
