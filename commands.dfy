/** The three front-desk commands: reserve a room, check a guest in, check a
    guest out. Each finds what it needs through the services, asks the
    reservation service to do the step, and then records the room status
    itself a second time. */
module Commands {
  import opened Basics
  import opened Dates
  import opened Linq
  import opened Entities
  import opened ReservationModel
  import opened HotelData
  import opened ReservationRepository
  import opened RoomServices
  import opened ReservationServices

  /** Who a command runs as: the name given, "Unknown" when none was. */
  function ExecutedBy(executedBy: Option<string>): (s: string)
    ensures executedBy.Some? ==> s == executedBy.value
    ensures executedBy.None? ==> s == "Unknown"
  {
    executedBy.GetOr("Unknown")
  }

  /** The reservation `ReserveRoomCommand` builds from a fresh one: the
      command's room, guest, dates and party size, priced at the base price
      per calendar night, confirmed, and created by the command's user. */
  function ReservationFor(blank: Reservation, roomId: int, guestId: int, checkIn: DateTime, checkOut: DateTime,
                          numberOfGuests: int, basePrice: int, createdBy: string): (r: Reservation)
    ensures r.roomId == roomId && r.guestId == guestId && r.checkInDate == checkIn && r.checkOutDate == checkOut
    ensures r.numberOfGuests == numberOfGuests && r.status == Confirmed && r.createdBy == createdBy
    ensures PricedByNights(r, basePrice)
    ensures r.reservationNumber == blank.reservationNumber && r.createdDate == blank.createdDate
  {
    blank.(roomId := roomId, guestId := guestId, checkInDate := checkIn, checkOutDate := checkOut,
           numberOfGuests := numberOfGuests, totalPrice := basePrice * Nights(checkIn, checkOut),
           status := Confirmed, createdBy := createdBy)
  }

  class ReserveRoomCommand {
    const roomService: RoomService
    const reservationService: ReservationService
    const roomId: int
    const guestId: int
    const checkInDate: DateTime
    const checkOutDate: DateTime
    const numberOfGuests: int
    const executedBy: string

    constructor(roomService: RoomService, reservationService: ReservationService, roomId: int, guestId: int,
                checkInDate: DateTime, checkOutDate: DateTime, numberOfGuests: int, executedBy: Option<string>)
      ensures this.roomService == roomService && this.reservationService == reservationService
      ensures this.roomId == roomId && this.guestId == guestId && this.checkInDate == checkInDate
      ensures this.checkOutDate == checkOutDate && this.numberOfGuests == numberOfGuests
      ensures this.executedBy == ExecutedBy(executedBy)
    {
      this.roomService := roomService;
      this.reservationService := reservationService;
      this.roomId := roomId;
      this.guestId := guestId;
      this.checkInDate := checkInDate;
      this.checkOutDate := checkOutDate;
      this.numberOfGuests := numberOfGuests;
      this.executedBy := ExecutedBy(executedBy);
    }

    /** `ExecuteAsync`: false, with nothing stored, when the room is not free
        for the window; otherwise the built reservation is stored confirmed
        under a fresh key and the same `Reserved` row is recorded twice, once
        by the service and once by the command. */
    method Execute(now: DateTime, guid: seq<nat>) returns (ok: bool)
      requires Day(now) <= MaxDayNumber && IsGuid(guid)
      requires roomService.db.Valid() && reservationService.db == roomService.db
      requires reservationService.roomService.db == roomService.db
      modifies roomService.db
      ensures roomService.db.Valid()
      ensures ok <==> old(roomService.IsRoomAvailable(roomId, checkInDate, checkOutDate))
      ensures !ok ==> unchanged(roomService.db)
      ensures ok ==>
        var basePrice := old(roomService.db.rooms[roomService.db.RoomIndex(roomId).value].basePrice);
        var r := ReservationFor(NewReservation(now, guid), roomId, guestId, checkInDate, checkOutDate, numberOfGuests, basePrice, executedBy);
        var row := RoomStatus(roomId, checkInDate, Reserved, ReservedNote(r.reservationNumber), executedBy);
        roomService.db.reservations == old(roomService.db.reservations) + [r.(id := old(roomService.db.lastReservationId) + 1)] &&
        roomService.db.roomStatuses == old(roomService.db.roomStatuses) + [row] + [row]
      ensures unchanged(roomService.db`rooms) && unchanged(roomService.db`guests)
      ensures NoDoubleBooking(old(roomService.db.reservations)) ==> NoDoubleBooking(roomService.db.reservations)
    {
      var db := roomService.db;
      var isAvailable := roomService.IsRoomAvailable(roomId, checkInDate, checkOutDate);
      if !isAvailable {
        return false;
      }
      FreeInStoreWindow(db, roomId, checkInDate, checkOutDate, -1);
      var room := db.RoomWithDetails(roomId);
      var reservation := ReservationFor(NewReservation(now, guid), roomId, guestId, checkInDate, checkOutDate, numberOfGuests,
                                        room.value.basePrice, executedBy);
      Book(reservation, room.value.basePrice);
      return true;
    }

    /** The two writes of `ExecuteAsync` once the window was found free: the
        service stores the reservation and records the `Reserved` row, then
        the command records the same row again. */
    method Book(reservation: Reservation, basePrice: int)
      requires roomService.db.Valid() && reservationService.db == roomService.db
      requires reservationService.roomService.db == roomService.db
      requires roomService.IsRoomAvailable(reservation.roomId, reservation.checkInDate, reservation.checkOutDate)
      requires roomService.db.RoomIndex(reservation.roomId).Some?
      requires basePrice == roomService.db.rooms[roomService.db.RoomIndex(reservation.roomId).value].basePrice
      requires reservation.roomId == roomId && reservation.checkInDate == checkInDate
      requires reservation.status == Confirmed && reservation.createdBy == executedBy && PricedByNights(reservation, basePrice)
      modifies roomService.db
      ensures roomService.db.Valid()
      ensures var row := RoomStatus(roomId, checkInDate, Reserved, ReservedNote(reservation.reservationNumber), executedBy);
        roomService.db.reservations == old(roomService.db.reservations) +
          [reservation.(id := old(roomService.db.lastReservationId) + 1)] &&
        roomService.db.roomStatuses == old(roomService.db.roomStatuses) + [row] + [row]
      ensures unchanged(roomService.db`rooms) && unchanged(roomService.db`guests)
      ensures NoDoubleBooking(old(roomService.db.reservations)) ==> NoDoubleBooking(roomService.db.reservations)
    {
      var db := roomService.db;
      ghost var rs0, h0 := db.reservations, db.roomStatuses;
      ghost var stored := reservation.(id := db.lastReservationId + 1);
      ghost var row := RoomStatus(roomId, checkInDate, Reserved, ReservedNote(reservation.reservationNumber), executedBy);
      var created, after := reservationService.Create(reservation, reservation.createdDate);
      assert created.Returned?;
      assert after == stored;
      assert db.reservations == rs0 + [stored];
      assert db.roomStatuses == h0 + [row];
      var recorded := roomService.UpdateRoomStatus(roomId, Reserved, checkInDate, ReservedNote(after.reservationNumber), executedBy);
      assert db.reservations == rs0 + [stored];
      assert db.roomStatuses == h0 + [row] + [row];
    }
  }

  /** A reservation `CheckInCommand` may check in on `date`: confirmed, and
      the day lies within its stay. */
  predicate CheckInCandidate(r: Reservation, date: DateTime) {
    Day(r.checkInDate) <= Day(date) <= Day(r.checkOutDate) && r.status == Confirmed
  }

  /** A reservation of the room that may check in on `date`. The table has
      no defined order, so which of several candidates is found is not
      stated. */
  function FindCheckInCandidate(rs: seq<Reservation>, roomId: int, date: DateTime): (r: Option<Reservation>)
    ensures r.Some? ==> r.value in rs && r.value.roomId == roomId && CheckInCandidate(r.value, date)
    ensures r.None? <==> forall x :: x in rs && x.roomId == roomId ==> !CheckInCandidate(x, date)
  {
    FirstOrDefault(GetReservationsByRoom(rs, roomId), (x: Reservation) => CheckInCandidate(x, date))
  }

  /** A reservation of the room whose guest is in; which one, when there are
      several, is not stated. */
  function FindCheckedIn(rs: seq<Reservation>, roomId: int): (r: Option<Reservation>)
    ensures r.Some? ==> r.value in rs && r.value.roomId == roomId && r.value.status == CheckedIn
    ensures r.None? <==> forall x :: x in rs && x.roomId == roomId ==> x.status != CheckedIn
  {
    FirstOrDefault(GetReservationsByRoom(rs, roomId), (x: Reservation) => x.status == CheckedIn)
  }

  /** A stored reservation is found again by its own key. */
  lemma FoundByOwnKey(db: HotelDb, x: Reservation)
    requires db.Valid() && x in db.reservations
    ensures db.ReservationIndex(x.id).Some? && db.reservations[db.ReservationIndex(x.id).value] == x
  {
    var m :| 0 <= m < |db.reservations| && db.reservations[m] == x;
    db.ReservationIndexUnique(x.id, m);
  }

  class CheckInCommand {
    const reservationService: ReservationService
    const roomService: RoomService
    const roomId: int
    const date: DateTime
    const executedBy: string

    constructor(reservationService: ReservationService, roomService: RoomService, roomId: int, date: DateTime,
                executedBy: Option<string>)
      ensures this.reservationService == reservationService && this.roomService == roomService
      ensures this.roomId == roomId && this.date == date && this.executedBy == ExecutedBy(executedBy)
    {
      this.reservationService := reservationService;
      this.roomService := roomService;
      this.roomId := roomId;
      this.date := date;
      this.executedBy := ExecutedBy(executedBy);
    }

    /** `ExecuteAsync`: false, with nothing changed, when no confirmed
        reservation of the room covers the day; otherwise one of them is
        checked in on that day and the same `Occupied` row is recorded twice
        (when the room is on file). */
    method Execute(now: DateTime) returns (ok: bool)
      requires roomService.db.Valid() && reservationService.db == roomService.db
      requires reservationService.roomService.db == roomService.db
      modifies roomService.db
      ensures roomService.db.Valid()
      ensures ok <==> old(FindCheckInCandidate(roomService.db.reservations, roomId, date)).Some?
      ensures !ok ==> unchanged(roomService.db)
      ensures ok ==>
        var x := old(FindCheckInCandidate(roomService.db.reservations, roomId, date)).value;
        var k := old(roomService.db.ReservationIndex(x.id)).value;
        var row := RoomStatus(roomId, date, Occupied, CheckedInNote(x.reservationNumber), executedBy);
        old(roomService.db.reservations[k]) == x &&
        roomService.db.reservations == old(roomService.db.reservations)[k := x.(status := CheckedIn, actualCheckInDate := Some(date),
                                                                              modifiedDate := Some(now), modifiedBy := executedBy)] &&
        (old(roomService.db.RoomIndex(roomId)).Some? ==> roomService.db.roomStatuses == old(roomService.db.roomStatuses) + [row] + [row]) &&
        (old(roomService.db.RoomIndex(roomId)).None? ==> roomService.db.roomStatuses == old(roomService.db.roomStatuses))
      ensures unchanged(roomService.db`rooms) && unchanged(roomService.db`guests)
      ensures NoDoubleBooking(old(roomService.db.reservations)) ==> NoDoubleBooking(roomService.db.reservations)
    {
      var db := roomService.db;
      var reservation := FindCheckInCandidate(db.reservations, roomId, date);
      if reservation.None? {
        return false;
      }
      var x := reservation.value;
      FoundByOwnKey(db, x);
      ghost var rs0, h0, k := db.reservations, db.roomStatuses, db.ReservationIndex(x.id).value;
      ghost var known := db.RoomIndex(roomId).Some?;
      assert rs0[k] == x && x.roomId == roomId;
      ghost var row := RoomStatus(roomId, date, Occupied, CheckedInNote(x.reservationNumber), executedBy);
      ok := reservationService.CheckIn(x.id, date, executedBy, now);
      assert ok;
      assert db.reservations == rs0[k := x.(status := CheckedIn, actualCheckInDate := Some(date),
                                            modifiedDate := Some(now), modifiedBy := executedBy)];
      ghost var h1 := db.roomStatuses;
      var recorded := roomService.UpdateRoomStatus(roomId, Occupied, date,
        CheckedInNote(x.reservationNumber), executedBy);
      if known {
        assert h1 == h0 + [row] && db.roomStatuses == h1 + [row];
      } else {
        assert h1 == h0 && db.roomStatuses == h1;
      }
    }
  }

  class CheckOutCommand {
    const reservationService: ReservationService
    const roomService: RoomService
    const roomId: int
    const date: DateTime
    const executedBy: string

    constructor(reservationService: ReservationService, roomService: RoomService, roomId: int, date: DateTime,
                executedBy: Option<string>)
      ensures this.reservationService == reservationService && this.roomService == roomService
      ensures this.roomId == roomId && this.date == date && this.executedBy == ExecutedBy(executedBy)
    {
      this.reservationService := reservationService;
      this.roomService := roomService;
      this.roomId := roomId;
      this.date := date;
      this.executedBy := ExecutedBy(executedBy);
    }

    /** `ExecuteAsync`: false, with nothing changed, when no reservation of
        the room is checked in; otherwise one of them is checked out on
        the command's day, whatever its dates, and the same
        `CleaningInProgress` row is recorded twice (when the room is on
        file). */
    method Execute(now: DateTime) returns (ok: bool)
      requires roomService.db.Valid() && reservationService.db == roomService.db
      requires reservationService.roomService.db == roomService.db
      modifies roomService.db
      ensures roomService.db.Valid()
      ensures ok <==> old(FindCheckedIn(roomService.db.reservations, roomId)).Some?
      ensures !ok ==> unchanged(roomService.db)
      ensures ok ==>
        var x := old(FindCheckedIn(roomService.db.reservations, roomId)).value;
        var k := old(roomService.db.ReservationIndex(x.id)).value;
        var row := RoomStatus(roomId, date, CleaningInProgress, CheckedOutNote(x.reservationNumber), executedBy);
        old(roomService.db.reservations[k]) == x &&
        roomService.db.reservations == old(roomService.db.reservations)[k := x.(status := CheckedOut, actualCheckOutDate := Some(date),
                                                                              modifiedDate := Some(now), modifiedBy := executedBy)] &&
        (old(roomService.db.RoomIndex(roomId)).Some? ==> roomService.db.roomStatuses == old(roomService.db.roomStatuses) + [row] + [row]) &&
        (old(roomService.db.RoomIndex(roomId)).None? ==> roomService.db.roomStatuses == old(roomService.db.roomStatuses))
      ensures unchanged(roomService.db`rooms) && unchanged(roomService.db`guests)
      ensures NoDoubleBooking(old(roomService.db.reservations)) ==> NoDoubleBooking(roomService.db.reservations)
    {
      var db := roomService.db;
      var reservation := FindCheckedIn(db.reservations, roomId);
      if reservation.None? {
        return false;
      }
      var x := reservation.value;
      FoundByOwnKey(db, x);
      ghost var rs0, h0, k := db.reservations, db.roomStatuses, db.ReservationIndex(x.id).value;
      ghost var known := db.RoomIndex(roomId).Some?;
      assert rs0[k] == x && x.roomId == roomId;
      ghost var row := RoomStatus(roomId, date, CleaningInProgress, CheckedOutNote(x.reservationNumber), executedBy);
      ok := reservationService.CheckOut(x.id, date, executedBy, now);
      assert ok;
      assert db.reservations == rs0[k := x.(status := CheckedOut, actualCheckOutDate := Some(date),
                                            modifiedDate := Some(now), modifiedBy := executedBy)];
      ghost var h1 := db.roomStatuses;
      var recorded := roomService.UpdateRoomStatus(roomId, CleaningInProgress, date,
        CheckedOutNote(x.reservationNumber), executedBy);
      if known {
        assert h1 == h0 + [row] && db.roomStatuses == h1 + [row];
      } else {
        assert h1 == h0 && db.roomStatuses == h1;
      }
    }
  }
}
