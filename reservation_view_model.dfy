/** The booking form: the fields a clerk edits, the price and availability
    they derive, and the save that hands the draft to the reservation
    service. */
module ReservationViewModels {
  import opened Basics
  import opened Dates
  import opened Entities
  import opened ReservationModel
  import opened RoomModel
  import opened HotelData
  import opened RoomServices
  import opened ReservationServices

  /** The room row a loaded reservation's `Room` navigation finds, or
      null when the key is not stored. */
  function StoredRoom(db: HotelDb, id: int): (r: Option<Room>)
    reads db
    ensures r.Some? <==> db.RoomIndex(id).Some?
    ensures r.Some? ==> r.value in db.rooms && r.value.id == id
  {
    match db.RoomIndex(id)
    case None => None
    case Some(i) => Some(db.rooms[i])
  }

  /** The guest row a loaded reservation's `Guest` navigation finds, or
      null when the key is not stored. */
  function StoredGuest(db: HotelDb, id: int): (g: Option<Guest>)
    reads db
    ensures g.Some? <==> db.GuestIndex(id).Some?
    ensures g.Some? ==> g.value in db.guests && g.value.id == id
  {
    match db.GuestIndex(id)
    case None => None
    case Some(i) => Some(db.guests[i])
  }

  class ReservationViewModel {
    const reservationService: ReservationService
    const roomService: RoomService

    var reservation: Reservation
    var selectedRoom: Option<Room>
    var selectedGuest: Option<Guest>
    var checkInDate: DateTime
    var checkOutDate: DateTime
    var numberOfGuests: int
    var notes: string
    var isPaid: bool
    var deposit: int
    var totalPrice: int
    var isRoomAvailable: bool

    /** The form describes a stay that ends after it starts. */
    predicate DatesOrdered()
      reads this
    {
      checkInDate < checkOutDate
    }

    /** With a room selected, the shown price is its base price per night
        of the chosen dates. */
    predicate PriceCurrent()
      reads this
    {
      selectedRoom.Some? ==> totalPrice == selectedRoom.value.basePrice * Nights(checkInDate, checkOutDate)
    }

    /** With a room selected, the availability flag is the room service's
        answer for the chosen dates. */
    predicate AvailabilityCurrent()
      reads this, roomService.db
    {
      selectedRoom.Some? ==>
        isRoomAvailable == roomService.IsRoomAvailable(selectedRoom.value.id, checkInDate, checkOutDate)
    }

    /** A blank form: a new reservation, a one-night stay from today's
        midnight, one guest, nothing paid, availability unknown. */
    constructor(reservationService: ReservationService, roomService: RoomService, now: DateTime, guid: seq<nat>)
      requires Day(now) <= MaxDayNumber && IsGuid(guid)
      ensures this.reservationService == reservationService && this.roomService == roomService
      ensures reservation == NewReservation(now, guid) && reservation.status == Pending
      ensures selectedRoom == None && selectedGuest == None
      ensures checkInDate == Day(now) * TicksPerDay && Day(checkInDate) == Day(now)
      ensures Nights(checkInDate, checkOutDate) == 1
      ensures DatesOrdered()
      ensures numberOfGuests == 1 && notes == "" && !isPaid && deposit == 0
      ensures totalPrice == 0 && !isRoomAvailable
    {
      this.reservationService := reservationService;
      this.roomService := roomService;
      reservation := NewReservation(now, guid);
      selectedRoom := None;
      selectedGuest := None;
      checkInDate := Day(now) * TicksPerDay;
      checkOutDate := AddDays(Day(now) * TicksPerDay, 1);
      numberOfGuests := 1;
      notes := "";
      isPaid := false;
      deposit := 0;
      totalPrice := 0;
      isRoomAvailable := false;
      DayOfAddDays(Day(now) * TicksPerDay, 1);
    }

    /** `UpdateTotalPrice`: with a room selected, the price follows the
        dates; without one it keeps its value. */
    method UpdateTotalPrice()
      modifies `totalPrice
      ensures PriceCurrent()
      ensures selectedRoom.None? ==> totalPrice == old(totalPrice)
    {
      if selectedRoom.Some? {
        var nights := Nights(checkInDate, checkOutDate);
        totalPrice := selectedRoom.value.basePrice * nights;
      }
    }

    /** `CheckRoomAvailability`: with a room selected, the flag takes the
        room service's answer; without one it keeps its value. */
    method CheckRoomAvailability()
      modifies `isRoomAvailable
      ensures AvailabilityCurrent()
      ensures selectedRoom.None? ==> isRoomAvailable == old(isRoomAvailable)
    {
      if selectedRoom.Some? {
        isRoomAvailable := roomService.IsRoomAvailable(selectedRoom.value.id, checkInDate, checkOutDate);
      }
    }

    /** The `SelectedRoom` setter: a different room re-prices the stay.
        Availability is left as it was. */
    method SetSelectedRoom(value: Option<Room>)
      modifies `selectedRoom, `totalPrice
      ensures selectedRoom == value
      ensures value != old(selectedRoom) ==> PriceCurrent()
      ensures value == old(selectedRoom) || value.None? ==> totalPrice == old(totalPrice)
    {
      if value != selectedRoom {
        selectedRoom := value;
        UpdateTotalPrice();
      }
    }

    /** The `SelectedGuest` setter. */
    method SetSelectedGuest(value: Option<Guest>)
      modifies `selectedGuest
      ensures selectedGuest == value
    {
      selectedGuest := value;
    }

    /** The `CheckOutDate` setter: a date not after check-in is moved to one
        day after it; a change re-prices and re-checks the room. Whatever
        the value, the dates end up ordered. */
    method SetCheckOutDate(value: DateTime)
      modifies `checkOutDate, `totalPrice, `isRoomAvailable
      ensures checkOutDate == if value <= checkInDate then AddDays(checkInDate, 1) else value
      ensures DatesOrdered()
      ensures checkOutDate != old(checkOutDate) ==> PriceCurrent() && AvailabilityCurrent()
      ensures checkOutDate == old(checkOutDate) ==>
        totalPrice == old(totalPrice) && isRoomAvailable == old(isRoomAvailable)
      ensures selectedRoom.None? ==> totalPrice == old(totalPrice) && isRoomAvailable == old(isRoomAvailable)
    {
      var v := value;
      if v <= checkInDate {
        v := AddDays(checkInDate, 1);
      }
      if v != checkOutDate {
        checkOutDate := v;
        UpdateTotalPrice();
        CheckRoomAvailability();
      }
    }

    /** The `CheckInDate` setter: a change pushes a check-out that is not
        later to one day after the new check-in, then re-prices and
        re-checks the room. The dates end up ordered after any change, and
        stay ordered when they were. */
    method SetCheckInDate(value: DateTime)
      modifies `checkInDate, `checkOutDate, `totalPrice, `isRoomAvailable
      ensures checkInDate == value
      ensures value == old(checkInDate) ==>
        checkOutDate == old(checkOutDate) && totalPrice == old(totalPrice) && isRoomAvailable == old(isRoomAvailable)
      ensures value != old(checkInDate) ==>
        checkOutDate == (if old(checkOutDate) <= value then AddDays(value, 1) else old(checkOutDate)) &&
        DatesOrdered() && PriceCurrent() && AvailabilityCurrent()
      ensures old(DatesOrdered()) ==> DatesOrdered()
      ensures selectedRoom.None? ==> totalPrice == old(totalPrice) && isRoomAvailable == old(isRoomAvailable)
    {
      if value != checkInDate {
        checkInDate := value;
        if checkOutDate <= checkInDate {
          SetCheckOutDate(AddDays(checkInDate, 1));
        }
        UpdateTotalPrice();
        CheckRoomAvailability();
      }
    }

    /** The `Deposit` setter: a changed deposit marks the reservation paid
        exactly when it covers the shown price. */
    method SetDeposit(value: int)
      modifies `deposit, `isPaid
      ensures deposit == value
      ensures value != old(deposit) ==> (isPaid <==> value >= totalPrice)
      ensures value == old(deposit) ==> isPaid == old(isPaid)
    {
      if value != deposit {
        deposit := value;
        isPaid := deposit >= totalPrice;
      }
    }

    /** `InitializeForNewReservationAsync`: a fresh, unsaved, pending
        reservation carrying the form's dates, guests, payment and notes,
        created now by "User". */
    method InitializeForNew(now: DateTime, guid: seq<nat>)
      requires Day(now) <= MaxDayNumber && IsGuid(guid)
      modifies `reservation
      ensures reservation.id == 0 && reservation.status == Pending
      ensures reservation == NewReservation(now, guid).(
        checkInDate := checkInDate, checkOutDate := checkOutDate, numberOfGuests := numberOfGuests,
        isPaid := isPaid, deposit := Some(deposit), notes := notes, createdBy := "User")
    {
      var blank := NewReservation(now, guid);
      reservation := blank.(
        checkInDate := checkInDate, checkOutDate := checkOutDate, numberOfGuests := numberOfGuests,
        status := Pending, isPaid := isPaid, deposit := Some(deposit), notes := notes,
        createdDate := now, createdBy := "User");
    }

    /** The form shows `r` with its room and guest, field by field, and no
        price or availability recomputed. */
    predicate Shows(r: Reservation, room: Option<Room>, guest: Option<Guest>)
      reads this
    {
      reservation == r && selectedRoom == room && selectedGuest == guest &&
      checkInDate == r.checkInDate && checkOutDate == r.checkOutDate &&
      numberOfGuests == r.numberOfGuests && notes == r.notes && isPaid == r.isPaid &&
      deposit == r.deposit.GetOr(0) && totalPrice == r.totalPrice
    }

    /** `LoadReservationAsync`: an unknown key leaves the form as it was; a
        stored reservation fills the fields directly, bypassing the setters,
        so neither the date order nor the price rule is re-established. */
    method Load(reservationId: int)
      modifies `reservation, `selectedRoom, `selectedGuest, `checkInDate, `checkOutDate,
        `numberOfGuests, `notes, `isPaid, `deposit, `totalPrice
      ensures old(reservationService.db.ReservationIndex(reservationId)).None? ==> unchanged(this)
      ensures old(reservationService.db.ReservationIndex(reservationId)).Some? ==>
        var r := old(reservationService.db.reservations[reservationService.db.ReservationIndex(reservationId).value]);
        Shows(r, old(StoredRoom(reservationService.db, r.roomId)), old(StoredGuest(reservationService.db, r.guestId)))
    {
      var store := reservationService.db;
      var found := store.ReservationIndex(reservationId);
      if found.Some? {
        var r := store.reservations[found.value];
        Show(r, StoredRoom(store, r.roomId), StoredGuest(store, r.guestId));
      }
    }

    /** The direct field writes of `LoadReservationAsync`. */
    method Show(r: Reservation, room: Option<Room>, guest: Option<Guest>)
      modifies `reservation, `selectedRoom, `selectedGuest, `checkInDate, `checkOutDate,
        `numberOfGuests, `notes, `isPaid, `deposit, `totalPrice
      ensures Shows(r, room, guest)
    {
      reservation := r;
      selectedRoom := room;
      selectedGuest := guest;
      checkInDate := r.checkInDate;
      checkOutDate := r.checkOutDate;
      numberOfGuests := r.numberOfGuests;
      notes := r.notes;
      isPaid := r.isPaid;
      deposit := r.deposit.GetOr(0);
      totalPrice := r.totalPrice;
    }

    /** The reservation `SaveReservationAsync` hands to the service: the
        held one with the form's values copied in. When the shown price
        follows the dates, the draft obeys the pricing rule. */
    function Draft(): (r: Reservation)
      reads this
      requires selectedRoom.Some? && selectedGuest.Some?
      ensures r.id == reservation.id && r.reservationNumber == reservation.reservationNumber
      ensures r.roomId == selectedRoom.value.id && r.guestId == selectedGuest.value.id
      ensures r.checkInDate == checkInDate && r.checkOutDate == checkOutDate
      ensures r.deposit == Some(deposit) && r.totalPrice == totalPrice
      ensures PriceCurrent() ==> PricedByNights(r, selectedRoom.value.basePrice)
    {
      reservation.(
        roomId := selectedRoom.value.id, guestId := selectedGuest.value.id,
        checkInDate := checkInDate, checkOutDate := checkOutDate,
        numberOfGuests := numberOfGuests, notes := notes, isPaid := isPaid,
        deposit := Some(deposit), totalPrice := totalPrice)
    }

    /** `SaveReservationAsync`: without a room or a guest it answers false
        and sends nothing. Otherwise it sends the draft, to be created when
        it has no key and updated when it has one, and answers true unless
        the service throws: an update of a key the store no longer holds
        changes nothing and still answers true. */
    method Save(now: DateTime) returns (result: Outcome<bool>)
      requires reservationService.db.Valid() && reservationService.roomService.db == reservationService.db
      modifies reservationService.db, `reservation
      ensures reservationService.db.Valid()
      ensures old(selectedRoom.None? || selectedGuest.None?) ==>
        result == Returned(false) && reservation == old(reservation) && unchanged(reservationService.db)
      ensures old(selectedRoom.Some? && selectedGuest.Some?) ==>
        var draft := old(Draft());
        (result.Returned? ==> result.value) &&
        (result.Threw? ==> reservation == draft && unchanged(reservationService.db))
      ensures old(selectedRoom.Some? && selectedGuest.Some?) && old(reservation.id) == 0 ==>
        var draft := old(Draft());
        (result.Threw? <==>
          !old(reservationService.roomService.IsRoomAvailable(draft.roomId, draft.checkInDate, draft.checkOutDate))) &&
        (result.Threw? ==> result.error == InvalidOperation(RoomNotAvailable)) &&
        (result.Returned? ==>
          reservation == draft.(
            id := old(reservationService.db.lastReservationId) + 1,
            totalPrice := old(reservationService.db.rooms[reservationService.db.RoomIndex(draft.roomId).value].basePrice) *
                          GetNumberOfNights(draft),
            status := Confirmed, createdDate := now) &&
          reservationService.db.reservations == old(reservationService.db.reservations) + [reservation] &&
          reservationService.db.roomStatuses == old(reservationService.db.roomStatuses) +
            [RoomStatus(draft.roomId, draft.checkInDate, Reserved, ReservedNote(draft.reservationNumber), draft.createdBy)])
      ensures old(selectedRoom.Some? && selectedGuest.Some?) && old(reservation.id) != 0 ==>
        var draft := old(Draft());
        var found := old(reservationService.db.ReservationIndex(draft.id));
        found.None? ==> result == Returned(true) && reservation == draft && unchanged(reservationService.db)
      ensures old(selectedRoom.Some? && selectedGuest.Some?) && old(reservation.id) != 0 ==>
        var draft := old(Draft());
        var found := old(reservationService.db.ReservationIndex(draft.id));
        found.Some? && !NeedsAvailabilityCheck(old(reservationService.db.reservations[found.value]), draft) ==>
          result == Returned(true) && reservation == draft.(modifiedDate := Some(now)) &&
          reservationService.db.reservations == old(reservationService.db.reservations)[found.value := reservation] &&
          reservationService.db.roomStatuses == old(reservationService.db.roomStatuses)
      ensures old(selectedRoom.Some? && selectedGuest.Some?) && old(reservation.id) != 0 ==>
        var draft := old(Draft());
        var found := old(reservationService.db.ReservationIndex(draft.id));
        found.Some? && NeedsAvailabilityCheck(old(reservationService.db.reservations[found.value]), draft) ==>
          (result.Threw? <==>
            !old(reservationService.roomService.IsRoomAvailable(draft.roomId, draft.checkInDate, draft.checkOutDate))) &&
          (result.Threw? ==> result.error == InvalidOperation(RoomNotAvailable)) &&
          (result.Returned? ==>
            reservation == draft.(
              totalPrice := old(reservationService.db.rooms[reservationService.db.RoomIndex(draft.roomId).value].basePrice) *
                            GetNumberOfNights(draft),
              modifiedDate := Some(now)) &&
            reservationService.db.reservations == old(reservationService.db.reservations)[found.value := reservation] &&
            reservationService.db.roomStatuses == old(reservationService.db.roomStatuses) +
              [RoomStatus(draft.roomId, draft.checkInDate, Reserved, UpdatedNote(draft.reservationNumber), draft.modifiedBy)])
      ensures old(selectedRoom.Some? && selectedGuest.Some?) && NoDoubleBooking(old(reservationService.db.reservations)) ==>
        var draft := old(Draft());
        var found := old(reservationService.db.ReservationIndex(draft.id));
        !(draft.id != 0 && found.Some? && RevivesCancelled(old(reservationService.db.reservations[found.value]), draft)) ==>
          NoDoubleBooking(reservationService.db.reservations)
      ensures unchanged(reservationService.db`rooms) && unchanged(reservationService.db`guests)
    {
      if selectedRoom.None? || selectedGuest.None? {
        return Returned(false);
      }
      var draft := Draft();
      if draft.id == 0 {
        result := SaveNew(draft, now);
      } else {
        result := SaveExisting(draft, now);
      }
    }

    /** The create path of `SaveReservationAsync`: the draft goes to
        `CreateReservationAsync` and the held reservation becomes its answer. */
    method SaveNew(draft: Reservation, now: DateTime) returns (result: Outcome<bool>)
      requires reservationService.db.Valid() && reservationService.roomService.db == reservationService.db
      requires draft.id == 0
      modifies reservationService.db, `reservation
      ensures reservationService.db.Valid()
      ensures result.Threw? <==>
        !old(reservationService.roomService.IsRoomAvailable(draft.roomId, draft.checkInDate, draft.checkOutDate))
      ensures result.Threw? ==>
        result.error == InvalidOperation(RoomNotAvailable) && reservation == draft && unchanged(reservationService.db)
      ensures result.Returned? ==>
        result.value &&
        reservation == draft.(
          id := old(reservationService.db.lastReservationId) + 1,
          totalPrice := old(reservationService.db.rooms[reservationService.db.RoomIndex(draft.roomId).value].basePrice) *
                        GetNumberOfNights(draft),
          status := Confirmed, createdDate := now) &&
        reservationService.db.reservations == old(reservationService.db.reservations) + [reservation] &&
        reservationService.db.roomStatuses == old(reservationService.db.roomStatuses) +
          [RoomStatus(draft.roomId, draft.checkInDate, Reserved, ReservedNote(draft.reservationNumber), draft.createdBy)]
      ensures NoDoubleBooking(old(reservationService.db.reservations)) ==> NoDoubleBooking(reservationService.db.reservations)
      ensures unchanged(reservationService.db`rooms) && unchanged(reservationService.db`guests)
    {
      var created, after := reservationService.Create(draft, now);
      reservation := after;
      if created.Threw? {
        return Threw(created.error);
      }
      return Returned(true);
    }

    /** The update path of `SaveReservationAsync`: the draft goes to
        `UpdateReservationAsync` and the held reservation becomes what it
        stored; an unknown key still answers true. */
    method SaveExisting(draft: Reservation, now: DateTime) returns (result: Outcome<bool>)
      requires reservationService.db.Valid() && reservationService.roomService.db == reservationService.db
      modifies reservationService.db, `reservation
      ensures reservationService.db.Valid()
      ensures result.Returned? ==> result.value
      ensures result.Threw? ==> reservation == draft && unchanged(reservationService.db)
      ensures old(reservationService.db.ReservationIndex(draft.id)).None? ==>
        result == Returned(true) && reservation == draft && unchanged(reservationService.db)
      ensures old(reservationService.db.ReservationIndex(draft.id)).Some? ==>
        var k := old(reservationService.db.ReservationIndex(draft.id)).value;
        var existing := old(reservationService.db.reservations[k]);
        if !NeedsAvailabilityCheck(existing, draft) then
          result == Returned(true) && reservation == draft.(modifiedDate := Some(now)) &&
          reservationService.db.reservations == old(reservationService.db.reservations)[k := reservation] &&
          reservationService.db.roomStatuses == old(reservationService.db.roomStatuses)
        else if !old(reservationService.roomService.IsRoomAvailable(draft.roomId, draft.checkInDate, draft.checkOutDate)) then
          result == Threw(InvalidOperation(RoomNotAvailable))
        else
          result == Returned(true) &&
          reservation == draft.(
            totalPrice := old(reservationService.db.rooms[reservationService.db.RoomIndex(draft.roomId).value].basePrice) *
                          GetNumberOfNights(draft),
            modifiedDate := Some(now)) &&
          reservationService.db.reservations == old(reservationService.db.reservations)[k := reservation] &&
          reservationService.db.roomStatuses == old(reservationService.db.roomStatuses) +
            [RoomStatus(draft.roomId, draft.checkInDate, Reserved, UpdatedNote(draft.reservationNumber), draft.modifiedBy)]
      ensures NoDoubleBooking(old(reservationService.db.reservations)) ==>
        var found := old(reservationService.db.ReservationIndex(draft.id));
        !(found.Some? && RevivesCancelled(old(reservationService.db.reservations[found.value]), draft)) ==>
          NoDoubleBooking(reservationService.db.reservations)
      ensures unchanged(reservationService.db`rooms) && unchanged(reservationService.db`guests)
    {
      var updated, after := reservationService.Update(draft, now);
      reservation := after;
      if updated.Threw? {
        return Threw(updated.error);
      }
      return Returned(true);
    }
  }
}
