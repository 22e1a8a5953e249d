/** The reservation lifecycle: create, update, cancel, check in, check out,
    extend a stay and record a payment. Each operation loads the stored
    reservation, changes its fields, writes it back, and appends the status
    row that goes with the step through the room service. */
module ReservationServices {
  import opened Basics
  import opened Dates
  import opened Entities
  import opened ReservationModel
  import opened RoomModel
  import opened HotelData
  import opened RoomServices

  // ---------------------------------------------------------------------
  // The rules the availability check is there to keep

  /** Two reservations of the same room, neither cancelled, whose stays
      touch (the inclusive test the availability check uses). */
  predicate Clash(a: Reservation, b: Reservation) {
    a.roomId == b.roomId && a.status != Cancelled && b.status != Cancelled &&
    Overlaps(a, b.checkInDate, b.checkOutDate)
  }

  lemma ClashSymmetric(a: Reservation, b: Reservation)
    ensures Clash(a, b) <==> Clash(b, a)
  {
  }

  /** No two distinct rows of the reservation table clash. */
  ghost predicate NoDoubleBooking(rs: seq<Reservation>) {
    forall i, j :: 0 <= i < |rs| && 0 <= j < |rs| && i != j ==> !Clash(rs[i], rs[j])
  }

  /** Every stay ends no earlier than it starts. */
  ghost predicate WellFormedStays(rs: seq<Reservation>) {
    forall i :: 0 <= i < |rs| ==> rs[i].checkInDate <= rs[i].checkOutDate
  }

  /** The window `[from, to]` of room `roomId` meets no reservation of the
      table other than, possibly, the one at position `except`. */
  ghost predicate WindowFree(rs: seq<Reservation>, roomId: int, from: DateTime, to: DateTime, except: int) {
    forall j :: 0 <= j < |rs| && j != except && rs[j].roomId == roomId && rs[j].status != Cancelled ==>
      !Overlaps(rs[j], from, to)
  }

  /** A window free in the store is free in the reservation table, and the
      room it names is stored. */
  lemma FreeInStoreWindow(db: HotelDb, roomId: int, from: DateTime, to: DateTime, except: int)
    requires FreeInStore(db.rooms, db.roomStatuses, db.reservations, roomId, from, to)
    ensures WindowFree(db.reservations, roomId, from, to, except)
    ensures db.RoomIndex(roomId).Some?
  {
    var rs := db.reservations;
    forall j | 0 <= j < |rs| && j != except && rs[j].roomId == roomId && rs[j].status != Cancelled
      ensures !Overlaps(rs[j], from, to)
    {
      assert rs[j] in rs;
    }
  }

  /** A booking whose window the check found free joins without clashing. */
  lemma BookingKeepsNoDoubleBooking(rs: seq<Reservation>, r: Reservation)
    requires NoDoubleBooking(rs)
    requires WindowFree(rs, r.roomId, r.checkInDate, r.checkOutDate, -1)
    ensures NoDoubleBooking(rs + [r])
  {
    var rs' := rs + [r];
    forall i, j | 0 <= i < |rs'| && 0 <= j < |rs'| && i != j ensures !Clash(rs'[i], rs'[j]) {
      if j == |rs| {
        ClashSymmetric(rs'[i], r);
      } else if i < |rs| {
        assert rs'[i] == rs[i] && rs'[j] == rs[j];
      }
    }
  }

  /** Rewriting row `k` with a stay whose window the check found free
      (ignoring the row itself) keeps the table free of clashes. */
  lemma MoveKeepsNoDoubleBooking(rs: seq<Reservation>, k: nat, r: Reservation)
    requires NoDoubleBooking(rs) && k < |rs|
    requires WindowFree(rs, r.roomId, r.checkInDate, r.checkOutDate, k)
    ensures NoDoubleBooking(rs[k := r])
  {
    var rs' := rs[k := r];
    forall i, j | 0 <= i < |rs'| && 0 <= j < |rs'| && i != j ensures !Clash(rs'[i], rs'[j]) {
      if i == k {
        ClashSymmetric(r, rs'[j]);
      }
    }
  }

  /** Cancelling a row, or keeping it live in the same room within its old
      stay, never creates a clash. */
  lemma ReplaceKeepsNoDoubleBooking(rs: seq<Reservation>, k: nat, r: Reservation)
    requires NoDoubleBooking(rs) && k < |rs|
    requires r.status == Cancelled ||
      (rs[k].status != Cancelled && r.roomId == rs[k].roomId &&
       rs[k].checkInDate <= r.checkInDate && r.checkOutDate <= rs[k].checkOutDate)
    ensures NoDoubleBooking(rs[k := r])
  {
    if r.status == Cancelled {
      var rs' := rs[k := r];
      forall i, j | 0 <= i < |rs'| && 0 <= j < |rs'| && i != j ensures !Clash(rs'[i], rs'[j]) {
        if i != k && j != k {
          assert rs'[i] == rs[i] && rs'[j] == rs[j];
        }
      }
    } else {
      forall j | 0 <= j < |rs| && j != k && rs[j].roomId == r.roomId && rs[j].status != Cancelled
        ensures !Overlaps(rs[j], r.checkInDate, r.checkOutDate)
      {
        assert !Clash(rs[j], rs[k]);
      }
      MoveKeepsNoDoubleBooking(rs, k, r);
    }
  }

  // ---------------------------------------------------------------------
  // Prices

  /** The price rule: base price times calendar nights. */
  predicate PricedByNights(r: Reservation, basePrice: int) {
    r.totalPrice == basePrice * GetNumberOfNights(r)
  }

  /** Charging the extra nights of an extension keeps the price rule. */
  lemma ExtensionKeepsPriceRule(r: Reservation, basePrice: int, newCheckOut: DateTime)
    ensures PricedByNights(r, basePrice) ==>
      PricedByNights(
        r.(checkOutDate := newCheckOut, totalPrice := r.totalPrice + basePrice * Nights(r.checkOutDate, newCheckOut)),
        basePrice)
  {
    NightsAdditive(r.checkInDate, r.checkOutDate, newCheckOut);
  }

  // ---------------------------------------------------------------------
  // Update

  /** `UpdateReservationAsync` re-checks availability, re-prices and records
      a status row only when the room or one of the two dates changed. */
  predicate NeedsAvailabilityCheck(existing: Reservation, r: Reservation) {
    existing.roomId != r.roomId || existing.checkInDate != r.checkInDate || existing.checkOutDate != r.checkOutDate
  }

  /** An update that brings a cancelled reservation back to life without
      moving it: the one kind of update the availability check never sees. */
  predicate RevivesCancelled(existing: Reservation, r: Reservation) {
    !NeedsAvailabilityCheck(existing, r) && existing.status == Cancelled && r.status != Cancelled
  }

  /** Such an update can double-book: a cancelled stay whose room was booked
      again is revived over the new booking. */
  lemma ReviveCanDoubleBook()
    ensures var a := NewStay(1, Cancelled);
      var b := NewStay(2, Confirmed);
      var a' := a.(status := Confirmed);
      RevivesCancelled(a, a') && NoDoubleBooking([a, b]) && !NoDoubleBooking([a, b][0 := a'])
  {
    var a, b := NewStay(1, Cancelled), NewStay(2, Confirmed);
    var a' := a.(status := Confirmed);
    var rs := [a, b];
    forall i, j | 0 <= i < |rs| && 0 <= j < |rs| && i != j ensures !Clash(rs[i], rs[j]) {
      assert rs[i] == a || rs[j] == a;
    }
    var rs' := rs[0 := a'];
    assert rs'[0] == a' && rs'[1] == b && Clash(a', b);
  }

  /** A two-night stay in room 1, used by the witnesses. */
  function NewStay(id: int, status: ReservationStatus): (r: Reservation)
    ensures r.id == id && r.roomId == 1 && r.status == status && GetNumberOfNights(r) == 2
  {
    Reservation(id, "", 1, 1, 0, 2 * TicksPerDay, None, None, 0, None, false, status, "", 1, 0, None, "", "")
  }

  // ---------------------------------------------------------------------
  // Extend stay

  /** Where `ExtendStayAsync` starts the window it checks: one day after the
      old check-out, on full timestamps. */
  function ExtensionStart(oldCheckOut: DateTime): (t: DateTime)
    ensures t == oldCheckOut + TicksPerDay && Day(t) == Day(oldCheckOut) + 1
  {
    DayOfAddDays(oldCheckOut, 1);
    AddDays(oldCheckOut, 1)
  }

  /** The stored reservation after an extension: the new check-out, the
      extra calendar nights charged at `basePrice`, and the audit fields. */
  function Extended(r: Reservation, basePrice: int, newCheckOut: DateTime, now: DateTime, author: string): (e: Reservation)
    ensures e == r.(checkOutDate := newCheckOut, totalPrice := e.totalPrice, modifiedDate := Some(now), modifiedBy := author)
    ensures PricedByNights(r, basePrice) ==> PricedByNights(e, basePrice)
    ensures Day(r.checkOutDate) <= Day(newCheckOut) ==> (basePrice >= 0 ==> e.totalPrice >= r.totalPrice)
  {
    var additionalNights := Day(newCheckOut) - Day(r.checkOutDate);
    var additionalCharge := basePrice * additionalNights;
    ExtensionKeepsPriceRule(r, basePrice, newCheckOut);
    r.(checkOutDate := newCheckOut, totalPrice := r.totalPrice + additionalCharge, modifiedDate := Some(now), modifiedBy := author)
  }

  /** A window starting one day after the old check-out misses a short stay
      that begins and ends within that day, so the extension goes through
      and the room is double-booked. */
  lemma ExtensionCheckMissesShortStay()
    ensures var a := Reservation(1, "", 1, 1, 0, TicksPerDay, Some(0), None, 0, None, false, CheckedIn, "", 1, 0, None, "", "");
      var b := Reservation(2, "", 1, 1, TicksPerDay + 1, TicksPerDay + 2, None, None, 0, None, false, Confirmed, "", 1, 0, None, "", "");
      var newCheckOut := 3 * TicksPerDay;
      WellFormedStays([a, b]) && NoDoubleBooking([a, b]) &&
      WindowFree([a, b], 1, ExtensionStart(a.checkOutDate), newCheckOut, -1) &&
      !NoStayWithinDayAfter([a, b], 0) &&
      !NoDoubleBooking([a, b][0 := a.(checkOutDate := newCheckOut)])
  {
    var a := Reservation(1, "", 1, 1, 0, TicksPerDay, Some(0), None, 0, None, false, CheckedIn, "", 1, 0, None, "", "");
    var b := Reservation(2, "", 1, 1, TicksPerDay + 1, TicksPerDay + 2, None, None, 0, None, false, Confirmed, "", 1, 0, None, "", "");
    var rs := [a, b];
    assert !Clash(a, b) && !Clash(b, a);
    forall i, j | 0 <= i < |rs| && 0 <= j < |rs| && i != j ensures !Clash(rs[i], rs[j]) {
      assert (rs[i] == a && rs[j] == b) || (rs[i] == b && rs[j] == a);
    }
    assert ExtensionStart(a.checkOutDate) == 2 * TicksPerDay;
    assert !Overlaps(a, 2 * TicksPerDay, 3 * TicksPerDay) && !Overlaps(b, 2 * TicksPerDay, 3 * TicksPerDay);
    var a' := a.(checkOutDate := 3 * TicksPerDay);
    var rs' := rs[0 := a'];
    assert rs'[0] == a' && rs'[1] == b && Clash(a', b);
  }

  /** The window the extension should check: everything after the old
      check-out instant. */
  function CorrectedExtensionStart(oldCheckOut: DateTime): (t: DateTime)
    ensures oldCheckOut < t && Day(t) <= Day(oldCheckOut) + 1
  {
    oldCheckOut + 1
  }

  /** With the corrected window, a free window means the extended stay clashes
      with nothing. */
  lemma CorrectedExtensionKeepsNoDoubleBooking(rs: seq<Reservation>, k: nat, newCheckOut: DateTime)
    requires NoDoubleBooking(rs) && WellFormedStays(rs) && k < |rs|
    requires WindowFree(rs, rs[k].roomId, CorrectedExtensionStart(rs[k].checkOutDate), newCheckOut, k)
    ensures NoDoubleBooking(rs[k := rs[k].(checkOutDate := newCheckOut)])
  {
    var r := rs[k].(checkOutDate := newCheckOut);
    if r.status == Cancelled {
      ReplaceKeepsNoDoubleBooking(rs, k, r);
    } else {
      forall j | 0 <= j < |rs| && j != k && rs[j].roomId == r.roomId && rs[j].status != Cancelled
        ensures !Overlaps(rs[j], r.checkInDate, r.checkOutDate)
      {
        assert !Clash(rs[j], rs[k]);
        assert rs[j].checkInDate <= rs[j].checkOutDate;
        assert !Overlaps(rs[j], rs[k].checkOutDate + 1, newCheckOut);
      }
      MoveKeepsNoDoubleBooking(rs, k, r);
    }
  }

  /** No live stay of row `k`'s room other than the row itself begins after
      its check-out and ends before the same instant of the next day: the
      one kind of stay the window `ExtendStayAsync` checks cannot see. */
  ghost predicate NoStayWithinDayAfter(rs: seq<Reservation>, k: nat)
    requires k < |rs|
  {
    forall j :: 0 <= j < |rs| && j != k && rs[j].roomId == rs[k].roomId && rs[j].status != Cancelled ==>
      !(rs[k].checkOutDate < rs[j].checkInDate && rs[j].checkOutDate < ExtensionStart(rs[k].checkOutDate))
  }

  /** The window as written keeps the table free of double bookings when no
      stay hides within the day after the old check-out. A stay that does is
      missed by the check and can then clash (`ExtensionCheckMissesShortStay`). */
  lemma ExtensionKeepsNoDoubleBooking(rs: seq<Reservation>, k: nat, newCheckOut: DateTime)
    requires NoDoubleBooking(rs) && WellFormedStays(rs) && k < |rs|
    requires WindowFree(rs, rs[k].roomId, ExtensionStart(rs[k].checkOutDate), newCheckOut, k)
    requires NoStayWithinDayAfter(rs, k)
    ensures NoDoubleBooking(rs[k := rs[k].(checkOutDate := newCheckOut)])
  {
    var out := rs[k].checkOutDate;
    if rs[k].status == Cancelled {
      ReplaceKeepsNoDoubleBooking(rs, k, rs[k].(checkOutDate := newCheckOut));
      return;
    }
    forall j | 0 <= j < |rs| && j != k && rs[j].roomId == rs[k].roomId && rs[j].status != Cancelled
      ensures !Overlaps(rs[j], CorrectedExtensionStart(out), newCheckOut)
    {
      assert !Overlaps(rs[j], ExtensionStart(out), newCheckOut);
      assert !Clash(rs[j], rs[k]) && rs[k].checkInDate <= out;
    }
    CorrectedExtensionKeepsNoDoubleBooking(rs, k, newCheckOut);
  }

  /** Only the room, the status and the two dates take part in a clash, so
      changing the price or the audit fields of a row changes nothing. */
  lemma ReplaceOnlyDates(rs: seq<Reservation>, k: nat, newCheckOut: DateTime, price: int, modified: Option<DateTime>, author: string)
    requires k < |rs| && NoDoubleBooking(rs[k := rs[k].(checkOutDate := newCheckOut)])
    ensures NoDoubleBooking(rs[k := rs[k].(checkOutDate := newCheckOut, totalPrice := price, modifiedDate := modified, modifiedBy := author)])
  {
    var a := rs[k := rs[k].(checkOutDate := newCheckOut)];
    var b := rs[k := rs[k].(checkOutDate := newCheckOut, totalPrice := price, modifiedDate := modified, modifiedBy := author)];
    forall i, j | 0 <= i < |b| && 0 <= j < |b| && i != j ensures !Clash(b[i], b[j]) {
      assert !Clash(a[i], a[j]);
    }
  }

  // ---------------------------------------------------------------------
  // The notes written on the status rows

  function ReservedNote(number: string): string { "Reserved via reservation #" + number }
  function UpdatedNote(number: string): string { "Reserved via updated reservation #" + number }
  function CancelledNote(number: string): string { "Reservation #" + number + " cancelled" }
  function CheckedInNote(number: string): string { "Guest checked in for reservation #" + number }
  function CheckedOutNote(number: string): string { "Guest checked out from reservation #" + number }

  class ReservationService {
    const db: HotelDb
    const roomService: RoomService

    constructor(db: HotelDb, roomService: RoomService)
      requires roomService.db == db
      ensures this.db == db && this.roomService == roomService
    {
      this.db := db;
      this.roomService := roomService;
    }

    /** `CreateReservationAsync`. An unavailable room throws and stores
        nothing. Otherwise the price, status and creation time are set
        whatever the caller supplied, the reservation is stored under a fresh
        key, and one `Reserved` row is recorded on the check-in date.
        `reservationAfter` is the caller's object after the call. */
    method Create(reservation: Reservation, now: DateTime) returns (result: Outcome<Reservation>, reservationAfter: Reservation)
      requires db.Valid() && roomService.db == db
      modifies db
      ensures db.Valid()
      ensures result.Threw? <==>
        !old(roomService.IsRoomAvailable(reservation.roomId, reservation.checkInDate, reservation.checkOutDate))
      ensures result.Threw? ==>
        result.error == InvalidOperation(RoomNotAvailable) && reservationAfter == reservation && unchanged(db)
      ensures result.Returned? ==>
        var basePrice := old(db.rooms[db.RoomIndex(reservation.roomId).value].basePrice);
        var added := reservation.(id := old(db.lastReservationId) + 1, totalPrice := basePrice * GetNumberOfNights(reservation),
                                  status := Confirmed, createdDate := now);
        result.value == added && reservationAfter == added &&
        PricedByNights(added, basePrice) &&
        db.reservations == old(db.reservations) + [added] &&
        db.roomStatuses == old(db.roomStatuses) +
          [RoomStatus(reservation.roomId, reservation.checkInDate, Reserved,
                      ReservedNote(reservation.reservationNumber), reservation.createdBy)]
      ensures unchanged(db`rooms) && unchanged(db`guests)
      ensures NoDoubleBooking(old(db.reservations)) ==> NoDoubleBooking(db.reservations)
    {
      var available := roomService.IsRoomAvailable(reservation.roomId, reservation.checkInDate, reservation.checkOutDate);
      if !available {
        return Threw(InvalidOperation(RoomNotAvailable)), reservation;
      }
      FreeInStoreWindow(db, reservation.roomId, reservation.checkInDate, reservation.checkOutDate, -1);
      var added := Store(reservation, now);
      return Returned(added), added;
    }

    /** The writes of `CreateReservationAsync` once the window was found
        free: the price, status and creation time are set, the reservation is
        stored under the next key, and one `Reserved` row is recorded on its
        check-in date. */
    method Store(reservation: Reservation, now: DateTime) returns (added: Reservation)
      requires db.Valid() && roomService.db == db && db.RoomIndex(reservation.roomId).Some?
      requires WindowFree(db.reservations, reservation.roomId, reservation.checkInDate, reservation.checkOutDate, -1)
      modifies db
      ensures db.Valid()
      ensures var basePrice := old(db.rooms[db.RoomIndex(reservation.roomId).value].basePrice);
        added == reservation.(id := old(db.lastReservationId) + 1, totalPrice := basePrice * GetNumberOfNights(reservation),
                              status := Confirmed, createdDate := now) &&
        PricedByNights(added, basePrice)
      ensures db.reservations == old(db.reservations) + [added]
      ensures db.roomStatuses == old(db.roomStatuses) +
        [RoomStatus(reservation.roomId, reservation.checkInDate, Reserved,
                    ReservedNote(reservation.reservationNumber), reservation.createdBy)]
      ensures unchanged(db`rooms) && unchanged(db`guests)
      ensures NoDoubleBooking(old(db.reservations)) ==> NoDoubleBooking(db.reservations)
    {
      var room := db.RoomWithDetails(reservation.roomId).value;
      var nights := GetNumberOfNights(reservation);
      var r := reservation.(totalPrice := room.basePrice * nights, status := Confirmed, createdDate := now);
      if NoDoubleBooking(db.reservations) {
        BookingKeepsNoDoubleBooking(db.reservations, r.(id := db.lastReservationId + 1));
      }
      ghost var rs0 := db.reservations;
      added := db.AddReservation(r);
      var recorded := roomService.UpdateRoomStatus(r.roomId, Reserved, r.checkInDate,
        ReservedNote(r.reservationNumber), r.createdBy);
      assert recorded;
      assert db.reservations == rs0 + [added];
    }

    /** `UpdateReservationAsync`. An unknown key answers false. When the room
        and both dates are unchanged, the caller's values are written back as
        they are, with no check and no status row. Otherwise the new window is
        checked (throwing when taken), a `Reserved` row is recorded on the new
        check-in date, and the price is recomputed. */
    method Update(reservation: Reservation, now: DateTime) returns (result: Outcome<bool>, reservationAfter: Reservation)
      requires db.Valid() && roomService.db == db
      modifies db
      ensures db.Valid()
      ensures old(db.ReservationIndex(reservation.id)).None? ==>
        result == Returned(false) && reservationAfter == reservation && unchanged(db)
      ensures old(db.ReservationIndex(reservation.id)).Some? ==>
        var k := old(db.ReservationIndex(reservation.id)).value;
        var existing := old(db.reservations[k]);
        if !NeedsAvailabilityCheck(existing, reservation) then
          result == Returned(true) && reservationAfter == reservation.(modifiedDate := Some(now)) &&
          db.reservations == old(db.reservations)[k := reservationAfter] && db.roomStatuses == old(db.roomStatuses) &&
          (NoDoubleBooking(old(db.reservations)) && !RevivesCancelled(existing, reservation) ==> NoDoubleBooking(db.reservations))
        else if !old(roomService.IsRoomAvailable(reservation.roomId, reservation.checkInDate, reservation.checkOutDate)) then
          result == Threw(InvalidOperation(RoomNotAvailable)) && reservationAfter == reservation && unchanged(db)
        else
          var basePrice := old(db.rooms[db.RoomIndex(reservation.roomId).value].basePrice);
          result == Returned(true) &&
          reservationAfter == reservation.(totalPrice := basePrice * GetNumberOfNights(reservation), modifiedDate := Some(now)) &&
          PricedByNights(reservationAfter, basePrice) &&
          db.reservations == old(db.reservations)[k := reservationAfter] &&
          db.roomStatuses == old(db.roomStatuses) +
            [RoomStatus(reservation.roomId, reservation.checkInDate, Reserved,
                        UpdatedNote(reservation.reservationNumber), reservation.modifiedBy)] &&
          (NoDoubleBooking(old(db.reservations)) ==> NoDoubleBooking(db.reservations))
      ensures unchanged(db`rooms) && unchanged(db`guests)
    {
      var found := db.ReservationIndex(reservation.id);
      if found.None? {
        return Returned(false), reservation;
      }
      var k := found.value;
      var existing := db.reservations[k];
      if NeedsAvailabilityCheck(existing, reservation) {
        var available := roomService.IsRoomAvailable(reservation.roomId, reservation.checkInDate, reservation.checkOutDate);
        if !available {
          return Threw(InvalidOperation(RoomNotAvailable)), reservation;
        }
        FreeInStoreWindow(db, reservation.roomId, reservation.checkInDate, reservation.checkOutDate, k);
        reservationAfter := Move(k, reservation, now);
        return Returned(true), reservationAfter;
      }
      var r := reservation.(modifiedDate := Some(now));
      if NoDoubleBooking(db.reservations) && !RevivesCancelled(existing, reservation) {
        ReplaceKeepsNoDoubleBooking(db.reservations, k, r);
      }
      db.UpdateReservationAt(k, r);
      return Returned(true), r;
    }

    /** The writes of `UpdateReservationAsync` once a moved stay's window was
        found free: the `Reserved` row on the new check-in date, then the
        stay re-priced from scratch and written over row `k`. */
    method Move(k: nat, reservation: Reservation, now: DateTime) returns (r: Reservation)
      requires db.Valid() && roomService.db == db
      requires k < |db.reservations| && db.reservations[k].id == reservation.id
      requires db.RoomIndex(reservation.roomId).Some?
      requires WindowFree(db.reservations, reservation.roomId, reservation.checkInDate, reservation.checkOutDate, k)
      modifies db
      ensures db.Valid()
      ensures var basePrice := old(db.rooms[db.RoomIndex(reservation.roomId).value].basePrice);
        r == reservation.(totalPrice := basePrice * GetNumberOfNights(reservation), modifiedDate := Some(now)) &&
        PricedByNights(r, basePrice)
      ensures db.reservations == old(db.reservations)[k := r]
      ensures db.roomStatuses == old(db.roomStatuses) +
        [RoomStatus(reservation.roomId, reservation.checkInDate, Reserved,
                    UpdatedNote(reservation.reservationNumber), reservation.modifiedBy)]
      ensures NoDoubleBooking(old(db.reservations)) ==> NoDoubleBooking(db.reservations)
      ensures unchanged(db`rooms) && unchanged(db`guests)
    {
      var recorded := roomService.UpdateRoomStatus(reservation.roomId, Reserved, reservation.checkInDate,
        UpdatedNote(reservation.reservationNumber), reservation.modifiedBy);
      var room := db.RoomWithDetails(reservation.roomId).value;
      var nights := GetNumberOfNights(reservation);
      r := reservation.(totalPrice := room.basePrice * nights, modifiedDate := Some(now));
      if NoDoubleBooking(db.reservations) {
        MoveKeepsNoDoubleBooking(db.reservations, k, r);
      }
      db.UpdateReservationAt(k, r);
    }

    /** `CancelReservationAsync`: from any status. An unknown key answers
        false; otherwise the reservation becomes `Cancelled` and an
        `Available` row is recorded at the current time. */
    method Cancel(id: int, cancelledBy: string, now: DateTime) returns (ok: bool)
      requires db.Valid() && roomService.db == db
      modifies db
      ensures db.Valid()
      ensures ok <==> old(db.ReservationIndex(id)).Some?
      ensures !ok ==> unchanged(db)
      ensures ok ==>
        var k := old(db.ReservationIndex(id)).value;
        var r := old(db.reservations[k]);
        db.reservations == old(db.reservations)[k := r.(status := Cancelled, modifiedDate := Some(now), modifiedBy := cancelledBy)] &&
        db.roomStatuses == old(db.roomStatuses) +
          (if old(db.RoomIndex(r.roomId)).Some?
           then [RoomStatus(r.roomId, now, Available, CancelledNote(r.reservationNumber), cancelledBy)]
           else [])
      ensures unchanged(db`rooms) && unchanged(db`guests)
      ensures NoDoubleBooking(old(db.reservations)) ==> NoDoubleBooking(db.reservations)
    {
      var found := db.ReservationIndex(id);
      if found.None? {
        return false;
      }
      var k := found.value;
      var r := db.reservations[k];
      r := r.(status := Cancelled, modifiedDate := Some(now), modifiedBy := cancelledBy);
      if NoDoubleBooking(db.reservations) {
        ReplaceKeepsNoDoubleBooking(db.reservations, k, r);
      }
      db.UpdateReservationAt(k, r);
      var recorded := roomService.UpdateRoomStatus(r.roomId, Available, now,
        CancelledNote(r.reservationNumber), cancelledBy);
      return true;
    }

    /** `CheckInAsync`: only a `Confirmed` reservation checks in; it becomes
        `CheckedIn` with the actual arrival recorded, and an `Occupied` row is
        recorded at that time. */
    method CheckIn(reservationId: int, actualCheckInDate: DateTime, checkedInBy: string, now: DateTime) returns (ok: bool)
      requires db.Valid() && roomService.db == db
      modifies db
      ensures db.Valid()
      ensures ok <==>
        old(db.ReservationIndex(reservationId)).Some? &&
        old(db.reservations[db.ReservationIndex(reservationId).value].status) == Confirmed
      ensures !ok ==> unchanged(db)
      ensures ok ==>
        var k := old(db.ReservationIndex(reservationId)).value;
        var r := old(db.reservations[k]);
        db.reservations == old(db.reservations)[k := r.(status := CheckedIn, actualCheckInDate := Some(actualCheckInDate),
                                                        modifiedDate := Some(now), modifiedBy := checkedInBy)] &&
        db.roomStatuses == old(db.roomStatuses) +
          (if old(db.RoomIndex(r.roomId)).Some?
           then [RoomStatus(r.roomId, actualCheckInDate, Occupied, CheckedInNote(r.reservationNumber), checkedInBy)]
           else [])
      ensures unchanged(db`rooms) && unchanged(db`guests)
      ensures NoDoubleBooking(old(db.reservations)) ==> NoDoubleBooking(db.reservations)
    {
      var found := db.ReservationIndex(reservationId);
      if found.None? || db.reservations[found.value].status != Confirmed {
        return false;
      }
      var k := found.value;
      var r := db.reservations[k];
      r := r.(status := CheckedIn, actualCheckInDate := Some(actualCheckInDate), modifiedDate := Some(now), modifiedBy := checkedInBy);
      if NoDoubleBooking(db.reservations) {
        ReplaceKeepsNoDoubleBooking(db.reservations, k, r);
      }
      db.UpdateReservationAt(k, r);
      var recorded := roomService.UpdateRoomStatus(r.roomId, Occupied, actualCheckInDate,
        CheckedInNote(r.reservationNumber), checkedInBy);
      return true;
    }

    /** `CheckOutAsync`: only a `CheckedIn` reservation checks out; it becomes
        `CheckedOut` with the actual departure recorded, and a
        `CleaningInProgress` row is recorded at that time. */
    method CheckOut(reservationId: int, actualCheckOutDate: DateTime, checkedOutBy: string, now: DateTime) returns (ok: bool)
      requires db.Valid() && roomService.db == db
      modifies db
      ensures db.Valid()
      ensures ok <==>
        old(db.ReservationIndex(reservationId)).Some? &&
        old(db.reservations[db.ReservationIndex(reservationId).value].status) == CheckedIn
      ensures !ok ==> unchanged(db)
      ensures ok ==>
        var k := old(db.ReservationIndex(reservationId)).value;
        var r := old(db.reservations[k]);
        db.reservations == old(db.reservations)[k := r.(status := CheckedOut, actualCheckOutDate := Some(actualCheckOutDate),
                                                        modifiedDate := Some(now), modifiedBy := checkedOutBy)] &&
        db.roomStatuses == old(db.roomStatuses) +
          (if old(db.RoomIndex(r.roomId)).Some?
           then [RoomStatus(r.roomId, actualCheckOutDate, CleaningInProgress, CheckedOutNote(r.reservationNumber), checkedOutBy)]
           else [])
      ensures unchanged(db`rooms) && unchanged(db`guests)
      ensures NoDoubleBooking(old(db.reservations)) ==> NoDoubleBooking(db.reservations)
    {
      var found := db.ReservationIndex(reservationId);
      if found.None? || db.reservations[found.value].status != CheckedIn {
        return false;
      }
      var k := found.value;
      var r := db.reservations[k];
      r := r.(status := CheckedOut, actualCheckOutDate := Some(actualCheckOutDate), modifiedDate := Some(now), modifiedBy := checkedOutBy);
      if NoDoubleBooking(db.reservations) {
        ReplaceKeepsNoDoubleBooking(db.reservations, k, r);
      }
      db.UpdateReservationAt(k, r);
      var recorded := roomService.UpdateRoomStatus(r.roomId, CleaningInProgress, actualCheckOutDate,
        CheckedOutNote(r.reservationNumber), checkedOutBy);
      return true;
    }

    /** `ExtendStayAsync`: only a `CheckedIn` reservation is extended, and
        the window checked runs from one day after the old check-out
        (`ExtensionStart`) to the new one; a window that is not free throws.
        The extra calendar nights are charged at the room's base price and no
        status row is recorded. Over well-formed stays, no stay clashes
        afterwards unless one lay hidden within the day after the old
        check-out, which the check cannot see. */
    method ExtendStay(reservationId: int, newCheckOutDate: DateTime, modifiedBy: string, now: DateTime) returns (result: Outcome<bool>)
      requires db.Valid() && roomService.db == db
      modifies db
      ensures db.Valid()
      ensures old(db.ReservationIndex(reservationId)).None? ||
              old(db.reservations[db.ReservationIndex(reservationId).value].status) != CheckedIn ==>
        result == Returned(false) && unchanged(db)
      ensures old(db.ReservationIndex(reservationId)).Some? &&
              old(db.reservations[db.ReservationIndex(reservationId).value].status) == CheckedIn ==>
        var k := old(db.ReservationIndex(reservationId)).value;
        var r := old(db.reservations[k]);
        if !old(roomService.IsRoomAvailable(r.roomId, ExtensionStart(r.checkOutDate), newCheckOutDate)) then
          result == Threw(InvalidOperation(RoomNotAvailableForExtension)) && unchanged(db)
        else
          var basePrice := old(db.rooms[db.RoomIndex(r.roomId).value].basePrice);
          result == Returned(true) &&
          db.reservations == old(db.reservations)[k := Extended(r, basePrice, newCheckOutDate, now, modifiedBy)] &&
          db.roomStatuses == old(db.roomStatuses) &&
          (NoDoubleBooking(old(db.reservations)) && WellFormedStays(old(db.reservations)) &&
           NoStayWithinDayAfter(old(db.reservations), k) ==>
             NoDoubleBooking(db.reservations))
      ensures unchanged(db`rooms) && unchanged(db`guests)
    {
      var found := db.ReservationIndex(reservationId);
      if found.None? || db.reservations[found.value].status != CheckedIn {
        return Returned(false);
      }
      var k := found.value;
      var r := db.reservations[k];
      var start := ExtensionStart(r.checkOutDate);
      var available := roomService.IsRoomAvailable(r.roomId, start, newCheckOutDate);
      if !available {
        return Threw(InvalidOperation(RoomNotAvailableForExtension));
      }
      FreeInStoreWindow(db, r.roomId, start, newCheckOutDate, k);
      var room := db.RoomWithDetails(r.roomId).value;
      var r' := Extended(r, room.basePrice, newCheckOutDate, now, modifiedBy);
      ghost var rs0 := db.reservations;
      if NoDoubleBooking(rs0) && WellFormedStays(rs0) && NoStayWithinDayAfter(rs0, k) {
        ExtensionKeepsNoDoubleBooking(rs0, k, newCheckOutDate);
        ReplaceOnlyDates(rs0, k, newCheckOutDate, r'.totalPrice, Some(now), modifiedBy);
      }
      db.UpdateReservationAt(k, r');
      return Returned(true);
    }

    /** `MarkAsPaidAsync`: an amount covering the price marks the reservation
        paid with the price as deposit; a smaller one becomes the deposit and
        leaves the paid flag as it was. Either way the deposit ends up no
        larger than the price. */
    method MarkAsPaid(reservationId: int, amountPaid: int, paidBy: string, now: DateTime) returns (ok: bool)
      requires db.Valid()
      modifies db
      ensures db.Valid()
      ensures ok <==> old(db.ReservationIndex(reservationId)).Some?
      ensures !ok ==> unchanged(db)
      ensures ok ==>
        var k := old(db.ReservationIndex(reservationId)).value;
        var r := old(db.reservations[k]);
        var r' := if amountPaid >= r.totalPrice
          then r.(isPaid := true, deposit := Some(r.totalPrice), modifiedDate := Some(now), modifiedBy := paidBy)
          else r.(deposit := Some(amountPaid), modifiedDate := Some(now), modifiedBy := paidBy);
        db.reservations == old(db.reservations)[k := r'] &&
        r'.deposit.value <= r'.totalPrice &&
        (r'.isPaid <==> r.isPaid || amountPaid >= r.totalPrice)
      ensures unchanged(db`rooms) && unchanged(db`roomStatuses) && unchanged(db`guests)
      ensures NoDoubleBooking(old(db.reservations)) ==> NoDoubleBooking(db.reservations)
    {
      var found := db.ReservationIndex(reservationId);
      if found.None? {
        return false;
      }
      var k := found.value;
      var r := db.reservations[k];
      if amountPaid >= r.totalPrice {
        r := r.(isPaid := true, deposit := Some(r.totalPrice));
      } else {
        r := r.(deposit := Some(amountPaid));
      }
      r := r.(modifiedDate := Some(now), modifiedBy := paidBy);
      if NoDoubleBooking(db.reservations) {
        ReplaceKeepsNoDoubleBooking(db.reservations, k, r);
      }
      db.UpdateReservationAt(k, r);
      return true;
    }
  }
}
