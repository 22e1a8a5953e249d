/** A room, its status on a given day read from its sparse status history,
    and whether it can be booked for a window of dates. */
module RoomModel {
  import opened Basics
  import opened Dates
  import opened Linq
  import opened Entities
  import opened ReservationModel

  /** A room with the collections loaded beside it: `statusHistory` and
      `reservations` are the room's rows of the two tables, in the order
      they were stored, and `roomTypeName` is the name of its room type
      ("" when it has none). */
  datatype Room = Room(
    id: int,
    roomNumber: string,
    floor: int,
    roomType: int,
    basePrice: int,
    capacity: int,
    hasWifi: bool,
    hasMinibar: bool,
    hasBalcony: bool,
    description: string,
    roomTypeId: int,
    roomTypeName: string,
    statusHistory: seq<RoomStatus>,
    reservations: seq<Reservation>)

  // ---------------------------------------------------------------------
  // Status on a date

  /** `h[i]` is the entry that decides the status on day `day`: its own day
      is not after `day`, no such entry has a later timestamp, and every
      earlier such entry has a strictly earlier timestamp (a stable sort by
      descending timestamp puts the first of equal timestamps first). */
  ghost predicate IsDecidingEntry(h: seq<RoomStatus>, day: nat, i: int) {
    0 <= i < |h| && Day(h[i].date) <= day &&
    forall j :: 0 <= j < |h| && Day(h[j].date) <= day ==>
      h[j].date <= h[i].date && (j < i ==> h[j].date < h[i].date)
  }

  /** The position of the deciding entry for `day`, if any entry is on or
      before that day. */
  function DecidingEntry(h: seq<RoomStatus>, day: nat): (k: Option<nat>)
    ensures k.Some? ==> IsDecidingEntry(h, day, k.value)
    ensures k.None? <==> forall j :: 0 <= j < |h| ==> Day(h[j].date) > day
    decreases |h|
  {
    if h == [] then None
    else
      var last := h[|h| - 1];
      var k := DecidingEntry(h[..|h| - 1], day);
      if Day(last.date) <= day && (k.None? || h[k.value].date < last.date) then Some(|h| - 1)
      else k
  }

  /** At most one entry decides a day. */
  lemma DecidingEntryUnique(h: seq<RoomStatus>, day: nat, i: int, j: int)
    requires IsDecidingEntry(h, day, i) && IsDecidingEntry(h, day, j)
    ensures i == j
  {
  }

  /** `Room.GetStatusForDate`: the status of the deciding entry for the
      calendar day of `date`, and `Available` when no entry is on or before
      that day. */
  function GetStatusForDate(room: Room, date: DateTime): (st: RoomStatusType)
    ensures (forall j :: 0 <= j < |room.statusHistory| ==> Day(room.statusHistory[j].date) > Day(date))
      ==> st == Available
    ensures (exists j :: 0 <= j < |room.statusHistory| && Day(room.statusHistory[j].date) <= Day(date))
      ==> exists i :: IsDecidingEntry(room.statusHistory, Day(date), i) && st == room.statusHistory[i].status
  {
    match DecidingEntry(room.statusHistory, Day(date))
    case None => Available
    case Some(k) => room.statusHistory[k].status
  }

  /** The time of day of the query does not matter. */
  lemma StatusIgnoresTimeOfDay(room: Room, d: DateTime, d': DateTime)
    requires Day(d) == Day(d')
    ensures GetStatusForDate(room, d) == GetStatusForDate(room, d')
  {
  }

  /** An entry for a later day leaves the status of earlier days alone. */
  lemma AppendLaterEntry(room: Room, e: RoomStatus, date: DateTime)
    requires Day(e.date) > Day(date)
    ensures GetStatusForDate(room.(statusHistory := room.statusHistory + [e]), date) == GetStatusForDate(room, date)
  {
    assert (room.statusHistory + [e])[..|room.statusHistory|] == room.statusHistory;
  }

  /** An entry on or before the queried day, later than every entry that
      counts for that day, decides it. */
  lemma {:induction false} AppendLatestEntry(room: Room, e: RoomStatus, date: DateTime)
    requires Day(e.date) <= Day(date)
    requires forall j :: 0 <= j < |room.statusHistory| && Day(room.statusHistory[j].date) <= Day(date) ==>
               room.statusHistory[j].date < e.date
    ensures GetStatusForDate(room.(statusHistory := room.statusHistory + [e]), date) == e.status
  {
    var h := room.statusHistory + [e];
    assert h[..|h| - 1] == room.statusHistory;
    match DecidingEntry(room.statusHistory, Day(date))
    case None =>
    case Some(k) =>
  }

  /** An entry with the same timestamp as the deciding one is ignored: the
      earlier entry keeps deciding. */
  lemma {:induction false} AppendTiedEntry(room: Room, e: RoomStatus, date: DateTime, i: nat)
    requires IsDecidingEntry(room.statusHistory, Day(date), i)
    requires e.date == room.statusHistory[i].date
    ensures GetStatusForDate(room.(statusHistory := room.statusHistory + [e]), date) == room.statusHistory[i].status
  {
    var h := room.statusHistory + [e];
    assert h[..|h| - 1] == room.statusHistory;
    var k := DecidingEntry(room.statusHistory, Day(date));
    DecidingEntryUnique(room.statusHistory, Day(date), k.value, i);
  }

  // ---------------------------------------------------------------------
  // Availability

  predicate Blocks(s: RoomStatusType) {
    s == UnderMaintenance || s == CleaningInProgress
  }

  /** The inclusive overlap test between a reservation and a window, on full
      timestamps. */
  predicate Overlaps(r: Reservation, from: DateTime, to: DateTime) {
    from <= r.checkOutDate && to >= r.checkInDate
  }

  /** A maintenance or cleaning entry falls on a day of the window. */
  ghost predicate BlockedByStatus(h: seq<RoomStatus>, from: DateTime, to: DateTime) {
    exists i :: 0 <= i < |h| && Blocks(h[i].status) && Day(from) <= Day(h[i].date) <= Day(to)
  }

  /** A reservation that is not cancelled overlaps the window. */
  ghost predicate BlockedByReservation(rs: seq<Reservation>, from: DateTime, to: DateTime) {
    exists i :: 0 <= i < |rs| && rs[i].status != Cancelled && Overlaps(rs[i], from, to)
  }

  /** `Room.IsAvailable`. */
  function IsAvailable(room: Room, from: DateTime, to: DateTime): (ok: bool)
    ensures ok <==> !BlockedByStatus(room.statusHistory, from, to) && !BlockedByReservation(room.reservations, from, to)
  {
    var inWindow := Where(room.statusHistory, (s: RoomStatus) => Day(s.date) >= Day(from) && Day(s.date) <= Day(to));
    var unavailableStatus := Any(inWindow, (s: RoomStatus) => s.status == UnderMaintenance || s.status == CleaningInProgress);
    assert unavailableStatus <==> BlockedByStatus(room.statusHistory, from, to) by {
      if BlockedByStatus(room.statusHistory, from, to) {
        var i :| 0 <= i < |room.statusHistory| && Blocks(room.statusHistory[i].status) && Day(from) <= Day(room.statusHistory[i].date) <= Day(to);
        assert room.statusHistory[i] in inWindow;
      }
    }
    if unavailableStatus then false
    else !Any(room.reservations, (r: Reservation) => (from <= r.checkOutDate && to >= r.checkInDate) && r.status != Cancelled)
  }

  /** Entries that are not maintenance or cleaning never make a room
      unavailable. */
  lemma NonBlockingEntry(room: Room, e: RoomStatus, from: DateTime, to: DateTime)
    requires !Blocks(e.status)
    ensures IsAvailable(room.(statusHistory := room.statusHistory + [e]), from, to) == IsAvailable(room, from, to)
  {
    var h := room.statusHistory + [e];
    if BlockedByStatus(h, from, to) {
      var i :| 0 <= i < |h| && Blocks(h[i].status) && Day(from) <= Day(h[i].date) <= Day(to);
      assert i < |room.statusHistory| && h[i] == room.statusHistory[i];
    }
  }

  /** More history or more reservations never free a room. */
  lemma MoreRecordsNeverFree(room: Room, h: seq<RoomStatus>, rs: seq<Reservation>, from: DateTime, to: DateTime)
    requires forall e :: e in room.statusHistory ==> e in h
    requires forall r :: r in room.reservations ==> r in rs
    ensures IsAvailable(room.(statusHistory := h, reservations := rs), from, to) ==> IsAvailable(room, from, to)
  {
    if BlockedByStatus(room.statusHistory, from, to) {
      var i :| 0 <= i < |room.statusHistory| && Blocks(room.statusHistory[i].status) &&
        Day(from) <= Day(room.statusHistory[i].date) <= Day(to);
      assert room.statusHistory[i] in h;
    }
    if BlockedByReservation(room.reservations, from, to) {
      var i :| 0 <= i < |room.reservations| && room.reservations[i].status != Cancelled &&
        Overlaps(room.reservations[i], from, to);
      assert room.reservations[i] in rs;
    }
  }

  /** A room free for a window is free for every window inside it. */
  lemma SubWindowAvailable(room: Room, from: DateTime, to: DateTime, from': DateTime, to': DateTime)
    requires from <= from' && to' <= to
    ensures IsAvailable(room, from, to) ==> IsAvailable(room, from', to')
  {
    DayMonotone(from, from');
    DayMonotone(to', to);
  }

  /** A reservation that is not cancelled blocks every window it touches,
      even one that starts on the instant it ends: same-day turnover is
      refused. */
  lemma ReservationBlocksWindow(room: Room, r: Reservation, from: DateTime, to: DateTime)
    requires r in room.reservations && r.status != Cancelled
    requires r.checkOutDate == from && r.checkInDate <= to
    ensures !IsAvailable(room, from, to)
  {
    var i :| 0 <= i < |room.reservations| && room.reservations[i] == r;
  }
}
