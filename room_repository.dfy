/** The room-side queries, over the rooms loaded with their details, and the
    one write of the room repository: appending a status row. */
module RoomRepository {
  import opened Dates
  import opened Linq
  import opened Text
  import opened Entities
  import opened RoomModel
  import opened HotelData

  /** `GetAvailableRoomsAsync`: the rooms free for the whole window, in
      stored order. */
  function GetAvailableRooms(rooms: seq<Room>, from: DateTime, to: DateTime): (r: seq<Room>)
    ensures forall room :: room in r <==> room in rooms && IsAvailable(room, from, to)
    ensures forall room :: multiset(r)[room] == if IsAvailable(room, from, to) then multiset(rooms)[room] else 0
  {
    Where(rooms, (room: Room) => IsAvailable(room, from, to))
  }

  /** A room offered for a window is offered for every window inside it. */
  lemma AvailableRoomsForSubWindow(rooms: seq<Room>, from: DateTime, to: DateTime, from': DateTime, to': DateTime)
    requires from <= from' && to' <= to
    ensures forall room :: room in GetAvailableRooms(rooms, from, to) ==> room in GetAvailableRooms(rooms, from', to')
  {
    forall room | room in GetAvailableRooms(rooms, from, to)
      ensures room in GetAvailableRooms(rooms, from', to')
    {
      SubWindowAvailable(room, from, to, from', to');
    }
  }

  /** `GetRoomsByStatusAsync`: the rooms whose status on that day is
      `status`, in stored order. */
  function GetRoomsByStatus(rooms: seq<Room>, date: DateTime, status: RoomStatusType): (r: seq<Room>)
    ensures forall room :: room in r <==> room in rooms && GetStatusForDate(room, date) == status
    ensures forall room :: multiset(r)[room] == if GetStatusForDate(room, date) == status then multiset(rooms)[room] else 0
  {
    Where(rooms, (room: Room) => GetStatusForDate(room, date) == status)
  }

  // ---------------------------------------------------------------------
  // Search

  /** The non-blank search test: the term occurs in the room number, the
      description or the room type's name. */
  predicate MatchesRoom(room: Room, term: string) {
    Contains(room.roomNumber, term) || Contains(room.description, term) || Contains(room.roomTypeName, term)
  }

  /** `SearchRoomsAsync`. */
  function SearchRooms(rooms: seq<Room>, term: string): (r: seq<Room>)
    ensures IsNullOrWhiteSpace(term) ==> r == rooms
    ensures !IsNullOrWhiteSpace(term) ==> forall room :: room in r <==> room in rooms && MatchesRoom(room, term)
  {
    if IsNullOrWhiteSpace(term) then rooms
    else Where(rooms, (room: Room) => MatchesRoom(room, term))
  }

  /** Searching for a room's own number finds it, blank number or not. */
  lemma SearchFindsRoomByNumber(rooms: seq<Room>, room: Room)
    requires room in rooms
    ensures room in SearchRooms(rooms, room.roomNumber)
  {
    assert OccursAt(room.roomNumber, room.roomNumber, 0);
  }

  // ---------------------------------------------------------------------
  // Status summary

  const AllStatuses: set<RoomStatusType> := {Available, Occupied, Reserved, UnderMaintenance, CleaningInProgress}

  /** How many rooms are in `status` on that day. */
  function CountWithStatus(rooms: seq<Room>, date: DateTime, status: RoomStatusType): (n: nat)
    ensures n <= |rooms|
  {
    if rooms == [] then 0
    else (if GetStatusForDate(rooms[0], date) == status then 1 else 0) + CountWithStatus(rooms[1..], date, status)
  }

  /** The count is the size of the by-status list, and positive exactly when
      some room is in that status. */
  lemma {:induction false} CountIsGroupSize(rooms: seq<Room>, date: DateTime, status: RoomStatusType)
    ensures CountWithStatus(rooms, date, status) == |GetRoomsByStatus(rooms, date, status)|
    ensures CountWithStatus(rooms, date, status) > 0 <==> exists room :: room in rooms && GetStatusForDate(room, date) == status
  {
    if rooms != [] {
      CountIsGroupSize(rooms[1..], date, status);
      assert forall room :: room in rooms <==> room == rooms[0] || room in rooms[1..];
    }
  }

  /** `GetRoomStatusSummaryAsync`: grouping the rooms by their status on the
      day gives one key per status some room is in, mapped to the size of
      its group. */
  function GetRoomStatusSummary(rooms: seq<Room>, date: DateTime): (m: map<RoomStatusType, nat>)
    ensures forall st :: st in m <==> exists room :: room in rooms && GetStatusForDate(room, date) == st
    ensures forall st :: st in m ==> m[st] == |GetRoomsByStatus(rooms, date, st)| && m[st] > 0
  {
    forall st ensures CountWithStatus(rooms, date, st) == |GetRoomsByStatus(rooms, date, st)|
      && (CountWithStatus(rooms, date, st) > 0 <==> exists room :: room in rooms && GetStatusForDate(room, date) == st)
    {
      CountIsGroupSize(rooms, date, st);
    }
    map st | st in AllStatuses && CountWithStatus(rooms, date, st) > 0 :: CountWithStatus(rooms, date, st)
  }

  /** The summary's count for a status, 0 when the status is absent. */
  function CountIn(m: map<RoomStatusType, nat>, st: RoomStatusType): nat {
    if st in m then m[st] else 0
  }

  /** The summary's counts add up to the number of rooms. */
  lemma SummaryAccountsForEveryRoom(rooms: seq<Room>, date: DateTime)
    ensures var m := GetRoomStatusSummary(rooms, date);
      CountIn(m, Available) + CountIn(m, Occupied) + CountIn(m, Reserved) +
      CountIn(m, UnderMaintenance) + CountIn(m, CleaningInProgress) == |rooms|
  {
    CountsAddUp(rooms, date);
  }

  lemma {:induction false} CountsAddUp(rooms: seq<Room>, date: DateTime)
    ensures CountWithStatus(rooms, date, Available) + CountWithStatus(rooms, date, Occupied) +
            CountWithStatus(rooms, date, Reserved) + CountWithStatus(rooms, date, UnderMaintenance) +
            CountWithStatus(rooms, date, CleaningInProgress) == |rooms|
  {
    if rooms != [] {
      CountsAddUp(rooms[1..], date);
    }
  }

  // ---------------------------------------------------------------------
  // The write

  /** `UpdateRoomStatusAsync`: appends one status row built from the
      arguments; no existing row is changed or removed. */
  method UpdateRoomStatus(db: HotelDb, roomId: int, status: RoomStatusType, date: DateTime, notes: string, updatedBy: string)
    modifies db
    ensures db.roomStatuses == old(db.roomStatuses) + [RoomStatus(roomId, date, status, notes, updatedBy)]
    ensures unchanged(db`rooms) && unchanged(db`reservations) && unchanged(db`guests)
    ensures unchanged(db`lastRoomId) && unchanged(db`lastReservationId) && unchanged(db`lastGuestId)
  {
    db.AddRoomStatus(RoomStatus(roomId, date, status, notes, updatedBy));
  }
}
