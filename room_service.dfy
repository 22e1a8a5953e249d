/** The room service: the availability question the reservation lifecycle
    asks, the status write it goes through, and adding and deleting rooms. */
module RoomServices {
  import opened Basics
  import opened Dates
  import opened Entities
  import opened ReservationModel
  import opened RoomModel
  import opened HotelData
  import RoomRepository

  /** The store-level meaning of "room `roomId` is free for `[from, to]`":
      the room exists, none of its status rows puts it under maintenance or
      cleaning on a day of the window, and no reservation of it that is not
      cancelled touches the window. */
  ghost predicate FreeInStore(rooms: seq<Room>, h: seq<RoomStatus>, rs: seq<Reservation>, roomId: int, from: DateTime, to: DateTime) {
    (exists i :: 0 <= i < |rooms| && rooms[i].id == roomId) &&
    (forall e :: e in h && e.roomId == roomId && Blocks(e.status) ==> !(Day(from) <= Day(e.date) <= Day(to))) &&
    (forall x :: x in rs && x.roomId == roomId && x.status != Cancelled ==> !Overlaps(x, from, to))
  }

  /** A room loaded with its details is available exactly when its rows in
      the two tables leave the window free. */
  lemma AvailableMeansFree(room: Room, h: seq<RoomStatus>, rs: seq<Reservation>, from: DateTime, to: DateTime)
    ensures IsAvailable(WithDetails(room, h, rs), from, to) <==>
      (forall e :: e in h && e.roomId == room.id && Blocks(e.status) ==> !(Day(from) <= Day(e.date) <= Day(to))) &&
      (forall x :: x in rs && x.roomId == room.id && x.status != Cancelled ==> !Overlaps(x, from, to))
  {
    var d := WithDetails(room, h, rs);
    StatusRowsBlock(d.statusHistory, h, room.id, from, to);
    ReservationRowsBlock(d.reservations, rs, room.id, from, to);
  }

  lemma StatusRowsBlock(mine: seq<RoomStatus>, h: seq<RoomStatus>, roomId: int, from: DateTime, to: DateTime)
    requires forall e :: e in mine <==> e in h && e.roomId == roomId
    ensures BlockedByStatus(mine, from, to) <==>
      exists e :: e in h && e.roomId == roomId && Blocks(e.status) && Day(from) <= Day(e.date) <= Day(to)
  {
    if BlockedByStatus(mine, from, to) {
      var i :| 0 <= i < |mine| && Blocks(mine[i].status) && Day(from) <= Day(mine[i].date) <= Day(to);
      assert mine[i] in mine;
    }
    if exists e :: e in h && e.roomId == roomId && Blocks(e.status) && Day(from) <= Day(e.date) <= Day(to) {
      var e :| e in h && e.roomId == roomId && Blocks(e.status) && Day(from) <= Day(e.date) <= Day(to);
      var i :| 0 <= i < |mine| && mine[i] == e;
    }
  }

  lemma ReservationRowsBlock(mine: seq<Reservation>, rs: seq<Reservation>, roomId: int, from: DateTime, to: DateTime)
    requires forall x :: x in mine <==> x in rs && x.roomId == roomId
    ensures BlockedByReservation(mine, from, to) <==>
      exists x :: x in rs && x.roomId == roomId && x.status != Cancelled && Overlaps(x, from, to)
  {
    if BlockedByReservation(mine, from, to) {
      var i :| 0 <= i < |mine| && mine[i].status != Cancelled && Overlaps(mine[i], from, to);
      assert mine[i] in mine;
    }
    if exists x :: x in rs && x.roomId == roomId && x.status != Cancelled && Overlaps(x, from, to) {
      var x :| x in rs && x.roomId == roomId && x.status != Cancelled && Overlaps(x, from, to);
      var i :| 0 <= i < |mine| && mine[i] == x;
    }
  }

  class RoomService {
    const db: HotelDb

    constructor(db: HotelDb)
      ensures this.db == db
    {
      this.db := db;
    }

    /** `IsRoomAvailableAsync`: false for an unknown room, otherwise the
        room's own availability test on its loaded details. */
    function IsRoomAvailable(roomId: int, from: DateTime, to: DateTime): (ok: bool)
      reads db
      ensures ok <==> FreeInStore(db.rooms, db.roomStatuses, db.reservations, roomId, from, to)
    {
      match db.RoomWithDetails(roomId)
      case None => false
      case Some(room) =>
        AvailableMeansFree(db.rooms[db.RoomIndex(roomId).value], db.roomStatuses, db.reservations, from, to);
        IsAvailable(room, from, to)
    }

    /** `UpdateRoomStatusAsync`: for a known room, appends exactly one status
        row and answers true; for an unknown room, appends nothing and answers
        false. */
    method UpdateRoomStatus(roomId: int, status: RoomStatusType, date: DateTime, notes: string, updatedBy: string)
      returns (ok: bool)
      modifies db
      ensures ok <==> old(db.RoomIndex(roomId)).Some?
      ensures db.roomStatuses == old(db.roomStatuses) + (if ok then [RoomStatus(roomId, date, status, notes, updatedBy)] else [])
      ensures unchanged(db`rooms) && unchanged(db`reservations) && unchanged(db`guests)
      ensures unchanged(db`lastRoomId) && unchanged(db`lastReservationId) && unchanged(db`lastGuestId)
    {
      if db.RoomIndex(roomId).None? {
        return false;
      }
      RoomRepository.UpdateRoomStatus(db, roomId, status, date, notes, updatedBy);
      return true;
    }

    /** `AddRoomAsync`: the room is stored under a fresh key. */
    method AddRoom(room: Room) returns (added: Room)
      requires db.Valid()
      modifies db
      ensures db.Valid()
      ensures added == room.(id := old(db.lastRoomId) + 1)
      ensures db.rooms == old(db.rooms) + [added]
      ensures unchanged(db`roomStatuses) && unchanged(db`reservations) && unchanged(db`guests)
    {
      added := db.AddRoom(room);
    }

    /** `DeleteRoomAsync`: an unknown key throws `KeyNotFoundException` and
        removes nothing; a known one removes exactly that room row. */
    method DeleteRoom(id: int) returns (result: Outcome<()>)
      requires db.Valid()
      modifies db
      ensures db.Valid()
      ensures result.Threw? <==> old(db.RoomIndex(id)).None?
      ensures result.Threw? ==> result.error == KeyNotFound(id) && unchanged(db)
      ensures result.Returned? ==>
        var k := old(db.RoomIndex(id)).value;
        db.rooms == old(db.rooms[..k] + db.rooms[k + 1..]) &&
        (forall room :: room in db.rooms ==> room.id != id) &&
        |db.rooms| == |old(db.rooms)| - 1
      ensures unchanged(db`roomStatuses) && unchanged(db`reservations) && unchanged(db`guests)
    {
      match db.RoomIndex(id)
      case None =>
        return Threw(KeyNotFound(id));
      case Some(k) =>
        forall j | 0 <= j < |db.rooms| && j != k ensures db.rooms[j].id != id {
          assert RoomIds(db.rooms)[j] == db.rooms[j].id && RoomIds(db.rooms)[k] == id;
        }
        db.DeleteRoomAt(k);
        return Returned(());
    }
  }
}
