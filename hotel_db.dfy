/** The store behind the repositories: the four tables the core reads and
    writes, kept as sequences in insertion order, with identity keys handed
    out on insert. Loading an entity "with details" attaches the rows of the
    other tables that point at it. */
module HotelData {
  import opened Basics
  import opened Linq
  import opened Entities
  import opened ReservationModel
  import opened RoomModel
  import opened ReservationRepository

  /** The status rows that belong to room `roomId`. */
  function StatusesOf(h: seq<RoomStatus>, roomId: int): (r: seq<RoomStatus>)
    ensures forall e :: e in r <==> e in h && e.roomId == roomId
  {
    Where(h, (e: RoomStatus) => e.roomId == roomId)
  }

  /** A new status row shows up in its own room's history, at the end, and
      in no other. */
  lemma StatusesOfAppend(h: seq<RoomStatus>, e: RoomStatus, roomId: int)
    ensures StatusesOf(h + [e], roomId) == StatusesOf(h, roomId) + (if e.roomId == roomId then [e] else [])
  {
    WhereAppend(h, [e], (e: RoomStatus) => e.roomId == roomId);
  }

  /** A room row with its status history and reservations attached. */
  function WithDetails(room: Room, h: seq<RoomStatus>, rs: seq<Reservation>): (r: Room)
    ensures r.id == room.id && r.basePrice == room.basePrice
    ensures forall e :: e in r.statusHistory <==> e in h && e.roomId == room.id
    ensures forall x :: x in r.reservations <==> x in rs && x.roomId == room.id
  {
    room.(statusHistory := StatusesOf(h, room.id), reservations := GetReservationsByRoom(rs, room.id))
  }

  /** Every key is positive, at most the last key handed out, and used once. */
  ghost predicate KeysBelow(ids: seq<int>, last: nat) {
    (forall i :: 0 <= i < |ids| ==> 0 < ids[i] <= last) &&
    (forall i, j :: 0 <= i < j < |ids| ==> ids[i] != ids[j])
  }

  /** The keys of the room table, row by row. */
  function RoomIds(rs: seq<Room>): (ids: seq<int>)
    ensures |ids| == |rs| && forall i :: 0 <= i < |rs| ==> ids[i] == rs[i].id
  {
    seq(|rs|, i requires 0 <= i < |rs| => rs[i].id)
  }

  /** The keys of the reservation table, row by row. */
  function ReservationIds(rs: seq<Reservation>): (ids: seq<int>)
    ensures |ids| == |rs| && forall i :: 0 <= i < |rs| ==> ids[i] == rs[i].id
  {
    seq(|rs|, i requires 0 <= i < |rs| => rs[i].id)
  }

  /** The keys of the guest table, row by row. */
  function GuestIds(gs: seq<Guest>): (ids: seq<int>)
    ensures |ids| == |gs| && forall i :: 0 <= i < |gs| ==> ids[i] == gs[i].id
  {
    seq(|gs|, i requires 0 <= i < |gs| => gs[i].id)
  }

  /** Removing one row keeps the keys of the others. */
  lemma KeysBelowRemove(ids: seq<int>, last: nat, i: nat)
    requires KeysBelow(ids, last) && i < |ids|
    ensures KeysBelow(ids[..i] + ids[i + 1..], last)
  {
    var r := ids[..i] + ids[i + 1..];
    forall a, b | 0 <= a < b < |r| ensures r[a] != r[b] {
      var a' := if a < i then a else a + 1;
      var b' := if b < i then b else b + 1;
      assert r[a] == ids[a'] && r[b] == ids[b'] && a' < b';
    }
  }

  class HotelDb {
    var rooms: seq<Room>
    var roomStatuses: seq<RoomStatus>
    var reservations: seq<Reservation>
    var guests: seq<Guest>
    /** The last identity value handed out per table. */
    var lastRoomId: nat
    var lastReservationId: nat
    var lastGuestId: nat

    ghost predicate Valid()
      reads `rooms, `reservations, `guests, `lastRoomId, `lastReservationId, `lastGuestId
    {
      KeysBelow(RoomIds(rooms), lastRoomId) &&
      KeysBelow(ReservationIds(reservations), lastReservationId) &&
      KeysBelow(GuestIds(guests), lastGuestId)
    }

    constructor()
      ensures Valid()
      ensures rooms == [] && roomStatuses == [] && reservations == [] && guests == []
    {
      rooms, roomStatuses, reservations, guests := [], [], [], [];
      lastRoomId, lastReservationId, lastGuestId := 0, 0, 0;
    }

    // -------------------------------------------------------------------
    // Reads

    /** Position of the room row with key `id` (`GetByIdAsync`). */
    function RoomIndex(id: int): (k: Option<nat>)
      reads `rooms
      ensures k.Some? ==> k.value < |rooms| && rooms[k.value].id == id
      ensures k.None? ==> forall i :: 0 <= i < |rooms| ==> rooms[i].id != id
    {
      FirstIndex(rooms, (r: Room) => r.id == id)
    }

    function ReservationIndex(id: int): (k: Option<nat>)
      reads `reservations
      ensures k.Some? ==> k.value < |reservations| && reservations[k.value].id == id
      ensures k.None? ==> forall i :: 0 <= i < |reservations| ==> reservations[i].id != id
    {
      FirstIndex(reservations, (r: Reservation) => r.id == id)
    }

    function GuestIndex(id: int): (k: Option<nat>)
      reads `guests
      ensures k.Some? ==> k.value < |guests| && guests[k.value].id == id
      ensures k.None? ==> forall i :: 0 <= i < |guests| ==> guests[i].id != id
    {
      FirstIndex(guests, (g: Guest) => g.id == id)
    }

    /** `GetRoomsWithDetailsAsync`: every room, with its history and
        reservations attached. */
    function RoomsWithDetails(): (rs: seq<Room>)
      reads this
      ensures |rs| == |rooms|
      ensures forall i :: 0 <= i < |rooms| ==> rs[i] == WithDetails(rooms[i], roomStatuses, reservations)
    {
      seq(|rooms|, i requires 0 <= i < |rooms| reads this => WithDetails(rooms[i], roomStatuses, reservations))
    }

    /** `GetRoomWithDetailsAsync(id)`. */
    function RoomWithDetails(id: int): (r: Option<Room>)
      reads this
      ensures r.Some? <==> RoomIndex(id).Some?
      ensures r.Some? ==> r.value == WithDetails(rooms[RoomIndex(id).value], roomStatuses, reservations)
    {
      match RoomIndex(id)
      case None => None
      case Some(k) => Some(WithDetails(rooms[k], roomStatuses, reservations))
    }

    /** Only one row carries a key. */
    lemma RoomIndexUnique(id: int, i: nat)
      requires Valid() && i < |rooms| && rooms[i].id == id
      ensures RoomIndex(id) == Some(i)
    {
      assert RoomIds(rooms)[i] == rooms[i].id;
      assert RoomIds(rooms)[RoomIndex(id).value] == id;
    }

    lemma ReservationIndexUnique(id: int, i: nat)
      requires Valid() && i < |reservations| && reservations[i].id == id
      ensures ReservationIndex(id) == Some(i)
    {
      assert ReservationIds(reservations)[i] == reservations[i].id;
      assert ReservationIds(reservations)[ReservationIndex(id).value] == id;
    }

    lemma GuestIndexUnique(id: int, i: nat)
      requires Valid() && i < |guests| && guests[i].id == id
      ensures GuestIndex(id) == Some(i)
    {
      assert GuestIds(guests)[i] == guests[i].id;
      assert GuestIds(guests)[GuestIndex(id).value] == id;
    }

    // -------------------------------------------------------------------
    // Writes (`AddAsync`, `UpdateAsync`, `DeleteAsync` followed by
    // `SaveChangesAsync`)

    method AddRoom(room: Room) returns (added: Room)
      requires Valid()
      modifies this
      ensures Valid()
      ensures added == room.(id := old(lastRoomId) + 1) && lastRoomId == old(lastRoomId) + 1
      ensures rooms == old(rooms) + [added]
      ensures unchanged(`roomStatuses) && unchanged(`reservations) && unchanged(`guests)
      ensures unchanged(`lastReservationId) && unchanged(`lastGuestId)
    {
      lastRoomId := lastRoomId + 1;
      added := room.(id := lastRoomId);
      rooms := rooms + [added];
      assert RoomIds(rooms) == RoomIds(old(rooms)) + [added.id];
    }

    method DeleteRoomAt(i: nat)
      requires Valid() && i < |rooms|
      modifies this
      ensures Valid()
      ensures rooms == old(rooms[..i] + rooms[i + 1..])
      ensures unchanged(`roomStatuses) && unchanged(`reservations) && unchanged(`guests)
      ensures unchanged(`lastRoomId) && unchanged(`lastReservationId) && unchanged(`lastGuestId)
    {
      KeysBelowRemove(RoomIds(rooms), lastRoomId, i);
      assert RoomIds(rooms[..i] + rooms[i + 1..]) == RoomIds(rooms)[..i] + RoomIds(rooms)[i + 1..];
      rooms := rooms[..i] + rooms[i + 1..];
    }

    /** Appends one row to the status table; nothing else changes. */
    method AddRoomStatus(e: RoomStatus)
      modifies this
      ensures roomStatuses == old(roomStatuses) + [e]
      ensures unchanged(`rooms) && unchanged(`reservations) && unchanged(`guests)
      ensures unchanged(`lastRoomId) && unchanged(`lastReservationId) && unchanged(`lastGuestId)
    {
      roomStatuses := roomStatuses + [e];
    }

    method AddReservation(r: Reservation) returns (added: Reservation)
      requires Valid()
      modifies this
      ensures Valid()
      ensures added == r.(id := old(lastReservationId) + 1) && lastReservationId == old(lastReservationId) + 1
      ensures reservations == old(reservations) + [added]
      ensures unchanged(`rooms) && unchanged(`roomStatuses) && unchanged(`guests)
      ensures unchanged(`lastRoomId) && unchanged(`lastGuestId)
    {
      lastReservationId := lastReservationId + 1;
      added := r.(id := lastReservationId);
      reservations := reservations + [added];
      assert ReservationIds(reservations) == ReservationIds(old(reservations)) + [added.id];
    }

    /** Overwrites the row at `i` with a value carrying the same key. */
    method UpdateReservationAt(i: nat, r: Reservation)
      requires Valid() && i < |reservations| && r.id == reservations[i].id
      modifies this
      ensures Valid()
      ensures reservations == old(reservations[i := r])
      ensures unchanged(`rooms) && unchanged(`roomStatuses) && unchanged(`guests)
      ensures unchanged(`lastRoomId) && unchanged(`lastReservationId) && unchanged(`lastGuestId)
    {
      assert ReservationIds(reservations[i := r]) == ReservationIds(reservations);
      reservations := reservations[i := r];
    }

    method AddGuest(g: Guest) returns (added: Guest)
      requires Valid()
      modifies this
      ensures Valid()
      ensures added == g.(id := old(lastGuestId) + 1) && lastGuestId == old(lastGuestId) + 1
      ensures guests == old(guests) + [added]
      ensures unchanged(`rooms) && unchanged(`roomStatuses) && unchanged(`reservations)
      ensures unchanged(`lastRoomId) && unchanged(`lastReservationId)
    {
      lastGuestId := lastGuestId + 1;
      added := g.(id := lastGuestId);
      guests := guests + [added];
      assert GuestIds(guests) == GuestIds(old(guests)) + [added.id];
    }

    method UpdateGuestAt(i: nat, g: Guest)
      requires Valid() && i < |guests| && g.id == guests[i].id
      modifies this
      ensures Valid()
      ensures guests == old(guests[i := g])
      ensures unchanged(`rooms) && unchanged(`roomStatuses) && unchanged(`reservations)
      ensures unchanged(`lastRoomId) && unchanged(`lastReservationId) && unchanged(`lastGuestId)
    {
      assert GuestIds(guests[i := g]) == GuestIds(guests);
      guests := guests[i := g];
    }

    method DeleteGuestAt(i: nat)
      requires Valid() && i < |guests|
      modifies this
      ensures Valid()
      ensures guests == old(guests[..i] + guests[i + 1..])
      ensures unchanged(`rooms) && unchanged(`roomStatuses) && unchanged(`reservations)
      ensures unchanged(`lastRoomId) && unchanged(`lastReservationId) && unchanged(`lastGuestId)
    {
      KeysBelowRemove(GuestIds(guests), lastGuestId, i);
      assert GuestIds(guests[..i] + guests[i + 1..]) == GuestIds(guests)[..i] + GuestIds(guests)[i + 1..];
      guests := guests[..i] + guests[i + 1..];
    }
  }
}
