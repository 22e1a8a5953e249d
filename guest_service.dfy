/** The guest service: registering, editing and removing guests while no two
    of them share an e-mail address or an identification document. */
module GuestServices {
  import opened Basics
  import opened Linq
  import opened Text
  import opened Entities
  import opened ReservationModel
  import opened HotelData
  import opened GuestRepository
  import opened ReservationRepository

  /** The e-mail lookup `CreateGuestAsync` makes: skipped for a null or
      empty address, so it finds a holder exactly when the address is not
      blank and somebody has it. */
  function ExistingByEmail(guests: seq<Guest>, email: string): (r: Option<Guest>)
    ensures r.Some? <==> !IsNullOrWhiteSpace(email) && exists g :: g in guests && g.email == email
    ensures r.Some? ==> r.value in guests && r.value.email == email
  {
    if !IsNullOrEmpty(email) then GetGuestByEmail(guests, email) else None
  }

  /** `UpdateGuestAsync` rejects a new, non-empty address that its lookup
      finds on a guest with another key. */
  predicate EmailConflict(guests: seq<Guest>, existing: Guest, g: Guest) {
    !IsNullOrEmpty(g.email) && existing.email != g.email &&
    match GetGuestByEmail(guests, g.email)
    case None => false
    case Some(other) => other.id != g.id
  }

  /** `UpdateGuestAsync` rejects a changed document that its lookup finds on
      a guest with another key. */
  predicate IdentificationConflict(guests: seq<Guest>, existing: Guest, g: Guest) {
    (existing.identificationType != g.identificationType || existing.identificationNumber != g.identificationNumber) &&
    match GetGuestByIdentification(guests, g.identificationType, g.identificationNumber)
    case None => false
    case Some(other) => other.id != g.id
  }

  /** Under unique keys, an update that passes both checks writes an address
      and a document nobody else holds, so the identity rule survives. */
  lemma UpdateKeepsIdentities(db: HotelDb, k: nat, g: Guest)
    requires db.Valid() && k < |db.guests| && g.id == db.guests[k].id
    requires UniqueIdentities(db.guests)
    requires !EmailConflict(db.guests, db.guests[k], g) && !IdentificationConflict(db.guests, db.guests[k], g)
    ensures UniqueIdentities(db.guests[k := g])
  {
    var guests := db.guests;
    var existing := guests[k];
    if !IsNullOrWhiteSpace(g.email) {
      if existing.email == g.email {
        forall j | 0 <= j < |guests| && j != k ensures guests[j].email != g.email {
          if j < k {
            assert IsNullOrWhiteSpace(guests[j].email) || guests[j].email != guests[k].email;
          }
        }
      } else {
        match GetGuestByEmail(guests, g.email)
        case None =>
        case Some(other) =>
          var m :| 0 <= m < |guests| && guests[m] == other;
          db.GuestIndexUnique(g.id, m);
          db.GuestIndexUnique(g.id, k);
      }
    }
    if !IsNullOrWhiteSpace(g.identificationType) && !IsNullOrWhiteSpace(g.identificationNumber) {
      if existing.identificationType == g.identificationType && existing.identificationNumber == g.identificationNumber {
        forall j | 0 <= j < |guests| && j != k
          ensures guests[j].identificationType != g.identificationType || guests[j].identificationNumber != g.identificationNumber
        {
          if j < k {
            assert IsNullOrWhiteSpace(guests[j].identificationType) || IsNullOrWhiteSpace(guests[j].identificationNumber) ||
              guests[j].identificationType != guests[k].identificationType ||
              guests[j].identificationNumber != guests[k].identificationNumber;
          }
        }
      }
    }
    UniqueIdentitiesReplace(guests, k, g);
  }

  /** A reservation that still holds the guest to the hotel. */
  predicate IsActive(r: Reservation) {
    r.status == Confirmed || r.status == CheckedIn
  }

  /** The test `DeleteGuestAsync` makes on the guest's loaded reservations. */
  function HasActiveReservations(rs: seq<Reservation>, guestId: int): (b: bool)
    ensures b <==> exists x :: x in rs && x.guestId == guestId && IsActive(x)
  {
    Any(GetReservationsByGuest(rs, guestId), IsActive)
  }

  class GuestService {
    const db: HotelDb

    constructor(db: HotelDb)
      ensures this.db == db
    {
      this.db := db;
    }

    /** `CreateGuestAsync`: an address already on file throws, then a
        document already on file throws; otherwise the guest is stored under
        a fresh key. The identity rule is kept. */
    method Create(guest: Guest) returns (result: Outcome<Guest>)
      requires db.Valid()
      modifies db
      ensures db.Valid()
      ensures old(ExistingByEmail(db.guests, guest.email)).Some? ==>
        result == Threw(InvalidOperation(DuplicateEmail)) && unchanged(db)
      ensures old(ExistingByEmail(db.guests, guest.email)).None? &&
              old(GetGuestByIdentification(db.guests, guest.identificationType, guest.identificationNumber)).Some? ==>
        result == Threw(InvalidOperation(DuplicateIdentification)) && unchanged(db)
      ensures old(ExistingByEmail(db.guests, guest.email)).None? &&
              old(GetGuestByIdentification(db.guests, guest.identificationType, guest.identificationNumber)).None? ==>
        result == Returned(guest.(id := old(db.lastGuestId) + 1)) &&
        db.guests == old(db.guests) + [result.value]
      ensures unchanged(db`rooms) && unchanged(db`roomStatuses) && unchanged(db`reservations)
      ensures UniqueIdentities(old(db.guests)) ==> UniqueIdentities(db.guests)
    {
      var existingByEmail := ExistingByEmail(db.guests, guest.email);
      var existingById := GetGuestByIdentification(db.guests, guest.identificationType, guest.identificationNumber);
      if existingByEmail.Some? {
        return Threw(InvalidOperation(DuplicateEmail));
      }
      if existingById.Some? {
        return Threw(InvalidOperation(DuplicateIdentification));
      }
      if UniqueIdentities(db.guests) {
        UniqueIdentitiesAppend(db.guests, guest.(id := db.lastGuestId + 1));
      }
      var added := db.AddGuest(guest);
      return Returned(added);
    }

    /** `UpdateGuestAsync`: an unknown key answers false; a changed address
        or document held by another guest throws (the address first);
        otherwise the caller's values replace the stored guest. The identity
        rule is kept. */
    method Update(guest: Guest) returns (result: Outcome<bool>)
      requires db.Valid()
      modifies db
      ensures db.Valid()
      ensures old(db.GuestIndex(guest.id)).None? ==> result == Returned(false) && unchanged(db)
      ensures old(db.GuestIndex(guest.id)).Some? ==>
        var k := old(db.GuestIndex(guest.id)).value;
        var existing := old(db.guests[k]);
        if old(EmailConflict(db.guests, existing, guest)) then
          result == Threw(InvalidOperation(DuplicateEmail)) && unchanged(db)
        else if old(IdentificationConflict(db.guests, existing, guest)) then
          result == Threw(InvalidOperation(DuplicateIdentification)) && unchanged(db)
        else
          result == Returned(true) && db.guests == old(db.guests)[k := guest]
      ensures unchanged(db`rooms) && unchanged(db`roomStatuses) && unchanged(db`reservations)
      ensures UniqueIdentities(old(db.guests)) ==> UniqueIdentities(db.guests)
    {
      var found := db.GuestIndex(guest.id);
      if found.None? {
        return Returned(false);
      }
      var k := found.value;
      var existing := db.guests[k];
      if EmailConflict(db.guests, existing, guest) {
        return Threw(InvalidOperation(DuplicateEmail));
      }
      if IdentificationConflict(db.guests, existing, guest) {
        return Threw(InvalidOperation(DuplicateIdentification));
      }
      if UniqueIdentities(db.guests) {
        UpdateKeepsIdentities(db, k, guest);
      }
      db.UpdateGuestAt(k, guest);
      return Returned(true);
    }

    /** `DeleteGuestAsync`: an unknown key answers false; a guest with a
        confirmed or checked-in reservation throws; otherwise the guest row
        is removed, and no active reservation is left naming the key. */
    method Delete(id: int) returns (result: Outcome<bool>)
      requires db.Valid()
      modifies db
      ensures db.Valid()
      ensures old(db.GuestIndex(id)).None? ==> result == Returned(false) && unchanged(db)
      ensures old(db.GuestIndex(id)).Some? ==>
        var k := old(db.GuestIndex(id)).value;
        if old(HasActiveReservations(db.reservations, id)) then
          result == Threw(InvalidOperation(GuestHasActiveReservations)) && unchanged(db)
        else
          result == Returned(true) &&
          db.guests == old(db.guests[..k] + db.guests[k + 1..]) &&
          (forall g :: g in db.guests ==> g.id != id) &&
          (forall x :: x in db.reservations && x.guestId == id ==> !IsActive(x))
      ensures unchanged(db`rooms) && unchanged(db`roomStatuses) && unchanged(db`reservations)
      ensures UniqueIdentities(old(db.guests)) ==> UniqueIdentities(db.guests)
    {
      var found := db.GuestIndex(id);
      if found.None? {
        return Returned(false);
      }
      var k := found.value;
      if HasActiveReservations(db.reservations, id) {
        return Threw(InvalidOperation(GuestHasActiveReservations));
      }
      forall j | 0 <= j < |db.guests| && j != k ensures db.guests[j].id != id {
        assert GuestIds(db.guests)[j] == db.guests[j].id && GuestIds(db.guests)[k] == id;
      }
      if UniqueIdentities(db.guests) {
        UniqueIdentitiesRemove(db.guests, k);
      }
      db.DeleteGuestAt(k);
      return Returned(true);
    }
  }
}
