/** The guest lookups: by e-mail, by identification document, and the free
    text search; and the identity rule the guest service keeps on the table. */
module GuestRepository {
  import opened Basics
  import opened Linq
  import opened Text
  import opened Entities

  /** `GetGuestByEmailAsync`: a blank address matches no one; otherwise the
      first guest with exactly that address. */
  function GetGuestByEmail(guests: seq<Guest>, email: string): (r: Option<Guest>)
    ensures IsNullOrWhiteSpace(email) ==> r.None?
    ensures r.Some? ==> r.value in guests && r.value.email == email
    ensures !IsNullOrWhiteSpace(email) ==> (r.None? <==> forall g :: g in guests ==> g.email != email)
  {
    if IsNullOrWhiteSpace(email) then None
    else FirstOrDefault(guests, (g: Guest) => g.email == email)
  }

  /** `GetGuestByIdentificationAsync`: a blank type or number matches no
      one; otherwise the first guest with both fields equal. */
  function GetGuestByIdentification(guests: seq<Guest>, idType: string, idNumber: string): (r: Option<Guest>)
    ensures IsNullOrWhiteSpace(idType) || IsNullOrWhiteSpace(idNumber) ==> r.None?
    ensures r.Some? ==> r.value in guests && r.value.identificationType == idType && r.value.identificationNumber == idNumber
    ensures !IsNullOrWhiteSpace(idType) && !IsNullOrWhiteSpace(idNumber) ==>
      (r.None? <==> forall g :: g in guests ==> g.identificationType != idType || g.identificationNumber != idNumber)
  {
    if IsNullOrWhiteSpace(idType) || IsNullOrWhiteSpace(idNumber) then None
    else FirstOrDefault(guests, (g: Guest) => g.identificationType == idType && g.identificationNumber == idNumber)
  }

  /** The non-blank search test. */
  predicate MatchesGuest(g: Guest, term: string) {
    Contains(g.firstName, term) || Contains(g.lastName, term) || Contains(g.email, term) ||
    Contains(g.phone, term) || Contains(g.identificationNumber, term)
  }

  /** `SearchGuestsAsync`: everyone for a blank term, otherwise the guests
      with the term in a name, the address, the phone or the id number. */
  function SearchGuests(guests: seq<Guest>, term: string): (r: seq<Guest>)
    ensures IsNullOrWhiteSpace(term) ==> r == guests
    ensures !IsNullOrWhiteSpace(term) ==> forall g :: g in r <==> g in guests && MatchesGuest(g, term)
  {
    if IsNullOrWhiteSpace(term) then guests
    else Where(guests, (g: Guest) => MatchesGuest(g, term))
  }

  /** Searching for a guest's last name finds that guest. */
  lemma SearchFindsGuestByLastName(guests: seq<Guest>, g: Guest)
    requires g in guests
    ensures g in SearchGuests(guests, g.lastName)
  {
    assert OccursAt(g.lastName, g.lastName, 0);
  }

  /** The identity rule: no two guests share a non-blank e-mail address, and
      no two share a document whose type and number are both non-blank. */
  ghost predicate UniqueIdentities(guests: seq<Guest>) {
    forall i, j :: 0 <= i < j < |guests| ==>
      (!IsNullOrWhiteSpace(guests[i].email) ==> guests[i].email != guests[j].email) &&
      (!IsNullOrWhiteSpace(guests[i].identificationType) && !IsNullOrWhiteSpace(guests[i].identificationNumber) ==>
        guests[i].identificationType != guests[j].identificationType ||
        guests[i].identificationNumber != guests[j].identificationNumber)
  }

  /** Under the rule, the e-mail lookup finds the one guest with the address. */
  lemma EmailLookupFindsOwner(guests: seq<Guest>, i: nat)
    requires UniqueIdentities(guests) && i < |guests| && !IsNullOrWhiteSpace(guests[i].email)
    ensures GetGuestByEmail(guests, guests[i].email) == Some(guests[i])
  {
    var k := FirstIndex(guests, (g: Guest) => g.email == guests[i].email);
    assert k.Some?;
  }

  /** Under the rule, the document lookup finds the one guest holding it. */
  lemma IdentificationLookupFindsOwner(guests: seq<Guest>, i: nat)
    requires UniqueIdentities(guests) && i < |guests|
    requires !IsNullOrWhiteSpace(guests[i].identificationType) && !IsNullOrWhiteSpace(guests[i].identificationNumber)
    ensures GetGuestByIdentification(guests, guests[i].identificationType, guests[i].identificationNumber) == Some(guests[i])
  {
    var g := guests[i];
    var k := FirstIndex(guests, (x: Guest) => x.identificationType == g.identificationType && x.identificationNumber == g.identificationNumber);
    assert k.Some?;
  }

  /** A guest whose address and document nobody else holds can join. */
  lemma UniqueIdentitiesAppend(guests: seq<Guest>, g: Guest)
    requires UniqueIdentities(guests)
    requires GetGuestByEmail(guests, g.email).None?
    requires GetGuestByIdentification(guests, g.identificationType, g.identificationNumber).None?
    ensures UniqueIdentities(guests + [g])
  {
    var gs := guests + [g];
    forall i, j | 0 <= i < j < |gs|
      ensures (!IsNullOrWhiteSpace(gs[i].email) ==> gs[i].email != gs[j].email) &&
        (!IsNullOrWhiteSpace(gs[i].identificationType) && !IsNullOrWhiteSpace(gs[i].identificationNumber) ==>
          gs[i].identificationType != gs[j].identificationType || gs[i].identificationNumber != gs[j].identificationNumber)
    {
      if j == |guests| {
        assert gs[i] in guests;
      }
    }
  }

  /** Overwriting a guest keeps the rule when its new address and document
      belong to no other guest. */
  lemma UniqueIdentitiesReplace(guests: seq<Guest>, k: nat, g: Guest)
    requires UniqueIdentities(guests) && k < |guests|
    requires !IsNullOrWhiteSpace(g.email) ==> forall j :: 0 <= j < |guests| && j != k ==> guests[j].email != g.email
    requires !IsNullOrWhiteSpace(g.identificationType) && !IsNullOrWhiteSpace(g.identificationNumber) ==>
      forall j :: 0 <= j < |guests| && j != k ==>
        guests[j].identificationType != g.identificationType || guests[j].identificationNumber != g.identificationNumber
    ensures UniqueIdentities(guests[k := g])
  {
  }

  /** Removing a guest keeps the rule. */
  lemma UniqueIdentitiesRemove(guests: seq<Guest>, k: nat)
    requires UniqueIdentities(guests) && k < |guests|
    ensures UniqueIdentities(guests[..k] + guests[k + 1..])
  {
    var gs := guests[..k] + guests[k + 1..];
    forall i, j | 0 <= i < j < |gs|
      ensures (!IsNullOrWhiteSpace(gs[i].email) ==> gs[i].email != gs[j].email) &&
        (!IsNullOrWhiteSpace(gs[i].identificationType) && !IsNullOrWhiteSpace(gs[i].identificationNumber) ==>
          gs[i].identificationType != gs[j].identificationType || gs[i].identificationNumber != gs[j].identificationNumber)
    {
      var i' := if i < k then i else i + 1;
      var j' := if j < k then j else j + 1;
      assert gs[i] == guests[i'] && gs[j] == guests[j'] && i' < j';
    }
  }
}
