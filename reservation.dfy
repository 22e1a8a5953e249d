/** A reservation record: its lifecycle status, the night count that prices
    it, and the defaults a newly constructed reservation receives. */
module ReservationModel {
  import opened Basics
  import opened Dates
  import opened Text

  /** The six values the reservation status string takes. */
  datatype ReservationStatus = Pending | Confirmed | CheckedIn | CheckedOut | Cancelled | NoShow

  /** A reservation. `id` 0 means "not stored yet"; optional text fields hold
      "" where the record has `null`; money is in exact decimal units. */
  datatype Reservation = Reservation(
    id: int,
    reservationNumber: string,
    roomId: int,
    guestId: int,
    checkInDate: DateTime,
    checkOutDate: DateTime,
    actualCheckInDate: Option<DateTime>,
    actualCheckOutDate: Option<DateTime>,
    totalPrice: int,
    deposit: Option<int>,
    isPaid: bool,
    status: ReservationStatus,
    notes: string,
    numberOfGuests: int,
    createdDate: DateTime,
    modifiedDate: Option<DateTime>,
    createdBy: string,
    modifiedBy: string)

  /** `(checkOut.Date - checkIn.Date).Days`: calendar days between the two
      dates, whatever their time of day. Nothing keeps it positive. */
  function Nights(checkIn: DateTime, checkOut: DateTime): int {
    Day(checkOut) - Day(checkIn)
  }

  /** `GetNumberOfNights`: the number of days check-in must move to fall on
      check-out's date; negative when check-out's date comes first. */
  function GetNumberOfNights(r: Reservation): (n: int)
    ensures n >= 0 <==> Day(r.checkInDate) <= Day(r.checkOutDate)
    ensures n >= 0 ==> Day(AddDays(r.checkInDate, n)) == Day(r.checkOutDate)
    ensures n < 0 ==> Day(AddDays(r.checkOutDate, -n)) == Day(r.checkInDate)
  {
    var n := Nights(r.checkInDate, r.checkOutDate);
    if n >= 0 then DayOfAddDays(r.checkInDate, n); n
    else DayOfAddDays(r.checkOutDate, -n); n
  }

  /** Splitting a stay at any date splits its nights. */
  lemma NightsAdditive(a: DateTime, b: DateTime, c: DateTime)
    ensures Nights(a, c) == Nights(a, b) + Nights(b, c)
  {
  }

  /** Only the calendar days count: moving either end within its day changes nothing. */
  lemma NightsIgnoreTimeOfDay(a: DateTime, a': DateTime, b: DateTime, b': DateTime)
    requires Day(a) == Day(a') && Day(b) == Day(b')
    ensures Nights(a, b) == Nights(a', b')
  {
  }

  /** `AddDays(n)` on the check-out adds exactly `n` nights. */
  lemma NightsOfAddDays(checkIn: DateTime, checkOut: DateTime, n: nat)
    ensures Nights(checkIn, AddDays(checkOut, n)) == Nights(checkIn, checkOut) + n
  {
    DayOfAddDays(checkOut, n);
  }

  /** A check-out later than the check-in on the same calendar day is a stay
      of zero nights, so it is priced at nothing. */
  lemma SameDayStayHasNoNights(checkIn: DateTime)
    requires checkIn % TicksPerDay < TicksPerDay - 1
    ensures checkIn < checkIn + 1 && Nights(checkIn, checkIn + 1) == 0
  {
    assert checkIn + 1 == Day(checkIn) * TicksPerDay + (checkIn % TicksPerDay + 1);
  }

  // ---------------------------------------------------------------------
  // Reservation numbers: "RES-" yyyyMMdd "-" and the first eight hex digits
  // of a fresh GUID, upper-cased.

  /** A GUID as its 32 hexadecimal digits, most significant first. */
  predicate IsGuid(g: seq<nat>) {
    |g| == 32 && forall i :: 0 <= i < |g| ==> g[i] < 16
  }

  function HexDigitLower(n: nat): char
    requires n < 16
  {
    if n < 10 then DigitChar(n) else ('a' as int + n - 10) as char
  }

  function HexDigitUpper(n: nat): char
    requires n < 16
  {
    if n < 10 then DigitChar(n) else ('A' as int + n - 10) as char
  }

  function HexText(g: seq<nat>): (s: string)
    requires forall i :: 0 <= i < |g| ==> g[i] < 16
    ensures |s| == |g|
  {
    seq(|g|, i requires 0 <= i < |g| => HexDigitLower(g[i]))
  }

  /** `Guid.ToString()`: the "D" format, 8-4-4-4-12 lower-case digits. */
  function GuidToString(g: seq<nat>): (s: string)
    requires IsGuid(g)
    ensures |s| == 36 && s[..8] == HexText(g[..8])
  {
    HexText(g[..8]) + "-" + HexText(g[8..12]) + "-" + HexText(g[12..16]) + "-" +
    HexText(g[16..20]) + "-" + HexText(g[20..])
  }

  /** `{now:yyyyMMdd}`: eight digits that read back as the year, month and
      day of `now`. */
  function FormatDate(now: DateTime): (s: string)
    requires Day(now) <= MaxDayNumber
    ensures |s| == 8 && forall i :: 0 <= i < 8 ==> IsDigit(s[i])
    ensures var c := CivilFromDayNumber(Day(now));
      DigitsValue(s[..4]) == c.year && DigitsValue(s[4..6]) == c.month && DigitsValue(s[6..]) == c.day
  {
    var c := CivilFromDayNumber(Day(now));
    DateDigits(c.year, c.month, c.day);
    Digits(c.year, 4) + Digits(c.month, 2) + Digits(c.day, 2)
  }

  /** The three zero-padded fields of `yyyyMMdd` read back as the date. */
  lemma DateDigits(year: nat, month: nat, day: nat)
    requires year <= 9999 && month <= 99 && day <= 99
    ensures Pow10(4) == 10000 && Pow10(2) == 100
    ensures var s := Digits(year, 4) + Digits(month, 2) + Digits(day, 2);
      |s| == 8 && (forall i :: 0 <= i < 8 ==> IsDigit(s[i])) &&
      DigitsValue(s[..4]) == year && DigitsValue(s[4..6]) == month && DigitsValue(s[6..]) == day
  {
    assert Pow10(2) == 100 && Pow10(4) == 10000;
    var y, m, d := Digits(year, 4), Digits(month, 2), Digits(day, 2);
    DigitsRoundTrip(year, 4);
    DigitsRoundTrip(month, 2);
    DigitsRoundTrip(day, 2);
    var s := y + m + d;
    assert s[..4] == y && s[4..6] == m && s[6..] == d;
  }

  lemma UpperHexDigit(n: nat)
    requires n < 16
    ensures ToUpperInvariant(HexDigitLower(n)) == HexDigitUpper(n)
  {
  }

  /** `guid.ToString().Substring(0, 8).ToUpper()`. */
  function GuidPrefix(guid: seq<nat>): (s: string)
    requires IsGuid(guid)
    ensures |s| == 8 && forall i :: 0 <= i < 8 ==> s[i] == HexDigitUpper(guid[i])
  {
    var text := GuidToString(guid);
    forall i | 0 <= i < 8 ensures ToUpperInvariant(text[i]) == HexDigitUpper(guid[i]) {
      assert text[i] == HexText(guid[..8])[i] == HexDigitLower(guid[i]);
      UpperHexDigit(guid[i]);
    }
    ToUpper(text[..8])
  }

  /** `$"RES-{now:yyyyMMdd}-{guid.ToString().Substring(0, 8).ToUpper()}"`,
      with the clock reading and the fresh GUID passed in. */
  function GenerateReservationNumber(now: DateTime, guid: seq<nat>): (r: string)
    requires Day(now) <= MaxDayNumber && IsGuid(guid)
    ensures |r| == 21 && r[..4] == "RES-" && r[12] == '-'
    ensures forall i :: 4 <= i < 12 ==> IsDigit(r[i])
    ensures var c := CivilFromDayNumber(Day(now));
      DigitsValue(r[4..8]) == c.year && DigitsValue(r[8..10]) == c.month && DigitsValue(r[10..12]) == c.day
    ensures forall i :: 0 <= i < 8 ==> r[13 + i] == HexDigitUpper(guid[i])
  {
    var date, suffix := FormatDate(now), GuidPrefix(guid);
    NumberLayout(date, suffix);
    "RES-" + date + "-" + suffix
  }

  /** Where the parts of a reservation number sit. */
  lemma NumberLayout(date: string, suffix: string)
    requires |date| == 8 && |suffix| == 8
    ensures var r := "RES-" + date + "-" + suffix;
      |r| == 21 && r[..4] == "RES-" && r[12] == '-' &&
      r[4..8] == date[..4] && r[8..10] == date[4..6] && r[10..12] == date[6..] &&
      (forall i :: 4 <= i < 12 ==> r[i] == date[i - 4]) &&
      (forall i :: 0 <= i < 8 ==> r[13 + i] == suffix[i])
  {
    var r := "RES-" + date + "-" + suffix;
    assert r[4..8] == date[..4] && r[8..10] == date[4..6] && r[10..12] == date[6..];
  }

  /** `new Reservation()`: a fresh number, created now, status "Pending", and
      every other field at its default. */
  function NewReservation(now: DateTime, guid: seq<nat>): (r: Reservation)
    requires Day(now) <= MaxDayNumber && IsGuid(guid)
    ensures r.status == Pending && r.id == 0 && r.createdDate == now
    ensures |r.reservationNumber| == 21 && r.reservationNumber[..4] == "RES-"
    ensures r.actualCheckInDate == None && r.actualCheckOutDate == None && r.deposit == None
    ensures r.totalPrice == 0 && !r.isPaid && r.modifiedDate == None
  {
    Reservation(
      id := 0,
      reservationNumber := GenerateReservationNumber(now, guid),
      roomId := 0,
      guestId := 0,
      checkInDate := 0,
      checkOutDate := 0,
      actualCheckInDate := None,
      actualCheckOutDate := None,
      totalPrice := 0,
      deposit := None,
      isPaid := false,
      status := Pending,
      notes := "",
      numberOfGuests := 0,
      createdDate := now,
      modifiedDate := None,
      createdBy := "",
      modifiedBy := "")
  }
}
