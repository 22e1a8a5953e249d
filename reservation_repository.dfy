/** The read-side queries over the reservation table: exact-match filters,
    the date-range and arrival/departure lists, the lookup by number, and
    the revenue of a period. Each takes the table's rows in stored order. */
module ReservationRepository {
  import opened Basics
  import opened Dates
  import opened Linq
  import opened ReservationModel

  /** `GetReservationsByGuestAsync`. */
  function GetReservationsByGuest(rs: seq<Reservation>, guestId: int): (r: seq<Reservation>)
    ensures forall x :: x in r <==> x in rs && x.guestId == guestId
    ensures forall x :: multiset(r)[x] == if x.guestId == guestId then multiset(rs)[x] else 0
  {
    Where(rs, (x: Reservation) => x.guestId == guestId)
  }

  /** `GetReservationsByRoomAsync`; also the reservations a room carries
      when it is loaded with its details. */
  function GetReservationsByRoom(rs: seq<Reservation>, roomId: int): (r: seq<Reservation>)
    ensures forall x :: x in r <==> x in rs && x.roomId == roomId
    ensures forall x :: multiset(r)[x] == if x.roomId == roomId then multiset(rs)[x] else 0
  {
    Where(rs, (x: Reservation) => x.roomId == roomId)
  }

  /** `GetReservationsByStatusAsync`. */
  function GetReservationsByStatus(rs: seq<Reservation>, status: ReservationStatus): (r: seq<Reservation>)
    ensures forall x :: x in r <==> x in rs && x.status == status
    ensures forall x :: multiset(r)[x] == if x.status == status then multiset(rs)[x] else 0
  {
    Where(rs, (x: Reservation) => x.status == status)
  }

  /** A new row joins the room's list at the end, and only its own room's. */
  lemma ReservationsByRoomAppend(rs: seq<Reservation>, x: Reservation, roomId: int)
    ensures GetReservationsByRoom(rs + [x], roomId) ==
            GetReservationsByRoom(rs, roomId) + (if x.roomId == roomId then [x] else [])
  {
    WhereAppend(rs, [x], (x: Reservation) => x.roomId == roomId);
  }

  // ---------------------------------------------------------------------
  // Date windows

  /** `GetReservationsByDateRangeAsync`'s test: the stay touches
      `[start, end]` on full timestamps and the reservation is neither
      cancelled nor a no-show. */
  predicate InDateRange(r: Reservation, start: DateTime, end: DateTime) {
    r.checkInDate <= end && r.checkOutDate >= start && r.status != Cancelled && r.status != NoShow
  }

  function GetReservationsByDateRange(rs: seq<Reservation>, start: DateTime, end: DateTime): (r: seq<Reservation>)
    ensures forall x :: x in r <==> x in rs && InDateRange(x, start, end)
    ensures forall x :: x in r ==> x.status != Cancelled && x.status != NoShow
  {
    Where(rs, (x: Reservation) => InDateRange(x, start, end))
  }

  /** A wider window finds every reservation a narrower one finds. */
  lemma DateRangeMonotone(rs: seq<Reservation>, start: DateTime, end: DateTime, start': DateTime, end': DateTime)
    requires start' <= start && end <= end'
    ensures forall x :: x in GetReservationsByDateRange(rs, start, end) ==> x in GetReservationsByDateRange(rs, start', end')
  {
  }

  /** `GetCheckInsForDateAsync`'s test: arriving on that calendar day, and
      confirmed. */
  predicate ArrivesOn(r: Reservation, date: DateTime) {
    Day(r.checkInDate) == Day(date) && r.status == Confirmed
  }

  /** `GetCheckOutsForDateAsync`'s test: leaving on that calendar day, and
      checked in. */
  predicate DepartsOn(r: Reservation, date: DateTime) {
    Day(r.checkOutDate) == Day(date) && r.status == CheckedIn
  }

  function GetCheckInsForDate(rs: seq<Reservation>, date: DateTime): (r: seq<Reservation>)
    ensures forall x :: x in r <==> x in rs && ArrivesOn(x, date)
  {
    Where(rs, (x: Reservation) => ArrivesOn(x, date))
  }

  function GetCheckOutsForDate(rs: seq<Reservation>, date: DateTime): (r: seq<Reservation>)
    ensures forall x :: x in r <==> x in rs && DepartsOn(x, date)
  {
    Where(rs, (x: Reservation) => DepartsOn(x, date))
  }

  /** No reservation is both arriving and departing on a day's lists: the
      two lists want different statuses. */
  lemma ArrivalsAndDeparturesDisjoint(rs: seq<Reservation>, date: DateTime, date': DateTime)
    ensures forall x :: x in GetCheckInsForDate(rs, date) ==> x !in GetCheckOutsForDate(rs, date')
  {
  }

  // ---------------------------------------------------------------------
  // Lookup by number

  /** `GetReservationByNumberAsync`: the first reservation carrying the
      number, if any. */
  function GetReservationByNumber(rs: seq<Reservation>, number: string): (r: Option<Reservation>)
    ensures r.Some? ==> r.value in rs && r.value.reservationNumber == number
    ensures r.None? <==> forall x :: x in rs ==> x.reservationNumber != number
  {
    FirstOrDefault(rs, (x: Reservation) => x.reservationNumber == number)
  }

  /** The unique index on reservation numbers. */
  ghost predicate UniqueNumbers(rs: seq<Reservation>) {
    forall i, j :: 0 <= i < j < |rs| ==> rs[i].reservationNumber != rs[j].reservationNumber
  }

  /** With unique numbers, looking a reservation up by its number finds it. */
  lemma ReservationByOwnNumber(rs: seq<Reservation>, i: nat)
    requires UniqueNumbers(rs) && i < |rs|
    ensures GetReservationByNumber(rs, rs[i].reservationNumber) == Some(rs[i])
  {
    var k := FirstIndex(rs, (x: Reservation) => x.reservationNumber == rs[i].reservationNumber);
    assert k.Some?;
  }

  // ---------------------------------------------------------------------
  // Revenue

  /** A reservation whose price counts toward the revenue of `[start, end]`:
      checked out within the window (full timestamps), paid, and in status
      `CheckedOut`. A missing actual check-out never counts. */
  predicate CountsAsRevenue(r: Reservation, start: DateTime, end: DateTime) {
    r.actualCheckOutDate.Some? && start <= r.actualCheckOutDate.value <= end &&
    r.status == CheckedOut && r.isPaid
  }

  /** `GetRevenueForPeriodAsync`. */
  function GetRevenueForPeriod(rs: seq<Reservation>, start: DateTime, end: DateTime): (total: int)
    ensures (forall x :: x in rs ==> !CountsAsRevenue(x, start, end)) ==> total == 0
  {
    var completed := Where(rs, (x: Reservation) => CountsAsRevenue(x, start, end));
    if completed == [] then 0 else Sum(completed, (x: Reservation) => x.totalPrice)
  }

  /** The revenue of a table is the revenue of its parts. */
  lemma RevenueAppend(rs: seq<Reservation>, rs': seq<Reservation>, start: DateTime, end: DateTime)
    ensures GetRevenueForPeriod(rs + rs', start, end) == GetRevenueForPeriod(rs, start, end) + GetRevenueForPeriod(rs', start, end)
  {
    var p := (x: Reservation) => CountsAsRevenue(x, start, end);
    WhereAppend(rs, rs', p);
    SumAppend(Where(rs, p), Where(rs', p), (x: Reservation) => x.totalPrice);
  }

  /** Adding a reservation that fails any of the filters leaves the revenue
      as it was. */
  lemma RevenueIgnoresNonQualifying(rs: seq<Reservation>, x: Reservation, start: DateTime, end: DateTime)
    requires !CountsAsRevenue(x, start, end)
    ensures GetRevenueForPeriod(rs + [x], start, end) == GetRevenueForPeriod(rs, start, end)
  {
    RevenueAppend(rs, [x], start, end);
    assert Where([x], (x: Reservation) => CountsAsRevenue(x, start, end)) == [];
  }

  /** Revenue over two adjacent windows adds up to the revenue over their
      union. */
  lemma {:induction false} RevenueSplitWindow(rs: seq<Reservation>, start: DateTime, mid: DateTime, end: DateTime)
    requires start <= mid < end
    ensures GetRevenueForPeriod(rs, start, end) == GetRevenueForPeriod(rs, start, mid) + GetRevenueForPeriod(rs, mid + 1, end)
  {
    if rs != [] {
      var x, rest := rs[0], rs[1..];
      assert rs == [x] + rest;
      RevenueAppend([x], rest, start, end);
      RevenueAppend([x], rest, start, mid);
      RevenueAppend([x], rest, mid + 1, end);
      RevenueOfOne(x, start, end);
      RevenueOfOne(x, start, mid);
      RevenueOfOne(x, mid + 1, end);
      RevenueSplitWindow(rest, start, mid, end);
    }
  }

  /** A single reservation brings in its price exactly when it counts. */
  lemma RevenueOfOne(x: Reservation, start: DateTime, end: DateTime)
    ensures GetRevenueForPeriod([x], start, end) == if CountsAsRevenue(x, start, end) then x.totalPrice else 0
  {
    var p := (y: Reservation) => CountsAsRevenue(y, start, end);
    var f := (y: Reservation) => y.totalPrice;
    assert [x][1..] == [];
    assert Where([x], p) == if p(x) then [x] else [];
    if p(x) {
      assert Sum([x], f) == f(x) + Sum([], f);
    }
  }

  /** Revenue is never negative while prices are not. */
  lemma {:induction false} RevenueNonNegative(rs: seq<Reservation>, start: DateTime, end: DateTime)
    requires forall x :: x in rs ==> x.totalPrice >= 0
    ensures GetRevenueForPeriod(rs, start, end) >= 0
  {
    if rs != [] {
      assert rs == [rs[0]] + rs[1..];
      RevenueAppend([rs[0]], rs[1..], start, end);
      assert GetRevenueForPeriod([rs[0]], start, end) >= 0 by {
        assert [rs[0]][1..] == [];
      }
      RevenueNonNegative(rs[1..], start, end);
    }
  }
}
