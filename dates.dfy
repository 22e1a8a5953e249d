/** `System.DateTime` as a count of 100-nanosecond ticks since 0001-01-01
    00:00, the representation .NET itself uses. `t.Date` compared with
    another `.Date` is a comparison of day numbers, `Day(t)`; a comparison of
    two `DateTime` values without `.Date` compares ticks. */
module Dates {

  type DateTime = nat

  const TicksPerDay: nat := 864_000_000_000

  /** The day number of `t` (0 is 0001-01-01): what `t.Date` keeps. */
  function Day(t: DateTime): nat {
    t / TicksPerDay
  }

  /** `t.AddDays(n)`: the same time of day, `n` days later. */
  function AddDays(t: DateTime, n: nat): DateTime {
    t + n * TicksPerDay
  }

  lemma DayMonotone(a: DateTime, b: DateTime)
    requires a <= b
    ensures Day(a) <= Day(b)
  {
  }

  lemma DayOfAddDays(t: DateTime, n: nat)
    ensures Day(AddDays(t, n)) == Day(t) + n
  {
    assert AddDays(t, n) == (t / TicksPerDay + n) * TicksPerDay + t % TicksPerDay;
  }

  // ---------------------------------------------------------------------
  // The proleptic Gregorian calendar, computed the way `DateTime` computes
  // its year, month and day parts from a day number.

  datatype CivilDate = CivilDate(year: int, month: int, day: int)

  /** The day number of 9999-12-31, the last day a `DateTime` can hold. */
  const MaxDayNumber: nat := 3_652_058

  /** Days before the first of each month, in a common and in a leap year. */
  const DaysToMonth365: seq<nat> := [0, 31, 59, 90, 120, 151, 181, 212, 243, 273, 304, 334, 365]
  const DaysToMonth366: seq<nat> := [0, 31, 60, 91, 121, 152, 182, 213, 244, 274, 305, 335, 366]

  ghost predicate IsMonthTable(table: seq<nat>) {
    |table| == 13 && table[0] == 0 &&
    forall m :: 1 <= m <= 12 ==> table[m - 1] < table[m] <= table[m - 1] + 31
  }

  /** The month (1..12) whose days contain the 0-based day of the year `doy`. */
  function MonthOf(table: seq<nat>, doy: nat, m: nat): (month: nat)
    requires IsMonthTable(table) && 1 <= m <= 12 && table[m - 1] <= doy < table[12]
    ensures m <= month <= 12 && table[month - 1] <= doy < table[month]
    decreases 12 - m
  {
    if doy < table[m] then m else MonthOf(table, doy, m + 1)
  }

  /** A day number split into whole 400-, 100-, 4- and 1-year cycles and
      the 0-based day of the year that remains. */
  datatype Cycles = Cycles(y400: nat, y100: nat, y4: nat, y1: nat, doy: nat) {
    function Year(): int { y400 * 400 + y100 * 100 + y4 * 4 + y1 + 1 }
    predicate Leap() { y1 == 3 && (y4 != 24 || y100 == 3) }
  }

  function CyclesOf(n: nat): (k: Cycles)
    ensures k.y100 <= 3 && k.y4 <= 24 && k.y1 <= 3
    ensures n == k.y400 * 146097 + k.y100 * 36524 + k.y4 * 1461 + k.y1 * 365 + k.doy
    ensures k.doy < if k.Leap() then 366 else 365
    ensures n <= MaxDayNumber ==> k.Year() <= 9999
  {
    var y400 := n / 146097;
    var r400 := n % 146097;
    var y100 := if r400 / 36524 == 4 then 3 else r400 / 36524;
    var r100 := r400 - y100 * 36524;
    var y4 := r100 / 1461;
    var r4 := r100 % 1461;
    var y1 := if r4 / 365 == 4 then 3 else r4 / 365;
    assert 0 <= r100 <= 36524 && (y100 < 3 ==> r100 < 36524);
    Cycles(y400, y100, y4, y1, r4 - y1 * 365)
  }

  /** The calendar date of day number `n`: 400-, 100-, 4- and 1-year cycles,
      then a search of the cumulative month table. */
  function CivilFromDayNumber(n: nat): (c: CivilDate)
    ensures 1 <= c.year && 1 <= c.month <= 12 && 1 <= c.day <= 31
    ensures n <= MaxDayNumber ==> c.year <= 9999
  {
    var k := CyclesOf(n);
    var table := if k.Leap() then DaysToMonth366 else DaysToMonth365;
    var m := MonthOf(table, k.doy, 1);
    CivilDate(k.Year(), m, k.doy - table[m - 1] + 1)
  }

  predicate IsLeapYear(year: int) {
    year % 4 == 0 && (year % 100 != 0 || year % 400 == 0)
  }

  /** The day number of a calendar date, as `DateTime`'s constructor computes it. */
  function DayNumber(c: CivilDate): int
    requires 1 <= c.year && 1 <= c.month <= 12
  {
    var y := c.year - 1;
    var table := if IsLeapYear(c.year) then DaysToMonth366 else DaysToMonth365;
    y * 365 + y / 4 - y / 100 + y / 400 + table[c.month - 1] + c.day - 1
  }

  /** Days in `y` whole years, split into the four cycles. */
  lemma YearsToDays(y400: nat, y100: nat, y4: nat, y1: nat)
    requires y100 <= 3 && y4 <= 24 && y1 <= 3
    ensures var y := y400 * 400 + y100 * 100 + y4 * 4 + y1;
      y * 365 + y / 4 - y / 100 + y / 400 == y400 * 146097 + y100 * 36524 + y4 * 1461 + y1 * 365
  {
    var y := y400 * 400 + y100 * 100 + y4 * 4 + y1;
    var a := y400 * 100 + y100 * 25 + y4;
    assert y == 4 * a + y1;
    assert y / 4 == a;
    var b := y400 * 4 + y100;
    assert y == 100 * b + (y4 * 4 + y1);
    assert y / 100 == b;
    assert y == 400 * y400 + (y100 * 100 + y4 * 4 + y1);
    assert y / 400 == y400;
  }

  lemma LeapYearOfCycles(y400: nat, y100: nat, y4: nat, y1: nat)
    requires y100 <= 3 && y4 <= 24 && y1 <= 3
    ensures IsLeapYear(y400 * 400 + y100 * 100 + y4 * 4 + y1 + 1) <==> y1 == 3 && (y4 != 24 || y100 == 3)
  {
    var year := y400 * 400 + y100 * 100 + y4 * 4 + y1 + 1;
    assert year == 4 * (y400 * 100 + y100 * 25 + y4) + (y1 + 1);
    assert year == 100 * (y400 * 4 + y100) + (y4 * 4 + y1 + 1);
    assert year == 400 * y400 + (y100 * 100 + y4 * 4 + y1 + 1);
  }

  /** Reading a day number as a calendar date loses nothing. */
  lemma {:induction false} CivilRoundTrip(n: nat)
    ensures DayNumber(CivilFromDayNumber(n)) == n
  {
    var k := CyclesOf(n);
    LeapYearOfCycles(k.y400, k.y100, k.y4, k.y1);
    YearsToDays(k.y400, k.y100, k.y4, k.y1);
  }
}
