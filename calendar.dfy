/** The part of JavaScript's `Date` the birth-date check relies on: the
    local date `new Date(year, month, day)` denotes, read back with
    `getFullYear`, `getMonth` and `getDate`. Months count from 0, out-of-range
    months and days carry over into the neighbouring months, and a year from
    0 to 99 is taken as 1900 plus that year. */
module Calendar {

  /** A calendar day as the getters report it; `month` counts from 0. */
  datatype CalendarDate = CalendarDate(year: int, month: int, day: int)

  predicate IsLeapYear(y: int) {
    y % 4 == 0 && (y % 100 != 0 || y % 400 == 0)
  }

  function DaysIn(y: int, m: int): (n: nat)
    requires 0 <= m < 12
    ensures 28 <= n <= 31
  {
    if m == 1 then (if IsLeapYear(y) then 29 else 28)
    else if m == 3 || m == 5 || m == 8 || m == 10 then 30
    else 31
  }

  /** A day that exists in the proleptic Gregorian calendar. */
  predicate IsValid(d: CalendarDate) {
    0 <= d.month < 12 && 1 <= d.day <= DaysIn(d.year, d.month)
  }

  /** Months counted from month 0 of year 0, to compare positions. */
  function MonthIndex(y: int, m: int): int {
    12 * y + m
  }

  /** Day `d` counted from the first of month `m` of year `y`: day 0 is the
      last day of the month before, days past the end run on into the next
      months. */
  function Shift(y: int, m: int, d: nat): (r: CalendarDate)
    requires 0 <= m < 12
    ensures IsValid(r)
    ensures 1 <= d <= DaysIn(y, m) ==> r == CalendarDate(y, m, d)
    ensures d >= 1 ==> MonthIndex(r.year, r.month) >= MonthIndex(y, m)
    ensures d > DaysIn(y, m) ==> MonthIndex(r.year, r.month) > MonthIndex(y, m)
    ensures d == 0 ==> MonthIndex(r.year, r.month) == MonthIndex(y, m) - 1
    decreases d
  {
    if d == 0 then
      var py := if m == 0 then y - 1 else y;
      var pm := if m == 0 then 11 else m - 1;
      CalendarDate(py, pm, DaysIn(py, pm))
    else if d <= DaysIn(y, m) then CalendarDate(y, m, d)
    else
      var ny := if m == 11 then y + 1 else y;
      var nm := if m == 11 then 0 else m + 1;
      Shift(ny, nm, d - DaysIn(y, m))
  }

  /** The year `new Date` uses for a year argument. */
  function FullYear(y: int): int {
    if 0 <= y <= 99 then 1900 + y else y
  }

  /** `new Date(year, month, day)` read back: the months beyond 11 (or
      before 0) move the year, then the day is counted from the first of
      that month. */
  function NewDate(year: int, month: int, day: nat): (r: CalendarDate)
    ensures IsValid(r)
  {
    Shift(FullYear(year) + month / 12, month % 12, day)
  }

  /** The round-trip check of `parseBirthDate`: the date reads back as the
      numbers it was built from. */
  predicate RoundTrips(year: int, month: int, day: nat) {
    NewDate(year, month, day) == CalendarDate(year, month, day)
  }

  /** The round trip holds exactly for an existing day of a year from 100 on
      (the digits parsed are never negative). */
  lemma RoundTripsIff(year: nat, month: int, day: nat)
    ensures RoundTrips(year, month, day) <==> year >= 100 && IsValid(CalendarDate(year, month, day))
  {
    if RoundTrips(year, month, day) {
      assert IsValid(CalendarDate(year, month, day));
      assert month / 12 == 0 && month % 12 == month;
    }
    if year >= 100 && IsValid(CalendarDate(year, month, day)) {
      assert month / 12 == 0 && month % 12 == month;
    }
  }
}
