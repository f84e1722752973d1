/**
 * Calendar dates as a JavaScript `Date` shows them through its local-time getters
 * (`getFullYear`, `getMonth`, `getDate`, time of day), and `Date.prototype.setFullYear`
 * with a single argument, which is all that certificate generation uses of dates.
 */
module Calendar {

  /** Milliseconds in a calendar day of local time. */
  const MillisPerDay: int := 86400000

  /** A local date and time; `month` is zero-based as `getMonth()` is, `day` is `getDate()`. */
  datatype DateTime = DateTime(year: int, month: int, day: int, millis: int)

  /** The proleptic Gregorian leap-year rule that ECMAScript's date arithmetic uses. */
  predicate IsLeapYear(y: int) {
    y % 4 == 0 && (y % 100 != 0 || y % 400 == 0)
  }

  function DaysInMonth(y: int, m: int): (n: int)
    requires 0 <= m < 12
    ensures 28 <= n <= 31
  {
    if m == 1 then (if IsLeapYear(y) then 29 else 28)
    else if m == 3 || m == 5 || m == 8 || m == 10 then 30
    else 31
  }

  /** A date that names an existing calendar day. */
  predicate Valid(d: DateTime) {
    0 <= d.month < 12 && 1 <= d.day <= DaysInMonth(d.year, d.month) && 0 <= d.millis < MillisPerDay
  }

  /** Strict chronological order of two local dates. */
  predicate Before(a: DateTime, b: DateTime) {
    a.year < b.year
    || (a.year == b.year && a.month < b.month)
    || (a.year == b.year && a.month == b.month && a.day < b.day)
    || (a.year == b.year && a.month == b.month && a.day == b.day && a.millis < b.millis)
  }

  /**
   * `d.setFullYear(y)`: keeps the month, the day of the month and the time of day, and sets
   * the year. A 29 February that does not exist in year `y` rolls over to 1 March, as
   * ECMAScript's MakeDay does.
   */
  function SetFullYear(d: DateTime, y: int): (r: DateTime)
    requires Valid(d)
    ensures Valid(r) && r.year == y && r.millis == d.millis
    ensures d.month == 1 && d.day == 29 && !IsLeapYear(y) ==> r.month == 2 && r.day == 1
    ensures !(d.month == 1 && d.day == 29 && !IsLeapYear(y)) ==> r.month == d.month && r.day == d.day
  {
    if d.month == 1 && d.day == 29 && !IsLeapYear(y) then DateTime(y, 2, 1, d.millis)
    else DateTime(y, d.month, d.day, d.millis)
  }

  /** Moving a date into a later year moves it forward in time. */
  lemma SetFullYearLater(d: DateTime, y: int)
    requires Valid(d) && d.year < y
    ensures Before(d, SetFullYear(d, y))
  {
  }
}
