/**
 * Calendar dates and timestamps, supplied by the caller instead of read from a
 * clock. A date is ordered like its `YYYY-MM-DD` text (for four-digit years),
 * which is the key the statistics group and sort by.
 */
module Dates {
  import opened Wrappers

  datatype Date = Date(year: int, month: int, day: int)

  /** A point in time: its calendar date and the time elapsed since midnight. */
  datatype Timestamp = Timestamp(date: Date, clock: nat)

  /** Strictly earlier, in the order of the `YYYY-MM-DD` text. */
  predicate Before(a: Date, b: Date) {
    a.year < b.year
    || (a.year == b.year && a.month < b.month)
    || (a.year == b.year && a.month == b.month && a.day < b.day)
  }

  predicate NotAfter(a: Date, b: Date) {
    a == b || Before(a, b)
  }

  lemma BeforeIsStrictTotalOrder(a: Date, b: Date, c: Date)
    ensures !Before(a, a)
    ensures Before(a, b) && Before(b, c) ==> Before(a, c)
    ensures a == b || Before(a, b) || Before(b, a)
    ensures !(Before(a, b) && Before(b, a))
  {
  }

  predicate IsLeapYear(y: int) {
    (y % 4 == 0 && y % 100 != 0) || y % 400 == 0
  }

  function DaysInMonth(y: int, m: int): int
    requires 1 <= m <= 12
  {
    if m == 2 then (if IsLeapYear(y) then 29 else 28)
    else if m == 4 || m == 6 || m == 9 || m == 11 then 30
    else 31
  }

  /** The dates Python's `datetime.date` accepts (years 1 to 9999). */
  predicate ValidDate(d: Date) {
    1 <= d.year <= 9999 && 1 <= d.month <= 12 && 1 <= d.day <= DaysInMonth(d.year, d.month)
  }

  datatype DateError = MonthOutOfRange | YearOutOfRange

  /**
   * The half-open window [first of the month, first of the next month) that the
   * monthly statistics filter on; December rolls over to January of the next year.
   * An error where `date(year, month, 1)` or the next month's `date(...)` raises.
   */
  function MonthWindow(year: int, month: int): (r: Result<(Date, Date), DateError>)
    ensures r.Ok? <==> 1 <= month <= 12 && 1 <= year && (year < 9999 || (year == 9999 && month < 12))
    ensures r.Ok? ==> ValidDate(r.value.0) && ValidDate(r.value.1) && Before(r.value.0, r.value.1)
    ensures r.Ok? ==> r.value.0 == Date(year, month, 1) && r.value.1.day == 1
  {
    if !(1 <= month <= 12) then Err(MonthOutOfRange)
    else if !(1 <= year <= 9999) then Err(YearOutOfRange)
    else if month == 12 then
      (if year + 1 > 9999 then Err(YearOutOfRange) else Ok((Date(year, 12, 1), Date(year + 1, 1, 1))))
    else Ok((Date(year, month, 1), Date(year, month + 1, 1)))
  }

  /** `start <= d < end`, comparing only the calendar date. */
  predicate InWindow(d: Date, start: Date, end: Date) {
    NotAfter(start, d) && Before(d, end)
  }

  /** A real date falls in a month's window exactly when it carries that year and month. */
  lemma WindowIsCalendarMonth(d: Date, year: int, month: int)
    requires ValidDate(d)
    requires MonthWindow(year, month).Ok?
    ensures InWindow(d, MonthWindow(year, month).value.0, MonthWindow(year, month).value.1)
            <==> d.year == year && d.month == month
  {
  }

  /** The December rollover: the 31st is inside, the next New Year's Day is not. */
  lemma DecemberRollover()
    ensures MonthWindow(2024, 12) == Ok((Date(2024, 12, 1), Date(2025, 1, 1)))
    ensures InWindow(Date(2024, 12, 31), Date(2024, 12, 1), Date(2025, 1, 1))
    ensures !InWindow(Date(2025, 1, 1), Date(2024, 12, 1), Date(2025, 1, 1))
  {
  }
}
