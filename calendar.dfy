/** Calendar days as the components read a report's `yyyy-MM-dd` string:
    a (year, month, day) triple with a 0-based month, as `getMonth` returns it,
    and the month and year bounds that `startOfMonth`/`endOfMonth` and
    `startOfYear`/`endOfYear` compute. */
module Calendar {

  /** A month number as `getMonth` returns it: 0 is January, 11 is December. */
  type Month = m: int | 0 <= m < 12

  datatype CalendarDate = CalendarDate(year: int, month: int, day: int)

  /** A calendar month, e.g. the month a `Date` such as `selectedMonth` lies in. */
  datatype YearMonth = YearMonth(year: int, month: Month)

  /** Gregorian leap years, extended to all years as `Date` does. */
  predicate IsLeapYear(y: int)
  {
    y % 4 == 0 && (y % 100 != 0 || y % 400 == 0)
  }

  function DaysInMonth(y: int, m: Month): (n: int)
    ensures 28 <= n <= 31
    ensures n == 29 <==> m == 1 && IsLeapYear(y)
  {
    if m == 1 then (if IsLeapYear(y) then 29 else 28)
    else if m == 3 || m == 5 || m == 8 || m == 10 then 30
    else 31
  }

  /** The triple names a day that exists. */
  predicate ValidDate(d: CalendarDate)
  {
    0 <= d.month < 12 && 1 <= d.day <= DaysInMonth(d.year, d.month)
  }

  /** The calendar order of days: by year, then month, then day. */
  predicate Before(a: CalendarDate, b: CalendarDate)
  {
    a.year < b.year
    || (a.year == b.year && a.month < b.month)
    || (a.year == b.year && a.month == b.month && a.day < b.day)
  }

  /** A number that orders days as their time values (`getTime`) do. */
  function DayOrdinal(d: CalendarDate): int
  {
    384 * d.year + 32 * d.month + d.day
  }

  /** On existing days, comparing ordinals is comparing calendar positions. */
  lemma OrdinalOrdersDays(a: CalendarDate, b: CalendarDate)
    requires ValidDate(a) && ValidDate(b)
    ensures DayOrdinal(a) < DayOrdinal(b) <==> Before(a, b)
    ensures DayOrdinal(a) == DayOrdinal(b) <==> a == b
  {
  }

  function MonthStart(ym: YearMonth): CalendarDate
  {
    CalendarDate(ym.year, ym.month, 1)
  }

  /** The last day of the month; `endOfMonth` is its last millisecond. */
  function MonthEnd(ym: YearMonth): CalendarDate
  {
    CalendarDate(ym.year, ym.month, DaysInMonth(ym.year, ym.month))
  }

  /** `d >= startOfMonth(..) && d <= endOfMonth(..)` for a date parsed at midnight. */
  predicate InMonthRange(d: CalendarDate, ym: YearMonth)
  {
    DayOrdinal(MonthStart(ym)) <= DayOrdinal(d) <= DayOrdinal(MonthEnd(ym))
  }

  /** The month range holds exactly the days of that calendar month. */
  lemma MonthRangeIsCalendarMonth(d: CalendarDate, ym: YearMonth)
    requires ValidDate(d)
    ensures InMonthRange(d, ym) <==> d.year == ym.year && d.month == ym.month
  {
  }

  function YearStart(y: int): CalendarDate
  {
    CalendarDate(y, 0, 1)
  }

  function YearEnd(y: int): CalendarDate
  {
    CalendarDate(y, 11, 31)
  }

  /** `d >= startOfYear(..) && d <= endOfYear(..)` for a date parsed at midnight. */
  predicate InYearRange(d: CalendarDate, y: int)
  {
    DayOrdinal(YearStart(y)) <= DayOrdinal(d) <= DayOrdinal(YearEnd(y))
  }

  lemma YearRangeIsCalendarYear(d: CalendarDate, y: int)
    requires ValidDate(d)
    ensures InYearRange(d, y) <==> d.year == y
  {
  }

  /** A month's bounds lie inside its year's bounds. */
  lemma MonthRangeWithinYearRange(d: CalendarDate, ym: YearMonth)
    ensures InMonthRange(d, ym) ==> InYearRange(d, ym.year)
  {
  }

  /** Months counted from year 0, so that consecutive months differ by one. */
  function MonthIndex(ym: YearMonth): int
  {
    12 * ym.year + ym.month
  }

  function FromMonthIndex(k: int): (ym: YearMonth)
    ensures MonthIndex(ym) == k
  {
    YearMonth(k / 12, k % 12)
  }

  /** The calendar month after `ym`. */
  function NextMonth(ym: YearMonth): YearMonth
  {
    if ym.month == 11 then YearMonth(ym.year + 1, 0) else YearMonth(ym.year, ym.month + 1)
  }

  lemma NextMonthIndex(ym: YearMonth)
    ensures MonthIndex(NextMonth(ym)) == MonthIndex(ym) + 1
  {
  }

  lemma MonthIndexInjective(a: YearMonth, b: YearMonth)
    requires MonthIndex(a) == MonthIndex(b)
    ensures a == b
  {
  }
}
