/** The three counters of src/components/reports/ReportStats.tsx: reports of
    today, of the current month and of the current year. */
module ReportStats {
  import opened Seqs
  import opened Calendar
  import opened Types

  /** "Today's Reports": reports whose date is exactly today's. */
  function TodayCount(reports: seq<DailyReport>, today: CalendarDate): (n: nat)
    ensures n <= |reports|
  {
    |Filter(reports, OnDay(today))|
  }

  /** "Monthly Reports": reports between the month's first and last day. */
  function MonthCount(reports: seq<DailyReport>, today: CalendarDate): (n: nat)
    requires ValidDate(today)
    ensures n <= |reports|
  {
    |Filter(reports, WithinMonth(YearMonth(today.year, today.month)))|
  }

  /** "Yearly Reports": reports between the year's first and last day. */
  function YearCount(reports: seq<DailyReport>, today: CalendarDate): (n: nat)
    ensures n <= |reports|
  {
    |Filter(reports, WithinYear(today.year))|
  }

  /** Today lies in this month and this month in this year, so the counters
      never decrease from left to right and none exceeds the number of reports. */
  lemma CountsAreNested(reports: seq<DailyReport>, today: CalendarDate)
    requires ValidDate(today)
    ensures TodayCount(reports, today) <= MonthCount(reports, today)
    ensures MonthCount(reports, today) <= YearCount(reports, today)
    ensures YearCount(reports, today) <= |reports|
  {
    var ym := YearMonth(today.year, today.month);
    forall r ensures OnDay(today)(r) ==> WithinMonth(ym)(r) {
    }
    FilterMonotone(reports, OnDay(today), WithinMonth(ym));
    forall r ensures WithinMonth(ym)(r) ==> WithinYear(today.year)(r) {
      MonthRangeWithinYearRange(r.date, ym);
    }
    FilterMonotone(reports, WithinMonth(ym), WithinYear(today.year));
  }

  /** On valid dates the counters count calendar days, months and years:
      a report is counted for the month exactly when its month and year are
      today's, and for the year exactly when its year is. */
  lemma CountsAreCalendarCounts(reports: seq<DailyReport>, today: CalendarDate)
    requires ValidDate(today) && AllDatesValid(reports)
    ensures MonthCount(reports, today) == |Filter(reports, InCalendarMonth(today.month, today.year))|
    ensures YearCount(reports, today) == |Filter(reports, InCalendarYear(today.year))|
  {
    var ym := YearMonth(today.year, today.month);
    forall i | 0 <= i < |reports|
      ensures WithinMonth(ym)(reports[i]) == InCalendarMonth(today.month, today.year)(reports[i])
      ensures WithinYear(today.year)(reports[i]) == InCalendarYear(today.year)(reports[i])
    {
      MonthRangeIsCalendarMonth(reports[i].date, ym);
      YearRangeIsCalendarYear(reports[i].date, today.year);
    }
    FilterAgree(reports, WithinMonth(ym), InCalendarMonth(today.month, today.year));
    FilterAgree(reports, WithinYear(today.year), InCalendarYear(today.year));
  }
}
