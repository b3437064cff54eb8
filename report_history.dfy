/** The month statistics of src/components/reports/ReportHistory.tsx: the
    reports of the selected month, their task totals and completion rate,
    and the twelve months the selector offers. */
module ReportHistory {
  import opened Seqs
  import opened Calendar
  import opened Types
  import opened Rates
  import opened ReportStore

  /** `monthlyReports`: the reports dated between the start and the end of
      the selected month, inclusive, in stored order. */
  function MonthlyReports(reports: seq<DailyReport>, selected: YearMonth): (r: seq<DailyReport>)
    ensures forall x :: x in r <==> x in reports && InMonthRange(x.date, selected)
  {
    Filter(reports, WithinMonth(selected))
  }

  /** On valid dates the month range selects what the store's monthly report
      selects for the same calendar month. */
  lemma MonthlyReportsMatchStore(reports: seq<DailyReport>, selected: YearMonth)
    requires AllDatesValid(reports)
    ensures MonthlyReports(reports, selected)
         == MonthlyReportOf(reports, selected.month, selected.year).reports
  {
    forall i | 0 <= i < |reports|
      ensures WithinMonth(selected)(reports[i]) == InCalendarMonth(selected.month, selected.year)(reports[i])
    {
      MonthRangeIsCalendarMonth(reports[i].date, selected);
    }
    FilterAgree(reports, WithinMonth(selected), InCalendarMonth(selected.month, selected.year));
  }

  /** The object `calculateStats` returns. */
  datatype Stats = Stats(completed: nat, pending: nat, planned: nat, total: nat, completionRate: nat)

  /** `total ? Math.round((completed / total) * 100) : 0`. */
  function CompletionRate(completed: nat, total: nat): (rate: nat)
    requires completed <= total
    ensures total == 0 ==> rate == 0
    ensures total > 0 ==> 2 * total * rate <= 200 * completed + total < 2 * total * (rate + 1)
    ensures rate <= 100
  {
    if total == 0 then 0
    else
      PercentInRange(completed, total);
      RoundedPercent(completed, total)
  }

  /** `calculateStats()` over the month's reports. */
  function CalculateStats(monthly: seq<DailyReport>): (st: Stats)
    ensures st.total == st.completed + st.pending + st.planned
    ensures st.completionRate <= 100
    ensures st.total == 0 ==> st.completionRate == 0
  {
    var completed := TaskTotal(monthly, CompletedList);
    var pending := TaskTotal(monthly, PendingList);
    var planned := TaskTotal(monthly, NextDayPlanList);
    var total := completed + pending + planned;
    Stats(completed, pending, planned, total, CompletionRate(completed, total))
  }

  /** The statistics of the selected month are the task totals of the
      store's monthly report, with planned tasks counted in the denominator
      of the rate. */
  lemma StatsMatchMonthlyReport(reports: seq<DailyReport>, selected: YearMonth)
    requires AllDatesValid(reports)
    ensures var st := CalculateStats(MonthlyReports(reports, selected));
      var m := MonthlyReportOf(reports, selected.month, selected.year);
      && st.completed == m.completedTasks
      && st.pending == m.pendingTasks
      && st.planned == m.plannedTasks
      && st.total == m.completedTasks + m.pendingTasks + m.plannedTasks
      && st.completionRate == CompletionRate(m.completedTasks, st.total)
  {
    MonthlyReportsMatchStore(reports, selected);
  }

  /** `eachMonthOfInterval({ start: subMonths(now, 11), end: now })`. */
  function MonthsEndingAt(now: YearMonth): (months: seq<YearMonth>)
    ensures |months| == 12
    ensures months[11] == now
    ensures forall i :: 0 <= i < 12 ==> MonthIndex(months[i]) == MonthIndex(now) - 11 + i
    ensures forall i :: 0 <= i < 11 ==> NextMonth(months[i]) == months[i + 1]
  {
    var months := seq(12, i => FromMonthIndex(MonthIndex(now) - 11 + i));
    forall i | 0 <= i < 12 ensures MonthIndex(months[i]) == MonthIndex(now) - 11 + i {
      assert months[i] == FromMonthIndex(MonthIndex(now) - 11 + i);
    }
    forall i | 0 <= i < 11 ensures NextMonth(months[i]) == months[i + 1] {
      NextMonthIndex(months[i]);
      MonthIndexInjective(NextMonth(months[i]), months[i + 1]);
    }
    MonthIndexInjective(months[11], now);
    months
  }

  /** The twelve months offered are distinct. */
  lemma MonthsAreDistinct(now: YearMonth)
    ensures NoDup(MonthsEndingAt(now))
  {
  }
}
