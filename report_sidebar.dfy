/** The month summary of src/components/reports/ReportSidebar.tsx: the
    current month's reports, their tasks concatenated per list, and the
    three summary numbers. */
module ReportSidebar {
  import opened Wrappers
  import opened Seqs
  import opened Calendar
  import opened Types
  import opened Rates
  import opened ReportStore
  import opened ReportHistory

  /** `reports.flatMap(r => r[kind])`: every task of that list, report by report. */
  function AllTasks(monthReports: seq<DailyReport>, kind: ListKind): seq<Task>
  {
    FlatMap(monthReports, TaskListOf(kind))
  }

  /** The three summary lines. `completionRate` is `None` where the
      component divides zero by zero and shows `NaN%`. */
  datatype Summary = Summary(completionRate: Option<nat>, totalTasks: nat, reportsSubmitted: nat)

  /** `Math.round((completed / (completed + pending)) * 100)`, with no zero guard. */
  function SidebarRate(completed: nat, pending: nat): (rate: Option<nat>)
    ensures rate.None? <==> completed + pending == 0
    ensures rate.Some? ==>
      && rate.value <= 100
      && 2 * (completed + pending) * rate.value <= 200 * completed + (completed + pending)
      && 200 * completed + (completed + pending) < 2 * (completed + pending) * (rate.value + 1)
  {
    if completed + pending == 0 then None
    else
      PercentInRange(completed, completed + pending);
      Some(RoundedPercent(completed, completed + pending))
  }

  /** The sidebar for the month `now` lies in. */
  function SummaryOf(reports: seq<DailyReport>, now: YearMonth): Summary
  {
    var month := MonthlyReports(reports, now);
    var completed := AllTasks(month, CompletedList);
    var pending := AllTasks(month, PendingList);
    var planned := AllTasks(month, NextDayPlanList);
    Summary(SidebarRate(|completed|, |pending|), |completed| + |pending| + |planned|, |month|)
  }

  /** The concatenations hold each task of the month's reports, list by
      list, and their lengths are the task totals. */
  lemma AllTasksAreTheMonthsTasks(monthReports: seq<DailyReport>, kind: ListKind, t: Task)
    ensures t in AllTasks(monthReports, kind) <==> exists r :: r in monthReports && t in TasksOf(r, kind)
    ensures |AllTasks(monthReports, kind)| == TaskTotal(monthReports, kind)
  {
    FlatMapMembers(monthReports, TaskListOf(kind), t);
    FlatMapLength(monthReports, TaskListOf(kind));
  }

  /** On valid dates the summary agrees with the store's monthly report:
      total tasks are its three totals added, reports submitted its report
      count, and the rate leaves planned tasks out of the denominator, with
      no value at all when the month has no completed or pending task. */
  lemma SummaryMatchesMonthlyReport(reports: seq<DailyReport>, now: YearMonth)
    requires AllDatesValid(reports)
    ensures var s := SummaryOf(reports, now);
      var m := MonthlyReportOf(reports, now.month, now.year);
      && s.totalTasks == m.completedTasks + m.pendingTasks + m.plannedTasks
      && s.reportsSubmitted == m.totalReports
      && s.completionRate == SidebarRate(m.completedTasks, m.pendingTasks)
      && (s.completionRate.None? <==> m.completedTasks + m.pendingTasks == 0)
  {
    MonthlyReportsMatchStore(reports, now);
    var month := MonthlyReports(reports, now);
    FlatMapLength(month, TaskListOf(CompletedList));
    FlatMapLength(month, TaskListOf(PendingList));
    FlatMapLength(month, TaskListOf(NextDayPlanList));
  }
}
