/** The report store of src/store/reportStore.ts: the list of daily reports,
    `updateReport`, which rewrites it, and the monthly and yearly aggregates,
    which are computed from it on every request. */
module ReportStore {
  import opened Seqs
  import opened Calendar
  import opened Types

  datatype MonthlyReport = MonthlyReport(
    month: int,
    year: int,
    totalReports: nat,
    completedTasks: nat,
    pendingTasks: nat,
    plannedTasks: nat,
    reports: seq<DailyReport>)

  datatype YearlyReport = YearlyReport(
    year: int,
    monthlyStats: seq<MonthlyReport>,
    totalReports: nat,
    completedTasks: nat,
    pendingTasks: nat,
    plannedTasks: nat)

  /** `reports.reduce((sum, r) => sum + r[kind].length, 0)`. */
  function TaskTotal(reports: seq<DailyReport>, kind: ListKind): nat
  {
    SumOf(reports, LengthOf(TaskListOf(kind)))
  }

  /** The body of `generateMonthlyReport(month, year)` over the stored reports. */
  function MonthlyReportOf(reports: seq<DailyReport>, month: int, year: int): (m: MonthlyReport)
    ensures m.month == month && m.year == year && m.totalReports == |m.reports|
    ensures forall x :: x in m.reports <==> x in reports && x.date.month == month && x.date.year == year
  {
    var selected := Filter(reports, InCalendarMonth(month, year));
    MonthlyReport(month, year, |selected|,
      TaskTotal(selected, CompletedList), TaskTotal(selected, PendingList),
      TaskTotal(selected, NextDayPlanList), selected)
  }

  /** The body of `generateYearlyReport(year)` over the stored reports. */
  function YearlyReportOf(reports: seq<DailyReport>, year: int): (y: YearlyReport)
    ensures |y.monthlyStats| == 12
    ensures forall m :: 0 <= m < 12 ==> y.monthlyStats[m] == MonthlyReportOf(reports, m, year)
  {
    var selected := Filter(reports, InCalendarYear(year));
    YearlyReport(year, seq(12, m => MonthlyReportOf(reports, m, year)), |selected|,
      TaskTotal(selected, CompletedList), TaskTotal(selected, PendingList),
      TaskTotal(selected, NextDayPlanList))
  }

  /** The `reports` of a monthly report are exactly the stored reports dated
      in that month: in stored order, every copy of each, and nothing else;
      `totalReports` counts them. */
  lemma MonthlyReportSelectsMonth(reports: seq<DailyReport>, month: int, year: int, x: DailyReport)
    ensures var m := MonthlyReportOf(reports, month, year);
      && m.month == month && m.year == year
      && m.totalReports == |m.reports|
      && IsSubsequence(m.reports, reports)
      && multiset(m.reports)[x] ==
           if x.date.month == month && x.date.year == year then multiset(reports)[x] else 0
  {
    FilterIsSubsequence(reports, InCalendarMonth(month, year));
    FilterMultiset(reports, InCalendarMonth(month, year), x);
  }

  /** The task totals of a monthly report count the tasks of its reports:
      they are the lengths of the concatenated task lists. */
  lemma MonthlyTaskTotalsCountTasks(reports: seq<DailyReport>, month: int, year: int)
    ensures var m := MonthlyReportOf(reports, month, year);
      && m.completedTasks == |FlatMap(m.reports, TaskListOf(CompletedList))|
      && m.pendingTasks == |FlatMap(m.reports, TaskListOf(PendingList))|
      && m.plannedTasks == |FlatMap(m.reports, TaskListOf(NextDayPlanList))|
  {
    var selected := Filter(reports, InCalendarMonth(month, year));
    FlatMapLength(selected, TaskListOf(CompletedList));
    FlatMapLength(selected, TaskListOf(PendingList));
    FlatMapLength(selected, TaskListOf(NextDayPlanList));
  }

  /** What the aggregates add up: the number of reports, or the tasks of one list. */
  datatype Measure = ReportCount | TaskCount(kind: ListKind)

  function Weight(measure: Measure): DailyReport -> nat
  {
    match measure
    case ReportCount => One()
    case TaskCount(kind) => LengthOf(TaskListOf(kind))
  }

  function MonthlyField(measure: Measure): MonthlyReport -> nat
  {
    match measure
    case ReportCount => (m: MonthlyReport) => m.totalReports
    case TaskCount(CompletedList) => (m: MonthlyReport) => m.completedTasks
    case TaskCount(PendingList) => (m: MonthlyReport) => m.pendingTasks
    case TaskCount(NextDayPlanList) => (m: MonthlyReport) => m.plannedTasks
  }

  function YearlyField(y: YearlyReport, measure: Measure): nat
  {
    match measure
    case ReportCount => y.totalReports
    case TaskCount(CompletedList) => y.completedTasks
    case TaskCount(PendingList) => y.pendingTasks
    case TaskCount(NextDayPlanList) => y.plannedTasks
  }

  /** The weight of the reports of the months 0 .. k-1 of `year`. */
  function MonthSums(reports: seq<DailyReport>, year: int, k: nat, f: DailyReport -> nat): nat
  {
    if k == 0 then 0
    else MonthSums(reports, year, k - 1, f) + SumOf(Filter(reports, InCalendarMonth(k - 1, year)), f)
  }

  lemma {:induction false} MonthSumsEmpty(year: int, k: nat, f: DailyReport -> nat)
    ensures MonthSums([], year, k, f) == 0
  {
    if k > 0 {
      MonthSumsEmpty(year, k - 1, f);
    }
  }

  lemma {:induction false} MonthSumsCons(x: DailyReport, rest: seq<DailyReport>, year: int, k: nat, f: DailyReport -> nat)
    requires 0 <= x.date.month
    ensures MonthSums([x] + rest, year, k, f)
         == MonthSums(rest, year, k, f) + (if x.date.year == year && x.date.month < k then f(x) else 0)
  {
    if k > 0 {
      MonthSumsCons(x, rest, year, k - 1, f);
      assert ([x] + rest)[1..] == rest;
      var p := InCalendarMonth(k - 1, year);
      var tail := Filter(rest, p);
      if p(x) {
        assert Filter([x] + rest, p) == [x] + tail;
        assert ([x] + tail)[1..] == tail;
      } else {
        assert Filter([x] + rest, p) == tail;
      }
    }
  }

  /** Every report of a year lies in exactly one of its months 0 .. k-1 when
      all months are below k, so a year's weight is the sum of its months'. */
  lemma {:induction false} YearIsSumOfMonths(reports: seq<DailyReport>, year: int, k: nat, f: DailyReport -> nat)
    requires forall i :: 0 <= i < |reports| ==> 0 <= reports[i].date.month < k
    ensures SumOf(Filter(reports, InCalendarYear(year)), f) == MonthSums(reports, year, k, f)
  {
    if reports == [] {
      MonthSumsEmpty(year, k, f);
    } else {
      var x, rest := reports[0], reports[1..];
      assert reports == [x] + rest;
      YearIsSumOfMonths(rest, year, k, f);
      MonthSumsCons(x, rest, year, k, f);
      var tail := Filter(rest, InCalendarYear(year));
      if x.date.year == year {
        assert Filter(reports, InCalendarYear(year)) == [x] + tail;
        assert ([x] + tail)[1..] == tail;
      } else {
        assert Filter(reports, InCalendarYear(year)) == tail;
      }
    }
  }

  lemma SumOfSingleton<T>(x: T, f: T -> nat)
    ensures SumOf([x], f) == f(x)
  {
    assert [x][1..] == [];
  }

  /** Each field of a monthly report is the weight of the month's reports. */
  lemma MonthlyFieldIsWeight(reports: seq<DailyReport>, month: int, year: int, measure: Measure)
    ensures MonthlyField(measure)(MonthlyReportOf(reports, month, year))
         == SumOf(Filter(reports, InCalendarMonth(month, year)), Weight(measure))
  {
    SumOfOneIsLength(Filter(reports, InCalendarMonth(month, year)));
  }

  lemma {:induction false} MonthlyStatsPrefixSum(reports: seq<DailyReport>, year: int, k: nat, measure: Measure)
    requires k <= 12
    ensures var stats := YearlyReportOf(reports, year).monthlyStats;
      SumOf(stats[..k], MonthlyField(measure)) == MonthSums(reports, year, k, Weight(measure))
  {
    var stats := YearlyReportOf(reports, year).monthlyStats;
    if k > 0 {
      MonthlyStatsPrefixSum(reports, year, k - 1, measure);
      PrefixSumStep(stats, k, MonthlyField(measure));
      MonthlyFieldIsWeight(reports, k - 1, year, measure);
    }
  }

  lemma PrefixSumStep<T>(s: seq<T>, k: nat, f: T -> nat)
    requires 0 < k <= |s|
    ensures SumOf(s[..k], f) == SumOf(s[..k - 1], f) + f(s[k - 1])
  {
    assert s[..k] == s[..k - 1] + [s[k - 1]];
    SumOfConcat(s[..k - 1], [s[k - 1]], f);
    SumOfSingleton(s[k - 1], f);
  }

  /** Each total of a yearly report is the weight of the year's reports. */
  lemma YearlyFieldIsWeight(reports: seq<DailyReport>, year: int, measure: Measure)
    ensures YearlyField(YearlyReportOf(reports, year), measure)
         == SumOf(Filter(reports, InCalendarYear(year)), Weight(measure))
  {
    SumOfOneIsLength(Filter(reports, InCalendarYear(year)));
  }

  /** `generateYearlyReport(year)` has twelve monthly entries, entry m being
      `generateMonthlyReport(m, year)`, and each of its totals (reports,
      completed, pending and planned tasks) is the sum of that total over the
      twelve entries. */
  lemma YearlyTotalsAreMonthlySums(reports: seq<DailyReport>, year: int, measure: Measure)
    requires forall i :: 0 <= i < |reports| ==> 0 <= reports[i].date.month < 12
    ensures var y := YearlyReportOf(reports, year);
      && |y.monthlyStats| == 12
      && (forall m :: 0 <= m < 12 ==> y.monthlyStats[m] == MonthlyReportOf(reports, m, year))
      && YearlyField(y, measure) == SumOf(y.monthlyStats, MonthlyField(measure))
  {
    var y := YearlyReportOf(reports, year);
    var n: nat := |y.monthlyStats|;
    MonthlyStatsPrefixSum(reports, year, n, measure);
    assert y.monthlyStats[..n] == y.monthlyStats;
    YearIsSumOfMonths(reports, year, n, Weight(measure));
    YearlyFieldIsWeight(reports, year, measure);
  }

  /** The `map` of `updateReport`: every report whose id is `updated.id`
      becomes `updated` stamped with `now`; every other report stays. */
  function ReplaceById(reports: seq<DailyReport>, updated: DailyReport, now: int): (r: seq<DailyReport>)
    ensures |r| == |reports|
    ensures forall i :: 0 <= i < |r| ==>
      r[i] == if reports[i].id == updated.id then updated.(updatedAt := now) else reports[i]
  {
    if reports == [] then []
    else
      [if reports[0].id == updated.id then updated.(updatedAt := now) else reports[0]]
      + ReplaceById(reports[1..], updated, now)
  }

  /** An id that no stored report carries leaves the collection as it was. */
  lemma ReplaceAbsentIdIsNoop(reports: seq<DailyReport>, updated: DailyReport, now: int)
    requires forall i :: 0 <= i < |reports| ==> reports[i].id != updated.id
    ensures ReplaceById(reports, updated, now) == reports
  {
  }

  /** Replacing keeps every report's id at its position. */
  lemma ReplaceKeepsIds(reports: seq<DailyReport>, updated: DailyReport, now: int)
    ensures var r := ReplaceById(reports, updated, now);
      forall i :: 0 <= i < |r| ==> r[i].id == reports[i].id
  {
  }

  /** The zustand store: its `reports` state and the three operations. */
  class ReportStore {
    var reports: seq<DailyReport>

    /** The store as rehydrated from its persisted state. */
    constructor (persisted: seq<DailyReport>)
      ensures reports == persisted
    {
      reports := persisted;
    }

    /** `updateReport(updatedReport)`, with `now` the instant of the call. */
    method UpdateReport(updatedReport: DailyReport, now: int)
      modifies this
      ensures reports == ReplaceById(old(reports), updatedReport, now)
      ensures |reports| == |old(reports)|
      ensures forall i :: 0 <= i < |reports| && old(reports)[i].id != updatedReport.id ==>
        reports[i] == old(reports)[i]
      ensures forall i :: 0 <= i < |reports| && old(reports)[i].id == updatedReport.id ==>
        reports[i] == updatedReport.(updatedAt := now)
    {
      reports := ReplaceById(reports, updatedReport, now);
    }

    /** `generateMonthlyReport(month, year)`: reads the state and changes nothing. */
    method GenerateMonthlyReport(month: int, year: int) returns (r: MonthlyReport)
      ensures r == MonthlyReportOf(reports, month, year)
    {
      r := MonthlyReportOf(reports, month, year);
    }

    /** `generateYearlyReport(year)`: the year's totals and, as
        `Array.from({ length: 12 }, ...)` builds them, twelve calls of
        `generateMonthlyReport`. */
    method GenerateYearlyReport(year: int) returns (r: YearlyReport)
      ensures r == YearlyReportOf(reports, year)
    {
      var selected := Filter(reports, InCalendarYear(year));
      var monthlyStats: seq<MonthlyReport> := [];
      for month := 0 to 12
        invariant |monthlyStats| == month
        invariant forall m :: 0 <= m < month ==> monthlyStats[m] == MonthlyReportOf(reports, m, year)
      {
        var stats := GenerateMonthlyReport(month, year);
        monthlyStats := monthlyStats + [stats];
      }
      assert monthlyStats == YearlyReportOf(reports, year).monthlyStats;
      r := YearlyReport(year, monthlyStats, |selected|,
        TaskTotal(selected, CompletedList), TaskTotal(selected, PendingList),
        TaskTotal(selected, NextDayPlanList));
    }

    /** Two generations with no update in between return equal reports. */
    method GenerateMonthlyReportTwice(month: int, year: int) returns (first: MonthlyReport, second: MonthlyReport)
      ensures first == second
    {
      first := GenerateMonthlyReport(month, year);
      second := GenerateMonthlyReport(month, year);
    }
  }
}
