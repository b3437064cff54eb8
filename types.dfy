/** The records the report components and the report store share:
    `Task` and `DailyReport` of src/types/index.ts, and the selectors the
    components filter reports with. */
module Types {
  import opened Wrappers
  import opened Calendar

  datatype Role = Manager | Member

  datatype TaskStatus = Completed | Pending

  /** A task; `date` is its `yyyy-MM-dd` string, read as a calendar day. */
  datatype Task = Task(id: string, description: string, status: TaskStatus, date: CalendarDate)

  datatype ReportStatus = Draft | Submitted | Shared

  /** A daily report; `createdAt` and `updatedAt` are ISO timestamps, modelled
      as integers ordered like the instants they denote. */
  datatype DailyReport = DailyReport(
    id: string,
    userId: string,
    userName: Option<string>,
    date: CalendarDate,
    completed: seq<Task>,
    pending: seq<Task>,
    nextDayPlan: seq<Task>,
    createdAt: int,
    updatedAt: int,
    sharedWith: seq<string>,
    status: ReportStatus)

  /** The three task lists of a report, named as the components name them:
      'completed' | 'pending' | 'nextDayPlan'. */
  datatype ListKind = CompletedList | PendingList | NextDayPlanList

  function TasksOf(r: DailyReport, kind: ListKind): seq<Task>
  {
    match kind
    case CompletedList => r.completed
    case PendingList => r.pending
    case NextDayPlanList => r.nextDayPlan
  }

  /** `{ ...r, [kind]: tasks }`. */
  function WithTasks(r: DailyReport, kind: ListKind, tasks: seq<Task>): (r': DailyReport)
    ensures TasksOf(r', kind) == tasks
    ensures forall k :: k != kind ==> TasksOf(r', k) == TasksOf(r, k)
    ensures r'.id == r.id && r'.date == r.date && r'.createdAt == r.createdAt
    ensures r'.updatedAt == r.updatedAt && r'.status == r.status
  {
    match kind
    case CompletedList => r.(completed := tasks)
    case PendingList => r.(pending := tasks)
    case NextDayPlanList => r.(nextDayPlan := tasks)
  }

  /** `r => r[kind]`, for `flatMap` and the task-count sums. */
  function TaskListOf(kind: ListKind): DailyReport -> seq<Task>
  {
    r => TasksOf(r, kind)
  }

  /** `getMonth() === month && getFullYear() === year`. */
  function InCalendarMonth(month: int, year: int): DailyReport -> bool
  {
    (r: DailyReport) => r.date.month == month && r.date.year == year
  }

  /** `getFullYear() === year`. */
  function InCalendarYear(year: int): DailyReport -> bool
  {
    (r: DailyReport) => r.date.year == year
  }

  /** Between `startOfMonth` and `endOfMonth` of `ym`, inclusive. */
  function WithinMonth(ym: YearMonth): DailyReport -> bool
  {
    (r: DailyReport) => InMonthRange(r.date, ym)
  }

  /** Between `startOfYear` and `endOfYear` of `year`, inclusive. */
  function WithinYear(year: int): DailyReport -> bool
  {
    (r: DailyReport) => InYearRange(r.date, year)
  }

  /** `r.date === format(day, 'yyyy-MM-dd')`. */
  function OnDay(day: CalendarDate): DailyReport -> bool
  {
    (r: DailyReport) => r.date == day
  }

  /** Every report's date names an existing day. */
  ghost predicate AllDatesValid(reports: seq<DailyReport>)
  {
    forall i :: 0 <= i < |reports| ==> ValidDate(reports[i].date)
  }
}
