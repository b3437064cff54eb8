/** The report viewer of src/components/reports/ReportViewer.tsx. Its
    `report` state is a JavaScript object whose three task lists are arrays
    held by reference: `{ ...report }` copies the references, not the arrays,
    so an edit through the copy is seen through every object that shares
    them. */
module ReportViewer {
  import opened Wrappers
  import opened Calendar
  import opened Types
  import opened ReportStore
  import ReportForm

  /** `findIndex(t => t.id === id)`: the first position holding the id, or -1. */
  function FindIndexOf(s: seq<Task>, id: string): (r: int)
    ensures -1 <= r < |s|
    ensures r == -1 <==> forall k :: 0 <= k < |s| ==> s[k].id != id
    ensures r >= 0 ==> s[r].id == id && forall k :: 0 <= k < r ==> s[k].id != id
  {
    if s == [] then -1
    else if s[0].id == id then 0
    else
      var j := FindIndexOf(s[1..], id);
      if j == -1 then -1 else j + 1
  }

  /** The list after the viewer's edit: only the first task with the id
      gets the new description. */
  function EditFirst(s: seq<Task>, id: string, description: string): (r: seq<Task>)
    ensures |r| == |s|
    ensures forall k :: 0 <= k < |r| ==>
      && r[k].id == s[k].id && r[k].status == s[k].status && r[k].date == s[k].date
      && r[k].description == if k == FindIndexOf(s, id) then description else s[k].description
  {
    var i := FindIndexOf(s, id);
    if i == -1 then s else s[i := s[i].(description := description)]
  }

  /** When ids are unique, editing the first match is editing every match,
      as the report form does. */
  lemma EditFirstIsFormEdit(s: seq<Task>, id: string, description: string)
    requires forall i, j :: 0 <= i < j < |s| ==> s[i].id != s[j].id
    ensures EditFirst(s, id, description) == ReportForm.WithDescription(s, id, description)
  {
    var r := EditFirst(s, id, description);
    var w := ReportForm.WithDescription(s, id, description);
    forall k | 0 <= k < |s| ensures r[k] == w[k] {
      var i := FindIndexOf(s, id);
      assert s[k].id == id ==> k == i;
    }
  }

  /** With a repeated id the two edits differ: the viewer changes only the
      first copy. */
  lemma EditFirstLeavesLaterCopies()
    ensures var t := Task("a", "old", Pending, CalendarDate(2024, 0, 1));
      EditFirst([t, t], "a", "new") != ReportForm.WithDescription([t, t], "a", "new")
  {
    var t := Task("a", "old", Pending, CalendarDate(2024, 0, 1));
    assert EditFirst([t, t], "a", "new")[1] == t;
    assert ReportForm.WithDescription([t, t], "a", "new")[1].description == "new";
  }

  /** A report object: the scalar fields and three task arrays. */
  class ReportObject {
    var id: string
    var userId: string
    var userName: Option<string>
    var date: CalendarDate
    var completed: array<Task>
    var pending: array<Task>
    var nextDayPlan: array<Task>
    var createdAt: int
    var updatedAt: int
    var sharedWith: seq<string>
    var status: ReportStatus

    /** The three lists are three different arrays. */
    predicate Separate()
      reads this
    {
      completed != pending && completed != nextDayPlan && pending != nextDayPlan
    }

    function ListArray(kind: ListKind): array<Task>
      reads this
    {
      match kind
      case CompletedList => completed
      case PendingList => pending
      case NextDayPlanList => nextDayPlan
    }

    /** The report value the object currently denotes. */
    function Value(): DailyReport
      reads this, completed, pending, nextDayPlan
    {
      DailyReport(id, userId, userName, date, completed[..], pending[..], nextDayPlan[..],
        createdAt, updatedAt, sharedWith, status)
    }

    /** An object built from a report value, with arrays of its own. */
    constructor FromValue(r: DailyReport)
      ensures Value() == r && Separate()
      ensures fresh(completed) && fresh(pending) && fresh(nextDayPlan)
    {
      id, userId, userName, date := r.id, r.userId, r.userName, r.date;
      createdAt, updatedAt, sharedWith, status := r.createdAt, r.updatedAt, r.sharedWith, r.status;
      completed := new Task[|r.completed|](i requires 0 <= i < |r.completed| => r.completed[i]);
      pending := new Task[|r.pending|](i requires 0 <= i < |r.pending| => r.pending[i]);
      nextDayPlan := new Task[|r.nextDayPlan|](i requires 0 <= i < |r.nextDayPlan| => r.nextDayPlan[i]);
    }

    /** `{ ...other }`: a new object holding the same three arrays. */
    constructor Spread(other: ReportObject)
      ensures id == other.id && userId == other.userId && userName == other.userName
      ensures date == other.date && createdAt == other.createdAt && updatedAt == other.updatedAt
      ensures sharedWith == other.sharedWith && status == other.status
      ensures completed == other.completed && pending == other.pending && nextDayPlan == other.nextDayPlan
    {
      id, userId, userName, date := other.id, other.userId, other.userName, other.date;
      createdAt, updatedAt, sharedWith, status := other.createdAt, other.updatedAt, other.sharedWith, other.status;
      completed, pending, nextDayPlan := other.completed, other.pending, other.nextDayPlan;
    }
  }

  /** `taskList.findIndex(t => t.id === taskId)` over the array. */
  method FindTaskIndex(taskList: array<Task>, taskId: string) returns (index: int)
    ensures index == FindIndexOf(taskList[..], taskId)
  {
    index := 0;
    while index < taskList.Length
      invariant 0 <= index <= taskList.Length
      invariant forall k :: 0 <= k < index ==> taskList[k].id != taskId
    {
      if taskList[index].id == taskId {
        return;
      }
      index := index + 1;
    }
    index := -1;
  }

  /** The viewer's state: the report shown and whether it is being edited. */
  class Viewer {
    var report: ReportObject
    var isEditing: bool

    constructor (initialReport: ReportObject)
      ensures report == initialReport && !isEditing
    {
      report := initialReport;
      isEditing := false;
    }

    /** The Edit button. */
    method StartEditing()
      modifies this`isEditing
      ensures isEditing
    {
      isEditing := true;
    }

    /** `handleTaskUpdate(taskId, description, type)`. Without a task of
        that id nothing changes and `setReport` is not called. Otherwise the
        first such task gets the new description, written into the array
        the old object shares with the new one, and the new object becomes
        the state; the other lists and fields are as before. */
    method HandleTaskUpdate(taskId: string, description: string, kind: ListKind)
      requires report.Separate()
      modifies this`report, report.completed, report.pending, report.nextDayPlan
      ensures FindIndexOf(TasksOf(old(report.Value()), kind), taskId) == -1 ==>
        report == old(report) && report.Value() == old(report.Value())
      ensures FindIndexOf(TasksOf(old(report.Value()), kind), taskId) != -1 ==>
        && fresh(report)
        && report.Separate()
        && report.Value() == WithTasks(old(report.Value()), kind,
             EditFirst(TasksOf(old(report.Value()), kind), taskId, description))
        && old(report).Value() == report.Value()
      ensures isEditing == old(isEditing)
    {
      var updatedReport := new ReportObject.Spread(report);
      var taskList := updatedReport.ListArray(kind);
      var taskIndex := FindTaskIndex(taskList, taskId);
      if taskIndex != -1 {
        taskList[taskIndex] := taskList[taskIndex].(description := description);
        report := updatedReport;
      }
    }

    /** `handleSaveChanges`: hands the shown report to `updateReport` with
        the current time `now`, and leaves editing mode. */
    method HandleSaveChanges(store: ReportStore, now: int)
      modifies store, this`isEditing
      ensures store.reports == ReplaceById(old(store.reports), report.Value(), now)
      ensures !isEditing
    {
      store.UpdateReport(report.Value(), now);
      isEditing := false;
    }
  }

  /** The edit reaches the object the viewer was opened with: after an edit
      of an existing task, the caller's own report shows the new text. */
  method EditReachesInitialReport(initialReport: ReportObject, taskId: string, description: string, kind: ListKind)
    requires initialReport.Separate()
    requires FindIndexOf(TasksOf(initialReport.Value(), kind), taskId) != -1
    modifies initialReport.completed, initialReport.pending, initialReport.nextDayPlan
    ensures initialReport.Value() == WithTasks(old(initialReport.Value()), kind,
      EditFirst(TasksOf(old(initialReport.Value()), kind), taskId, description))
  {
    var viewer := new Viewer(initialReport);
    viewer.HandleTaskUpdate(taskId, description, kind);
  }
}
