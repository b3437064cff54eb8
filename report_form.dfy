/** The task-list editing of src/components/reports/ReportForm.tsx: three
    lists of tasks that the handlers replace, and the submit handler that
    hands them to `addReport` and clears them. */
module ReportForm {
  import opened Wrappers
  import opened Seqs
  import opened Calendar
  import opened Types
  import opened AuthStore

  /** The task `addTask` creates: `id` is the fresh uuid, `today` the
      formatted current date. */
  function NewTask(kind: ListKind, id: string, today: CalendarDate): (t: Task)
    ensures t.id == id && t.description == "" && t.date == today
    ensures t.status == Completed <==> kind == CompletedList
  {
    Task(id, "", if kind == CompletedList then Completed else Pending, today)
  }

  function HasOtherId(id: string): Task -> bool
  {
    (t: Task) => t.id != id
  }

  /** `tasks.filter(task => task.id !== id)`. */
  function WithoutId(tasks: seq<Task>, id: string): (r: seq<Task>)
    ensures forall t :: t in r <==> t in tasks && t.id != id
  {
    Filter(tasks, HasOtherId(id))
  }

  /** Removing keeps the order of what is left and every copy of it. */
  lemma WithoutIdKeepsRest(tasks: seq<Task>, id: string, t: Task)
    ensures IsSubsequence(WithoutId(tasks, id), tasks)
    ensures multiset(WithoutId(tasks, id))[t] == if t.id == id then 0 else multiset(tasks)[t]
  {
    FilterIsSubsequence(tasks, HasOtherId(id));
    FilterMultiset(tasks, HasOtherId(id), t);
  }

  /** `tasks.map(task => task.id === id ? { ...task, description } : task)`. */
  function WithDescription(tasks: seq<Task>, id: string, description: string): (r: seq<Task>)
    ensures |r| == |tasks|
    ensures forall i :: 0 <= i < |r| ==>
      && r[i].id == tasks[i].id && r[i].status == tasks[i].status && r[i].date == tasks[i].date
      && r[i].description == if tasks[i].id == id then description else tasks[i].description
  {
    if tasks == [] then []
    else
      [if tasks[0].id == id then tasks[0].(description := description) else tasks[0]]
      + WithDescription(tasks[1..], id, description)
  }

  /** Editing the same task twice keeps only the second text. */
  lemma WithDescriptionLastWins(tasks: seq<Task>, id: string, first: string, second: string)
    ensures WithDescription(WithDescription(tasks, id, first), id, second)
         == WithDescription(tasks, id, second)
  {
  }

  /** An edit followed by a removal of the same id is the removal alone. */
  lemma {:induction false} RemoveAfterEdit(tasks: seq<Task>, id: string, description: string)
    ensures WithoutId(WithDescription(tasks, id, description), id) == WithoutId(tasks, id)
  {
    if tasks != [] {
      RemoveAfterEdit(tasks[1..], id, description);
      var edited := WithDescription(tasks, id, description);
      assert edited == [edited[0]] + WithDescription(tasks[1..], id, description);
      assert edited[1..] == WithDescription(tasks[1..], id, description);
    }
  }

  /** Removing a task just added under a fresh id restores the list. */
  lemma RemoveAfterAdd(tasks: seq<Task>, kind: ListKind, id: string, today: CalendarDate)
    requires forall i :: 0 <= i < |tasks| ==> tasks[i].id != id
    ensures WithoutId(tasks + [NewTask(kind, id, today)], id) == tasks
  {
    FilterSnoc(tasks, NewTask(kind, id, today), HasOtherId(id));
    FilterAll(tasks, HasOtherId(id));
  }

  /** The object `handleSubmit` passes to `addReport`. */
  datatype Submission = Submission(
    userId: string,
    date: CalendarDate,
    completed: seq<Task>,
    pending: seq<Task>,
    nextDayPlan: seq<Task>)

  /** The form's state: the three task lists and the saving flag. */
  class Form {
    var completed: seq<Task>
    var pending: seq<Task>
    var nextDayPlan: seq<Task>
    var isSaving: bool

    constructor ()
      ensures completed == [] && pending == [] && nextDayPlan == [] && !isSaving
    {
      completed := [];
      pending := [];
      nextDayPlan := [];
      isSaving := false;
    }

    function List(kind: ListKind): seq<Task>
      reads this
    {
      match kind
      case CompletedList => completed
      case PendingList => pending
      case NextDayPlanList => nextDayPlan
    }

    /** Replaces the list of `kind`, as the matching `set...` call does. */
    method SetList(kind: ListKind, tasks: seq<Task>)
      modifies this
      ensures List(kind) == tasks
      ensures forall k :: k != kind ==> List(k) == old(List(k))
      ensures isSaving == old(isSaving)
    {
      match kind
      case CompletedList => completed := tasks;
      case PendingList => pending := tasks;
      case NextDayPlanList => nextDayPlan := tasks;
    }

    /** `addTask(type)`; `freshId` and `today` stand for `crypto.randomUUID()`
        and the formatted current date. */
    method AddTask(kind: ListKind, freshId: string, today: CalendarDate)
      modifies this
      ensures List(kind) == old(List(kind)) + [NewTask(kind, freshId, today)]
      ensures forall k :: k != kind ==> List(k) == old(List(k))
      ensures isSaving == old(isSaving)
    {
      SetList(kind, List(kind) + [NewTask(kind, freshId, today)]);
    }

    /** `removeTask(id, type)`. */
    method RemoveTask(id: string, kind: ListKind)
      modifies this
      ensures List(kind) == WithoutId(old(List(kind)), id)
      ensures forall k :: k != kind ==> List(k) == old(List(k))
      ensures isSaving == old(isSaving)
    {
      SetList(kind, WithoutId(List(kind), id));
    }

    /** `updateTask(id, description, type)`. */
    method UpdateTask(id: string, description: string, kind: ListKind)
      modifies this
      ensures List(kind) == WithDescription(old(List(kind)), id, description)
      ensures forall k :: k != kind ==> List(k) == old(List(k))
      ensures isSaving == old(isSaving)
    {
      SetList(kind, WithDescription(List(kind), id, description));
    }

    /** `handleSubmit`: `call` is the argument passed to `addReport`, if it
        is called; `addReportThrows` says whether that call raised, in which
        case the lists are kept. `today` is the formatted current date. */
    method HandleSubmit(user: Option<User>, today: CalendarDate, addReportThrows: bool)
      returns (call: Option<Submission>)
      modifies this
      ensures user.None? || (old(completed) == [] && old(pending) == [] && old(nextDayPlan) == []) ==>
        call == None && completed == old(completed) && pending == old(pending)
        && nextDayPlan == old(nextDayPlan) && isSaving == old(isSaving)
      ensures user.Some? && !(old(completed) == [] && old(pending) == [] && old(nextDayPlan) == []) ==>
        && call == Some(Submission(user.value.id, today, old(completed), old(pending), old(nextDayPlan)))
        && !isSaving
        && (if addReportThrows then completed == old(completed) && pending == old(pending)
              && nextDayPlan == old(nextDayPlan)
            else completed == [] && pending == [] && nextDayPlan == [])
    {
      if user.None? {
        return None;
      }
      if |completed| == 0 && |pending| == 0 && |nextDayPlan| == 0 {
        return None;
      }
      isSaving := true;
      call := Some(Submission(user.value.id, today, completed, pending, nextDayPlan));
      if !addReportThrows {
        completed := [];
        pending := [];
        nextDayPlan := [];
      }
      isSaving := false;
    }
  }
}
