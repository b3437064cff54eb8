/** The activity feed of src/components/reports/ActivityLog.tsx: every report
    yields a 'created' entry, an 'updated' entry when it was edited and a
    'shared' entry when it is shared; the entries are listed newest first. */
module ActivityLog {
  import opened Seqs
  import opened Calendar
  import opened Types

  datatype ActivityKind = Created | Updated | SharedActivity

  /** One entry; `date` is the timestamp it is sorted by. */
  datatype Activity = Activity(
    id: string,
    kind: ActivityKind,
    date: int,
    reportId: string,
    reportDate: CalendarDate)

  /** The suffix each kind appends to the report id. */
  function Suffix(kind: ActivityKind): string
  {
    match kind
    case Created => "-created"
    case Updated => "-updated"
    case SharedActivity => "-shared"
  }

  function EntryOf(r: DailyReport, kind: ActivityKind, date: int): Activity
  {
    Activity(r.id + Suffix(kind), kind, date, r.id, r.date)
  }

  predicate WasUpdated(r: DailyReport)
  {
    r.updatedAt != r.createdAt
  }

  predicate IsShared(r: DailyReport)
  {
    r.status == Shared
  }

  /** The entries one report contributes, in the order the array literal lists them. */
  function ActivitiesOf(r: DailyReport): seq<Activity>
  {
    [EntryOf(r, Created, r.createdAt)]
    + (if WasUpdated(r) then [EntryOf(r, Updated, r.updatedAt)] else [])
    + (if IsShared(r) then [EntryOf(r, SharedActivity, r.updatedAt)] else [])
  }

  /** Which entries a report yields, with which dates, and how many. */
  lemma ActivitiesOfReport(r: DailyReport)
    ensures var a := ActivitiesOf(r);
      && 1 <= |a| <= 3
      && |a| == 1 + (if WasUpdated(r) then 1 else 0) + (if IsShared(r) then 1 else 0)
      && (forall e :: e in a ==> e.reportId == r.id && e.reportDate == r.date && e.id == r.id + Suffix(e.kind))
      && (forall e :: e in a && e.kind == Created ==> e.date == r.createdAt)
      && (forall e :: e in a && e.kind != Created ==> e.date == r.updatedAt)
      && (exists e :: e in a && e.kind == Updated) == WasUpdated(r)
      && (exists e :: e in a && e.kind == SharedActivity) == IsShared(r)
  {
    var a := ActivitiesOf(r);
    assert a[0] == EntryOf(r, Created, r.createdAt);
    if WasUpdated(r) {
      assert a[1] == EntryOf(r, Updated, r.updatedAt);
    }
    if IsShared(r) {
      assert a[|a| - 1] == EntryOf(r, SharedActivity, r.updatedAt);
    }
  }

  /** Exactly one 'created' entry per report. */
  lemma OneCreatedEntry(r: DailyReport)
    ensures |Filter(ActivitiesOf(r), IsKind(Created))| == 1
  {
    var a := ActivitiesOf(r);
    var rest := (if WasUpdated(r) then [EntryOf(r, Updated, r.updatedAt)] else [])
      + (if IsShared(r) then [EntryOf(r, SharedActivity, r.updatedAt)] else []);
    assert a == [EntryOf(r, Created, r.createdAt)] + rest;
    FilterConcat([EntryOf(r, Created, r.createdAt)], rest, IsKind(Created));
    assert [EntryOf(r, Created, r.createdAt)][1..] == [];
    FilterNone(rest, IsKind(Created));
  }

  function IsKind(kind: ActivityKind): Activity -> bool
  {
    (e: Activity) => e.kind == kind
  }

  /** Two different suffixes make two different ids. */
  lemma SuffixesDiffer(id: string, k1: ActivityKind, k2: ActivityKind)
    requires k1 != k2
    ensures id + Suffix(k1) != id + Suffix(k2)
  {
    assert (id + Suffix(k1))[|id| + 1] == Suffix(k1)[1];
    assert (id + Suffix(k2))[|id| + 1] == Suffix(k2)[1];
  }

  function IdOfActivity(): Activity -> string
  {
    (e: Activity) => e.id
  }

  /** Within one report the entry ids are distinct. */
  lemma ActivityIdsDistinct(r: DailyReport)
    ensures NoDup(Map(ActivitiesOf(r), IdOfActivity()))
  {
    var a := ActivitiesOf(r);
    var ids := Map(a, IdOfActivity());
    forall i, j | 0 <= i < j < |ids| ensures ids[i] != ids[j] {
      assert i == 0 ==> a[i].kind == Created;
      assert a[i].kind != a[j].kind;
      assert a[i].id == r.id + Suffix(a[i].kind) && a[j].id == r.id + Suffix(a[j].kind);
      SuffixesDiffer(r.id, a[i].kind, a[j].kind);
    }
  }

  function ActivitiesOfFn(): DailyReport -> seq<Activity>
  {
    (r: DailyReport) => ActivitiesOf(r)
  }

  /** `(a, b) => date(b) - date(a)`: newest first. */
  function LatestFirst(): Activity -> int
  {
    (e: Activity) => -e.date
  }

  /** The `activities` list. */
  function Activities(reports: seq<DailyReport>): (r: seq<Activity>)
    ensures multiset(r) == multiset(FlatMap(reports, ActivitiesOfFn()))
    ensures forall i, j :: 0 <= i < j < |r| ==> r[i].date >= r[j].date
  {
    var r := SortBy(FlatMap(reports, ActivitiesOfFn()), LatestFirst());
    assert forall i, j :: 0 <= i < j < |r| ==> LatestFirst()(r[i]) <= LatestFirst()(r[j]);
    r
  }

  function AtInstant(date: int): Activity -> bool
  {
    (e: Activity) => e.date == date
  }

  /** The sort is stable: entries with the same timestamp keep the order in
      which the reports produced them. */
  lemma ActivitiesStable(reports: seq<DailyReport>, date: int)
    ensures Filter(Activities(reports), AtInstant(date))
         == Filter(FlatMap(reports, ActivitiesOfFn()), AtInstant(date))
  {
    SortByStableFor(FlatMap(reports, ActivitiesOfFn()), LatestFirst(), -date, AtInstant(date));
  }

  /** The feed has one entry per report, plus one per edited report, plus
      one per shared report. */
  lemma {:induction false} ActivityCount(reports: seq<DailyReport>)
    ensures |Activities(reports)| == |reports| + |Filter(reports, Edited())| + |Filter(reports, SharedReport())|
  {
    var r := Activities(reports);
    assert |r| == |multiset(r)|;
    FlatMapCount(reports);
  }

  function Edited(): DailyReport -> bool
  {
    (r: DailyReport) => WasUpdated(r)
  }

  function SharedReport(): DailyReport -> bool
  {
    (r: DailyReport) => IsShared(r)
  }

  lemma {:induction false} FlatMapCount(reports: seq<DailyReport>)
    ensures |FlatMap(reports, ActivitiesOfFn())|
         == |reports| + |Filter(reports, Edited())| + |Filter(reports, SharedReport())|
  {
    if reports != [] {
      FlatMapCount(reports[1..]);
      ActivitiesOfReport(reports[0]);
    }
  }

  /** Every entry of the feed comes from a report and names it. */
  lemma ActivitiesComeFromReports(reports: seq<DailyReport>, e: Activity)
    ensures e in Activities(reports) <==> exists r :: r in reports && e in ActivitiesOf(r)
  {
    var flat := FlatMap(reports, ActivitiesOfFn());
    assert e in Activities(reports) <==> e in multiset(flat);
    FlatMapMembers(reports, ActivitiesOfFn(), e);
  }
}
