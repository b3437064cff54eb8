/** The derived views of src/components/reports/ReportList.tsx: the visible
    reports (merge, de-duplication by id through a `Map`, newest-first sort),
    their grouping by day, month or year, the order `Object.entries` shows
    the groups in, and the expand/collapse toggle. */
module ReportList {
  import opened Wrappers
  import opened Seqs
  import opened Calendar
  import opened Types
  import opened AuthStore

  /** The merged list before de-duplication. `all`, `own` and `shared` are
      what `getAllReports()`, `getReportsByUserId(user.id)` and
      `getSharedReports(user.id)` return; their bodies are not in the store. */
  function Merged(user: Option<User>, all: seq<DailyReport>, own: seq<DailyReport>,
                  shared: seq<DailyReport>): (r: seq<DailyReport>)
    ensures user.None? ==> r == []
    ensures user.Some? ==> |r| == (if user.value.role == Manager then |all| else |own|) + |shared|
    ensures user.Some? && user.value.role == Manager ==> r[..|all|] == all && r[|all|..] == shared
    ensures user.Some? && user.value.role == Member ==> r[..|own|] == own && r[|own|..] == shared
  {
    match user
    case None => []
    case Some(u) => if u.role == Manager then all + shared else own + shared
  }

  function IdOf(): DailyReport -> string
  {
    (r: DailyReport) => r.id
  }

  function Ids(s: seq<DailyReport>): seq<string>
  {
    Map(s, IdOf())
  }

  /** `map.set(r.id, r)` on a map whose values are listed in insertion order:
      an existing key keeps its place and takes the new value, a new key goes last. */
  function MapSet(m: seq<DailyReport>, r: DailyReport): (m': seq<DailyReport>)
    ensures r in m' && |m'| <= |m| + 1
    ensures forall x :: x in m' ==> x in m || x == r
  {
    if m == [] then [r]
    else if m[0].id == r.id then [r] + m[1..]
    else [m[0]] + MapSet(m[1..], r)
  }

  lemma {:induction false} MapSetIds(m: seq<DailyReport>, r: DailyReport)
    ensures Ids(MapSet(m, r)) == if r.id in Ids(m) then Ids(m) else Ids(m) + [r.id]
  {
    if m != [] {
      MapSetIds(m[1..], r);
      assert Ids(m) == [m[0].id] + Ids(m[1..]);
      assert Ids([m[0]] + MapSet(m[1..], r)) == [m[0].id] + Ids(MapSet(m[1..], r));
      assert Ids([r] + m[1..]) == [r.id] + Ids(m[1..]);
    }
  }

  /** In a map with distinct keys, `set` changes the value of its own key only. */
  lemma {:induction false} MapSetValues(m: seq<DailyReport>, r: DailyReport)
    requires NoDup(Ids(m))
    ensures |MapSet(m, r)| >= |m|
    ensures forall k :: 0 <= k < |MapSet(m, r)| ==>
      if MapSet(m, r)[k].id == r.id then MapSet(m, r)[k] == r else k < |m| && MapSet(m, r)[k] == m[k]
  {
    if m != [] {
      assert Ids(m) == [m[0].id] + Ids(m[1..]);
      assert NoDup(Ids(m[1..])) by {
        forall i, j | 0 <= i < j < |Ids(m[1..])| ensures Ids(m[1..])[i] != Ids(m[1..])[j] {
          assert Ids(m[1..])[i] == Ids(m)[i + 1] && Ids(m[1..])[j] == Ids(m)[j + 1];
        }
      }
      MapSetValues(m[1..], r);
      if m[0].id == r.id {
        forall k | 1 <= k < |m| ensures m[k].id != r.id {
          assert Ids(m)[k] == m[k].id && Ids(m)[0] == m[0].id;
        }
      }
    }
  }

  /** `new Map(s.map(r => [r.id, r])).values()`. */
  function Dedup(s: seq<DailyReport>): (d: seq<DailyReport>)
    ensures |d| <= |s|
    ensures forall x :: x in d ==> x in s
    decreases |s|
  {
    if s == [] then [] else MapSet(Dedup(s[..|s| - 1]), s[|s| - 1])
  }

  /** The de-duplicated ids are the distinct ids of the input, in order of
      first occurrence, so no id repeats and no id is lost. */
  lemma {:induction false} DedupIds(s: seq<DailyReport>)
    ensures Ids(Dedup(s)) == Distinct(Ids(s))
    decreases |s|
  {
    if s != [] {
      var s', x := s[..|s| - 1], s[|s| - 1];
      DedupIds(s');
      MapSetIds(Dedup(s'), x);
      MapLast(s, IdOf());
      DistinctSnoc(Ids(s'), x.id);
    }
  }

  /** The last report in `s` with id `id`. */
  function LastWithId(s: seq<DailyReport>, id: string): (r: DailyReport)
    requires id in Ids(s)
    ensures r in s && r.id == id
    ensures exists k :: LastAt(s, id, k) && s[k] == r
    decreases |s|
  {
    if s[|s| - 1].id == id then
      assert LastAt(s, id, |s| - 1);
      s[|s| - 1]
    else
      MapLast(s, IdOf());
      var r := LastWithId(s[..|s| - 1], id);
      var k :| LastAt(s[..|s| - 1], id, k) && s[..|s| - 1][k] == r;
      assert LastAt(s, id, k);
      r
  }

  /** Position `k` holds the last report with the id. */
  predicate LastAt(s: seq<DailyReport>, id: string, k: int)
  {
    0 <= k < |s| && s[k].id == id && forall j :: k < j < |s| ==> s[j].id != id
  }

  /** Each kept entry holds the value of the last report with its id. */
  lemma {:induction false} DedupKeepsLastValue(s: seq<DailyReport>)
    ensures forall k :: 0 <= k < |Dedup(s)| ==>
      Dedup(s)[k].id in Ids(s) && Dedup(s)[k] == LastWithId(s, Dedup(s)[k].id)
    decreases |s|
  {
    if s != [] {
      var s', x := s[..|s| - 1], s[|s| - 1];
      var d' := Dedup(s');
      DedupKeepsLastValue(s');
      DedupIds(s');
      MapSetValues(d', x);
      MapSetIds(d', x);
      MapLast(s, IdOf());
      forall k | 0 <= k < |Dedup(s)|
        ensures Dedup(s)[k].id in Ids(s) && Dedup(s)[k] == LastWithId(s, Dedup(s)[k].id)
      {
        var e := Dedup(s)[k];
        assert Ids(Dedup(s))[k] == e.id;
        if e.id != x.id {
          assert e == d'[k];
          assert Ids(d')[k] == e.id;
          assert e.id in Ids(s');
        }
      }
    }
  }

  /** De-duplication keeps one entry per distinct id, ids pairwise distinct,
      and the ids present are exactly the ids of the input. */
  lemma DedupUniqueIds(s: seq<DailyReport>)
    ensures NoDup(Ids(Dedup(s)))
    ensures forall id :: id in Ids(Dedup(s)) <==> id in Ids(s)
    ensures forall k :: 0 <= k < |Dedup(s)| ==> Dedup(s)[k] in s
  {
    DedupIds(s);
    DedupKeepsLastValue(s);
    var d := Distinct(Ids(s));
    forall id | id in Ids(s) ensures id in d {
      var i :| 0 <= i < |Ids(s)| && Ids(s)[i] == id;
    }
    forall id | id in d ensures id in Ids(s) {
      var i :| 0 <= i < |d| && d[i] == id;
    }
  }

  /** The sort key of `(a, b) => date(b) - date(a)`: newest first. */
  function NewestFirst(): DailyReport -> int
  {
    (r: DailyReport) => -DayOrdinal(r.date)
  }

  /** The `reports` memo: merge, de-duplicate by id, sort by date, newest first. */
  function VisibleReports(user: Option<User>, all: seq<DailyReport>, own: seq<DailyReport>,
                          shared: seq<DailyReport>): (r: seq<DailyReport>)
    ensures user.None? ==> r == []
    ensures multiset(r) == multiset(Dedup(Merged(user, all, own, shared)))
    ensures forall i, j :: 0 <= i < j < |r| ==> DayOrdinal(r[i].date) >= DayOrdinal(r[j].date)
  {
    var r := SortBy(Dedup(Merged(user, all, own, shared)), NewestFirst());
    assert forall i, j :: 0 <= i < j < |r| ==> NewestFirst()(r[i]) <= NewestFirst()(r[j]);
    r
  }

  /** The visible list shows each id of the merged list exactly once. */
  lemma VisibleReportsIds(user: Option<User>, all: seq<DailyReport>, own: seq<DailyReport>,
                          shared: seq<DailyReport>)
    ensures NoDup(Ids(VisibleReports(user, all, own, shared)))
    ensures forall id :: id in Ids(VisibleReports(user, all, own, shared))
                     <==> id in Ids(Merged(user, all, own, shared))
  {
    var m := Merged(user, all, own, shared);
    var r := VisibleReports(user, all, own, shared);
    DedupUniqueIds(m);
    PermutationKeepsKeysDistinct(Dedup(m), r, IdOf());
    forall id ensures id in Ids(r) <==> id in Ids(Dedup(m)) {
      PermutationKeepsImages(Dedup(m), r, IdOf(), id);
    }
  }

  /** On valid dates, no visible report comes before an older one. */
  lemma VisibleReportsNewestFirst(user: Option<User>, all: seq<DailyReport>, own: seq<DailyReport>,
                                  shared: seq<DailyReport>)
    requires AllDatesValid(VisibleReports(user, all, own, shared))
    ensures var r := VisibleReports(user, all, own, shared);
      forall i, j :: 0 <= i < j < |r| ==> !Before(r[i].date, r[j].date)
  {
    var r := VisibleReports(user, all, own, shared);
    forall i, j | 0 <= i < j < |r| ensures !Before(r[i].date, r[j].date) {
      OrdinalOrdersDays(r[i].date, r[j].date);
    }
  }

  function OnSameDayAs(day: CalendarDate): DailyReport -> bool
  {
    (r: DailyReport) => DayOrdinal(r.date) == DayOrdinal(day)
  }

  /** The sort is stable: reports of one day keep the order they have after
      de-duplication. */
  lemma VisibleReportsStable(user: Option<User>, all: seq<DailyReport>, own: seq<DailyReport>,
                             shared: seq<DailyReport>, day: CalendarDate)
    ensures Filter(VisibleReports(user, all, own, shared), OnSameDayAs(day))
         == Filter(Dedup(Merged(user, all, own, shared)), OnSameDayAs(day))
  {
    SortByStableFor(Dedup(Merged(user, all, own, shared)), NewestFirst(), -DayOrdinal(day), OnSameDayAs(day));
  }

  /** The `view` prop. */
  datatype View = Daily | Monthly | Yearly

  /** The group headings 'MMMM d, yyyy', 'MMMM yyyy' and 'yyyy'; distinct
      headings are distinct values here. */
  datatype GroupKey =
    | DayKey(date: CalendarDate)
    | MonthKey(year: int, month: int)
    | YearKey(year: int)

  /** The heading a report is grouped under in `view`. */
  function HeadingOf(view: View, r: DailyReport): GroupKey
  {
    match view
    case Daily => DayKey(r.date)
    case Monthly => MonthKey(r.date.year, r.date.month)
    case Yearly => YearKey(r.date.year)
  }

  /** Two reports share a heading exactly when they fall on the same day,
      in the same month or in the same year, as the view asks. */
  lemma SameHeading(view: View, a: DailyReport, b: DailyReport)
    ensures HeadingOf(view, a) == HeadingOf(view, b) <==> match view
      case Daily => a.date == b.date
      case Monthly => a.date.year == b.date.year && a.date.month == b.date.month
      case Yearly => a.date.year == b.date.year
  {
  }

  function GroupKeyOf(view: View): DailyReport -> GroupKey
  {
    (r: DailyReport) => HeadingOf(view, r)
  }

  /** The group keys of the reports, in list order. */
  function KeysOf(reports: seq<DailyReport>, view: View): seq<GroupKey>
  {
    Map(reports, GroupKeyOf(view))
  }

  /** The `groupedReports` reduce: each report is pushed onto the bucket of
      its key, a bucket being created on first use; `order` records the keys
      in the order they were created. */
  method GroupReports(reports: seq<DailyReport>, view: View)
    returns (groups: map<GroupKey, seq<DailyReport>>, order: seq<GroupKey>)
    ensures order == Distinct(KeysOf(reports, view))
    ensures forall k :: k in groups <==> k in order
    ensures forall k :: k in groups ==> groups[k] == Filter(reports, KeyIs(GroupKeyOf(view), k))
  {
    groups := map[];
    order := [];
    var keyOf := GroupKeyOf(view);
    GroupedByStart(reports, keyOf);
    var i := 0;
    while i < |reports|
      invariant 0 <= i <= |reports|
      invariant GroupedBy(reports[..i], keyOf, groups, order)
    {
      var report := reports[i];
      var key := keyOf(report);
      if key in groups {
        GroupedByPush(reports, i, keyOf, groups, order);
        groups := groups[key := groups[key] + [report]];
      } else {
        GroupedByNew(reports, i, keyOf, groups, order);
        groups := groups[key := [report]];
        order := order + [key];
      }
      i := i + 1;
    }
    assert reports[..i] == reports;
    assert GroupedBy(reports, keyOf, groups, order);
  }

  /** The buckets partition the list: each report is in the bucket of its
      own key and in no other, each bucket keeps list order, and the bucket
      sizes add up to the number of reports. */
  lemma GroupsPartitionReports(reports: seq<DailyReport>, view: View)
    ensures forall i, k :: 0 <= i < |reports| ==>
      (reports[i] in Filter(reports, KeyIs(GroupKeyOf(view), k)) <==> k == GroupKeyOf(view)(reports[i]))
    ensures forall k :: IsSubsequence(Filter(reports, KeyIs(GroupKeyOf(view), k)), reports)
    ensures SumOf(Distinct(KeysOf(reports, view)), BucketSize(reports, GroupKeyOf(view))) == |reports|
  {
    forall k ensures IsSubsequence(Filter(reports, KeyIs(GroupKeyOf(view), k)), reports) {
      FilterIsSubsequence(reports, KeyIs(GroupKeyOf(view), k));
    }
    BucketSizesSum(reports, GroupKeyOf(view));
  }

  /** A key `Object.entries` lists first: a canonical array index. Only the
      'yyyy' heading of a year from 1000 on can be one; day and month
      headings start with a month name. */
  predicate IsIndexLike(k: GroupKey)
  {
    k.YearKey? && 1000 <= k.year < 0xFFFF_FFFF
  }

  function NotIndexLike(): GroupKey -> bool
  {
    k => !IsIndexLike(k)
  }

  function IndexLike(): GroupKey -> bool
  {
    k => IsIndexLike(k)
  }

  function YearNumber(): GroupKey -> int
  {
    (k: GroupKey) => if k.YearKey? then k.year else 0
  }

  /** `Object.entries(groupedReports)` order: index-like keys in ascending
      numeric order, then the other keys in insertion order. */
  function DisplayOrder(order: seq<GroupKey>): (r: seq<GroupKey>)
    ensures multiset(r) == multiset(order)
  {
    var r := SortBy(Filter(order, IndexLike()), YearNumber()) + Filter(order, NotIndexLike());
    assert multiset(r) == multiset(order) by {
      forall k ensures multiset(r)[k] == multiset(order)[k] {
        FilterMultiset(order, IndexLike(), k);
        FilterMultiset(order, NotIndexLike(), k);
      }
    }
    r
  }

  /** The full shape of the display order: first the index-like keys, as
      years in ascending order, then every other key in insertion order. */
  lemma DisplayOrderShape(order: seq<GroupKey>)
    ensures var r := DisplayOrder(order); var n := |Filter(order, IndexLike())|;
      && n <= |r|
      && (forall i :: 0 <= i < n ==> IsIndexLike(r[i]))
      && YearsAscending(r[..n])
      && r[n..] == Filter(order, NotIndexLike())
  {
    var idx := Filter(order, IndexLike());
    var sorted := SortBy(idx, YearNumber());
    assert |sorted| == |idx| by {
      assert |multiset(sorted)| == |multiset(idx)|;
    }
    var r := DisplayOrder(order);
    assert r[..|idx|] == sorted && r[|idx|..] == Filter(order, NotIndexLike());
    forall i | 0 <= i < |idx| ensures IsIndexLike(idx[i]) {
      assert idx[i] in idx;
    }
    forall i | 0 <= i < |idx| ensures IsIndexLike(r[i]) {
      assert sorted[i] in multiset(idx);
    }
    DisplayOrderOfYears(idx);
    SortedYears(idx);
  }

  /** Keys that are not array indices keep their insertion order. */
  lemma NoIndexKeepsOrder(order: seq<GroupKey>)
    requires forall i :: 0 <= i < |order| ==> !IsIndexLike(order[i])
    ensures DisplayOrder(order) == order
  {
    FilterNone(order, IndexLike());
    FilterAll(order, NotIndexLike());
  }

  /** In the daily and monthly views the headings are never array indices,
      so the groups are shown in the order they were created: the order in
      which their keys first occur in the (newest first) report list. */
  lemma DayAndMonthGroupsInInsertionOrder(reports: seq<DailyReport>, view: View)
    requires view != Yearly
    ensures DisplayOrder(Distinct(KeysOf(reports, view))) == Distinct(KeysOf(reports, view))
  {
    var keys := KeysOf(reports, view);
    var order := Distinct(keys);
    forall i | 0 <= i < |order| ensures !IsIndexLike(order[i]) {
      assert order[i] in keys;
      var j :| 0 <= j < |keys| && keys[j] == order[i];
    }
    NoIndexKeepsOrder(order);
  }

  /** In the yearly view every heading of a year from 1000 on is index-like. */
  lemma YearHeadingsIndexLike(reports: seq<DailyReport>)
    requires forall i :: 0 <= i < |reports| ==> 1000 <= reports[i].date.year < 0xFFFF_FFFF
    ensures forall k :: k in Distinct(KeysOf(reports, Yearly)) ==> IsIndexLike(k)
  {
    forall k | k in KeysOf(reports, Yearly) ensures IsIndexLike(k) {
      var j :| 0 <= j < |KeysOf(reports, Yearly)| && KeysOf(reports, Yearly)[j] == k;
    }
  }

  /** When every key is index-like, display order is ascending year order. */
  lemma DisplayOrderOfYears(order: seq<GroupKey>)
    requires forall i :: 0 <= i < |order| ==> IsIndexLike(order[i])
    ensures DisplayOrder(order) == SortBy(order, YearNumber())
  {
    FilterAll(order, IndexLike());
    FilterNone(order, NotIndexLike());
  }

  /** In the yearly view with years from 1000 on, groups come out oldest
      year first, although the reports inside them are newest first. */
  lemma YearlyGroupsAscend(reports: seq<DailyReport>)
    requires forall i :: 0 <= i < |reports| ==> 1000 <= reports[i].date.year < 0xFFFF_FFFF
    ensures YearsAscending(DisplayOrder(Distinct(KeysOf(reports, Yearly))))
  {
    var order := Distinct(KeysOf(reports, Yearly));
    assert forall i :: 0 <= i < |order| ==> IsIndexLike(order[i]) by {
      YearHeadingsIndexLike(reports);
      forall i | 0 <= i < |order| ensures IsIndexLike(order[i]) {
        assert order[i] in order;
      }
    }
    SortedYears(order);
  }

  /** Year headings only, each year no later than the next one's. */
  predicate YearsAscending(shown: seq<GroupKey>)
  {
    forall i, j :: 0 <= i < j < |shown| ==>
      shown[i].YearKey? && shown[j].YearKey? && shown[i].year <= shown[j].year
  }

  /** Index-like keys are displayed as year keys in ascending year order. */
  lemma SortedYears(order: seq<GroupKey>)
    requires forall i :: 0 <= i < |order| ==> IsIndexLike(order[i])
    ensures YearsAscending(DisplayOrder(order))
  {
    var shown := SortBy(order, YearNumber());
    assert DisplayOrder(order) == shown by {
      DisplayOrderOfYears(order);
    }
    assert forall i :: 0 <= i < |shown| ==> shown[i].YearKey? by {
      forall i | 0 <= i < |shown| ensures shown[i].YearKey? {
        assert shown[i] in multiset(order);
      }
    }
    YearsSortedByNumber(shown);
  }

  lemma YearsSortedByNumber(shown: seq<GroupKey>)
    requires forall i :: 0 <= i < |shown| ==> shown[i].YearKey?
    requires SortedBy(shown, YearNumber())
    ensures YearsAscending(shown)
  {
    forall i, j | 0 <= i < j < |shown| ensures shown[i].year <= shown[j].year {
      assert YearNumber()(shown[i]) <= YearNumber()(shown[j]);
    }
  }

  function Other(k: GroupKey): GroupKey -> bool
  {
    j => j != k
  }

  /** The `toggleGroup` update: remove the key when present, append it otherwise. */
  function Toggle(expanded: seq<GroupKey>, k: GroupKey): (r: seq<GroupKey>)
    ensures k in r <==> k !in expanded
    ensures forall j :: j != k ==> (j in r <==> j in expanded)
  {
    if k in expanded then Filter(expanded, Other(k)) else expanded + [k]
  }

  /** Toggling twice gives back the same set of expanded keys. */
  lemma ToggleTwice(expanded: seq<GroupKey>, k: GroupKey)
    ensures forall j :: j in Toggle(Toggle(expanded, k), k) <==> j in expanded
  {
  }

  /** Toggling never lists a key twice. */
  lemma ToggleKeepsNoDup(expanded: seq<GroupKey>, k: GroupKey)
    requires NoDup(expanded)
    ensures NoDup(Toggle(expanded, k))
  {
    if k in expanded {
      FilterNoDup(expanded, Other(k));
    }
  }

  /** The `expandedGroups` state of one list. */
  class GroupPanel {
    var expandedGroups: seq<GroupKey>

    constructor ()
      ensures expandedGroups == []
    {
      expandedGroups := [];
    }

    predicate IsExpanded(k: GroupKey)
      reads this
    {
      k in expandedGroups
    }

    method ToggleGroup(k: GroupKey)
      modifies this
      ensures expandedGroups == Toggle(old(expandedGroups), k)
      ensures IsExpanded(k) <==> !old(IsExpanded(k))
      ensures NoDup(old(expandedGroups)) ==> NoDup(expandedGroups)
    {
      if NoDup(expandedGroups) {
        ToggleKeepsNoDup(expandedGroups, k);
      }
      expandedGroups := Toggle(expandedGroups, k);
    }
  }
}
