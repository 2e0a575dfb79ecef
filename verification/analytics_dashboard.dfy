/**
 The `analyticsData` derivation of `components/AnalyticsDashboard.tsx`: the
 total, the three per-status counts, and the two chart series (reports per
 category and per status) with empty slices dropped. A chart slice carries
 the enumeration member and its count; the source names the count field
 `count` in the category series and `value` in the status series.
 */
module AnalyticsDashboard {
  import opened Types
  import opened Sequences
  import AdminView

  datatype Slice<T> = Slice(name: T, count: nat)

  datatype AnalyticsData = AnalyticsData(
    totalReports: nat,
    resolvedReports: nat,
    inProgressReports: nat,
    submittedReports: nat,
    reportsByCategory: seq<Slice<ReportCategory>>,
    reportsByStatus: seq<Slice<ReportStatus>>
  )

  function StatusOf(r: Report): ReportStatus { r.status }
  function CategoryOf(r: Report): ReportCategory { r.category }

  /** How many reports have key `v`. */
  function Count<T(==)>(reports: seq<Report>, key: Report -> T, v: T): (n: nat)
    ensures n <= |reports|
  {
    if |reports| == 0 then 0
    else (if key(reports[0]) == v then 1 else 0) + Count(reports[1..], key, v)
  }

  /** The count is zero exactly when no report has the value, and the full
      length exactly when every report has it. */
  lemma {:induction false} CountExtremes<T>(reports: seq<Report>, key: Report -> T, v: T)
    ensures Count(reports, key, v) == 0 ==> forall r | r in reports :: key(r) != v
    ensures (forall r | r in reports :: key(r) != v) ==> Count(reports, key, v) == 0
    ensures Count(reports, key, v) == |reports| ==> forall r | r in reports :: key(r) == v
    ensures (forall r | r in reports :: key(r) == v) ==> Count(reports, key, v) == |reports|
  {
    if |reports| > 0 {
      CountExtremes(reports[1..], key, v);
      assert reports == [reports[0]] + reports[1..];
    }
  }

  /** Counting the reports of a status is filtering the admin list by that
      status's string value and taking the length. */
  lemma {:induction false} CountIsFilterLength(reports: seq<Report>, s: ReportStatus)
    ensures Count(reports, StatusOf, s) == |AdminView.FilteredReports(reports, AdminView.All, StatusName(s))|
  {
    if |reports| > 0 {
      NamesAreDistinct();
      CountIsFilterLength(reports[1..], s);
    }
  }

  function SumCounts<T>(slices: seq<Slice<T>>): nat {
    if |slices| == 0 then 0 else slices[0].count + SumCounts(slices[1..])
  }

  function Names<T>(slices: seq<Slice<T>>): (names: seq<T>)
    ensures |names| == |slices|
    ensures forall i :: 0 <= i < |slices| ==> names[i] == slices[i].name
  {
    if |slices| == 0 then [] else [slices[0].name] + Names(slices[1..])
  }

  /** One slice per value of `values`, in that order, with its count. */
  function AllSlices<T(==)>(reports: seq<Report>, key: Report -> T, values: seq<T>): (out: seq<Slice<T>>)
    ensures |out| == |values|
    ensures forall i :: 0 <= i < |values| ==> out[i] == Slice(values[i], Count(reports, key, values[i]))
  {
    if |values| == 0 then [] else [Slice(values[0], Count(reports, key, values[0]))] + AllSlices(reports, key, values[1..])
  }

  /** One more report adds to the slices' total once per occurrence of its
      key among the values. */
  lemma {:induction false} AllSlicesCons<T>(x: Report, reports: seq<Report>, key: Report -> T, values: seq<T>)
    ensures SumCounts(AllSlices([x] + reports, key, values))
         == SumCounts(AllSlices(reports, key, values)) + multiset(values)[key(x)]
  {
    assert ([x] + reports)[1..] == reports;
    if |values| > 0 {
      AllSlicesCons(x, reports, key, values[1..]);
      assert values == [values[0]] + values[1..];
    }
  }

  /** When every report's key occurs exactly once among the values, the
      slices' counts add up to the number of reports. */
  lemma {:induction false} AllSlicesTotal<T>(reports: seq<Report>, key: Report -> T, values: seq<T>)
    requires forall r | r in reports :: multiset(values)[key(r)] == 1
    ensures SumCounts(AllSlices(reports, key, values)) == |reports|
  {
    if |reports| == 0 {
      AllSlicesEmpty(key, values);
    } else {
      assert reports == [reports[0]] + reports[1..];
      assert forall r | r in reports[1..] :: r in reports;
      AllSlicesTotal(reports[1..], key, values);
      AllSlicesCons(reports[0], reports[1..], key, values);
    }
  }

  lemma {:induction false} AllSlicesEmpty<T>(key: Report -> T, values: seq<T>)
    ensures SumCounts(AllSlices([], key, values)) == 0
  {
    if |values| > 0 {
      AllSlicesEmpty(key, values[1..]);
    }
  }

  /** The slices with a positive count, in their order. */
  function DropEmpty<T>(slices: seq<Slice<T>>): (out: seq<Slice<T>>)
    ensures IsSubsequence(out, slices)
    ensures forall s | s in out :: s in slices && s.count > 0
    ensures forall s | s in slices && s.count > 0 :: s in out
    ensures SumCounts(out) == SumCounts(slices)
  {
    if |slices| == 0 then []
    else
      var rest := DropEmpty(slices[1..]);
      assert forall s | s in slices :: s == slices[0] || s in slices[1..];
      if slices[0].count > 0 then
        var out := [slices[0]] + rest;
        assert out[1..] == rest;
        out
      else
        SubsequenceOfTail(rest, slices);
        rest
  }

  /** Dropping slices keeps the names in their order. */
  lemma {:induction false} NamesOfSubsequence<T>(a: seq<Slice<T>>, b: seq<Slice<T>>)
    requires IsSubsequence(a, b)
    ensures IsSubsequence(Names(a), Names(b))
    decreases |b|
  {
    if |a| > 0 {
      if a[0] == b[0] && IsSubsequence(a[1..], b[1..]) {
        NamesOfSubsequence(a[1..], b[1..]);
        assert Names(a)[1..] == Names(a[1..]);
      } else {
        NamesOfSubsequence(a, b[1..]);
      }
      assert Names(b)[1..] == Names(b[1..]);
    }
  }

  /** The chart series over the members `values` of an enumeration listed
      once each: the non-empty slices, in the order of `values`, each with
      its report count, covering every value that occurs and adding up to
      the number of reports. */
  function Series<T(==)>(reports: seq<Report>, key: Report -> T, values: seq<T>): (out: seq<Slice<T>>)
    requires Distinct(values)
    requires forall r | r in reports :: key(r) in values
    ensures forall s | s in out :: s.count > 0 && s.count == Count(reports, key, s.name)
    ensures IsSubsequence(Names(out), values)
    ensures forall v | v in values :: Count(reports, key, v) > 0 <==> v in Names(out)
    ensures SumCounts(out) == |reports|
  {
    var all := AllSlices(reports, key, values);
    var out := DropEmpty(all);
    SeriesTotal(reports, key, values);
    NamesOfSubsequence(out, all);
    assert Names(all) == values;
    SeriesCoverage(reports, key, values);
    SeriesCounts(reports, key, values);
    out
  }

  /** Each kept slice is positive and carries its value's count. */
  lemma SeriesCounts<T>(reports: seq<Report>, key: Report -> T, values: seq<T>)
    ensures forall s | s in DropEmpty(AllSlices(reports, key, values)) ::
      s.count > 0 && s.count == Count(reports, key, s.name)
  {
    var all := AllSlices(reports, key, values);
    forall s | s in DropEmpty(all) ensures s.count > 0 && s.count == Count(reports, key, s.name) {
      var i :| 0 <= i < |all| && all[i] == s;
    }
  }

  lemma SeriesTotal<T>(reports: seq<Report>, key: Report -> T, values: seq<T>)
    requires Distinct(values)
    requires forall r | r in reports :: key(r) in values
    ensures SumCounts(AllSlices(reports, key, values)) == |reports|
  {
    forall r | r in reports ensures multiset(values)[key(r)] == 1 {
      OccursOnce(values, key(r));
    }
    AllSlicesTotal(reports, key, values);
  }

  lemma SeriesCoverage<T>(reports: seq<Report>, key: Report -> T, values: seq<T>)
    ensures
      var out := DropEmpty(AllSlices(reports, key, values));
      forall v | v in values :: Count(reports, key, v) > 0 <==> v in Names(out)
  {
    forall v | v in values
      ensures Count(reports, key, v) > 0 <==> v in Names(DropEmpty(AllSlices(reports, key, values)))
    {
      if Count(reports, key, v) > 0 {
        OccurringValueKept(reports, key, values, v);
      }
      if v in Names(DropEmpty(AllSlices(reports, key, values))) {
        KeptValueOccurs(reports, key, values, v);
      }
    }
  }

  lemma OccurringValueKept<T>(reports: seq<Report>, key: Report -> T, values: seq<T>, v: T)
    requires v in values && Count(reports, key, v) > 0
    ensures v in Names(DropEmpty(AllSlices(reports, key, values)))
  {
    var all := AllSlices(reports, key, values);
    var out := DropEmpty(all);
    var i :| 0 <= i < |values| && values[i] == v;
    assert all[i] in all;
    var j :| 0 <= j < |out| && out[j] == all[i];
    assert Names(out)[j] == v;
  }

  lemma KeptValueOccurs<T>(reports: seq<Report>, key: Report -> T, values: seq<T>, v: T)
    requires v in Names(DropEmpty(AllSlices(reports, key, values)))
    ensures v in values && Count(reports, key, v) > 0
  {
    var all := AllSlices(reports, key, values);
    var out := DropEmpty(all);
    var j :| 0 <= j < |out| && Names(out)[j] == v;
    assert out[j] in out;
    assert out[j] in all;
  }

  // ---------------------------------------------------------------------
  // The dashboard figures
  // ---------------------------------------------------------------------

  /** Every report has one of the three statuses, so the three status
      counts add up to the number of reports. */
  lemma StatusCountsSum(reports: seq<Report>)
    ensures Count(reports, StatusOf, Submitted) + Count(reports, StatusOf, InProgress)
          + Count(reports, StatusOf, Resolved) == |reports|
  {
    ValueListsEnumerate();
    forall r | r in reports ensures multiset(StatusValues)[StatusOf(r)] == 1 {
      OccursOnce(StatusValues, StatusOf(r));
    }
    AllSlicesTotal(reports, StatusOf, StatusValues);
    var all := AllSlices(reports, StatusOf, StatusValues);
    SumOfThree(all);
    assert all[0].count == Count(reports, StatusOf, StatusValues[0]);
    assert all[1].count == Count(reports, StatusOf, StatusValues[1]);
    assert all[2].count == Count(reports, StatusOf, StatusValues[2]);
    assert SumCounts(all) == |reports|;
    assert StatusValues[0] == Submitted && StatusValues[1] == InProgress && StatusValues[2] == Resolved;
  }

  /** The total of a three-slice series. */
  lemma SumOfThree<T>(slices: seq<Slice<T>>)
    requires |slices| == 3
    ensures SumCounts(slices) == slices[0].count + slices[1].count + slices[2].count
  {
    assert slices[1..][1..] == slices[2..] && slices[2..][1..] == [];
    assert SumCounts(slices[2..]) == slices[2].count;
    assert SumCounts(slices[1..]) == slices[1].count + SumCounts(slices[2..]);
  }

  /** `reportsByCategory`: one slice per category that occurs, in
      declaration order. */
  function ReportsByCategory(reports: seq<Report>): (out: seq<Slice<ReportCategory>>)
    ensures forall s | s in out :: s.count > 0 && s.count == Count(reports, CategoryOf, s.name)
    ensures IsSubsequence(Names(out), CategoryValues)
    ensures forall c: ReportCategory :: Count(reports, CategoryOf, c) > 0 <==> c in Names(out)
    ensures SumCounts(out) == |reports|
  {
    ValueListsEnumerate();
    Series(reports, CategoryOf, CategoryValues)
  }

  /** `reportsByStatus`: at most three slices, one per status that occurs,
      in the order Submitted, In Progress, Resolved. */
  function ReportsByStatus(reports: seq<Report>): (out: seq<Slice<ReportStatus>>)
    ensures |out| <= 3
    ensures forall s | s in out :: s.count > 0 && s.count == Count(reports, StatusOf, s.name)
    ensures IsSubsequence(Names(out), StatusValues)
    ensures forall s: ReportStatus :: Count(reports, StatusOf, s) > 0 <==> s in Names(out)
    ensures SumCounts(out) == |reports|
  {
    ValueListsEnumerate();
    var out := Series(reports, StatusOf, StatusValues);
    SubsequenceLength(Names(out), StatusValues);
    out
  }

  /** Counting the reports of a category is filtering the admin list by that
      category's string value and taking the length. */
  lemma {:induction false} CountIsCategoryFilterLength(reports: seq<Report>, c: ReportCategory)
    ensures Count(reports, CategoryOf, c) == |AdminView.FilteredReports(reports, CategoryName(c), AdminView.All)|
  {
    if |reports| > 0 {
      NamesAreDistinct();
      CountIsCategoryFilterLength(reports[1..], c);
    }
  }

  /** `analyticsData`: the figures the dashboard shows for a list of reports. */
  function Analytics(reports: seq<Report>): (d: AnalyticsData)
    ensures d.totalReports == |reports|
    ensures d.submittedReports + d.inProgressReports + d.resolvedReports == d.totalReports
    ensures SumCounts(d.reportsByCategory) == d.totalReports
    ensures SumCounts(d.reportsByStatus) == d.totalReports
    ensures d.resolvedReports == |AdminView.FilteredReports(reports, AdminView.All, StatusName(Resolved))|
    ensures d.inProgressReports == |AdminView.FilteredReports(reports, AdminView.All, StatusName(InProgress))|
    ensures d.submittedReports == |AdminView.FilteredReports(reports, AdminView.All, StatusName(Submitted))|
    ensures d.reportsByCategory == ReportsByCategory(reports) && d.reportsByStatus == ReportsByStatus(reports)
    ensures forall s | s in d.reportsByStatus ::
      s.count == match s.name
        case Submitted => d.submittedReports
        case InProgress => d.inProgressReports
        case Resolved => d.resolvedReports
  {
    var resolved := Count(reports, StatusOf, Resolved);
    var inProgress := Count(reports, StatusOf, InProgress);
    var submitted := Count(reports, StatusOf, Submitted);
    var byStatus := ReportsByStatus(reports);
    StatusCountsSum(reports);
    StatusSlicesCarryCounts(reports, byStatus, submitted, inProgress, resolved);
    CountIsFilterLength(reports, Resolved);
    CountIsFilterLength(reports, InProgress);
    CountIsFilterLength(reports, Submitted);
    AnalyticsData(|reports|, resolved, inProgress, submitted, ReportsByCategory(reports), byStatus)
  }

  /** Each slice of the status series carries the count of its status. */
  lemma StatusSlicesCarryCounts(reports: seq<Report>, byStatus: seq<Slice<ReportStatus>>,
                                submitted: nat, inProgress: nat, resolved: nat)
    requires byStatus == ReportsByStatus(reports)
    requires submitted == Count(reports, StatusOf, Submitted)
    requires inProgress == Count(reports, StatusOf, InProgress)
    requires resolved == Count(reports, StatusOf, Resolved)
    ensures forall s | s in byStatus ::
      s.count == match s.name
        case Submitted => submitted
        case InProgress => inProgress
        case Resolved => resolved
  {
    forall s | s in byStatus
      ensures s.count == match s.name
        case Submitted => submitted
        case InProgress => inProgress
        case Resolved => resolved
    {
      assert s.count == Count(reports, StatusOf, s.name);
    }
  }
}
