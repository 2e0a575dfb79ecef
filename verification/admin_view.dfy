/**
 The `filteredReports` derivation of `components/AdminView.tsx`: the admin
 list narrowed by a category filter and a status filter, each of which is
 either the wildcard "all" or the string value of an enumeration member.
 */
module AdminView {
  import opened Types
  import opened Sequences

  const All: string := "all"

  /** The per-report test of the filter: each filter is the wildcard or
      names the report's own category (status). A filter naming an
      enumeration member passes exactly the reports with that member. */
  function Matches(r: Report, filterCategory: string, filterStatus: string): (m: bool)
    ensures filterCategory == All && filterStatus == All ==> m
    ensures forall c: ReportCategory :: filterCategory == CategoryName(c) && m ==> r.category == c
    ensures forall s: ReportStatus :: filterStatus == StatusName(s) && m ==> r.status == s
    ensures ((filterCategory == All || filterCategory == CategoryName(r.category)) &&
             (filterStatus == All || filterStatus == StatusName(r.status))) ==> m
  {
    NamesAreDistinct();
    && (filterCategory == All || CategoryName(r.category) == filterCategory)
    && (filterStatus == All || StatusName(r.status) == filterStatus)
  }

  /** The reports passing the filter, in their original order,
      each as many times as it occurs in the input. */
  function FilteredReports(reports: seq<Report>, filterCategory: string, filterStatus: string): (out: seq<Report>)
    ensures IsSubsequence(out, reports)
    ensures forall r | r in out :: Matches(r, filterCategory, filterStatus)
    ensures forall r :: multiset(out)[r] == if Matches(r, filterCategory, filterStatus) then multiset(reports)[r] else 0
  {
    if |reports| == 0 then []
    else
      var rest := FilteredReports(reports[1..], filterCategory, filterStatus);
      assert reports == [reports[0]] + reports[1..];
      if Matches(reports[0], filterCategory, filterStatus) then
        assert ([reports[0]] + rest)[1..] == rest;
        [reports[0]] + rest
      else
        SubsequenceOfTail(rest, reports);
        rest
  }

  /** Every input report that passes both filters is in the result. */
  lemma Complete(reports: seq<Report>, filterCategory: string, filterStatus: string, r: Report)
    requires r in reports && Matches(r, filterCategory, filterStatus)
    ensures r in FilteredReports(reports, filterCategory, filterStatus)
  {
    var out := FilteredReports(reports, filterCategory, filterStatus);
    assert multiset(out)[r] == multiset(reports)[r] > 0;
  }

  /** With both filters on "all" the list passes through unchanged. */
  lemma {:induction false} AllPassesEverything(reports: seq<Report>)
    ensures FilteredReports(reports, All, All) == reports
  {
    if |reports| > 0 {
      AllPassesEverything(reports[1..]);
      assert reports == [reports[0]] + reports[1..];
    }
  }

  /** Filtering a filtered list again with the same settings changes nothing. */
  lemma {:induction false} FilterIdempotent(reports: seq<Report>, filterCategory: string, filterStatus: string)
    ensures
      var once := FilteredReports(reports, filterCategory, filterStatus);
      FilteredReports(once, filterCategory, filterStatus) == once
  {
    var once := FilteredReports(reports, filterCategory, filterStatus);
    AllMatchPasses(once, filterCategory, filterStatus);
  }

  /** A list whose every report matches passes the filter unchanged. */
  lemma {:induction false} AllMatchPasses(reports: seq<Report>, filterCategory: string, filterStatus: string)
    requires forall r | r in reports :: Matches(r, filterCategory, filterStatus)
    ensures FilteredReports(reports, filterCategory, filterStatus) == reports
  {
    if |reports| > 0 {
      assert forall r | r in reports[1..] :: r in reports;
      AllMatchPasses(reports[1..], filterCategory, filterStatus);
      assert Matches(reports[0], filterCategory, filterStatus);
      assert FilteredReports(reports, filterCategory, filterStatus)
          == [reports[0]] + FilteredReports(reports[1..], filterCategory, filterStatus);
      assert reports == [reports[0]] + reports[1..];
    }
  }

  /** Filtering by a category's string value keeps exactly the reports of
      that category that pass the status filter. */
  lemma CategoryFilterSelects(reports: seq<Report>, c: ReportCategory, filterStatus: string, r: Report)
    requires r in reports
    ensures r in FilteredReports(reports, CategoryName(c), filterStatus) <==>
      r.category == c && (filterStatus == All || StatusName(r.status) == filterStatus)
  {
    NamesAreDistinct();
    if r.category == c && (filterStatus == All || StatusName(r.status) == filterStatus) {
      Complete(reports, CategoryName(c), filterStatus, r);
    }
  }

  /** A category filter that is neither "all" nor a category's value
      matches nothing. */
  lemma UnknownCategoryMatchesNothing(reports: seq<Report>, filterCategory: string, filterStatus: string)
    requires filterCategory != All
    requires forall c: ReportCategory :: CategoryName(c) != filterCategory
    ensures FilteredReports(reports, filterCategory, filterStatus) == []
  {
    var out := FilteredReports(reports, filterCategory, filterStatus);
    if |out| > 0 {
      assert false;
    }
  }
}
