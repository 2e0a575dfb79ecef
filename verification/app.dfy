/**
 The report-state logic of `App.tsx`: the client keeps its own list of
 reports beside the store, fills it from a fetch, prepends what it creates
 and swaps in what it updates. The pair of store and client list is one
 immutable `AppState`; each handler is a pure transition on it. Rendering,
 routing and the loading flag are not modelled.
 */
module App {
  import opened Types
  import opened ReportService
  import opened Sequences

  datatype AppState = AppState(store: Store, reports: seq<Report>)

  /** `fetchReports`: the client list becomes the store's sorted snapshot. */
  function FetchReports(a: AppState): (a': AppState)
    ensures a'.store == a.store
    ensures NewestFirst(a'.reports) && multiset(a'.reports) == multiset(a.store.reports)
    ensures forall t :: SubmittedAt(a'.reports, t) == SubmittedAt(a.store.reports, t)
  {
    a.(reports := GetReports(a.store))
  }

  /** `addReport`: the store creates the report, and the client puts the
      returned report in front of its own list. */
  function AddReport(a: AppState, draft: Draft, now: Timestamp): (r: (AppState, Report))
    ensures r.0.store == CreateReport(a.store, draft, now).store
    ensures r.0.reports == [r.1] + a.reports
    ensures r.1 == r.0.store.reports[0] && DraftOf(r.1) == draft
  {
    var c := CreateReport(a.store, draft, now);
    (AppState(c.store, [c.report] + a.reports), c.report)
  }

  /** The client list with every entry carrying `id` swapped for `updated`
      and every other entry kept. */
  function ReplaceById(reports: seq<Report>, id: int, updated: Report): (out: seq<Report>)
    ensures |out| == |reports|
    ensures forall k :: 0 <= k < |reports| ==> out[k] == if reports[k].id == id then updated else reports[k]
  {
    if |reports| == 0 then []
    else [if reports[0].id == id then updated else reports[0]] + ReplaceById(reports[1..], id, updated)
  }

  /** `updateReportStatus`: the store updates the report; only when it found
      the id does the client swap the returned record in. */
  function UpdateReportStatus(a: AppState, id: int, status: ReportStatus, now: Timestamp): (a': AppState)
    ensures a'.store == ReportService.UpdateReportStatus(a.store, id, status, now).store
    ensures id !in Ids(a.store.reports) ==> a'.reports == a.reports
    ensures |a'.reports| == |a.reports|
    ensures forall k :: 0 <= k < |a.reports| && a.reports[k].id != id ==> a'.reports[k] == a.reports[k]
    ensures
      var u := ReportService.UpdateReportStatus(a.store, id, status, now);
      u.report.Some? ==> forall k :: 0 <= k < |a.reports| && a.reports[k].id == id ==> a'.reports[k] == u.report.value
  {
    var u := ReportService.UpdateReportStatus(a.store, id, status, now);
    match u.report
    case None => AppState(u.store, a.reports)
    case Some(updated) => AppState(u.store, ReplaceById(a.reports, id, updated))
  }

  // ---------------------------------------------------------------------
  // The client mirrors the store
  // ---------------------------------------------------------------------

  /** The client list holds exactly the store's reports, in some order, and
      the store is valid. */
  predicate Mirrors(a: AppState) {
    Valid(a.store) && multiset(a.reports) == multiset(a.store.reports)
  }

  /** Mirrored lists hold the same ids. */
  lemma MirrorsSameIds(a: AppState)
    requires Mirrors(a)
    ensures Ids(a.reports) == Ids(a.store.reports)
  {
    forall x | x in Ids(a.reports) ensures x in Ids(a.store.reports) {
      var r :| r in a.reports && r.id == x;
      assert r in multiset(a.reports);
    }
    forall x | x in Ids(a.store.reports) ensures x in Ids(a.reports) {
      var r :| r in a.store.reports && r.id == x;
      assert r in multiset(a.store.reports);
    }
  }

  /** A fetch from a valid store establishes the mirror. */
  lemma FetchMirrors(a: AppState)
    requires Valid(a.store)
    ensures Mirrors(FetchReports(a))
  {
  }

  /** Creating keeps the mirror: both sides gain the same report in front. */
  lemma AddPreservesMirror(a: AppState, draft: Draft, now: Timestamp)
    requires Mirrors(a)
    ensures Mirrors(AddReport(a, draft, now).0)
  {
    CreatePreservesValid(a.store, draft, now);
    var c := CreateReport(a.store, draft, now);
    assert c.store.reports == [c.report] + a.store.reports;
  }

  /** `ReplaceById` distributes over concatenation. */
  lemma {:induction false} ReplaceByIdAppend(xs: seq<Report>, ys: seq<Report>, id: int, u: Report)
    ensures ReplaceById(xs + ys, id, u) == ReplaceById(xs, id, u) + ReplaceById(ys, id, u)
  {
    var l, r := ReplaceById(xs + ys, id, u), ReplaceById(xs, id, u) + ReplaceById(ys, id, u);
    assert |l| == |r|;
    forall k | 0 <= k < |l| ensures l[k] == r[k] {
      if k < |xs| {
        assert (xs + ys)[k] == xs[k];
      } else {
        assert (xs + ys)[k] == ys[k - |xs|];
      }
    }
  }

  /** Replacing by id is a pointwise map, so it sends lists with equal
      multisets to lists with equal multisets. */
  lemma {:induction false} ReplaceByIdMultiset(xs: seq<Report>, ys: seq<Report>, id: int, u: Report)
    requires multiset(xs) == multiset(ys)
    ensures multiset(ReplaceById(xs, id, u)) == multiset(ReplaceById(ys, id, u))
    decreases |xs|
  {
    if |xs| > 0 {
      var x := xs[0];
      assert x in multiset(ys);
      var j :| 0 <= j < |ys| && ys[j] == x;
      var rest := ys[..j] + ys[j + 1..];
      RemoveAt(ys, j);
      assert xs == [x] + xs[1..];
      assert multiset(xs[1..]) == multiset(xs) - multiset{x};
      ReplaceByIdMultiset(xs[1..], rest, id, u);
      ReplaceByIdAppend([x], xs[1..], id, u);
      ReplaceByIdMoveToFront(ys, j, id, u);
    }
  }

  /** Replacing by id in a list has the same contents as replacing by id in
      the list with its `j`-th element moved to the front. */
  lemma ReplaceByIdMoveToFront(ys: seq<Report>, j: nat, id: int, u: Report)
    requires j < |ys|
    ensures multiset(ReplaceById(ys, id, u))
         == multiset(ReplaceById([ys[j]], id, u)) + multiset(ReplaceById(ys[..j] + ys[j + 1..], id, u))
  {
    var x := ys[j];
    assert ys == (ys[..j] + [x]) + ys[j + 1..];
    ReplaceByIdAppend(ys[..j] + [x], ys[j + 1..], id, u);
    ReplaceByIdAppend(ys[..j], [x], id, u);
    ReplaceByIdAppend(ys[..j], ys[j + 1..], id, u);
  }

  /** In a list with unique ids, replacing by id is replacing at the one
      position that holds the id. */
  lemma ReplaceByIdAtIndex(reports: seq<Report>, i: nat, u: Report)
    requires UniqueIds(reports) && i < |reports|
    ensures ReplaceById(reports, reports[i].id, u) == reports[i := u]
  {
  }

  /** Updating keeps the mirror: the store replaces the report at its index,
      the client replaces every entry with that id, and since ids are
      unique these are the same change. */
  lemma UpdatePreservesMirror(a: AppState, id: int, status: ReportStatus, now: Timestamp)
    requires Mirrors(a)
    ensures Mirrors(UpdateReportStatus(a, id, status, now))
  {
    UpdatePreservesValid(a.store, id, status, now);
    var u := ReportService.UpdateReportStatus(a.store, id, status, now);
    if u.report.Some? {
      var i := FindIndex(a.store.reports, id).value;
      ReplaceByIdMultiset(a.reports, a.store.reports, id, u.report.value);
      ReplaceByIdAtIndex(a.store.reports, i, u.report.value);
      assert u.store.reports == a.store.reports[i := u.report.value];
    }
  }

  // ---------------------------------------------------------------------
  // Sessions
  // ---------------------------------------------------------------------

  datatype Action =
    | Add(draft: Draft, now: Timestamp)
    | SetStatus(id: int, status: ReportStatus, now: Timestamp)

  function Perform(a: AppState, act: Action): AppState {
    match act
    case Add(d, now) => AddReport(a, d, now).0
    case SetStatus(id, st, now) => UpdateReportStatus(a, id, st, now)
  }

  function Session(a: AppState, acts: seq<Action>): AppState
    decreases |acts|
  {
    if |acts| == 0 then a else Session(Perform(a, acts[0]), acts[1..])
  }

  /** After a fetch, any sequence of adds and status changes leaves the
      client list holding exactly the store's reports, so both hold the same
      ids. */
  lemma {:induction false} SessionMirrors(a: AppState, acts: seq<Action>)
    requires Valid(a.store)
    ensures Mirrors(Session(FetchReports(a), acts))
    ensures Ids(Session(FetchReports(a), acts).reports) == Ids(Session(FetchReports(a), acts).store.reports)
  {
    FetchMirrors(a);
    SessionPreservesMirror(FetchReports(a), acts);
    MirrorsSameIds(Session(FetchReports(a), acts));
  }

  lemma {:induction false} SessionPreservesMirror(a: AppState, acts: seq<Action>)
    requires Mirrors(a)
    ensures Mirrors(Session(a, acts))
    decreases |acts|
  {
    if |acts| > 0 {
      match acts[0] {
        case Add(d, now) => AddPreservesMirror(a, d, now);
        case SetStatus(id, st, now) => UpdatePreservesMirror(a, id, st, now);
      }
      SessionPreservesMirror(Perform(a, acts[0]), acts[1..]);
    }
  }
}
