/**
 The in-memory report store of `services/reportService.ts`: a list of reports
 and the counter that supplies the next id. The module-level mutable state of
 the source becomes an immutable `Store` value, and every operation is a pure
 transition that returns the new store beside its result. The clock is the
 `now` parameter; the simulated network delay is not modelled.
 */
module ReportService {
  import opened Types
  import opened Sequences

  datatype Store = Store(reports: seq<Report>, nextId: int)

  /** The ids present in a list of reports. */
  function Ids(rs: seq<Report>): set<int> {
    set r | r in rs :: r.id
  }

  predicate UniqueIds(rs: seq<Report>) {
    forall i, j :: 0 <= i < j < |rs| ==> rs[i].id != rs[j].id
  }

  /** The store's invariant: ids are unique and all below the counter, and
      every report records a resolution time exactly when it is resolved. */
  predicate Valid(s: Store) {
    && UniqueIds(s.reports)
    && (forall r | r in s.reports :: r.id < s.nextId)
    && (forall r | r in s.reports :: ResolutionConsistent(r))
  }

  // ---------------------------------------------------------------------
  // Initial state
  // ---------------------------------------------------------------------

  /** `Math.max` over the ids of a non-empty list. */
  function MaxId(rs: seq<Report>): (m: int)
    requires |rs| > 0
    ensures forall r | r in rs :: r.id <= m
    ensures exists r | r in rs :: r.id == m
  {
    if |rs| == 1 then rs[0].id
    else
      var rest := MaxId(rs[1..]);
      assert forall r | r in rs[1..] :: r in rs;
      if rs[0].id > rest then rs[0].id else rest
  }

  /** The counter's first value: one past the largest seeded id, or 1 when
      the seed is empty. */
  function InitialNextId(seed: seq<Report>): (n: int)
    ensures forall r | r in seed :: r.id < n
    ensures |seed| == 0 ==> n == 1
    ensures |seed| > 0 ==> exists r | r in seed :: r.id == n - 1
  {
    if |seed| > 0 then MaxId(seed) + 1 else 1
  }

  /** The counter starts one past the seed's largest id, whichever report
      carries it. */
  lemma InitialNextIdOfMax(seed: seq<Report>, top: Report)
    requires top in seed
    requires forall r | r in seed :: r.id <= top.id
    ensures InitialNextId(seed) == top.id + 1
  {
  }

  /** The store as the module loads it: the seed list, with the counter one
      past its largest id. */
  function Init(seed: seq<Report>): (s: Store)
    ensures s.reports == seed
    ensures forall r | r in seed :: r.id < s.nextId
    ensures |seed| == 0 ==> s.nextId == 1
    ensures |seed| > 0 ==> exists r | r in seed :: r.id == s.nextId - 1
  {
    Store(seed, InitialNextId(seed))
  }

  /** A seed with unique ids and consistent resolution times gives a valid store. */
  lemma InitValid(seed: seq<Report>)
    requires UniqueIds(seed)
    requires forall r | r in seed :: ResolutionConsistent(r)
    ensures Valid(Init(seed))
    ensures Init(seed).reports == seed
  {
  }

  // ---------------------------------------------------------------------
  // getReports: a stable sort, newest submission first
  // ---------------------------------------------------------------------

  predicate NewestFirst(rs: seq<Report>) {
    forall i, j :: 0 <= i < j < |rs| ==> rs[i].submittedAt >= rs[j].submittedAt
  }

  /** The reports submitted at instant `t`, in list order. Two lists agree on
      every such sub-list exactly when each holds the same reports and ties
      appear in the same relative order. */
  function SubmittedAt(rs: seq<Report>, t: Timestamp): (out: seq<Report>)
    ensures forall r | r in out :: r in rs && r.submittedAt == t
  {
    if |rs| == 0 then []
    else (if rs[0].submittedAt == t then [rs[0]] else []) + SubmittedAt(rs[1..], t)
  }

  /** Unfolds one step of `SubmittedAt` on a list written as head plus tail. */
  lemma SubmittedAtCons(x: Report, rs: seq<Report>, t: Timestamp)
    ensures SubmittedAt([x] + rs, t) == (if x.submittedAt == t then [x] else []) + SubmittedAt(rs, t)
  {
    assert ([x] + rs)[1..] == rs;
  }

  /** Puts `x` in front of the first report of `sorted` that is not newer
      than it, so `x` precedes every report it ties with. */
  function InsertNewest(x: Report, sorted: seq<Report>): (out: seq<Report>)
    requires NewestFirst(sorted)
    ensures NewestFirst(out)
    ensures multiset(out) == multiset(sorted) + multiset{x}
  {
    if |sorted| == 0 || sorted[0].submittedAt <= x.submittedAt then
      NewestFirstCons(x, sorted);
      [x] + sorted
    else
      var rest := InsertNewest(x, sorted[1..]);
      assert sorted == [sorted[0]] + sorted[1..];
      NotNewerThanHead(x, sorted, rest);
      NewestFirstCons(sorted[0], rest);
      [sorted[0]] + rest
  }

  /** Inserting a report older than the head of a sorted list into its tail
      gives a list with nothing newer than that head. */
  lemma NotNewerThanHead(x: Report, sorted: seq<Report>, rest: seq<Report>)
    requires NewestFirst(sorted) && |sorted| > 0 && x.submittedAt < sorted[0].submittedAt
    requires multiset(rest) == multiset(sorted[1..]) + multiset{x}
    ensures forall r | r in rest :: r.submittedAt <= sorted[0].submittedAt
  {
    forall r | r in rest ensures r.submittedAt <= sorted[0].submittedAt {
      assert r in multiset(rest);
      if r != x {
        assert r in multiset(sorted[1..]);
        var k :| 0 <= k < |sorted[1..]| && sorted[1..][k] == r;
        assert sorted[k + 1] == r;
      }
    }
  }

  /** A report not older than anything in a newest-first list may head it. */
  lemma NewestFirstCons(h: Report, rest: seq<Report>)
    requires NewestFirst(rest)
    requires forall r | r in rest :: r.submittedAt <= h.submittedAt
    ensures NewestFirst([h] + rest)
  {
    var out := [h] + rest;
    forall i, j | 0 <= i < j < |out| ensures out[i].submittedAt >= out[j].submittedAt {
      if i == 0 {
        assert out[j] == rest[j - 1];
      } else {
        assert out[i] == rest[i - 1] && out[j] == rest[j - 1];
      }
    }
  }

  /** Inserting `x` puts it ahead of the reports it ties with and leaves
      every other tie group as it was. */
  lemma {:induction false} InsertNewestTies(x: Report, sorted: seq<Report>, t: Timestamp)
    requires NewestFirst(sorted)
    ensures SubmittedAt(InsertNewest(x, sorted), t) == SubmittedAt([x] + sorted, t)
    decreases |sorted|
  {
    if |sorted| == 0 || sorted[0].submittedAt <= x.submittedAt {
    } else {
      var s0, tail := sorted[0], sorted[1..];
      var rest := InsertNewest(x, tail);
      assert sorted == [s0] + tail;
      var p0 := if s0.submittedAt == t then [s0] else [];
      var px := if x.submittedAt == t then [x] else [];
      assert p0 + px == px + p0 by {
        assert p0 == [] || px == [];
      }
      calc {
        SubmittedAt(InsertNewest(x, sorted), t);
        SubmittedAt([s0] + rest, t);
        { SubmittedAtCons(s0, rest, t); }
        p0 + SubmittedAt(rest, t);
        { InsertNewestTies(x, tail, t); SubmittedAtCons(x, tail, t); }
        p0 + (px + SubmittedAt(tail, t));
        px + (p0 + SubmittedAt(tail, t));
        { SubmittedAtCons(s0, tail, t); }
        px + SubmittedAt(sorted, t);
        { SubmittedAtCons(x, sorted, t); }
        SubmittedAt([x] + sorted, t);
      }
    }
  }

  /** The sort on a copy of the list, by submission time descending: a
      permutation of the input, newest first. */
  function SortNewestFirst(rs: seq<Report>): (out: seq<Report>)
    ensures NewestFirst(out)
    ensures multiset(out) == multiset(rs)
  {
    if |rs| == 0 then []
    else
      assert rs == [rs[0]] + rs[1..];
      InsertNewest(rs[0], SortNewestFirst(rs[1..]))
  }

  /** The sort is stable, as `Array.prototype.sort` is: every tie group
      keeps its input order. */
  lemma {:induction false} SortKeepsTies(rs: seq<Report>, t: Timestamp)
    ensures SubmittedAt(SortNewestFirst(rs), t) == SubmittedAt(rs, t)
  {
    if |rs| > 0 {
      var sortedTail := SortNewestFirst(rs[1..]);
      assert rs == [rs[0]] + rs[1..];
      SortKeepsTies(rs[1..], t);
      InsertNewestTies(rs[0], sortedTail, t);
      SubmittedAtCons(rs[0], sortedTail, t);
      SubmittedAtCons(rs[0], rs[1..], t);
    }
  }

  /** Every tie group at once. */
  lemma SortKeepsAllTies(rs: seq<Report>)
    ensures forall t :: SubmittedAt(SortNewestFirst(rs), t) == SubmittedAt(rs, t)
  {
    forall t ensures SubmittedAt(SortNewestFirst(rs), t) == SubmittedAt(rs, t) {
      SortKeepsTies(rs, t);
    }
  }

  /** The snapshot handed to callers: the store's reports, newest first,
      reports submitted at the same instant in store order. The store itself
      is left as it is. */
  function GetReports(s: Store): (out: seq<Report>)
    ensures NewestFirst(out)
    ensures multiset(out) == multiset(s.reports)
    ensures forall t :: SubmittedAt(out, t) == SubmittedAt(s.reports, t)
  {
    SortKeepsAllTies(s.reports);
    SortNewestFirst(s.reports)
  }

  /** The sort order is fully determined: any list that is newest-first and
      agrees with the store on every tie group is the result of getReports. */
  lemma {:induction false} NewestFirstUnique(a: seq<Report>, b: seq<Report>)
    requires NewestFirst(a) && NewestFirst(b)
    requires forall t :: SubmittedAt(a, t) == SubmittedAt(b, t)
    ensures a == b
    decreases |a|
  {
    if |a| == 0 {
      if |b| > 0 {
        SubmittedAtHead(b);
        assert false;
      }
    } else if |b| == 0 {
      SubmittedAtHead(a);
      assert false;
    } else {
      SubmittedAtHead(a);
      SubmittedAtHead(b);
      var ka, kb := a[0].submittedAt, b[0].submittedAt;
      // each head's instant occurs in the other list, so neither is newer
      assert SubmittedAt(b, ka)[0] in SubmittedAt(b, ka);
      assert SubmittedAt(a, kb)[0] in SubmittedAt(a, kb);
      InNewestFirst(a, SubmittedAt(a, kb)[0]);
      InNewestFirst(b, SubmittedAt(b, ka)[0]);
      assert ka == kb;
      assert a[0] == SubmittedAt(a, ka)[0] == SubmittedAt(b, ka)[0] == b[0];
      assert a == [a[0]] + a[1..] && b == [b[0]] + b[1..];
      forall t
        ensures SubmittedAt(a[1..], t) == SubmittedAt(b[1..], t)
      {
        SubmittedAtCons(a[0], a[1..], t);
        SubmittedAtCons(b[0], b[1..], t);
        var p := if ka == t then [a[0]] else [];
        assert SubmittedAt(a, t) == SubmittedAt(b, t);
        assert SubmittedAt(a[1..], t) == SubmittedAt(a, t)[|p|..];
        assert SubmittedAt(b[1..], t) == SubmittedAt(b, t)[|p|..];
      }
      NewestFirstTail(a);
      NewestFirstTail(b);
      NewestFirstUnique(a[1..], b[1..]);
      assert a == [a[0]] + a[1..] && b == [b[0]] + b[1..];
    }
  }

  /** The head of a non-empty list opens its own tie group. */
  lemma SubmittedAtHead(rs: seq<Report>)
    requires |rs| > 0
    ensures |SubmittedAt(rs, rs[0].submittedAt)| > 0
    ensures SubmittedAt(rs, rs[0].submittedAt)[0] == rs[0]
  {
  }

  /** No report of a newest-first list is newer than its head. */
  lemma InNewestFirst(rs: seq<Report>, r: Report)
    requires NewestFirst(rs) && r in rs
    ensures rs[0].submittedAt >= r.submittedAt
  {
  }

  /** Sorting a store that already is newest-first changes nothing. */
  lemma SortOfSorted(rs: seq<Report>)
    requires NewestFirst(rs)
    ensures SortNewestFirst(rs) == rs
  {
    forall t ensures SubmittedAt(SortNewestFirst(rs), t) == SubmittedAt(rs, t) {
      SortKeepsTies(rs, t);
    }
    NewestFirstUnique(SortNewestFirst(rs), rs);
  }

  /** No two reports of the list were submitted at the same instant, and
      each is newer than the next. */
  predicate StrictlyNewestFirst(rs: seq<Report>) {
    forall i, j :: 0 <= i < j < |rs| ==> rs[i].submittedAt > rs[j].submittedAt
  }

  /** When all instants differ the order is forced: a newest-first
      permutation of a strictly newest-first list is that list. */
  lemma {:induction false} DistinctInstantsOrderUnique(a: seq<Report>, b: seq<Report>)
    requires NewestFirst(a) && StrictlyNewestFirst(b)
    requires multiset(a) == multiset(b)
    ensures a == b
    decreases |a|
  {
    assert |a| == |multiset(a)| == |multiset(b)| == |b|;
    if |a| > 0 {
      SameHead(a, b);
      TailsAgree(a, b);
      DistinctInstantsOrderUnique(a[1..], b[1..]);
      assert a == [a[0]] + a[1..] && b == [b[0]] + b[1..];
    }
  }

  /** Under the hypotheses above, both lists start with the same report. */
  lemma SameHead(a: seq<Report>, b: seq<Report>)
    requires NewestFirst(a) && StrictlyNewestFirst(b)
    requires multiset(a) == multiset(b) && |a| > 0 && |b| > 0
    ensures a[0] == b[0]
  {
    assert b[0] in multiset(a);
    InNewestFirst(a, b[0]);
    assert a[0] in multiset(b);
    var k :| 0 <= k < |b| && b[k] == a[0];
    if k > 0 {
      assert false;
    }
  }

  /** Dropping equal heads keeps the hypotheses for the tails. */
  lemma TailsAgree(a: seq<Report>, b: seq<Report>)
    requires NewestFirst(a) && StrictlyNewestFirst(b)
    requires multiset(a) == multiset(b) && |a| > 0 && |b| > 0 && a[0] == b[0]
    ensures NewestFirst(a[1..]) && StrictlyNewestFirst(b[1..])
    ensures multiset(a[1..]) == multiset(b[1..])
  {
    MultisetOfTail(a);
    MultisetOfTail(b);
    NewestFirstTail(a);
    forall i, j | 0 <= i < j < |b| - 1 ensures b[1..][i].submittedAt > b[1..][j].submittedAt {
      assert b[1..][i] == b[i + 1] && b[1..][j] == b[j + 1];
    }
  }

  lemma NewestFirstTail(a: seq<Report>)
    requires NewestFirst(a) && |a| > 0
    ensures NewestFirst(a[1..])
  {
    forall i, j | 0 <= i < j < |a| - 1 ensures a[1..][i].submittedAt >= a[1..][j].submittedAt {
      assert a[1..][i] == a[i + 1] && a[1..][j] == a[j + 1];
    }
  }

  /** What `getReports` returns, said without the sort: a list is the
      snapshot exactly when it is newest first and every group of reports
      submitted at the same instant appears in store order. */
  lemma GetReportsCharacterized(s: Store, out: seq<Report>)
    ensures out == GetReports(s) ==>
      NewestFirst(out) && forall t :: SubmittedAt(out, t) == SubmittedAt(s.reports, t)
    ensures NewestFirst(out) && (forall t :: SubmittedAt(out, t) == SubmittedAt(s.reports, t)) ==>
      out == GetReports(s)
  {
    if NewestFirst(out) && forall t :: SubmittedAt(out, t) == SubmittedAt(s.reports, t) {
      NewestFirstUnique(out, GetReports(s));
    }
  }

  // ---------------------------------------------------------------------
  // createReport
  // ---------------------------------------------------------------------

  datatype Created = Created(store: Store, report: Report)

  /** Stamps the draft with the next id, status Submitted and the current
      time, and puts it at the front of the list. */
  function CreateReport(s: Store, draft: Draft, now: Timestamp): (c: Created)
    ensures DraftOf(c.report) == draft
    ensures c.report.id == s.nextId && c.store.nextId == s.nextId + 1
    ensures c.report.status == Submitted && c.report.submittedAt == now && c.report.resolvedAt.None?
    ensures |c.store.reports| == |s.reports| + 1
    ensures c.store.reports[0] == c.report && c.store.reports[1..] == s.reports
  {
    var r := Report(s.nextId, draft.title, draft.description, draft.category, Submitted,
                    draft.priority, draft.location, draft.imageUrl, now, None, draft.submittedBy);
    Created(Store([r] + s.reports, s.nextId + 1), r)
  }

  /** Creation keeps the store valid, and the new id was not in use. */
  lemma CreatePreservesValid(s: Store, draft: Draft, now: Timestamp)
    requires Valid(s)
    ensures Valid(CreateReport(s, draft, now).store)
    ensures CreateReport(s, draft, now).report.id !in Ids(s.reports)
    ensures Ids(CreateReport(s, draft, now).store.reports) == Ids(s.reports) + {s.nextId}
  {
    var c := CreateReport(s, draft, now);
    assert c.store.reports == [c.report] + s.reports;
    assert forall r | r in c.store.reports :: r == c.report || r in s.reports;
    assert c.report !in s.reports;
    forall i, j | 0 <= i < j < |c.store.reports| ensures c.store.reports[i].id != c.store.reports[j].id {
      assert c.store.reports[j] == s.reports[j - 1];
      if i > 0 {
        assert c.store.reports[i] == s.reports[i - 1];
      }
    }
  }

  // ---------------------------------------------------------------------
  // updateReportStatus
  // ---------------------------------------------------------------------

  /** The first position holding `id`, or `None` when no report has it
      (where the source gets -1). */
  function FindIndex(rs: seq<Report>, id: int): (i: Option<nat>)
    ensures i.None? <==> id !in Ids(rs)
    ensures i.Some? ==> i.value < |rs| && rs[i.value].id == id
    ensures i.Some? ==> forall k :: 0 <= k < i.value ==> rs[k].id != id
  {
    if |rs| == 0 then None
    else if rs[0].id == id then Some(0)
    else
      var rest := FindIndex(rs[1..], id);
      assert Ids(rs) == {rs[0].id} + Ids(rs[1..]) by {
        assert forall r | r in rs :: r == rs[0] || r in rs[1..];
      }
      match rest
      case None => None
      case Some(k) => Some(k + 1)
  }

  /** The record as the update rewrites it: the new status, and a resolution
      time exactly when the new status is Resolved. */
  function Restatus(r: Report, status: ReportStatus, now: Timestamp): (u: Report)
    ensures u.id == r.id && DraftOf(u) == DraftOf(r) && u.submittedAt == r.submittedAt
    ensures u.status == status
    ensures ResolutionConsistent(u)
    ensures u.resolvedAt.Some? ==> u.resolvedAt.value == now
  {
    r.(status := status, resolvedAt := if status == Resolved then Some(now) else None)
  }

  datatype Updated = Updated(store: Store, report: Option<Report>)

  /** Replaces the first report with the given id by its re-statused copy
      and returns that copy; an unknown id returns `None` and changes nothing. */
  function UpdateReportStatus(s: Store, id: int, status: ReportStatus, now: Timestamp): (u: Updated)
    ensures u.report.None? <==> id !in Ids(s.reports)
    ensures u.report.None? ==> u.store == s
    ensures u.store.nextId == s.nextId && |u.store.reports| == |s.reports|
    ensures u.report.Some? ==>
      var i := FindIndex(s.reports, id).value;
      && u.store.reports[i] == u.report.value
      && u.report.value.id == id
      && DraftOf(u.report.value) == DraftOf(s.reports[i])
      && u.report.value.submittedAt == s.reports[i].submittedAt
      && u.report.value.status == status
      && ResolutionConsistent(u.report.value)
      && (status == Resolved ==> u.report.value.resolvedAt == Some(now))
      && (forall k :: 0 <= k < |s.reports| && k != i ==> u.store.reports[k] == s.reports[k])
  {
    match FindIndex(s.reports, id)
    case None => Updated(s, None)
    case Some(i) =>
      var updated := Restatus(s.reports[i], status, now);
      Updated(s.(reports := s.reports[i := updated]), Some(updated))
  }

  /** Updating keeps the store valid and keeps the set of ids. */
  lemma UpdatePreservesValid(s: Store, id: int, status: ReportStatus, now: Timestamp)
    requires Valid(s)
    ensures Valid(UpdateReportStatus(s, id, status, now).store)
    ensures Ids(UpdateReportStatus(s, id, status, now).store.reports) == Ids(s.reports)
  {
    var u := UpdateReportStatus(s, id, status, now);
    if u.report.Some? {
      var i := FindIndex(s.reports, id).value;
      var rs, rs' := s.reports, u.store.reports;
      forall r | r in rs' ensures r.id < s.nextId && ResolutionConsistent(r) {
        var k :| 0 <= k < |rs'| && rs'[k] == r;
        if k != i { assert r == rs[k]; }
      }
      forall x | x in Ids(rs) ensures x in Ids(rs') {
        var k :| 0 <= k < |rs| && rs[k].id == x;
        assert rs'[k].id == x;
      }
      forall x | x in Ids(rs') ensures x in Ids(rs) {
        var k :| 0 <= k < |rs'| && rs'[k].id == x;
        assert rs[k].id == x;
      }
    }
  }

  /** Resolving and then reopening a report leaves it without a resolution
      time: moving off Resolved, to any other status, clears the timestamp. */
  lemma ResolveThenReopen(s: Store, id: int, t1: Timestamp, st: ReportStatus, t2: Timestamp)
    requires id in Ids(s.reports)
    requires st != Resolved
    ensures
      var u1 := UpdateReportStatus(s, id, Resolved, t1);
      var u2 := UpdateReportStatus(u1.store, id, st, t2);
      && u1.report.Some? && u1.report.value.resolvedAt == Some(t1)
      && u2.report.Some? && u2.report.value.resolvedAt.None?
      && u2.report.value.submittedAt == u1.report.value.submittedAt
  {
    var u1 := UpdateReportStatus(s, id, Resolved, t1);
    var i := FindIndex(s.reports, id).value;
    assert u1.store.reports[i].id == id;
    assert id in Ids(u1.store.reports);
  }

  // ---------------------------------------------------------------------
  // Sequences of operations
  // ---------------------------------------------------------------------

  datatype Command =
    | CreateCmd(draft: Draft, now: Timestamp)
    | UpdateCmd(id: int, status: ReportStatus, now: Timestamp)

  function Step(s: Store, cmd: Command): Store {
    match cmd
    case CreateCmd(d, now) => CreateReport(s, d, now).store
    case UpdateCmd(id, st, now) => UpdateReportStatus(s, id, st, now).store
  }

  function Run(s: Store, cmds: seq<Command>): Store
    decreases |cmds|
  {
    if |cmds| == 0 then s else Run(Step(s, cmds[0]), cmds[1..])
  }

  function CreateCount(cmds: seq<Command>): nat {
    if |cmds| == 0 then 0 else (if cmds[0].CreateCmd? then 1 else 0) + CreateCount(cmds[1..])
  }

  /** Any run of creates and updates keeps the store valid, never removes an
      id, and advances the counter by exactly one per create. */
  lemma {:induction false} RunPreservesValid(s: Store, cmds: seq<Command>)
    requires Valid(s)
    ensures Valid(Run(s, cmds))
    ensures Ids(s.reports) <= Ids(Run(s, cmds).reports)
    ensures Run(s, cmds).nextId == s.nextId + CreateCount(cmds)
    decreases |cmds|
  {
    if |cmds| > 0 {
      match cmds[0] {
        case CreateCmd(d, now) => CreatePreservesValid(s, d, now);
        case UpdateCmd(id, st, now) => UpdatePreservesValid(s, id, st, now);
      }
      RunPreservesValid(Step(s, cmds[0]), cmds[1..]);
    }
  }

  /** Successive creates hand out strictly increasing ids. */
  lemma CreatesIncrease(s: Store, d1: Draft, t1: Timestamp, d2: Draft, t2: Timestamp)
    ensures
      var c1 := CreateReport(s, d1, t1);
      var c2 := CreateReport(c1.store, d2, t2);
      c1.report.id < c2.report.id && c2.store.reports[1] == c1.report
  {
  }
}
