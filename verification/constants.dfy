/**
 The seed data of `constants.ts`: the five mock reports the store starts
 with, and the category and status value lists the admin filters offer.
 Dates are the seed's ISO instants as milliseconds since the epoch.
 */
module Constants {
  import opened Types
  import ReportService
  import AdminView

  const Oct26At0800: Timestamp := 1698307200000  // 2023-10-26T08:00:00Z
  const Oct25At1930: Timestamp := 1698262200000  // 2023-10-25T19:30:00Z
  const Oct24At1200: Timestamp := 1698148800000  // 2023-10-24T12:00:00Z
  const Oct25At1400: Timestamp := 1698242400000  // 2023-10-25T14:00:00Z
  const Oct27At1015: Timestamp := 1698401700000  // 2023-10-27T10:15:00Z
  const Oct26At1445: Timestamp := 1698331500000  // 2023-10-26T14:45:00Z

  const Report1 := Report(
    1, "Large Pothole on Main St",
    "A deep pothole near the crosswalk at Main St and 2nd Ave. It poses a risk to cyclists and cars.",
    Pothole, Submitted, High, Location(34.0522, -118.2437),
    "https://picsum.photos/seed/pothole1/600/400", Oct26At0800, None, "John Doe")

  const Report2 := Report(
    2, "Streetlight out at Elm Park",
    "The streetlight at the entrance of Elm Park is completely out. The area is very dark at night.",
    Streetlight, InProgress, Medium, Location(34.055, -118.25),
    "https://picsum.photos/seed/light1/600/400", Oct25At1930, None, "Jane Smith")

  const Report3 := Report(
    3, "Overflowing trash can",
    "The public trash can at the bus stop on Ocean Blvd is overflowing with garbage.",
    Trash, Resolved, Low, Location(34.049, -118.245),
    "https://picsum.photos/seed/trash1/600/400", Oct24At1200, Some(Oct25At1400), "Alice Johnson")

  const Report4 := Report(
    4, "Graffiti on library wall",
    "Spray paint graffiti on the west-facing wall of the downtown public library.",
    Graffiti, Submitted, Medium, Location(34.058, -118.24),
    "https://picsum.photos/seed/graffiti1/600/400", Oct27At1015, None, "Bob Brown")

  const Report5 := Report(
    5, "Broken swing at playground",
    "One of the swings in Greenwood Park is broken and unsafe for children to use.",
    Park, InProgress, High, Location(34.06, -118.26),
    "https://picsum.photos/seed/park1/600/400", Oct26At1445, None, "Charlie Davis")

  /** `MOCK_REPORTS`, in declaration order. */
  const MockReports: seq<Report> := [Report1, Report2, Report3, Report4, Report5]

  /** `CATEGORIES` and `STATUSES`: `Object.values` of the two enumerations. */
  const Categories: seq<ReportCategory> := CategoryValues
  const Statuses: seq<ReportStatus> := StatusValues

  /** The admin dropdowns offer every member of each enumeration, and no
      member's value can be confused with the "all" wildcard. */
  lemma FilterOptions()
    ensures forall c: ReportCategory :: c in Categories
    ensures forall s: ReportStatus :: s in Statuses
    ensures forall k | 0 <= k < |Categories| :: CategoryName(Categories[k]) != AdminView.All
    ensures forall k | 0 <= k < |Statuses| :: StatusName(Statuses[k]) != AdminView.All
  {
    ValueListsEnumerate();
    NamesAreDistinct();
  }

  /** Picking a category option keeps exactly the reports of that category. */
  lemma CategoryOptionSelects(reports: seq<Report>, k: nat, r: Report)
    requires k < |Categories| && r in reports
    ensures r in AdminView.FilteredReports(reports, CategoryName(Categories[k]), AdminView.All)
        <==> r.category == Categories[k]
  {
    AdminView.CategoryFilterSelects(reports, Categories[k], AdminView.All, r);
  }

  function IdsInOrder(rs: seq<Report>): (ids: seq<int>)
    ensures |ids| == |rs|
    ensures forall i :: 0 <= i < |rs| ==> ids[i] == rs[i].id
  {
    if |rs| == 0 then [] else [rs[0].id] + IdsInOrder(rs[1..])
  }

  /** The seed's ids are 1 to 5 and distinct, and every seeded report keeps
      the resolution bookkeeping: only report 3 is resolved, and only it has
      a resolution time, which comes after its submission. */
  lemma SeedWellFormed()
    ensures IdsInOrder(MockReports) == [1, 2, 3, 4, 5]
    ensures ReportService.UniqueIds(MockReports)
    ensures forall r | r in MockReports :: ResolutionConsistent(r)
    ensures forall r | r in MockReports :: r.status == Resolved <==> r.id == 3
    ensures Report3.resolvedAt.value > Report3.submittedAt
  {
    FiveWellFormed(Report1, Report2, Report3, Report4, Report5);
  }

  /** Five reports numbered 1 to 5, of which only the third is resolved and
      only it has a resolution time, form a well-formed seed. */
  lemma FiveWellFormed(r1: Report, r2: Report, r3: Report, r4: Report, r5: Report)
    requires r1.id == 1 && r2.id == 2 && r3.id == 3 && r4.id == 4 && r5.id == 5
    requires r3.status == Resolved && r3.resolvedAt.Some?
    requires forall r | r in [r1, r2, r4, r5] :: r.status != Resolved && r.resolvedAt.None?
    ensures IdsInOrder([r1, r2, r3, r4, r5]) == [1, 2, 3, 4, 5]
    ensures ReportService.UniqueIds([r1, r2, r3, r4, r5])
    ensures forall r | r in [r1, r2, r3, r4, r5] :: ResolutionConsistent(r)
    ensures forall r | r in [r1, r2, r3, r4, r5] :: r.status == Resolved <==> r.id == 3
  {
    var rs := [r1, r2, r3, r4, r5];
    assert forall i | 0 <= i < 5 :: rs[i].id == i + 1;
    assert forall r | r in rs :: r == r3 || r in [r1, r2, r4, r5];
  }

  /** The store starts from the seed with counter 6, and is valid. */
  lemma InitialStore()
    ensures ReportService.Init(MockReports).nextId == 6
    ensures ReportService.Valid(ReportService.Init(MockReports))
  {
    SeedWellFormed();
    ReportService.InitValid(MockReports);
    FiveIdsBounded(Report1, Report2, Report3, Report4, Report5);
    ReportService.InitialNextIdOfMax(MockReports, Report5);
  }

  /** Of five reports numbered 1 to 5, the fifth carries the largest id. */
  lemma FiveIdsBounded(r1: Report, r2: Report, r3: Report, r4: Report, r5: Report)
    requires r1.id == 1 && r2.id == 2 && r3.id == 3 && r4.id == 4 && r5.id == 5
    ensures forall r | r in [r1, r2, r3, r4, r5] :: r.id <= r5.id
  {
  }

  /** The first listing of the seeded store is newest first: ids 4, 5, 1, 2, 3. */
  lemma SeedListing()
    ensures IdsInOrder(ReportService.GetReports(ReportService.Init(MockReports))) == [4, 5, 1, 2, 3]
  {
    SortInSeedOrder(Report1, Report2, Report3, Report4, Report5);
    IdsOfFive(Report4, Report5, Report1, Report2, Report3);
  }

  lemma IdsOfFive(a: Report, b: Report, c: Report, d: Report, e: Report)
    ensures IdsInOrder([a, b, c, d, e]) == [a.id, b.id, c.id, d.id, e.id]
  {
  }

  /** Sorting five reports whose submission instants are ordered as the
      seed's are: the fourth, the fifth, then the first three in order. */
  lemma SortInSeedOrder(r1: Report, r2: Report, r3: Report, r4: Report, r5: Report)
    requires r4.submittedAt > r5.submittedAt > r1.submittedAt > r2.submittedAt > r3.submittedAt
    ensures ReportService.SortNewestFirst([r1, r2, r3, r4, r5]) == [r4, r5, r1, r2, r3]
  {
    var out := [r4, r5, r1, r2, r3];
    StrictFive(r4, r5, r1, r2, r3);
    assert multiset([r1, r2, r3, r4, r5]) == multiset(out);
    ReportService.DistinctInstantsOrderUnique(ReportService.SortNewestFirst([r1, r2, r3, r4, r5]), out);
  }

  /** Five reports listed with strictly decreasing instants. */
  lemma StrictFive(a: Report, b: Report, c: Report, d: Report, e: Report)
    requires a.submittedAt > b.submittedAt > c.submittedAt > d.submittedAt > e.submittedAt
    ensures ReportService.StrictlyNewestFirst([a, b, c, d, e])
  {
  }
}
