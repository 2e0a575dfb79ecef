/**
 The data model of the civic-issue reporting app: the three enumerations
 (status, category, priority), the `Report` record, and the draft a caller
 supplies when it asks the store to create a report.

 Timestamps (JavaScript `Date` values) are integers counting milliseconds
 since the epoch. Coordinates are `real`s that are only ever copied.
 */
module Types {
  import opened Sequences

  /** The conventional optional value; `None` stands for an absent field or
      for JavaScript's `undefined` result. */
  datatype Option<+T> = None | Some(value: T)

  /** Milliseconds since the epoch, as returned by `Date.getTime()`. */
  type Timestamp = int

  datatype ReportStatus = Submitted | InProgress | Resolved

  datatype ReportCategory = Pothole | Streetlight | Trash | Graffiti | Park | Other

  datatype ReportPriority = Low | Medium | High

  /** The string value of each status member, as the enumeration declares it. */
  function StatusName(s: ReportStatus): string {
    match s
    case Submitted => "Submitted"
    case InProgress => "In Progress"
    case Resolved => "Resolved"
  }

  /** The string value of each category member, as the enumeration declares it. */
  function CategoryName(c: ReportCategory): string {
    match c
    case Pothole => "Pothole"
    case Streetlight => "Streetlight Outage"
    case Trash => "Trash & Recycling"
    case Graffiti => "Graffiti"
    case Park => "Park Maintenance"
    case Other => "Other"
  }

  function PriorityName(p: ReportPriority): string {
    match p
    case Low => "Low"
    case Medium => "Medium"
    case High => "High"
  }

  /** `Object.values` of each enumeration: its members in declaration order. */
  const StatusValues: seq<ReportStatus> := [Submitted, InProgress, Resolved]
  const CategoryValues: seq<ReportCategory> := [Pothole, Streetlight, Trash, Graffiti, Park, Other]
  const PriorityValues: seq<ReportPriority> := [Low, Medium, High]

  datatype Location = Location(lat: real, lng: real)

  /** A stored report. Every field is required except `resolvedAt`. */
  datatype Report = Report(
    id: int,
    title: string,
    description: string,
    category: ReportCategory,
    status: ReportStatus,
    priority: ReportPriority,
    location: Location,
    imageUrl: string,
    submittedAt: Timestamp,
    resolvedAt: Option<Timestamp>,
    submittedBy: string
  )

  /** What a caller hands to `createReport`: a report without the fields the
      store assigns (`id`, `status`, `submittedAt`, `resolvedAt`). */
  datatype Draft = Draft(
    title: string,
    description: string,
    category: ReportCategory,
    priority: ReportPriority,
    location: Location,
    imageUrl: string,
    submittedBy: string
  )

  /** The draft part of a stored report: the fields a caller supplied. */
  function DraftOf(r: Report): Draft {
    Draft(r.title, r.description, r.category, r.priority, r.location, r.imageUrl, r.submittedBy)
  }

  /** The bookkeeping invariant of a single report: the resolution time is
      recorded exactly when the report is resolved. */
  predicate ResolutionConsistent(r: Report) {
    r.resolvedAt.Some? <==> r.status == Resolved
  }

  /** The position of a status in `StatusValues`. */
  function StatusIndex(s: ReportStatus): (i: nat)
    ensures i < |StatusValues| && StatusValues[i] == s
  {
    match s
    case Submitted => 0
    case InProgress => 1
    case Resolved => 2
  }

  /** The position of a category in `CategoryValues`. */
  function CategoryIndex(c: ReportCategory): (i: nat)
    ensures i < |CategoryValues| && CategoryValues[i] == c
  {
    match c
    case Pothole => 0
    case Streetlight => 1
    case Trash => 2
    case Graffiti => 3
    case Park => 4
    case Other => 5
  }

  /** The position of a priority in `PriorityValues`. */
  function PriorityIndex(p: ReportPriority): (i: nat)
    ensures i < |PriorityValues| && PriorityValues[i] == p
  {
    match p
    case Low => 0
    case Medium => 1
    case High => 2
  }

  /** Reading a value list at a position and asking for the member's
      position gives the position back. */
  lemma CategoryAt(k: nat)
    requires k < |CategoryValues|
    ensures CategoryIndex(CategoryValues[k]) == k
  {
    if k == 0 {} else if k == 1 {} else if k == 2 {} else if k == 3 {} else if k == 4 {} else {}
  }

  lemma PriorityAt(k: nat)
    requires k < |PriorityValues|
    ensures PriorityIndex(PriorityValues[k]) == k
  {
    if k == 0 {} else if k == 1 {} else {}
  }

  /** Each value list holds every member of its enumeration exactly once, so
      the list is a faithful enumeration of the type. */
  lemma ValueListsEnumerate()
    ensures |StatusValues| == 3 && |CategoryValues| == 6 && |PriorityValues| == 3
    ensures forall s: ReportStatus :: s in StatusValues
    ensures forall c: ReportCategory :: c in CategoryValues
    ensures forall p: ReportPriority :: p in PriorityValues
    ensures Distinct(CategoryValues) && Distinct(StatusValues) && Distinct(PriorityValues)
  {
    forall s: ReportStatus ensures s in StatusValues {
      assert StatusValues[StatusIndex(s)] == s;
    }
    forall c: ReportCategory ensures c in CategoryValues {
      assert CategoryValues[CategoryIndex(c)] == c;
    }
    forall p: ReportPriority ensures p in PriorityValues {
      assert PriorityValues[PriorityIndex(p)] == p;
    }
  }

  /** Distinct members have distinct string values, and none of them is the
      filter wildcard "all"; so comparing string values is the same as
      comparing members. */
  lemma NamesAreDistinct()
    ensures forall c, d: ReportCategory :: CategoryName(c) == CategoryName(d) ==> c == d
    ensures forall s, t: ReportStatus :: StatusName(s) == StatusName(t) ==> s == t
    ensures forall p, q: ReportPriority :: PriorityName(p) == PriorityName(q) ==> p == q
    ensures forall c: ReportCategory :: CategoryName(c) != "all"
    ensures forall s: ReportStatus :: StatusName(s) != "all"
  {
  }
}
