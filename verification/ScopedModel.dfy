/**
  The values of scoped memory: records, snapshots, queries, their normal forms and their validation
  (internal/domain/scopedmemory/models.go and the normal forms of internal/platform/store/file_store_scoped.go).
 */
module ScopedModel {
  import opened Wrappers
  import opened Ordering
  import opened Text

  /** Nanoseconds since the zero value of time.Time, so 0 is the zero time. */
  type Time = int

  const DEFAULT_PAGE_SIZE := 50
  const MAX_PAGE_SIZE := 500

  /** A class name that has not been read yet, or is not known, is kept as it was written. */
  datatype MemoryClass =
    | NoClass
    | PriorCycleSummaries | CarryForwardRisks | UnresolvedGaps | BacklogItems
    | ReviewerNotes | PolicyExceptions | WorkingContext | SnapshotReference
    | OtherClass(name: string)

  datatype Status = NoStatus | Open | Resolved | Superseded | Archived | OtherStatus(name: string)

  datatype Namespace = Namespace(repo: string, run: string, cycle: string, agent: string)

  /** The five provenance links of a record. */
  datatype Source = Source(run: string, cycle: string, artifact: string, policyDecision: string, modelProfile: string)

  /** Metadata and content values. Only the ones the service writes itself have a shape. */
  datatype Json = Text(text: string) | Number(number: int) | Instant(time: Time) | Sum(checksum: Checksum)
    | Object(fields: map<string, string>) | Opaque(code: nat)

  type JsonMap = map<string, Json>

  datatype Record = Record(
    id: string, scope: Namespace, class_: MemoryClass, status: Status,
    text: string, content: JsonMap, metadata: JsonMap, createdBy: string,
    createdAt: Time, updatedAt: Time, resolvedAt: Option<Time>, expiresAt: Option<Time>,
    source: Source)

  datatype Query = Query(scope: Namespace, class_: MemoryClass, status: Status, source: Source, limit: int, offset: int)

  datatype SnapshotScope = SnapshotScope(repo: string, run: string, cycle: string)

  datatype Snapshot = Snapshot(
    id: string, scope: SnapshotScope, createdAt: Time, createdBy: string, summary: string,
    refs: seq<string>, criteria: Query, manifestRef: string,
    checksum: Checksum, previous: Checksum, metadata: JsonMap)

  /** A manifest checksum. The hash is symbolic: a digest is determined by the payload and determines it. */
  datatype Checksum = NoChecksum | LegacyChecksum(snapshotId: string) | Digest(payload: Payload)

  datatype Payload = Payload(
    id: string, scope: SnapshotScope, createdBy: string, createdAt: Time, summary: string,
    refs: seq<string>, criteria: Query, manifestRef: string, previous: Checksum, metadata: JsonMap)

  datatype SnapshotQuery = SnapshotQuery(scope: SnapshotScope, limit: int, offset: int)

  datatype Page<T> = Page(items: seq<T>, total: nat, limit: int, offset: int, hasMore: bool)

  // ----- classes and statuses -----

  function NormalizeClass(c: MemoryClass): (r: MemoryClass)
    ensures !c.OtherClass? || r.OtherClass? ==> r == c
  {
    if !c.OtherClass? then c
    else
      var name := Fold(c.name);
      if name == "prior_cycle_summaries" || name == "cycle_summaries" then PriorCycleSummaries
      else if name == "carry_forward_risks" || name == "carry_forward_risk" then CarryForwardRisks
      else if name == "unresolved_gaps" || name == "unresolved_gap" then UnresolvedGaps
      else if name == "backlog_items" || name == "backlog_item" then BacklogItems
      else if name == "reviewer_notes" || name == "reviewer_note" then ReviewerNotes
      else if name == "policy_exceptions" || name == "policy_exception" then PolicyExceptions
      else if name == "working_context" then WorkingContext
      else if name == "memory_snapshot_reference" then SnapshotReference
      else if name == "" then NoClass
      else c
  }

  function NormalizeStatus(s: Status): (r: Status)
    ensures !s.OtherStatus? ==> r == s
  {
    if !s.OtherStatus? then s
    else
      var name := Fold(s.name);
      if name == "open" then Open
      else if name == "resolved" then Resolved
      else if name == "superseded" then Superseded
      else if name == "archived" then Archived
      else if name == "" then NoStatus
      else OtherStatus(name)
  }

  predicate KnownStatus(s: Status) {
    s.Open? || s.Resolved? || s.Superseded? || s.Archived?
  }

  lemma NormalizeStatusTwice(s: Status)
    ensures NormalizeStatus(NormalizeStatus(s)) == NormalizeStatus(s)
  {
    if s.OtherStatus? {
      FoldTwice(s.name);
    }
  }

  /** Classes whose records take part in status transitions. */
  predicate Actionable(c: MemoryClass) {
    match NormalizeClass(c)
    case UnresolvedGaps | CarryForwardRisks | BacklogItems | ReviewerNotes | PolicyExceptions => true
    case _ => false
  }

  /** Where a status stands in open < resolved < superseded < archived. */
  function Rank(s: Status): nat {
    match s
    case Open => 0
    case Resolved => 1
    case Superseded => 2
    case Archived => 3
    case _ => 4
  }

  predicate AllowedTransition(current: Status, next: Status) {
    current == next ||
    match current
    case Open => next.Resolved? || next.Superseded? || next.Archived?
    case Resolved => next.Superseded? || next.Archived?
    case Superseded => next.Archived?
    case _ => false
  }

  /** The transition table is exactly "do not move down" on the four statuses. */
  lemma TransitionTableClimbs(current: Status, next: Status)
    requires KnownStatus(current) && KnownStatus(next)
    ensures AllowedTransition(current, next) <==> Rank(current) <= Rank(next)
  {
  }

  // ----- namespaces and queries -----

  function NormalizeNamespace(n: Namespace): Namespace {
    Namespace(Trim(n.repo), Trim(n.run), Trim(n.cycle), Trim(n.agent))
  }

  predicate ValidNamespace(n: Namespace) {
    Trim(n.repo) != "" && Trim(n.run) != ""
  }

  function NormalizeScope(n: SnapshotScope): SnapshotScope {
    SnapshotScope(Trim(n.repo), Trim(n.run), Trim(n.cycle))
  }

  function TrimSource(p: Source): Source {
    Source(Trim(p.run), Trim(p.cycle), Trim(p.artifact), Trim(p.policyDecision), Trim(p.modelProfile))
  }

  function PageSize(limit: int): (n: int)
    ensures 1 <= n <= MAX_PAGE_SIZE
    ensures 1 <= limit <= MAX_PAGE_SIZE ==> n == limit
  {
    if limit <= 0 then DEFAULT_PAGE_SIZE else if limit > MAX_PAGE_SIZE then MAX_PAGE_SIZE else limit
  }

  function NormalizeQuery(q: Query): Query {
    Query(NormalizeNamespace(q.scope), NormalizeClass(q.class_), NormalizeStatus(q.status), TrimSource(q.source),
          PageSize(q.limit), if q.offset < 0 then 0 else q.offset)
  }

  function NormalizeSnapshotQuery(q: SnapshotQuery): SnapshotQuery {
    SnapshotQuery(NormalizeScope(q.scope), PageSize(q.limit), if q.offset < 0 then 0 else q.offset)
  }

  lemma NormalizeClassTwice(c: MemoryClass)
    ensures NormalizeClass(NormalizeClass(c)) == NormalizeClass(c)
  {
    hide NormalizeClass;
  }

  lemma NormalizeNamespaceTwice(n: Namespace)
    ensures NormalizeNamespace(NormalizeNamespace(n)) == NormalizeNamespace(n)
  {
    TrimTwice(n.repo);
    TrimTwice(n.run);
    TrimTwice(n.cycle);
    TrimTwice(n.agent);
  }

  lemma TrimSourceTwice(p: Source)
    ensures TrimSource(TrimSource(p)) == TrimSource(p)
  {
    TrimTwice(p.run);
    TrimTwice(p.cycle);
    TrimTwice(p.artifact);
    TrimTwice(p.policyDecision);
    TrimTwice(p.modelProfile);
  }

  lemma NormalizeQueryTwice(q: Query)
    ensures NormalizeQuery(NormalizeQuery(q)) == NormalizeQuery(q)
  {
    hide NormalizeClass, NormalizeStatus, Trim;
    NormalizeClassTwice(q.class_);
    NormalizeNamespaceTwice(q.scope);
    NormalizeStatusTwice(q.status);
    TrimSourceTwice(q.source);
  }

  // ----- how names and filters are read -----

  ghost predicate BlankStatus(s: Status) {
    s.NoStatus? || (s.OtherStatus? && Trim(s.name) == "")
  }

  ghost function StatusName(s: Status): string {
    match s
    case Open => "open"
    case Resolved => "resolved"
    case Superseded => "superseded"
    case Archived => "archived"
    case OtherStatus(name) => name
    case NoStatus => ""
  }

  /** What is given is the status, or a text that spells its name, in any letter case. */
  ghost predicate Names(given: Status, s: Status) {
    given == s || (given.OtherStatus? && Lower(Trim(given.name)) == StatusName(s))
  }

  /** A status that is given as a text is read by its name, and a blank text as none. Four are known. */
  lemma StatusRead(given: Status)
    ensures forall s :: KnownStatus(s) <==> s in {Open, Resolved, Superseded, Archived}
    ensures NormalizeStatus(given).NoStatus? <==> BlankStatus(given)
    ensures forall s :: KnownStatus(s) ==> (NormalizeStatus(given) == s <==> Names(given, s))
    ensures NormalizeStatus(given).OtherStatus? ==> Names(given, NormalizeStatus(given))
  {
    hide Fold, Lower, Trim;
    if given.OtherStatus? {
      FoldMeaning(given.name);
      LowerBlank(Trim(given.name));
    }
  }

  lemma LowerBlank(s: string)
    ensures Lower(s) == "" <==> s == ""
  {
  }

  /** The names of a class. */
  ghost function ClassNames(c: MemoryClass): set<string> {
    match c
    case NoClass => {""}
    case PriorCycleSummaries => {"prior_cycle_summaries", "cycle_summaries"}
    case CarryForwardRisks => {"carry_forward_risks", "carry_forward_risk"}
    case UnresolvedGaps => {"unresolved_gaps", "unresolved_gap"}
    case BacklogItems => {"backlog_items", "backlog_item"}
    case ReviewerNotes => {"reviewer_notes", "reviewer_note"}
    case PolicyExceptions => {"policy_exceptions", "policy_exception"}
    case WorkingContext => {"working_context"}
    case SnapshotReference => {"memory_snapshot_reference"}
    case OtherClass(_) => {}
  }

  /** A class that is given as a text is the one with that name, in any letter case; no two classes share a name. */
  lemma ClassRead(name: string, c: MemoryClass)
    requires !c.OtherClass?
    ensures NormalizeClass(OtherClass(name)) == c <==> Lower(Trim(name)) in ClassNames(c)
  {
    hide NormalizeClass, ClassNames;
    var read, as_ := Lower(Trim(name)), NormalizeClass(OtherClass(name));
    ClassHasName(name);
    if read in ClassNames(c) && !as_.OtherClass? {
      ClassStarts(c, read);
      ClassStarts(as_, read);
    }
  }

  lemma ClassHasName(name: string)
    ensures var as_ := NormalizeClass(OtherClass(name));
      if as_.OtherClass? then forall c :: Lower(Trim(name)) !in ClassNames(c) else Lower(Trim(name)) in ClassNames(as_)
  {
    hide Lower, Trim, Fold;
    FoldMeaning(name);
  }

  /** Their first two letters tell the names of different classes apart. */
  lemma ClassStarts(c: MemoryClass, name: string)
    requires name in ClassNames(c)
    ensures name[..Min(2, |name|)] == match c
      case PriorCycleSummaries => if |name| == 15 then "cy" else "pr"
      case CarryForwardRisks => "ca"
      case UnresolvedGaps => "un"
      case BacklogItems => "ba"
      case ReviewerNotes => "re"
      case PolicyExceptions => "po"
      case WorkingContext => "wo"
      case SnapshotReference => "me"
      case _ => ""
  {
  }

  /** The classes with status transitions are five, by any of their names. */
  lemma ActionableClasses(c: MemoryClass)
    ensures Actionable(c) <==>
      var five := {UnresolvedGaps, CarryForwardRisks, BacklogItems, ReviewerNotes, PolicyExceptions};
      c in five || (c.OtherClass? && exists d :: d in five && Lower(Trim(c.name)) in ClassNames(d))
  {
    hide NormalizeClass, Lower, Trim;
    if c.OtherClass? {
      var five := {UnresolvedGaps, CarryForwardRisks, BacklogItems, ReviewerNotes, PolicyExceptions};
      forall d | d in five ensures NormalizeClass(c) == d <==> Lower(Trim(c.name)) in ClassNames(d) {
        ClassRead(c.name, d);
      }
    }
  }

  /** Without a limit a page holds 50 entries, and never more than 500; a negative offset counts as none. */
  ghost predicate PagedAs(limit: int, offset: int, givenLimit: int, givenOffset: int) {
    && limit == (if 1 <= givenLimit <= 500 then givenLimit else if givenLimit < 1 then 50 else 500)
    && offset == if givenOffset < 0 then 0 else givenOffset
  }

  lemma QueryPages(q: Query, sq: SnapshotQuery)
    ensures PagedAs(NormalizeQuery(q).limit, NormalizeQuery(q).offset, q.limit, q.offset)
    ensures PagedAs(NormalizeSnapshotQuery(sq).limit, NormalizeSnapshotQuery(sq).offset, sq.limit, sq.offset)
    ensures NormalizeSnapshotQuery(sq).scope == NormalizeScope(sq.scope)
  {
    hide Trim;
  }

  /** A text filter: a blank one lets everything pass. */
  ghost predicate Passes(wanted: string, actual: string) {
    Trim(wanted) == "" || actual == Trim(wanted)
  }

  ghost predicate InScope(r: Record, n: Namespace) {
    Passes(n.repo, r.scope.repo) && Passes(n.run, r.scope.run) && Passes(n.cycle, r.scope.cycle)
    && Passes(n.agent, r.scope.agent)
  }

  ghost predicate FromSource(r: Record, s: Source) {
    && Passes(s.run, r.source.run) && Passes(s.cycle, r.source.cycle) && Passes(s.artifact, r.source.artifact)
    && Passes(s.policyDecision, r.source.policyDecision) && Passes(s.modelProfile, r.source.modelProfile)
  }

  /** What a query asks of a record as read, filter by filter. */
  ghost predicate Asked(r: Record, q: Query) {
    && InScope(r, q.scope) && FromSource(r, q.source)
    && (NormalizeClass(q.class_).NoClass? || r.class_ == NormalizeClass(q.class_))
    && (NormalizeStatus(q.status).NoStatus? || r.status == NormalizeStatus(q.status))
  }

  lemma MatchesAsked(r: Record, q: Query)
    requires NormalizeRecord(r) == r
    ensures Matches(r, NormalizeQuery(q)) <==> Asked(r, q)
  {
    hide NormalizeClass, NormalizeStatus, Trim;
  }

  // ----- records and snapshots -----

  /** normalizeScopedRecord */
  function NormalizeRecord(r: Record): (n: Record)
    ensures n.id == r.id
  {
    var creator := Trim(r.createdBy);
    var created := if r.createdAt == 0 then r.updatedAt else r.createdAt;
    r.(scope := NormalizeNamespace(r.scope),
       class_ := NormalizeClass(r.class_),
       status := if NormalizeStatus(r.status) == NoStatus then Open else NormalizeStatus(r.status),
       text := Trim(r.text),
       createdBy := if creator == "" then "system" else creator,
       createdAt := created,
       updatedAt := if r.updatedAt == 0 then created else r.updatedAt,
       source := TrimSource(r.source))
  }

  lemma NormalizeRecordTwice(r: Record)
    ensures NormalizeRecord(NormalizeRecord(r)) == NormalizeRecord(r)
  {
    hide NormalizeClass, NormalizeStatus, Trim;
    NormalizeClassTwice(r.class_);
    NormalizeNamespaceTwice(r.scope);
    NormalizeStatusTwice(r.status);
    TrimTwice(r.text);
    TrimTwice(r.createdBy);
    assert Trim("system") == "system";
    TrimSourceTwice(r.source);
  }

  predicate ValidRecord(r: Record) {
    && Trim(r.id) != ""
    && ValidNamespace(r.scope)
    && !NormalizeClass(r.class_).NoClass?
    && !NormalizeStatus(r.status).NoStatus?
    && (NormalizeStatus(r.status).Resolved? ==> r.resolvedAt.Some?)
    && (Trim(r.text) != "" || r.content != map[])
    && Trim(r.createdBy) != ""
    && r.createdAt != 0 && r.updatedAt != 0
  }

  /** normalizeScopedSnapshot */
  function NormalizeSnapshot(s: Snapshot): (n: Snapshot)
    ensures n.id == s.id
  {
    var creator := Trim(s.createdBy);
    s.(scope := NormalizeScope(s.scope),
       refs := Clean(s.refs),
       createdBy := if creator == "" then "system" else creator,
       checksum := if s.checksum.NoChecksum? then LegacyChecksum(Trim(s.id)) else s.checksum,
       criteria := NormalizeQuery(s.criteria))
  }

  lemma NormalizeSnapshotTwice(s: Snapshot)
    ensures NormalizeSnapshot(NormalizeSnapshot(s)) == NormalizeSnapshot(s)
  {
    TrimTwice(s.scope.repo);
    TrimTwice(s.scope.run);
    TrimTwice(s.scope.cycle);
    CleanTwice(s.refs);
    TrimTwice(s.createdBy);
    assert Trim("system") == "system";
    NormalizeQueryTwice(s.criteria);
  }

  predicate ValidSnapshot(s: Snapshot) {
    && Trim(s.id) != ""
    && Trim(s.scope.repo) != "" && Trim(s.scope.run) != ""
    && Trim(s.createdBy) != ""
    && s.createdAt != 0
    && Trim(s.summary) != ""
    && !s.checksum.NoChecksum?
  }

  /**
    What reading makes of a stored record: texts are trimmed, names are read, and what a legacy record lacks is filled
    in. Nothing else changes.
   */
  lemma RecordRead(r: Record)
    ensures var n := NormalizeRecord(r);
      && n.scope == Namespace(Trim(r.scope.repo), Trim(r.scope.run), Trim(r.scope.cycle), Trim(r.scope.agent))
      && n.class_ == NormalizeClass(r.class_) && n.text == Trim(r.text)
      && n.status == (if BlankStatus(r.status) then Open else NormalizeStatus(r.status))
      && n.createdBy == (if Trim(r.createdBy) == "" then "system" else Trim(r.createdBy))
      && (r.createdAt != 0 ==> n.createdAt == r.createdAt) && (r.updatedAt != 0 ==> n.updatedAt == r.updatedAt)
      && (r.createdAt == 0 || r.updatedAt == 0 ==> n.createdAt == n.updatedAt)
      && n.source == Source(Trim(r.source.run), Trim(r.source.cycle), Trim(r.source.artifact),
                            Trim(r.source.policyDecision), Trim(r.source.modelProfile))
      && n.id == r.id && n.content == r.content && n.metadata == r.metadata && n.resolvedAt == r.resolvedAt
      && n.expiresAt == r.expiresAt
  {
    hide Trim, NormalizeClass, NormalizeStatus;
    StatusRead(r.status);
  }

  /**
    A record is stored exactly when it has an id, a repository and a run, a class, a text or content, and a date, and,
    if it is resolved, says when.
   */
  lemma RecordAccepted(r: Record)
    ensures ValidRecord(NormalizeRecord(r)) <==>
      && Trim(r.id) != "" && Trim(r.scope.repo) != "" && Trim(r.scope.run) != "" && !NormalizeClass(r.class_).NoClass?
      && (Names(r.status, Resolved) ==> r.resolvedAt.Some?) && (Trim(r.text) != "" || r.content != map[])
      && (r.createdAt != 0 || r.updatedAt != 0)
  {
    hide Trim, NormalizeClass, NormalizeStatus, Names;
    StatusRead(r.status);
    NormalizeStatusTwice(r.status);
    NormalizeClassTwice(r.class_);
    NormalizeNamespaceTwice(r.scope);
    TrimTwice(r.text);
    TrimTwice(r.createdBy);
    assert Trim("system") == "system";
  }

  /** A snapshot is stored exactly when it has an id, a repository and a run, a date and a summary. */
  lemma SnapshotAccepted(s: Snapshot)
    ensures ValidSnapshot(NormalizeSnapshot(s)) <==>
      && Trim(s.id) != "" && Trim(s.scope.repo) != "" && Trim(s.scope.run) != "" && s.createdAt != 0
      && Trim(s.summary) != ""
    ensures var n := NormalizeSnapshot(s);
      && n.scope == SnapshotScope(Trim(s.scope.repo), Trim(s.scope.run), Trim(s.scope.cycle))
      && n.createdBy == (if Trim(s.createdBy) == "" then "system" else Trim(s.createdBy))
      && n.checksum == (if s.checksum.NoChecksum? then LegacyChecksum(Trim(s.id)) else s.checksum)
      && n.refs == Clean(s.refs) && n.criteria == NormalizeQuery(s.criteria)
      && n.id == s.id && n.createdAt == s.createdAt && n.summary == s.summary && n.manifestRef == s.manifestRef
      && n.previous == s.previous && n.metadata == s.metadata
  {
    hide Trim, Clean, NormalizeQuery;
    TrimTwice(s.scope.repo);
    TrimTwice(s.scope.run);
    TrimTwice(s.createdBy);
    assert Trim("system") == "system";
  }

  /** computeSnapshotChecksum: everything but the checksum itself, with the refs sorted. */
  function ComputeChecksum(s: Snapshot): Checksum {
    Digest(Payload(s.id, s.scope, s.createdBy, s.createdAt, s.summary, SortBy(Before, s.refs),
                   s.criteria, s.manifestRef, s.previous, s.metadata))
  }

  // ----- selection and order -----

  function Wants(wanted: string, actual: string): bool {
    wanted == "" || actual == wanted
  }

  /** Does a normalised record pass the filters of a normalised query? */
  predicate Matches(r: Record, q: Query) {
    && Wants(q.scope.repo, r.scope.repo)
    && Wants(q.scope.run, r.scope.run)
    && Wants(q.scope.cycle, r.scope.cycle)
    && Wants(q.scope.agent, r.scope.agent)
    && (q.class_.NoClass? || NormalizeClass(r.class_) == q.class_)
    && (q.status.NoStatus? || NormalizeStatus(r.status) == q.status)
    && Wants(q.source.run, Trim(r.source.run))
    && Wants(q.source.cycle, Trim(r.source.cycle))
    && Wants(q.source.artifact, Trim(r.source.artifact))
    && Wants(q.source.policyDecision, Trim(r.source.policyDecision))
    && Wants(q.source.modelProfile, Trim(r.source.modelProfile))
  }

  predicate MatchesScope(s: Snapshot, scope: SnapshotScope) {
    && Wants(scope.repo, s.scope.repo)
    && Wants(scope.run, s.scope.run)
    && Wants(scope.cycle, s.scope.cycle)
  }

  /** Oldest first, ties by id. */
  predicate RecordBefore(a: Record, b: Record) {
    a.createdAt < b.createdAt || (a.createdAt == b.createdAt && Before(a.id, b.id))
  }

  predicate SnapshotBefore(a: Snapshot, b: Snapshot) {
    a.createdAt < b.createdAt || (a.createdAt == b.createdAt && Before(a.id, b.id))
  }

  lemma RecordBeforeTotalOn(s: set<Record>)
    requires forall a, b :: a in s && b in s && a.id == b.id ==> a == b
    ensures TotalOn(RecordBefore, s)
  {
    forall a, b | a in s && b in s
      ensures !RecordBefore(a, a) && (a != b ==> RecordBefore(a, b) || RecordBefore(b, a))
    {
      BeforeTotal(a.id, b.id);
    }
    forall a: Record, b: Record, c: Record | RecordBefore(a, b) && RecordBefore(b, c) ensures RecordBefore(a, c) {
      if Before(a.id, b.id) && Before(b.id, c.id) {
        BeforeTransitive(a.id, b.id, c.id);
      }
    }
  }

  lemma SnapshotBeforeTotalOn(s: set<Snapshot>)
    requires forall a, b :: a in s && b in s && a.id == b.id ==> a == b
    ensures TotalOn(SnapshotBefore, s)
  {
    forall a, b | a in s && b in s
      ensures !SnapshotBefore(a, a) && (a != b ==> SnapshotBefore(a, b) || SnapshotBefore(b, a))
    {
      BeforeTotal(a.id, b.id);
    }
    forall a: Snapshot, b: Snapshot, c: Snapshot | SnapshotBefore(a, b) && SnapshotBefore(b, c)
      ensures SnapshotBefore(a, c)
    {
      if Before(a.id, b.id) && Before(b.id, c.id) {
        BeforeTransitive(a.id, b.id, c.id);
      }
    }
  }

  // ----- paging -----

  function Min(a: int, b: int): int {
    if a < b then a else b
  }

  /** One page of a sorted listing. */
  function PageOf<T>(listing: seq<T>, limit: int, offset: int): Page<T>
    requires 1 <= limit && 0 <= offset
  {
    var start := Min(offset, |listing|);
    var end := Min(start + limit, |listing|);
    Page(listing[start..end], |listing|, limit, offset, end < |listing|)
  }

  /** What is left of a listing after a starting offset. */
  function From<T>(listing: seq<T>, offset: int): seq<T>
    requires 0 <= offset
  {
    listing[Min(offset, |listing|)..]
  }
}
