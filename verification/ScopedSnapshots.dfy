/** What a new snapshot holds, and why storing it keeps the chain. */
module ScopedSnapshots {
  import opened Wrappers
  import opened Ordering
  import opened Text
  import opened ScopedModel
  import opened ScopedStore
  import opened SnapshotChain
  import opened Compaction
  import opened ScopedRules

  datatype SnapshotInput = SnapshotInput(
    scope: Namespace, createdBy: string, summary: string, refs: seq<string>,
    criteria: Option<Query>, manifestRef: string, metadata: JsonMap)

  function Default(text: string, default_: string): string {
    if Trim(text) == "" then default_ else Trim(text)
  }

  function FillBlank(text: string, filler: string): string {
    if text == "" then filler else text
  }

  const NO_CRITERIA := Query(Namespace("", "", "", ""), NoClass, NoStatus, Source("", "", "", "", ""), 0, 0)

  /** The caller's criteria, normalised, or the blank query, with blank scope fields taken from the namespace. */
  function CriteriaFor(criteria: Option<Query>, ns: Namespace): Query {
    var q := if criteria.Some? then NormalizeQuery(criteria.value) else NO_CRITERIA;
    q.(scope := Namespace(FillBlank(q.scope.repo, ns.repo), FillBlank(q.scope.run, ns.run),
                          FillBlank(q.scope.cycle, ns.cycle), q.scope.agent))
  }

  /**
    The saved criteria are the hashed ones when the caller gave some; otherwise the saved limit is 50 and the hashed one
    0.
   */
  lemma CriteriaSaved(criteria: Option<Query>, ns: Namespace)
    requires NormalizeNamespace(ns) == ns
    ensures var c := CriteriaFor(criteria, ns);
      if criteria.Some? then NormalizeQuery(c) == c && c.limit != 0
      else NormalizeQuery(c) == c.(limit := DEFAULT_PAGE_SIZE) && c.limit == 0
  {
    assert Trim("") == "";
    if criteria.Some? {
      NormalizeQueryTwice(criteria.value);
    }
    hide Trim, NormalizeClass, NormalizeStatus, Fold;
  }

  function SnapshotScopeOf(ns: Namespace): SnapshotScope {
    SnapshotScope(ns.repo, ns.run, ns.cycle)
  }

  /** The snapshot CreateSnapshot hands to the store. */
  function BuildSnapshot(id: string, input: SnapshotInput, refs: seq<string>, previous: Checksum, now: Time): Snapshot {
    var ns := NormalizeNamespace(input.scope);
    var s := Snapshot(id, SnapshotScopeOf(ns), now, Default(input.createdBy, "control-plane"),
                      Default(input.summary, "scoped memory snapshot"), refs, CriteriaFor(input.criteria, ns),
                      Trim(input.manifestRef), NoChecksum, previous, input.metadata);
    s.(checksum := ComputeChecksum(s))
  }

  lemma DefaultTrimmed(text: string, default_: string)
    requires Trim(default_) == default_ && default_ != ""
    ensures Trim(Default(text, default_)) == Default(text, default_) && Default(text, default_) != ""
  {
    hide Trim;
    TrimTwice(text);
  }

  lemma ScopeNormal(n: Namespace)
    requires ValidNamespace(n)
    ensures var ns := NormalizeNamespace(n); var scope := SnapshotScopeOf(ns);
      && NormalizeNamespace(ns) == ns && ValidNamespace(ns) && NormalizeScope(scope) == scope
      && ns.repo != "" && ns.run != ""
  {
    hide Trim;
    TrimTwice(n.repo);
    TrimTwice(n.run);
    TrimTwice(n.cycle);
    TrimTwice(n.agent);
  }

  /**
    What is stored is what was built, except for the criteria's page limit; so the stored snapshot checks out
    against its own checksum exactly when the caller gave query criteria.
   */
  lemma BuiltSnapshot(id: string, input: SnapshotInput, refs: seq<string>, previous: Checksum, now: Time)
    requires GeneratedId(id) && ValidNamespace(input.scope) && Clean(refs) == refs && 0 < now
    ensures var b := BuildSnapshot(id, input, refs, previous, now); var s := NormalizeSnapshot(b);
      && s == b.(criteria := NormalizeQuery(b.criteria))
      && ValidSnapshot(s) && UsableId(s.id) && SnapshotOk(s, now)
      && (ComputeChecksum(s) == s.checksum <==> input.criteria.Some?)
  {
    hide UsableId, Trim, NormalizeQuery, CriteriaFor, Clean, NormalizeScope, NormalizeNamespace, SortBy,
        ValidNamespace, Default;
    var ns := NormalizeNamespace(input.scope);
    ScopeNormal(input.scope);
    CriteriaSaved(input.criteria, ns);
    assert Trim("control-plane") == "control-plane" && Trim("scoped memory snapshot") == "scoped memory snapshot" by {
      Literals();
    }
    DefaultTrimmed(input.createdBy, "control-plane");
    DefaultTrimmed(input.summary, "scoped memory snapshot");
    var b := BuildSnapshot(id, input, refs, previous, now);
    var s := NormalizeSnapshot(b);
    NormalizeSnapshotTwice(b);
    ScopeTrimmed(ns);
  }

  lemma BuiltFields(id: string, input: SnapshotInput, refs: seq<string>, previous: Checksum, now: Time)
    requires ValidNamespace(input.scope) && Clean(refs) == refs
    ensures var s := NormalizeSnapshot(BuildSnapshot(id, input, refs, previous, now));
      && s.id == id && s.refs == refs && s.previous == previous && s.createdAt == now
      && s.scope == SnapshotScopeOf(NormalizeNamespace(input.scope))
  {
    hide Trim, NormalizeQuery, CriteriaFor, Clean, NormalizeScope, NormalizeNamespace, SortBy, ValidNamespace, Default;
    ScopeNormal(input.scope);
  }

  lemma ScopeTrimmed(ns: Namespace)
    requires NormalizeNamespace(ns) == ns && ValidNamespace(ns)
    ensures Trim(ns.repo) == ns.repo != "" && Trim(ns.run) == ns.run != ""
  {
    hide Trim;
  }

  lemma Literals()
    ensures Trim("control-plane") == "control-plane" && Trim("scoped memory snapshot") == "scoped memory snapshot"
    ensures Trim("scoped memory checkpoint") == "scoped memory checkpoint"
  {
  }

  /** Storing the built snapshot keeps the invariant; what it points back to is what the scope shows. */
  lemma StoreSnapshotKeeps(s: State, snapshot: Snapshot, now: Time)
    requires Inv(s) && s.clock <= now && snapshot.id !in s.snapshots && snapshot.createdAt == now
    requires SnapshotOk(snapshot, now)
    requires snapshot.previous == PreviousChecksum(SnapshotListing(s.snapshots, snapshot.scope))
    ensures var t := State(s.records, s.snapshots[snapshot.id := snapshot], now); Inv(t) && Evolves(s, t)
  {
    hide RecordOk, SnapshotOk, LinkOk, GapsUnique, RecordEvolves, SnapshotListing, PreviousChecksum;
    AddSnapshotKeeps(s.snapshots, s.clock, snapshot);
    RecordsOkLater(s.records, s.clock, now);
    EvolvesSelf(s.records);
  }

  // ----- chains of any length -----

  function Letters(n: nat): string {
    seq(n, i => 'a')
  }

  lemma LettersUsable(n: nat)
    requires 0 < n
    ensures GeneratedId(Letters(n))
  {
    var id := Letters(n);
    assert Trim(id) == id;
    assert '/' !in id && '\\' !in id;
  }

  /** A store as the service can leave it: n snapshots of one cycle, taken one instant after the other. */
  lemma {:induction false} ChainOfLength(n: nat, ns: Namespace) returns (m: map<string, Snapshot>)
    requires NormalizeNamespace(ns) == ns && ValidNamespace(ns)
    ensures SnapshotsOk(m, n + 1) && StrictTimes(SnapshotListing(m, SnapshotScopeOf(ns)))
    ensures |SnapshotListing(m, SnapshotScopeOf(ns))| == n
    ensures forall id :: id in m ==> |id| <= n && m[id].createdAt <= n
  {
    hide SnapshotsOk, SnapshotListing, StrictTimes, GeneratedId, NormalizeNamespace, ValidNamespace, SnapshotOk,
      PreviousChecksum;
    var scope := SnapshotScopeOf(ns);
    if n == 0 {
      m := map[];
      NoSnapshots(scope);
    } else {
      var older := ChainOfLength(n - 1, ns);
      SnapshotsKeyed(older, n);
      LettersUsable(n);
      var s := TakenAt(n, n, ns, PreviousChecksum(SnapshotListing(older, scope)));
      AddSnapshotKeeps(older, n, s);
      SnapshotsOkLater(older[s.id := s], n, n + 1);
      SnapshotsKeyed(older[s.id := s], n + 1);
      OneMore(older, n, s, scope);
      m := older[s.id := s];
    }
  }

  lemma NoSnapshots(scope: SnapshotScope)
    ensures SnapshotsOk(map[], 1) && SnapshotListing(map[], scope) == [] && StrictTimes([])
  {
    hide NormalizeSnapshot, MatchesScope;
    SnapshotListingMeaning(map[], scope);
  }

  /** The snapshot the service would take of an otherwise blank input. */
  lemma TakenAt(n: nat, now: Time, ns: Namespace, previous: Checksum) returns (s: Snapshot)
    requires 0 < n && 0 < now && NormalizeNamespace(ns) == ns && ValidNamespace(ns)
    ensures s.id == Letters(n) && s.createdAt == now && s.scope == SnapshotScopeOf(ns) && s.previous == previous
    ensures SnapshotOk(s, now)
  {
    hide GeneratedId, NormalizeNamespace, ValidNamespace, SnapshotOk, BuildSnapshot, NormalizeSnapshot;
    LettersUsable(n);
    assert Clean([]) == [];
    var input := SnapshotInput(ns, "", "", [], None, "", map[]);
    s := NormalizeSnapshot(BuildSnapshot(Letters(n), input, [], previous, now));
    BuiltSnapshot(Letters(n), input, [], previous, now);
    BuiltFields(Letters(n), input, [], previous, now);
  }

  lemma OneMore(m: map<string, Snapshot>, n: nat, s: Snapshot, scope: SnapshotScope)
    requires SnapshotsOk(m, n) && s.id !in m && SnapshotOk(s, n) && s.createdAt == n && s.scope == scope
    requires KeyedSnapshots(m) && KeyedSnapshots(m[s.id := s]) && (forall id :: id in m ==> m[id].createdAt < n)
    requires StrictTimes(SnapshotListing(m, scope))
    ensures var l := SnapshotListing(m, scope);
      SnapshotListing(m[s.id := s], scope) == l + [s] && StrictTimes(l + [s])
  {
    hide SnapshotListing, SnapshotOk, HashesItself, LinkOk, SnapshotsOk, Sorted, KeyedSnapshots, NormalizeSnapshot;
    var l := SnapshotListing(m, scope);
    ShownOk(m, n, scope);
    forall i | 0 <= i < |l| ensures l[i].createdAt < n {
      assert l[i] in l;
    }
    ListingOfMore(m, n, s);
  }

  /**
    The bound of the chain is reached: some store with strictly increasing times holds 502 snapshots of a cycle, not
    linked.
   */
  lemma LongChainBreaks()
    ensures exists m, clock, scope ::
      SnapshotsOk(m, clock) && CycleScope(scope) && StrictTimes(SnapshotListing(m, scope))
      && |SnapshotListing(m, scope)| == MAX_PAGE_SIZE + 2 && !Linked(SnapshotListing(m, scope))
  {
    hide SnapshotsOk, SnapshotListing, StrictTimes, Linked;
    var ns := Namespace("repo", "run", "cycle", "");
    CycleNamespace();
    var m := ChainOfLength(MAX_PAGE_SIZE + 2, ns);
    SnapshotsKeyed(m, MAX_PAGE_SIZE + 3);
    CycleChain(m, MAX_PAGE_SIZE + 3, SnapshotScopeOf(ns));
  }

  /**
    A tie breaks the chain of some store: two snapshots of a cycle, taken in one instant, of which the second has the
    smaller id.
   */
  lemma TieBreaks()
    ensures exists m: map<string, Snapshot>, scope ::
      SnapshotsOk(m, 1) && CycleScope(scope) && |m| == 2 && (forall id :: id in m ==> m[id].scope == scope)
      && !Linked(SnapshotListing(m, scope))
  {
    hide SnapshotsOk, SnapshotOk, SnapshotListing, CycleScope, SnapshotBefore, GeneratedId;
    var ns := Namespace("repo", "run", "cycle", "");
    var scope := SnapshotScopeOf(ns);
    CycleNamespace();
    NoSnapshots(scope);
    var first := TakenAt(2, 1, ns, NoChecksum);
    var one := map[first.id := first];
    assert one == map[][first.id := first];
    AddSnapshotKeeps(map[], 1, first);
    SnapshotsKeyed(one, 1);
    OneMore(map[], 1, first, scope);
    assert SnapshotListing(one, scope) == [first];
    var second := TakenAt(1, 1, ns, PreviousChecksum([first]));
    var two := one[second.id := second];
    AddSnapshotKeeps(one, 1, second);
    SnapshotsKeyed(two, 1);
    TiedAfter(first, second);
    ChainGrowsExact(one, 1, second);
  }

  lemma TiedAfter(a: Snapshot, b: Snapshot)
    requires a.createdAt == b.createdAt && a.id == Letters(2) && b.id == Letters(1)
    ensures a.id != b.id && !SnapshotBefore(a, b)
  {
    assert a.id == "aa" && b.id == "a";
  }

  lemma CycleNamespace()
    ensures var ns := Namespace("repo", "run", "cycle", "");
      NormalizeNamespace(ns) == ns && ValidNamespace(ns) && CycleScope(SnapshotScopeOf(ns))
  {
  }

  // ----- refs and export -----

  function IdsOf(records: seq<Record>): seq<string> {
    seq(|records|, i requires 0 <= i < |records| => records[i].id)
  }

  /** The caller's refs, cleaned; without any, the ids of everything the criteria list. */
  ghost function RefsFor(m: map<string, Record>, input: SnapshotInput): seq<string>
    requires KeyedRecords(m)
  {
    var q := NormalizeQuery(CriteriaFor(input.criteria, NormalizeNamespace(input.scope)));
    if Clean(input.refs) != [] then Clean(input.refs)
    else Clean(IdsOf(From(Listing(m, q), q.offset)))
  }

  /**
    What taking a snapshot answers and leaves behind, whatever it is asked: it is refused for its namespace or for a
    taken id, or the one snapshot that is added is the built one, which checks out exactly when criteria were given.
   */
  ghost predicate SnapshotTaken(s: State, t: State, input: SnapshotInput, r: Result<Snapshot>) {
    && t.records == s.records
    && match r
       case Err(error) =>
         && t.snapshots == s.snapshots
         && if ValidNamespace(input.scope) then error == AlreadyExists && IdTaken(s.snapshots.Keys)
            else error == Rejected
       case Ok(new_) =>
         && ValidNamespace(input.scope) && KeyedRecords(s.records) && KeyedSnapshots(s.snapshots)
         && new_.id !in s.snapshots && t.snapshots == s.snapshots[new_.id := new_]
         && (var scope := SnapshotScopeOf(NormalizeNamespace(input.scope));
             var previous := PreviousChecksum(SnapshotListing(s.snapshots, scope));
             new_ == NormalizeSnapshot(BuildSnapshot(new_.id, input, RefsFor(s.records, input), previous, t.clock)))
         && new_.refs == RefsFor(s.records, input)
         && (ComputeChecksum(new_) == new_.checksum <==> input.criteria.Some?)
  }

  /** The refs of a snapshot that exist, as records, in ref order. */
  ghost function Present(m: map<string, Record>, refs: seq<string>): seq<Record> {
    if refs == [] then []
    else
      var front, id := Present(m, refs[..|refs| - 1]), refs[|refs| - 1];
      if id in m then front + [NormalizeRecord(m[id])] else front
  }

  /** Every ref names a stored record. */
  ghost predicate RefsResolve(m: map<string, Record>, refs: seq<string>) {
    forall id :: id in refs ==> id in m && UsableId(id)
  }

  /** When every ref resolves, the export is one record per ref, in ref order. */
  lemma {:induction false} PresentAll(m: map<string, Record>, refs: seq<string>)
    requires KeyedRecords(m) && RefsResolve(m, refs)
    ensures |Present(m, refs)| == |refs| && forall k :: 0 <= k < |refs| ==> Present(m, refs)[k].id == refs[k]
  {
    hide NormalizeRecord, UsableId, RefsResolve, KeyedRecords;
    if refs != [] {
      var front, last := refs[..|refs| - 1], refs[|refs| - 1];
      RefsSplit(m, refs);
      PresentAll(m, front);
      assert Present(m, refs) == Present(m, front) + [NormalizeRecord(m[last])];
    }
  }

  lemma RefsSplit(m: map<string, Record>, refs: seq<string>)
    requires KeyedRecords(m) && RefsResolve(m, refs) && refs != []
    ensures RefsResolve(m, refs[..|refs| - 1]) && refs[|refs| - 1] in m && m[refs[|refs| - 1]].id == refs[|refs| - 1]
  {
    hide UsableId;
    assert refs[|refs| - 1] in refs;
    assert forall id :: id in refs[..|refs| - 1] ==> id in refs;
  }

  /** Records are never removed, so refs that resolve once resolve in every later state. */
  lemma RefsResolveLater(s: State, t: State, refs: seq<string>)
    requires Evolves(s, t) && RefsResolve(s.records, refs)
    ensures RefsResolve(t.records, refs)
  {
    hide RecordEvolves, UsableId;
  }

  datatype SnapshotExport = SnapshotExport(snapshot: Snapshot, records: seq<Record>)

  datatype RunExport = RunExport(
    scope: Namespace, generatedAt: Time, records: seq<Record>, snapshots: seq<Snapshot>,
    classCounts: map<MemoryClass, nat>, statusCounts: map<Status, nat>,
    snapshotRefs: seq<string>, snapshotChecksums: seq<string>, latestChecksum: Checksum)

  function SnapshotIds(snapshots: seq<Snapshot>): (r: seq<string>)
    ensures |r| == |snapshots|
  {
    seq(|snapshots|, i requires 0 <= i < |snapshots| => snapshots[i].id)
  }

  function ChecksumTexts(snapshots: seq<Snapshot>, hexOf: Checksum -> string): (r: seq<string>)
    ensures |r| == |snapshots|
  {
    seq(|snapshots|, i requires 0 <= i < |snapshots| => hexOf(snapshots[i].checksum))
  }

  /** The sorted ids of listed snapshots: each once. */
  lemma SortedIds(l: seq<Snapshot>)
    requires Sorted(SnapshotBefore, l) && forall x, y :: x in l && y in l && x.id == y.id ==> x == y
    ensures Lists(Before, Elems(SnapshotIds(l)), SortBy(Before, SnapshotIds(l)))
  {
    var ids := SnapshotIds(l);
    forall i, j | 0 <= i < j < |ids| ensures ids[i] != ids[j] {
      assert l[i] in l && l[j] in l && SnapshotBefore(l[i], l[j]);
      BeforeTotal(l[i].id, l[i].id);
    }
    BeforeTotalOn(Elems(ids));
    SortCollected(Before, ids, Elems(ids));
  }

  /** The head of a scope's whole listing. */
  function HeadChecksum(listing: seq<Snapshot>): Checksum {
    if listing == [] then NoChecksum else LatestOf(listing).checksum
  }

  /**
    The head a run export reports is the checksum the next snapshot of that scope will carry exactly while the snapshots
    fit in one page, or none past the page is younger than the page's last.
   */
  lemma ExportedHeadIsNext(m: map<string, Snapshot>, clock: Time, scope: SnapshotScope)
    requires SnapshotsOk(m, clock)
    ensures var l := SnapshotListing(m, scope);
      HeadChecksum(l) == PreviousChecksum(l) <==>
        |l| <= MAX_PAGE_SIZE || l[|l| - 1].createdAt == l[MAX_PAGE_SIZE - 1].createdAt
  {
    hide SnapshotsOk, SnapshotListing, LatestOf, HashesItself, Sorted;
    SnapshotsKeyed(m, clock);
    var l := SnapshotListing(m, scope);
    if |l| <= MAX_PAGE_SIZE {
      assert l[..|l|] == l;
    } else {
      ShownOk(m, clock, scope);
      hide Shown;
      LatestOfPage(l, MAX_PAGE_SIZE);
      var head, next := LatestOf(l), LatestOf(l[..MAX_PAGE_SIZE]);
      if head != next {
        ChecksumsTellApart(head, next);
      }
    }
  }

  function ClassesOf(records: seq<Record>): (r: seq<MemoryClass>)
    ensures |r| == |records|
  {
    seq(|records|, i requires 0 <= i < |records| => records[i].class_)
  }

  function StatusesOf(records: seq<Record>): (r: seq<Status>)
    ensures |r| == |records|
  {
    seq(|records|, i requires 0 <= i < |records| => records[i].status)
  }

  /** The query behind a run export and behind the listing of one class. */
  function RunQuery(ns: Namespace): Query {
    Query(Namespace(ns.repo, ns.run, ns.cycle, ""), NoClass, NoStatus, Source("", "", "", "", ""), MAX_PAGE_SIZE, 0)
  }

  function ClassQuery(ns: Namespace, c: MemoryClass): Query {
    Query(Namespace(ns.repo, ns.run, "", ""), c, NoStatus, Source("", "", "", "", ""), MAX_PAGE_SIZE, 0)
  }

  lemma RunQueryNormal(ns: Namespace)
    requires NormalizeNamespace(ns) == ns
    ensures NormalizeQuery(RunQuery(ns)) == RunQuery(ns)
  {
    assert Trim("") == "";
    hide Trim, Fold;
  }

  lemma ClassQueryNormal(ns: Namespace, c: MemoryClass)
    requires NormalizeNamespace(ns) == ns && !c.OtherClass?
    ensures NormalizeQuery(ClassQuery(ns, c)) == ClassQuery(ns, c)
  {
    assert Trim("") == "";
    hide Trim, Fold;
  }

  // ----- the compact context -----

  datatype CompactContext = CompactContext(
    priorCycleSummaries: seq<string>, carryForwardRisks: seq<string>, unresolvedGaps: seq<string>,
    backlogItems: seq<string>, reviewerNotes: seq<string>)

  /** Each list of the context is the selection from the records of its class. */
  ghost predicate ContextOf(m: map<string, Record>, ns: Namespace, context: CompactContext) {
    var rule := CompactRule(ns, DEFAULT_CONTEXT_MAX, false, true);
    && (forall c :: DistinctIds(Selected(m, ClassQuery(ns, c))))
    && context.priorCycleSummaries
       == Compacted(Selected(m, ClassQuery(ns, PriorCycleSummaries)), CompactRule(ns, PRIOR_SUMMARY_MAX, true, true))
    && context.carryForwardRisks == Compacted(Selected(m, ClassQuery(ns, CarryForwardRisks)), rule)
    && context.unresolvedGaps == Compacted(Selected(m, ClassQuery(ns, UnresolvedGaps)), rule)
    && context.backlogItems == Compacted(Selected(m, ClassQuery(ns, BacklogItems)), rule)
    && context.reviewerNotes == Compacted(Selected(m, ClassQuery(ns, ReviewerNotes)), rule)
  }
}
