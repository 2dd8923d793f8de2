/**
  What every run of the scoped-memory service keeps. The invariant speaks of one state; Evolves relates
  an earlier state to any later one. Each service call keeps the first and refines the second, and
  Evolves is transitive, so both hold over whole runs.
 */
module ScopedRules {
  import opened Wrappers
  import opened Text
  import opened ScopedModel
  import opened ScopedStore
  import opened SnapshotChain

  datatype State = State(records: map<string, Record>, snapshots: map<string, Snapshot>, clock: Time)

  // ----- the invariant -----

  /** A stored record reads back as it was written, and its fields agree with its status and the clock. */
  ghost predicate RecordOk(r: Record, clock: Time) {
    && NormalizeRecord(r) == r && ValidRecord(r) && GeneratedId(r.id)
    && !r.class_.OtherClass? && KnownStatus(r.status)
    && (r.status.Open? ==> r.resolvedAt.None?)
    && (r.status.Resolved? ==> r.resolvedAt.Some?)
    && 0 < r.createdAt <= r.updatedAt <= clock
    && (r.resolvedAt.Some? ==> r.createdAt <= r.resolvedAt.value <= r.updatedAt)
  }

  predicate OpenGap(r: Record) {
    r.class_.UnresolvedGaps? && r.status.Open?
  }

  predicate SameOpenGap(a: Record, b: Record) {
    OpenGap(a) && OpenGap(b) && a.scope == b.scope && a.text == b.text
  }

  /** At most one open gap per repository, run, cycle, agent and text. */
  ghost predicate GapsUnique(m: map<string, Record>) {
    forall a, b :: a in m && b in m && SameOpenGap(m[a], m[b]) ==> a == b
  }

  ghost predicate RecordsOk(m: map<string, Record>, clock: Time) {
    && 0 < clock
    && KeyedRecords(m)
    && (forall id :: id in m ==> RecordOk(m[id], clock))
    && GapsUnique(m)
  }

  ghost predicate Inv(s: State) {
    RecordsOk(s.records, s.clock) && SnapshotsOk(s.snapshots, s.clock)
  }

  lemma InvParts(s: State)
    requires Inv(s)
    ensures RecordsOk(s.records, s.clock) && SnapshotsOk(s.snapshots, s.clock)
    ensures KeyedRecords(s.records) && KeyedSnapshots(s.snapshots) && 0 < s.clock
  {
    hide RecordOk, SnapshotOk, LinkOk, GapsUnique;
  }

  // ----- how a state may change -----

  predicate FieldKept(before: string, after: string) {
    before != "" ==> after == before
  }

  predicate SourceKept(a: Source, b: Source) {
    && FieldKept(a.run, b.run) && FieldKept(a.cycle, b.cycle) && FieldKept(a.artifact, b.artifact)
    && FieldKept(a.policyDecision, b.policyDecision) && FieldKept(a.modelProfile, b.modelProfile)
  }

  /** Identity, content and creation never change; provenance is written once; open is never re-entered. */
  ghost predicate RecordEvolves(a: Record, b: Record) {
    && b.id == a.id && b.scope == a.scope && b.class_ == a.class_
    && b.text == a.text && b.content == a.content && b.expiresAt == a.expiresAt
    && b.createdBy == a.createdBy && b.createdAt == a.createdAt
    && a.updatedAt <= b.updatedAt
    && (!Actionable(a.class_) ==> b == a)
    && (!a.status.Open? ==> !b.status.Open?)
    && (a.resolvedAt.Some? ==> b.resolvedAt.Some? && a.resolvedAt.value <= b.resolvedAt.value)
    && SourceKept(a.source, b.source)
    && a.metadata.Keys <= b.metadata.Keys
  }

  ghost predicate RecordsEvolve(m: map<string, Record>, n: map<string, Record>) {
    forall id :: id in m ==> id in n && RecordEvolves(m[id], n[id])
  }

  /** Snapshots are only ever added. */
  ghost predicate SnapshotsGrow(m: map<string, Snapshot>, n: map<string, Snapshot>) {
    forall id :: id in m ==> id in n && n[id] == m[id]
  }

  ghost predicate Evolves(s: State, t: State) {
    && s.clock <= t.clock
    && RecordsEvolve(s.records, t.records)
    && SnapshotsGrow(s.snapshots, t.snapshots)
  }

  /** No status moves down. */
  ghost predicate Climbs(m: map<string, Record>, n: map<string, Record>) {
    forall id :: id in m ==> id in n && Rank(m[id].status) <= Rank(n[id].status)
  }

  /** Every status is as it was or has become resolved, and only the asked ones have moved down to that. */
  ghost predicate Settles(m: map<string, Record>, n: map<string, Record>, asked: set<string>) {
    forall id :: id in m ==> id in n && StatusSettles(m[id].status, n[id].status, id in asked)
  }

  predicate StatusSettles(a: Status, b: Status, asked: bool) {
    b == a || (b.Resolved? && (Rank(a) <= Rank(b) || asked))
  }

  lemma ClimbsSelf(m: map<string, Record>)
    ensures Climbs(m, m)
  {
  }

  lemma SettlesSelf(m: map<string, Record>)
    ensures Settles(m, m, {})
  {
  }

  lemma SettlesAdd(m: map<string, Record>, r: Record)
    requires r.id !in m
    ensures Settles(m, m[r.id := r], {})
  {
  }

  lemma SettlesTransitive(m: map<string, Record>, n: map<string, Record>, o: map<string, Record>, e: set<string>)
    requires Settles(m, n, e) && Settles(n, o, e)
    ensures Settles(m, o, e)
  {
  }

  lemma RecordEvolvesTransitive(a: Record, b: Record, c: Record)
    requires RecordEvolves(a, b) && RecordEvolves(b, c)
    ensures RecordEvolves(a, c)
  {
    hide Actionable;
  }

  lemma RecordsEvolveTransitive(m: map<string, Record>, n: map<string, Record>, o: map<string, Record>)
    requires RecordsEvolve(m, n) && RecordsEvolve(n, o)
    ensures RecordsEvolve(m, o)
  {
    forall id | id in m ensures id in o && RecordEvolves(m[id], o[id]) {
      RecordEvolvesTransitive(m[id], n[id], o[id]);
    }
  }

  /** A run is a sequence of steps, so what holds of each step holds of the run. */
  lemma EvolvesTransitive(s: State, t: State, u: State)
    requires Evolves(s, t) && Evolves(t, u)
    ensures Evolves(s, u)
  {
    RecordsEvolveTransitive(s.records, t.records, u.records);
  }

  // ----- the writes -----

  function FirstNonEmpty(a: string, b: string): string {
    if Trim(a) != "" then Trim(a) else Trim(b)
  }

  function FillSource(a: Source, b: Source): Source {
    Source(FirstNonEmpty(a.run, b.run), FirstNonEmpty(a.cycle, b.cycle), FirstNonEmpty(a.artifact, b.artifact),
           FirstNonEmpty(a.policyDecision, b.policyDecision), FirstNonEmpty(a.modelProfile, b.modelProfile))
  }

  /** Everything createRecord is given besides the text. */
  datatype Draft = Draft(scope: Namespace, class_: MemoryClass, status: Status, createdBy: string,
                         content: JsonMap, metadata: JsonMap, expiresAt: Option<Time>, source: Source)

  /** createRecord, before the store normalises it. */
  function NewRecord(id: string, d: Draft, text: string, now: Time): Record {
    var st := if NormalizeStatus(d.status) == NoStatus then Open else NormalizeStatus(d.status);
    Record(id, d.scope, NormalizeClass(d.class_), st, Trim(text), d.content, d.metadata, Trim(d.createdBy), now, now,
           if st == Resolved then Some(now) else None, d.expiresAt, TrimSource(d.source))
  }

  /** What the service's own calls of createRecord always provide. */
  ghost predicate DraftOk(d: Draft) {
    && NormalizeNamespace(d.scope) == d.scope && ValidNamespace(d.scope)
    && !d.class_.OtherClass? && !d.class_.NoClass? && KnownStatus(d.status)
    && Trim(d.createdBy) != ""
  }

  function ResolveRecord(r: Record, now: Time): Record {
    r.(status := Resolved, resolvedAt := Some(now), updatedAt := now)
  }

  function RefreshGap(r: Record, text: string, metadata: JsonMap, source: Source, now: Time): Record {
    r.(text := text, metadata := r.metadata + metadata, updatedAt := now, source := FillSource(r.source, source))
  }

  function MoveRecord(r: Record, target: Status, updatedBy: string, reason: string, now: Time): Record {
    r.(status := target,
       updatedAt := now,
       resolvedAt := if target.Resolved? then Some(now) else if target.Open? then None else r.resolvedAt,
       metadata := r.metadata + map["status_updated_by" := Json.Text(Trim(updatedBy)),
                                    "status_reason" := Json.Text(Trim(reason)),
                                    "status_updated_at" := Instant(now)])
  }

  lemma NewRecordOk(id: string, d: Draft, text: string, now: Time)
    requires GeneratedId(id) && DraftOk(d) && Trim(text) != "" && 0 < now
    ensures var r := NewRecord(id, d, text, now);
      RecordOk(r, now) && UsableId(r.id) && r.text == Trim(text) && r.class_ == d.class_ && r.status == d.status
  {
    hide Trim, UsableId, NormalizeClass, NormalizeNamespace, NormalizeStatus, TrimSource, Fold;
    TrimTwice(text);
    TrimTwice(d.createdBy);
    TrimSourceTwice(d.source);
    NormalizeStatusTwice(d.status);
  }

  lemma ResolveRecordOk(r: Record, clock: Time, now: Time)
    requires RecordOk(r, clock) && clock <= now && Actionable(r.class_)
    ensures RecordOk(ResolveRecord(r, now), now) && RecordEvolves(r, ResolveRecord(r, now))
  {
    hide Trim, UsableId, NormalizeClass, NormalizeNamespace, TrimSource;
  }

  lemma MoveRecordOk(r: Record, target: Status, updatedBy: string, reason: string, clock: Time, now: Time)
    requires RecordOk(r, clock) && clock <= now && Actionable(r.class_) && KnownStatus(target)
    requires AllowedTransition(r.status, target)
    ensures var moved := MoveRecord(r, target, updatedBy, reason, now);
      RecordOk(moved, now) && RecordEvolves(r, moved) && Rank(r.status) <= Rank(moved.status)
  {
    hide Trim, UsableId, NormalizeClass, NormalizeNamespace, TrimSource;
  }

  lemma FirstNonEmptyKeeps(a: string, b: string)
    requires Trim(a) == a
    ensures FieldKept(a, FirstNonEmpty(a, b)) && Trim(FirstNonEmpty(a, b)) == FirstNonEmpty(a, b)
  {
    hide Trim;
    TrimTwice(b);
  }

  lemma FillSourceKeeps(a: Source, b: Source)
    requires TrimSource(a) == a
    ensures SourceKept(a, FillSource(a, b)) && TrimSource(FillSource(a, b)) == FillSource(a, b)
  {
    hide Trim, FirstNonEmpty, FieldKept;
    FirstNonEmptyKeeps(a.run, b.run);
    FirstNonEmptyKeeps(a.cycle, b.cycle);
    FirstNonEmptyKeeps(a.artifact, b.artifact);
    FirstNonEmptyKeeps(a.policyDecision, b.policyDecision);
    FirstNonEmptyKeeps(a.modelProfile, b.modelProfile);
  }

  lemma RefreshGapOk(r: Record, metadata: JsonMap, source: Source, clock: Time, now: Time)
    requires RecordOk(r, clock) && clock <= now && OpenGap(r)
    ensures var fresh_ := RefreshGap(r, r.text, metadata, source, now);
      RecordOk(fresh_, now) && RecordEvolves(r, fresh_) && OpenGap(fresh_)
  {
    FillSourceKeeps(r.source, source);
    hide Trim, UsableId, NormalizeNamespace, TrimSource, FillSource;
  }

  // ----- adding and replacing one record -----

  lemma RecordOkLater(r: Record, clock: Time, now: Time)
    requires RecordOk(r, clock) && clock <= now
    ensures RecordOk(r, now)
  {
    hide NormalizeRecord, ValidRecord, GeneratedId;
  }

  lemma RecordsOkLater(m: map<string, Record>, clock: Time, now: Time)
    requires RecordsOk(m, clock) && clock <= now
    ensures RecordsOk(m, now)
  {
    hide RecordOk;
    forall id | id in m ensures RecordOk(m[id], now) {
      RecordOkLater(m[id], clock, now);
    }
  }

  lemma EvolvesSelf(m: map<string, Record>)
    ensures RecordsEvolve(m, m)
  {
  }

  lemma AddRecordKeeps(m: map<string, Record>, clock: Time, r: Record, now: Time)
    requires RecordsOk(m, clock) && clock <= now && RecordOk(r, now) && r.id !in m
    requires forall id :: id in m ==> !SameOpenGap(m[id], r)
    ensures RecordsOk(m[r.id := r], now) && RecordsEvolve(m, m[r.id := r])
  {
    hide RecordOk, Actionable;
    RecordsOkLater(m, clock, now);
  }

  lemma ReplaceRecordKeeps(m: map<string, Record>, clock: Time, r: Record, now: Time)
    requires RecordsOk(m, clock) && clock <= now && RecordOk(r, now) && r.id in m
    requires RecordEvolves(m[r.id], r) && (OpenGap(r) ==> OpenGap(m[r.id]))
    ensures RecordsOk(m[r.id := r], now) && RecordsEvolve(m, m[r.id := r])
  {
    hide RecordOk, Actionable;
    RecordsOkLater(m, clock, now);
  }

  // ----- what each call does to the records -----

  /** The record is changed by neither call nor read. */
  ghost predicate Untouched(before: map<string, Record>, after: map<string, Record>, id: string) {
    id in before && id in after && after[id] == before[id]
  }

  /** ids[k] is a new record made from the draft with texts[k], and nothing else changed. */
  ghost predicate Wrote(before: map<string, Record>, after: map<string, Record>, ids: seq<string>, d: Draft,
      texts: seq<string>) {
    && |ids| == |texts|
    && (forall k :: 0 <= k < |ids| ==> WroteOne(before, after, ids[k], d, texts[k]))
    && (forall id :: id in before ==> Untouched(before, after, id))
    && (forall id :: id in after ==> id in before || id in ids)
  }

  ghost predicate WroteOne(before: map<string, Record>, after: map<string, Record>, id: string, d: Draft, text: string)
  {
    id !in before && id in after && after[id] == NewRecord(id, d, text, after[id].createdAt)
  }

  /**
    Does an open gap stand for this text when notes are persisted in this namespace? A blank cycle or agent is not
    compared.
   */
  predicate GapCandidate(r: Record, ns: Namespace, text: string) {
    && OpenGap(r) && r.scope.repo == ns.repo && r.scope.run == ns.run && r.text == text
    && Wants(ns.cycle, r.scope.cycle) && Wants(ns.agent, r.scope.agent)
  }

  /** The oldest candidate, if there is one. */
  ghost predicate FirstCandidate(m: map<string, Record>, ns: Namespace, text: string, found: Option<Record>) {
    match found
    case None => forall id :: id in m ==> !GapCandidate(m[id], ns, text)
    case Some(r) =>
      && r.id in m && m[r.id] == r && GapCandidate(r, ns, text)
      && forall id :: id in m && GapCandidate(m[id], ns, text) && id != r.id ==> RecordBefore(r, m[id])
  }

  /** The gap for this text: the oldest candidate refreshed if there was one, a new record otherwise. */
  ghost predicate UpsertedOne(before: map<string, Record>, after: map<string, Record>, id: string, d: Draft,
                              text: string)
  {
    exists found :: FirstCandidate(before, d.scope, text, found) && UpsertedAs(found, before, after, id, d, text)
  }

  ghost predicate UpsertedAs(found: Option<Record>, before: map<string, Record>, after: map<string, Record>,
      id: string, d: Draft, text: string) {
    match found
    case None => WroteOne(before, after, id, d, text)
    case Some(r) =>
      id == r.id && id in after && after[id] == RefreshGap(r, text, d.metadata, d.source, after[id].updatedAt)
  }

  ghost predicate Upserted(before: map<string, Record>, after: map<string, Record>, ids: seq<string>, d: Draft,
      texts: seq<string>) {
    && |ids| == |texts|
    && (forall k :: 0 <= k < |ids| ==> UpsertedOne(before, after, ids[k], d, texts[k]))
    && (forall id :: id in before && id !in ids ==> Untouched(before, after, id))
    && (forall id :: id in after ==> id in before || id in ids)
  }

  /** Exactly the listed records are now resolved, no earlier than the call began; nothing else changed. */
  ghost predicate ResolvedExactly(before: map<string, Record>, after: map<string, Record>, changed: set<string>,
      since: Time) {
    && after.Keys == before.Keys
    && forall id :: id in before ==>
      if id in changed then after[id] == ResolveRecord(before[id], after[id].updatedAt) && since <= after[id].updatedAt
      else after[id] == before[id]
  }

  predicate CanResolve(m: map<string, Record>, id: string) {
    id in m && !m[id].status.Resolved? && Actionable(m[id].class_)
  }

  /** A record that exists, and is resolved already or can be. */
  predicate Hit(m: map<string, Record>, id: string) {
    id in m && (m[id].status.Resolved? || Actionable(m[id].class_))
  }

  /** The ids that resolveByIDs reports. */
  function Hits(m: map<string, Record>, ids: seq<string>): seq<string> {
    if ids == [] then []
    else
      var front, id := Hits(m, ids[..|ids| - 1]), ids[|ids| - 1];
      if Hit(m, id) then front + [id] else front
  }

  /** The records resolveByIDs changes. */
  function Resolvable(m: map<string, Record>, ids: seq<string>): set<string> {
    set id | id in m && id in ids && CanResolve(m, id)
  }

  function CanAmong(m: map<string, Record>, ids: set<string>): set<string> {
    set id | id in m && id in ids && CanResolve(m, id)
  }

  function HitsAmong(m: map<string, Record>, ids: set<string>): set<string> {
    set id | id in m && id in ids && Hit(m, id)
  }

  /**
    The records resolve-by-text changes: every open gap of the repository and run with one of the texts, in any cycle or
    agent.
   */
  function OpenGapsWithText(m: map<string, Record>, ns: Namespace, texts: seq<string>): set<string> {
    set id | id in m && OpenGap(m[id]) && m[id].scope.repo == ns.repo && m[id].scope.run == ns.run
             && m[id].text in texts
  }

  /** The ids before the first one that cannot be a file name. */
  function UsablePrefix(ids: seq<string>): (r: seq<string>)
    ensures |r| <= |ids| && r == ids[..|r|]
    ensures |r| < |ids| ==> !UsableId(ids[|r|])
    ensures forall i :: 0 <= i < |r| ==> UsableId(ids[i])
  {
    if ids == [] || !UsableId(ids[0]) then [] else [ids[0]] + UsablePrefix(ids[1..])
  }

  /** After resolve-by-text no open gap of the repository and run has one of the texts. */
  lemma NoGapWithTextLeft(before: map<string, Record>, after: map<string, Record>, ns: Namespace, texts: seq<string>,
      since: Time)
    requires ResolvedExactly(before, after, OpenGapsWithText(before, ns, texts), since)
    ensures OpenGapsWithText(after, ns, texts) == {}
  {
    forall id | id in after ensures id !in OpenGapsWithText(after, ns, texts) {
      assert id in before;
    }
  }

  /**
    Resolving by id does not ask the transition table: it lowers the status exactly of the superseded and the
    archived records among those it changes.
   */
  lemma ResolveByIdLowers(before: map<string, Record>, after: map<string, Record>, ids: seq<string>, since: Time,
                          id: string)
    requires ResolvedExactly(before, after, Resolvable(before, ids), since) && id in before
    requires KnownStatus(before[id].status)
    ensures Rank(after[id].status) < Rank(before[id].status) <==>
      id in ids && Actionable(before[id].class_) && (before[id].status.Superseded? || before[id].status.Archived?)
  {
    hide Actionable;
  }
}
