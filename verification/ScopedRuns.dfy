/** Whole runs of the scoped-memory service: any sequence of calls, from the empty store or from any reachable state. */
module ScopedRuns {
  import opened Wrappers
  import opened Ordering
  import opened Text
  import opened ScopedModel
  import opened ScopedStore
  import opened SnapshotChain
  import opened ScopedRules
  import opened ScopedGaps
  import opened ScopedResolve
  import opened ScopedSnapshots
  import opened ScopedNotes
  import opened ScopedPersist
  import opened ScopedService

  /** The calls that write. The others leave the store as it is. */
  datatype Call =
    | Persist(scope: Namespace, notes: NotesInput)
    | UpdateStatus(recordId: string, status: Status, updatedBy: string, reason: string)
    | TakeSnapshot(snapshot: SnapshotInput)

  /** What a call gives back. */
  datatype Answer =
    | NotesAnswer(notes: Result<NotesResult>)
    | StatusAnswer(record: Result<Record>)
    | SnapshotAnswer(snapshot: Result<Snapshot>)

  /** What one call answers and leaves behind, exactly, whether it goes through or not. */
  ghost predicate Answered(call: Call, answer: Answer, s: State, t: State) {
    match call
    case Persist(scope, notes) => answer.NotesAnswer? && NotesPersisted(s, t, scope, notes, answer.notes)
    case UpdateStatus(recordId, status, updatedBy, reason) =>
      answer.StatusAnswer? && StatusUpdated(s, t, recordId, status, updatedBy, reason, answer.record)
    case TakeSnapshot(snapshot) => answer.SnapshotAnswer? && SnapshotTaken(s, t, snapshot, answer.snapshot)
  }

  /**
    What one call does to the statuses: a transition moves one record up, persisting notes resolves records and may
    lower only those it was asked to resolve by id, a snapshot changes no record.
   */
  ghost predicate StatusStep(call: Call, s: State, t: State) {
    match call
    case Persist(_, notes) => Settles(s.records, t.records, AskedIds(notes))
    case UpdateStatus(recordId, _, _, _) =>
      && Climbs(s.records, t.records)
      && forall id :: id in s.records && id != Trim(recordId) ==> Untouched(s.records, t.records, id)
    case TakeSnapshot(_) => t.records == s.records
  }

  /**
    Any sequence of calls goes through a history of states that keep the invariant and only evolve; each call changes
    statuses as it may, and answers and leaves behind what it should.
   */
  method Run(service: Service, calls: seq<Call>) returns (answers: seq<Answer>, ghost h: seq<State>)
    requires service.Valid()
    modifies service.store, service.clock
    ensures History(h) && |h| == |calls| + 1 && h[0] == old(service.View()) && h[|calls|] == service.View()
    ensures service.Valid() && |answers| == |calls|
    ensures forall i :: 0 <= i < |calls| ==>
      StatusStep(calls[i], h[i], h[i + 1]) && Answered(calls[i], answers[i], h[i], h[i + 1])
  {
    hide Inv, Evolves, History, StatusStep, Answered;
    ghost var start := service.View();
    answers, h := [], [start];
    HistoryOne(start);
    for i := 0 to |calls|
      invariant History(h) && |h| == i + 1 && h[0] == start && h[i] == service.View() && service.Valid()
      invariant |answers| == i
      invariant forall j :: 0 <= j < i ==>
        StatusStep(calls[j], h[j], h[j + 1]) && Answered(calls[j], answers[j], h[j], h[j + 1])
    {
      var answer := Perform(service, calls[i]);
      HistoryMore(h, service.View());
      answers, h := answers + [answer], h + [service.View()];
    }
  }

  method Perform(service: Service, call: Call) returns (answer: Answer)
    requires service.Valid()
    modifies service.store, service.clock
    ensures service.Valid() && Evolves(old(service.View()), service.View())
    ensures StatusStep(call, old(service.View()), service.View())
    ensures Answered(call, answer, old(service.View()), service.View())
  {
    hide Inv, Evolves, Climbs, Settles, AskedIds, NotesPersisted, SnapshotTaken, Trim, UsableId, NormalizeStatus,
      MoveRecord, Actionable;
    match call {
      case Persist(scope, notes) =>
        var r := service.PersistNotes(scope, notes);
        answer := NotesAnswer(r);
      case UpdateStatus(recordId, status, updatedBy, reason) =>
        var r := service.UpdateRecordStatus(recordId, status, updatedBy, reason);
        answer := StatusAnswer(r);
      case TakeSnapshot(snapshot) =>
        var r := service.CreateSnapshot(snapshot);
        answer := SnapshotAnswer(r);
    }
  }

  /**
    In each call a status stays or moves up, but for a record that persisting notes was asked to resolve by id, which
    ends resolved.
   */
  lemma StatusMoves(call: Call, s: State, t: State, id: string)
    requires StatusStep(call, s, t) && id in s.records
    ensures id in t.records
    ensures Rank(s.records[id].status) <= Rank(t.records[id].status)
      || (call.Persist? && id in AskedIds(call.notes) && t.records[id].status.Resolved?)
  {
    hide AskedIds, Trim;
    if call.UpdateStatus? && id != Trim(call.recordId) {
      assert Untouched(s.records, t.records, id);
    }
  }

  // ----- what holds between any two moments of a run -----

  /** The states a run goes through. */
  ghost predicate History(h: seq<State>) {
    && (forall i :: 0 <= i < |h| ==> Inv(h[i]))
    && (forall i :: 0 <= i < |h| - 1 ==> Evolves(h[i], h[i + 1]))
  }

  lemma HistoryOne(s: State)
    requires Inv(s)
    ensures History([s])
  {
    hide Inv, Evolves;
  }

  lemma HistoryMore(h: seq<State>, s: State)
    requires h != [] && History(h) && Inv(s) && Evolves(h[|h| - 1], s)
    ensures History(h + [s])
  {
    hide Inv, Evolves;
  }

  lemma {:induction false} HistoryEvolves(h: seq<State>, i: nat, j: nat)
    requires History(h) && i <= j < |h|
    ensures Evolves(h[i], h[j])
    decreases j - i
  {
    hide Inv, Evolves;
    if i == j {
      WaitKeepsSelf(h[i]);
    } else {
      HistoryEvolves(h, i, j - 1);
      EvolvesTransitive(h[i], h[j - 1], h[j]);
    }
  }

  /**
    Between any two moments of a run: no record disappears; what identifies it, its content and its creation stay;
    once it is not open it never is again; a record of a class without status transitions does not change at all;
    a provenance link, once written, stays; and the dates stay in order.
   */
  lemma RecordHistory(h: seq<State>, i: nat, j: nat, id: string)
    requires History(h) && i <= j < |h| && id in h[i].records
    ensures id in h[j].records
    ensures var a, b := h[i].records[id], h[j].records[id];
      && b.id == a.id == id && b.scope == a.scope && b.class_ == a.class_ && b.text == a.text
      && b.createdBy == a.createdBy && b.createdAt == a.createdAt
      && (!a.status.Open? ==> !b.status.Open?)
      && (!Actionable(a.class_) ==> b == a)
      && SourceKept(a.source, b.source)
      && (b.status.Open? ==> b.resolvedAt.None?)
      && (b.status.Resolved? ==> b.resolvedAt.Some?)
      && b.createdAt <= b.updatedAt && a.updatedAt <= b.updatedAt
      && (b.resolvedAt.Some? ==> b.createdAt <= b.resolvedAt.value <= b.updatedAt)
  {
    HistoryEvolves(h, i, j);
    assert Inv(h[i]) && Inv(h[j]);
    hide Actionable, SourceKept, NormalizeRecord, ValidRecord, GeneratedId, GapsUnique, SnapshotsOk, History;
    assert RecordOk(h[i].records[id], h[i].clock);
    assert RecordEvolves(h[i].records[id], h[j].records[id]);
    assert RecordOk(h[j].records[id], h[j].clock);
  }

  /** At every moment of a run there is at most one open gap per repository, run, cycle, agent and text. */
  lemma OneOpenGap(h: seq<State>, i: nat, a: Record, b: Record)
    requires History(h) && i < |h|
    requires a.id in h[i].records && h[i].records[a.id] == a && b.id in h[i].records && h[i].records[b.id] == b
    requires OpenGap(a) && OpenGap(b) && a.scope == b.scope && Trim(a.text) == Trim(b.text)
    ensures a == b
  {
    hide Trim, RecordOk, SnapshotsOk, History;
    MomentOk(h, i);
    TextTrimmed(h[i].records, h[i].clock, a);
    TextTrimmed(h[i].records, h[i].clock, b);
  }

  /** A snapshot, once stored, is stored unchanged at every later moment. */
  lemma SnapshotHistory(h: seq<State>, i: nat, j: nat, id: string)
    requires History(h) && i <= j < |h| && id in h[i].snapshots
    ensures id in h[j].snapshots && h[j].snapshots[id] == h[i].snapshots[id]
  {
    HistoryEvolves(h, i, j);
    hide Inv, RecordsEvolve, History;
  }

  /** At every moment the snapshots of a cycle form one linked list exactly while there are at most 501 of them. */
  lemma ChainHistory(h: seq<State>, i: nat, scope: SnapshotScope)
    requires History(h) && i < |h| && CycleScope(scope)
    requires KeyedSnapshots(h[i].snapshots) && StrictTimes(SnapshotListing(h[i].snapshots, scope))
    ensures var l := SnapshotListing(h[i].snapshots, scope); Linked(l) <==> |l| <= MAX_PAGE_SIZE + 1
  {
    assert Inv(h[i]);
    hide SnapshotsOk, RecordsOk, SnapshotListing, Linked, StrictTimes, CycleScope;
    CycleChain(h[i].snapshots, h[i].clock, scope);
  }

  lemma MomentOk(h: seq<State>, i: nat)
    requires History(h) && i < |h|
    ensures Inv(h[i])
  {
    hide Inv, Evolves;
  }

  lemma CheckpointStored(start: State, end: State, s: Snapshot, ids: set<string>)
    requires Checkpointed(start, end, s, ids)
    ensures s.id in end.snapshots && end.snapshots[s.id] == s && Elems(s.refs) == ids
    ensures RefsResolve(end.records, s.refs)
  {
    hide RefsResolve, ComputeChecksum;
  }

  lemma ResolvedRefs(m: map<string, Record>, refs: seq<string>)
    requires RefsResolve(m, refs)
    ensures forall k :: 0 <= k < |refs| ==> UsableId(refs[k]) && refs[k] in m
  {
    hide UsableId;
  }

  /** At every later moment a checkpoint made by persisting notes exports exactly one record per ref, in ref order. */
  lemma CheckpointExports(h: seq<State>, start: State, i: nat, j: nat, s: Snapshot, ids: set<string>)
    requires History(h) && i <= j < |h| && Checkpointed(start, h[i], s, ids)
    ensures s.id in h[j].snapshots && h[j].snapshots[s.id] == s && Elems(s.refs) == ids
    ensures UsablePrefix(s.refs) == s.refs
    ensures var records := Present(h[j].records, s.refs);
      |records| == |s.refs| && forall k :: 0 <= k < |records| ==>
        records[k].id == s.refs[k] && s.refs[k] in h[j].records
  {
    hide Inv, Evolves, UsableId, Present, KeyedRecords, KeyedSnapshots, RecordsOk, SnapshotsOk, RefsResolve, History,
        Checkpointed, UsablePrefix;
    MomentOk(h, j);
    CheckpointStored(start, h[i], s, ids);
    SnapshotHistory(h, i, j, s.id);
    HistoryEvolves(h, i, j);
    RefsResolveLater(h[i], h[j], s.refs);
    InvParts(h[j]);
    PresentAll(h[j].records, s.refs);
    ResolvedRefs(h[j].records, s.refs);
    UsablePrefixIs(s.refs, |s.refs|);
    assert s.refs[..|s.refs|] == s.refs;
  }

  /**
    Whatever later calls do, the snapshot of a call that persisted notes exports one record per id the call listed, in
    the order of the ids.
   */
  lemma PersistedExports(h: seq<State>, call: Call, out: NotesResult, i: nat, j: nat)
    requires History(h) && i < j < |h| && call.Persist? && Answered(call, NotesAnswer(Ok(out)), h[i], h[i + 1])
    requires out.snapshot.Some?
    ensures var s := out.snapshot.value; var records := Present(h[j].records, s.refs);
      && s.id in h[j].snapshots && h[j].snapshots[s.id] == s && UsablePrefix(s.refs) == s.refs
      && Elems(s.refs) == Elems(out.recordIds) + Elems(out.resolvedIds)
      && |records| == |s.refs| && forall k :: 0 <= k < |records| ==> records[k].id == s.refs[k]
  {
    hide History, Took, UsablePrefix, Present, Checkpointed, Elems, Framed, Listed, NotesOf, AskedIds, Failed,
      AskedLists, UsableLists;
    var s, ids := out.snapshot.value, Elems(out.recordIds) + Elems(out.resolvedIds);
    assert Checkpointed(h[i], h[i + 1], s, ids);
    CheckpointExports(h, h[i], i + 1, j, s, ids);
  }
}
