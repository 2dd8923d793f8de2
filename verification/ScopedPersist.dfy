/** What the resolving steps and the checkpoint of PersistNotes leave behind, and what the whole call amounts to. */
module ScopedPersist {
  import opened Wrappers
  import opened Ordering
  import opened Text
  import opened ScopedModel
  import opened ScopedStore
  import opened SnapshotChain
  import opened ScopedRules
  import opened ScopedGaps
  import opened ScopedResolve
  import opened ScopedSnapshots
  import opened ScopedNotes

  // ----- what is resolved -----

  /** The lists of ids a call asks to resolve, in the order it takes them. */
  function AskedLists(input: NotesInput): seq<seq<string>> {
    [input.resolvedGapIds, input.resolvedRiskIds, input.resolvedBacklogItemIds, input.resolvedReviewerNoteIds,
     input.resolvedPolicyExceptionIds]
  }

  function AskedOf(lists: seq<seq<string>>): set<string> {
    set list, id | list in lists && id in Clean(list) :: id
  }

  /** The ids a call asks to resolve. */
  function AskedIds(input: NotesInput): set<string> {
    AskedOf(AskedLists(input))
  }

  lemma AskedNone()
    ensures AskedOf([]) == {}
  {
  }

  lemma AskedMore(lists: seq<seq<string>>, k: nat)
    requires k < |lists|
    ensures AskedOf(lists[..k + 1]) == AskedOf(lists[..k]) + Elems(Clean(lists[k]))
    ensures Elems(Clean(lists[k])) <= AskedOf(lists)
  {
    hide Clean;
    assert lists[..k + 1] == lists[..k] + [lists[k]];
    assert forall id :: id in Clean(lists[k]) <==> id in Elems(Clean(lists[k]));
  }

  /** Every id in the list can be a file name. */
  predicate AllUsable(ids: seq<string>) {
    UsablePrefix(Clean(ids)) == Clean(ids)
  }

  ghost predicate UsableLists(lists: seq<seq<string>>) {
    forall list :: list in lists ==> AllUsable(list)
  }

  /** The first k lists have been resolved, and out reports them. */
  ghost predicate ResolvedTo(before: map<string, Record>, after: map<string, Record>, lists: seq<seq<string>>, k: nat,
                             out: seq<string>, since: Time)
  {
    && k <= |lists| && UsableLists(lists[..k])
    && ResolvedExactly(before, after, CanAmong(before, AskedOf(lists[..k])), since)
    && Elems(out) == HitsAmong(before, AskedOf(lists[..k]))
  }

  /** Resolving by id has come to an id, in list k, that cannot be a file name. */
  ghost predicate StoppedAt(before: map<string, Record>, after: map<string, Record>, lists: seq<seq<string>>, k: nat,
                            since: Time)
  {
    && k < |lists| && UsableLists(lists[..k]) && !AllUsable(lists[k])
    && var done := AskedOf(lists[..k]) + Elems(UsablePrefix(Clean(lists[k])));
       ResolvedExactly(before, after, CanAmong(before, done), since)
  }

  lemma ResolvedToNone(m: map<string, Record>, lists: seq<seq<string>>, since: Time)
    ensures ResolvedTo(m, m, lists, 0, [], since)
  {
    hide ResolvedExactly, CanAmong, HitsAmong;
    AskedNone();
    CanNone(m, since);
    ElemsEmpty<string>();
    assert lists[..0] == [];
  }

  /** One more list: resolved and reported to its end, or up to the first id that cannot be a file name. */
  lemma ResolvedToMore(first: map<string, Record>, view: map<string, Record>, after: map<string, Record>,
                       lists: seq<seq<string>>, k: nat, out: seq<string>, since: Time, later: Time)
    requires ResolvedTo(first, view, lists, k, out, since) && k < |lists| && since <= later
    requires ResolvedExactly(view, after, Resolvable(view, UsablePrefix(Clean(lists[k]))), later)
    ensures if AllUsable(lists[k]) then ResolvedTo(first, after, lists, k + 1, out + Hits(view, Clean(lists[k])), since)
      else StoppedAt(first, after, lists, k, since)
  {
    hide ResolvedExactly, CanAmong, HitsAmong, Resolvable, Hits, UsablePrefix, Clean, AskedOf, Elems;
    var asked, done := AskedOf(lists[..k]), UsablePrefix(Clean(lists[k]));
    ResolvableIsCan(view, done);
    ResolvedMoreIds(first, view, after, asked, Elems(done), since, later);
    if AllUsable(lists[k]) {
      AskedMore(lists, k);
      HitsElems(view, done);
      ElemsBoth(out, Hits(view, done));
      HitsBoth(first, asked, Elems(done));
      UsableMore(lists, k);
    }
  }

  /** The five lists and then the texts: everything asked for is resolved and reported. */
  lemma AllListsDone(first: map<string, Record>, view: map<string, Record>, after: map<string, Record>, ns: Namespace,
                     input: NotesInput, out: seq<string>, all: seq<string>, since: Time, later: Time)
    requires ResolvedTo(first, view, AskedLists(input), 5, out, since) && since <= later
    requires var targets := OpenGapsWithText(view, ns, Clean(input.resolveUnresolvedGaps));
      ResolvedExactly(view, after, targets, later) && out <= all && Elems(all[|out|..]) == targets
    ensures UsableLists(AskedLists(input)) && ResolvedExactly(first, after, ToResolve(first, ns, input), since)
    ensures Elems(all) == ToReport(first, ns, input)
  {
    hide ResolvedExactly, CanAmong, HitsAmong, Clean, AskedOf, Elems, OpenGapsWithText, UsableLists;
    assert AskedLists(input)[..5] == AskedLists(input);
    ResolvedMoreGaps(first, view, after, AskedIds(input), ns, Clean(input.resolveUnresolvedGaps), since, later);
    ElemsBoth(out, all[|out|..]);
    assert all == out + all[|out|..];
  }

  lemma UsableMore(lists: seq<seq<string>>, k: nat)
    requires k < |lists| && UsableLists(lists[..k]) && AllUsable(lists[k])
    ensures UsableLists(lists[..k + 1])
  {
    hide AllUsable;
    assert lists[..k + 1] == lists[..k] + [lists[k]];
  }

  /**
    The records that a call's resolving steps change: the asked ones that can be resolved, and the open gaps with a
    listed text.
   */
  function ToResolve(m: map<string, Record>, ns: Namespace, input: NotesInput): set<string> {
    CanAmong(m, AskedIds(input)) + OpenGapsWithText(m, ns, Clean(input.resolveUnresolvedGaps))
  }

  /** The ids they report: also those of asked records that were resolved already. */
  function ToReport(m: map<string, Record>, ns: Namespace, input: NotesInput): set<string> {
    HitsAmong(m, AskedIds(input)) + OpenGapsWithText(m, ns, Clean(input.resolveUnresolvedGaps))
  }

  /** The statuses that resolving by id may lower are those of the ids asked for. */
  lemma ResolveSettles(before: map<string, Record>, after: map<string, Record>, ids: seq<string>, excused: set<string>,
      since: Time)
    requires ResolvedExactly(before, after, Resolvable(before, UsablePrefix(Clean(ids))), since)
    requires Elems(Clean(ids)) <= excused
    ensures Settles(before, after, excused)
  {
    hide Clean, UsableId, CanResolve;
    var done := UsablePrefix(Clean(ids));
    ResolvedSettles(before, after, Resolvable(before, done), since);
    forall id | id in Resolvable(before, done) ensures id in excused {
      assert id in Clean(ids);
      assert id in Elems(Clean(ids));
    }
  }

  /** A record that can be reported as resolved can be so in every later state. */
  lemma HitLater(s: State, t: State, id: string)
    requires Evolves(s, t) && Hit(s.records, id)
    ensures Hit(t.records, id)
  {
    hide Actionable, SourceKept;
    assert RecordEvolves(s.records[id], t.records[id]);
  }

  // ----- the checkpoint -----

  ghost predicate AllStored(m: map<string, Record>, ids: seq<string>) {
    forall id :: id in ids ==> id in m
  }

  lemma StoredTogether(m: map<string, Record>, a: seq<string>, b: seq<string>)
    requires AllStored(m, a) && AllStored(m, b)
    ensures AllStored(m, a + b)
  {
  }

  lemma SnapshotTime(id: string, input: SnapshotInput, refs: seq<string>, previous: Checksum, now: Time)
    requires ValidNamespace(input.scope)
    ensures NormalizeSnapshot(BuildSnapshot(id, input, Clean(refs), previous, now)).createdAt == now
  {
    hide NormalizeSnapshot, BuildSnapshot, Clean, ValidNamespace;
    CleanTwice(refs);
    BuiltFields(id, input, Clean(refs), previous, now);
  }

  lemma StoredIdsTrimmed(s: State, ids: seq<string>)
    requires Inv(s) && AllStored(s.records, ids)
    ensures forall id :: id in ids ==> Trim(id) == id && id != "" && UsableId(id)
  {
    hide Inv, RecordOk, UsableId, Trim, GeneratedId;
    forall id | id in ids ensures Trim(id) == id && id != "" && UsableId(id) {
      StoredOk(s, id);
      IdTrimmed(s.records[id], s.clock);
    }
  }

  lemma IdTrimmed(r: Record, clock: Time)
    requires RecordOk(r, clock)
    ensures Trim(r.id) == r.id && r.id != "" && UsableId(r.id)
  {
    hide Trim, UsableId, NormalizeRecord;
  }

  /** Cleaning stored ids sorts them and drops repeats, nothing else. */
  lemma CleanIds(s: State, ids: seq<string>)
    requires Inv(s) && AllStored(s.records, ids)
    ensures Elems(Clean(ids)) == Elems(ids) && (Clean(ids) == [] <==> ids == [])
    ensures RefsResolve(s.records, Clean(ids))
  {
    hide Inv, Clean, Trim, UsableId;
    StoredIdsTrimmed(s, ids);
    CleanMeaning(ids);
    forall id ensures id in Clean(ids) <==> id in ids {
      if id in ids {
        assert Trim(id) == id;
      }
    }
    assert ids == [] || ids[0] in Clean(ids);
    assert Clean(ids) == [] || Clean(ids)[0] in Clean(ids);
  }

  /** What PersistNotes asks CreateSnapshot for. */
  function CheckpointInput(ns: Namespace, input: NotesInput, recordIds: seq<string>,
                           resolved: seq<string>): SnapshotInput
  {
    SnapshotInput(ns, Default(input.createdBy, "control-plane"),
                  Default(input.snapshotSummary, "scoped memory checkpoint"),
                  recordIds + resolved, None, Trim(input.snapshotManifestRef),
                  map["record_count" := Number(|recordIds|), "resolved_count" := Number(|resolved|)])
  }

  /** The draft of the record that refers to the snapshot. */
  function ReferenceDraft(d: Draft, s: Snapshot): Draft {
    d.(class_ := SnapshotReference, status := Open, content := map[], expiresAt := None,
       metadata := map["summary" := Json.Text(s.summary), "snapshot_id" := Json.Text(s.id),
                       "record_count" := Number(|s.refs|), "checksum" := Sum(s.checksum)])
  }

  lemma ReferenceDraftOk(d: Draft, s: Snapshot)
    requires DraftOk(d)
    ensures DraftOk(ReferenceDraft(d, s)) && !ReferenceDraft(d, s).class_.UnresolvedGaps?
  {
    hide Trim, NormalizeNamespace, ValidNamespace;
  }

  lemma RefsGiven(m: map<string, Record>, input: SnapshotInput)
    requires KeyedRecords(m) && Clean(input.refs) != []
    ensures RefsFor(m, input) == Clean(input.refs)
  {
    hide Clean, NormalizeQuery, Listing, CriteriaFor, NormalizeNamespace;
  }

  lemma StoredSnapshotId(s: State, id: string)
    requires Inv(s) && id in s.snapshots
    ensures Trim(id) == id && id != "" && s.snapshots[id].id == id
  {
    hide RecordsOk, LinkOk, HashesItself, NormalizeSnapshot, Trim, UsableId;
    assert SnapshotOk(s.snapshots[id], s.clock);
    assert UsableId(id) && Trim(id) == id;
  }

  lemma NoSuchGapTrivially(m: map<string, Record>, d: Draft, text: string)
    requires !d.class_.UnresolvedGaps?
    ensures NoSuchGap(m, d, text)
  {
  }

  // ----- what a call that went through leaves behind -----

  /** The snapshot is the one the service takes of the written and the resolved records, and the only new one. */
  ghost predicate Snapped(s: State, t: State, ns: Namespace, input: NotesInput, written: seq<string>,
                          resolved: seq<string>, snapshot: Snapshot) {
    && KeyedSnapshots(s.snapshots) && snapshot.id !in s.snapshots && t.snapshots == s.snapshots[snapshot.id := snapshot]
    && (var previous := PreviousChecksum(SnapshotListing(s.snapshots, SnapshotScopeOf(ns)));
        var asked := CheckpointInput(ns, input, written, resolved);
        snapshot == NormalizeSnapshot(BuildSnapshot(snapshot.id, asked, Clean(written + resolved), previous,
                                                    snapshot.createdAt)))
    && snapshot.refs == Clean(written + resolved) && ComputeChecksum(snapshot) != snapshot.checksum
  }

  /** One snapshot is taken, and one record is added, which refers to it. */
  ghost predicate Checked(s: State, t: State, ns: Namespace, input: NotesInput, written: seq<string>,
                          resolved: seq<string>, snapshot: Snapshot, reference: string) {
    && Snapped(s, t, ns, input, written, resolved, snapshot)
    && WroteOne(s.records, t.records, reference, ReferenceDraft(NotesDraft(ns, input), snapshot), snapshot.id)
    && t.records == s.records[reference := t.records[reference]]
  }

  /** A generated id was taken: that of the snapshot, or, with the snapshot stored, that of the reference. */
  ghost predicate Unchecked(s: State, t: State, ns: Namespace, input: NotesInput, written: seq<string>,
                            resolved: seq<string>) {
    && t.records == s.records
    && ((t.snapshots == s.snapshots && IdTaken(s.snapshots.Keys))
        || (IdTaken(s.records.Keys) && exists snapshot :: Snapped(s, t, ns, input, written, resolved, snapshot)))
  }

  /** The steps of a call, one after the other: what was written, then what was resolved, then the checkpoint. */
  datatype Course = Course(written: seq<string>, middle: map<string, Record>, resolved: seq<string>,
                           done: map<string, Record>, reference: string)

  /** The course of a call, exactly: every step says what it changed and that nothing else did. */
  ghost predicate Took(start: State, end: State, ns: Namespace, input: NotesInput, out: NotesResult, c: Course) {
    && WroteAll(start.records, c.middle, c.written, NotesDraft(ns, input), NotesOf(input))
    && ResolvedExactly(c.middle, c.done, ToResolve(c.middle, ns, input), start.clock)
    && Elems(c.resolved) == ToReport(c.middle, ns, input)
    && out.recordsWritten == |c.written| && out.recordIds == Clean(c.written) && out.resolvedIds == Clean(c.resolved)
    && match out.snapshot
       case None => c.written == [] && c.resolved == [] && end.records == c.done && end.snapshots == start.snapshots
       case Some(s) =>
         && (c.written != [] || c.resolved != [])
         && Checked(State(c.done, start.snapshots, start.clock), end, ns, input, c.written, c.resolved, s, c.reference)
  }

  /**
    Where a call stopped that did not go through, exactly: while writing or at the checkpoint, because a generated id
    was taken; or, with every note written and no snapshot taken, at an asked id that cannot be a file name.
   */
  ghost predicate Stopped(start: State, end: State, ns: Namespace, input: NotesInput, error: Error, c: Course) {
    && |c.written| <= |NotesOf(input)|
    && WroteAll(start.records, c.middle, c.written, NotesDraft(ns, input), NotesOf(input)[..|c.written|])
    && if |c.written| < |NotesOf(input)| then
         && error == AlreadyExists && IdTaken(end.records.Keys)
         && end.records == c.middle && end.snapshots == start.snapshots
       else if error == InvalidId then
         && end.snapshots == start.snapshots
         && exists k: nat :: StoppedAt(c.middle, end.records, AskedLists(input), k, start.clock)
       else
         && error == AlreadyExists && UsableLists(AskedLists(input)) && (c.written != [] || c.resolved != [])
         && ResolvedExactly(c.middle, c.done, ToResolve(c.middle, ns, input), start.clock)
         && Elems(c.resolved) == ToReport(c.middle, ns, input)
         && Unchecked(State(c.done, start.snapshots, start.clock), end, ns, input, c.written, c.resolved)
  }

  ghost predicate Failed(start: State, end: State, ns: Namespace, input: NotesInput, error: Error) {
    exists c :: Stopped(start, end, ns, input, error, c)
  }

  /** What a call that went through leaves behind: it took its course, and this is what that means for the records. */
  ghost predicate Persisted(start: State, end: State, ns: Namespace, input: NotesInput, out: NotesResult) {
    (exists c :: Took(start, end, ns, input, out, c)) && Kept(start, end, ns, input, out)
  }

  /** What persisting notes answers and leaves behind, whatever it is asked. */
  ghost predicate NotesPersisted(start: State, end: State, n: Namespace, input: NotesInput, r: Result<NotesResult>) {
    if !ValidNamespace(n) || !KnownStatus(StatusFor(input)) then r == Err(Rejected) && end == start
    else
      match r
      case Ok(out) => UsableLists(AskedLists(input)) && Persisted(start, end, NormalizeNamespace(n), input, out)
      case Err(error) => Failed(start, end, NormalizeNamespace(n), input, error)
  }

  /**
    The start's records that are in neither list are untouched, and every new record is in the first or is the
    reference.
   */
  ghost predicate Framed(start: State, end: State, out: NotesResult) {
    && (forall id :: id in start.records && id !in out.recordIds && id !in out.resolvedIds ==>
          Untouched(start.records, end.records, id))
    && (forall id :: id in end.records && id !in start.records && id !in out.recordIds ==>
          out.snapshot.Some? && end.records[id].class_.SnapshotReference?
          && end.records[id].text == out.snapshot.value.id)
  }

  ghost predicate Listed(start: State, end: State, ns: Namespace, input: NotesInput, out: NotesResult) {
    && (forall id :: id in out.recordIds ==> WrittenHere(start, end, ns, input, id))
    && (forall id :: id in out.resolvedIds ==> ResolvedHere(end, ns, input, id))
  }

  /** The record keeps one of the notes: it is new with the full scope, or was an open gap that fits. */
  ghost predicate WrittenHere(start: State, end: State, ns: Namespace, input: NotesInput, id: string) {
    && id in end.records && Note(end.records[id].class_, end.records[id].text) in NotesOf(input)
    && (if id in start.records then GapCandidate(start.records[id], ns, end.records[id].text)
        else end.records[id].scope == ns)
  }

  /** The record is resolved, and was asked for by id or is a gap of the repository and run with a listed text. */
  ghost predicate ResolvedHere(end: State, ns: Namespace, input: NotesInput, id: string) {
    && id in end.records && end.records[id].status.Resolved?
    && (id in AskedIds(input)
        || (end.records[id].class_.UnresolvedGaps? && end.records[id].text in Clean(input.resolveUnresolvedGaps)
            && end.records[id].scope.repo == ns.repo && end.records[id].scope.run == ns.run))
  }

  ghost predicate HoldsNote(m: map<string, Record>, id: string, ns: Namespace, note: Note) {
    && id in m && m[id].class_ == note.class_ && m[id].text == note.text
    && m[id].scope.repo == ns.repo && m[id].scope.run == ns.run
  }

  ghost predicate Noted(m: map<string, Record>, ids: seq<string>, ns: Namespace, note: Note) {
    exists id :: id in ids && HoldsNote(m, id, ns, note)
  }

  ghost predicate RefersTo(r: Record, s: Snapshot) {
    r.class_.SnapshotReference? && r.text == s.id
  }

  /** The snapshot is new and stored, refers to exactly these records, they all exist, and a record refers to it. */
  ghost predicate Checkpointed(start: State, end: State, s: Snapshot, ids: set<string>) {
    && s.id !in start.snapshots && s.id in end.snapshots && end.snapshots[s.id] == s
    && Elems(s.refs) == ids && RefsResolve(end.records, s.refs)
    && (exists id :: id in end.records && id !in start.records && RefersTo(end.records[id], s))
    && ComputeChecksum(s) != s.checksum
  }

  ghost predicate Kept(start: State, end: State, ns: Namespace, input: NotesInput, out: NotesResult) {
    && out.recordsWritten == |NotesOf(input)|
    && Framed(start, end, out) && Listed(start, end, ns, input, out)
    && (forall note :: note in NotesOf(input) ==> Noted(end.records, out.recordIds, ns, note))
    && (forall id :: id in AskedIds(input) && Hit(start.records, id) ==> id in out.resolvedIds)
    && OpenGapsWithText(end.records, ns, Clean(input.resolveUnresolvedGaps)) == {}
    && (out.snapshot.None? <==> out.recordIds == [] && out.resolvedIds == [])
    && (out.snapshot.Some? ==>
          Checkpointed(start, end, out.snapshot.value, Elems(out.recordIds) + Elems(out.resolvedIds)))
  }

  // ----- what the course of a call means -----

  /** What the checkpoint leaves of the records: all of them, and perhaps the reference. */
  lemma CheckpointGrows(start: State, end: State, ns: Namespace, input: NotesInput, out: NotesResult, c: Course)
    requires Took(start, end, ns, input, out, c)
    ensures forall id :: id in c.done ==> Untouched(c.done, end.records, id)
    ensures forall id :: id in end.records && id !in c.done ==>
      && out.snapshot.Some? && id == c.reference && end.records[id].class_.SnapshotReference?
      && end.records[id].text == Trim(out.snapshot.value.id)
  {
    hide WroteAll, ResolvedExactly, ToResolve, ToReport, NotesOf, Clean, Trim, NormalizeSnapshot, BuildSnapshot,
      ComputeChecksum,
      PreviousChecksum, SnapshotListing, NormalizeStatus, TrimSource, NotesDraft;
  }

  /** What the resolving steps leave: every record, with all but the resolved ones as they were. */
  lemma ResolvingKeeps(c: Course, changed: set<string>, since: Time)
    requires ResolvedExactly(c.middle, c.done, changed, since)
    ensures c.done.Keys == c.middle.Keys
    ensures forall id :: id in c.middle ==>
      var a, b := c.middle[id], c.done[id];
      && b.class_ == a.class_ && b.text == a.text && b.scope == a.scope
      && (id !in changed ==> b == a) && (id in changed ==> b.status.Resolved?)
  {
  }

  lemma ReportedCovers(m: map<string, Record>, ns: Namespace, input: NotesInput)
    ensures ToResolve(m, ns, input) <= ToReport(m, ns, input) <= m.Keys
    ensures forall id :: id in ToReport(m, ns, input) && id !in ToResolve(m, ns, input) ==> m[id].status.Resolved?
  {
    hide AskedIds, Clean, Actionable;
  }

  lemma ReportedAre(m: map<string, Record>, ns: Namespace, input: NotesInput, id: string)
    requires id in ToReport(m, ns, input)
    ensures id in AskedIds(input) || (id in m && OpenGap(m[id]) && m[id].text in Clean(input.resolveUnresolvedGaps)
                                      && m[id].scope.repo == ns.repo && m[id].scope.run == ns.run)
  {
    hide AskedIds, Clean, Hit;
  }

  lemma WrittenAt(before: map<string, Record>, after: map<string, Record>, ids: seq<string>, draft: Draft,
                  notes: seq<Note>, k: nat)
    requires WroteAll(before, after, ids, draft, notes) && Proper(notes) && k < |ids|
    ensures var id, note := ids[k], notes[k];
      && id in after && after[id].class_ == note.class_ && after[id].text == note.text
      && (if id in before
          then note.class_.UnresolvedGaps? && GapCandidate(before[id], draft.scope, note.text)
               && after[id].scope == before[id].scope
          else after[id].scope == draft.scope)
  {
    hide WrittenAs, DraftOf, Trim, GapCandidate;
    assert notes[k] in notes;
    DraftClass(draft, notes[k].class_);
    WrittenNote(before, after, ids[k], DraftOf(draft, notes[k].class_), notes[k].text);
  }

  /** Every id a call lists is stored before the checkpoint. */
  lemma ListedStored(start: State, middle: State, done: State, ns: Namespace, input: NotesInput, written: seq<string>,
                     resolved: seq<string>,
                     since: Time)
    requires WroteAll(start.records, middle.records, written, NotesDraft(ns, input), NotesOf(input))
    requires ResolvedExactly(middle.records, done.records, ToResolve(middle.records, ns, input), since)
    requires Elems(resolved) == ToReport(middle.records, ns, input)
    ensures AllStored(done.records, written) && AllStored(done.records, resolved)
  {
    hide WroteAll, ToResolve, ToReport, NotesOf, NotesDraft;
    WrittenAreStored(start.records, middle.records, written, NotesDraft(ns, input), NotesOf(input));
    ReportedCovers(middle.records, ns, input);
    assert forall id :: id in resolved <==> id in Elems(resolved);
  }

  /** The two lists a call returns hold exactly the ids of its course. */
  lemma ListsAre(end: State, ns: Namespace, input: NotesInput, out: NotesResult, start: State, c: Course)
    requires Took(start, end, ns, input, out, c) && Inv(end)
    ensures Elems(out.recordIds) == Elems(c.written) && Elems(out.resolvedIds) == Elems(c.resolved)
    ensures (out.recordIds == [] <==> c.written == []) && (out.resolvedIds == [] <==> c.resolved == [])
    ensures Elems(Clean(c.written + c.resolved)) == Elems(c.written) + Elems(c.resolved)
    ensures RefsResolve(end.records, Clean(c.written + c.resolved))
  {
    hide Inv, Clean, NotesOf, Checked, WroteAll, ToResolve, ToReport, RefsResolve, NotesDraft;
    CheckpointGrows(start, end, ns, input, out, c);
    ListedStored(start, State(c.middle, start.snapshots, 0), State(c.done, start.snapshots, 0), ns, input, c.written,
                 c.resolved, start.clock);
    assert AllStored(end.records, c.written) && AllStored(end.records, c.resolved);
    StoredTogether(end.records, c.written, c.resolved);
    CleanIds(end, c.written);
    CleanIds(end, c.resolved);
    CleanIds(end, c.written + c.resolved);
    ElemsBoth(c.written, c.resolved);
  }

  lemma CourseFramed(start: State, end: State, ns: Namespace, input: NotesInput, out: NotesResult, c: Course)
    requires Took(start, end, ns, input, out, c) && Inv(end)
    ensures Framed(start, end, out)
  {
    hide Inv, Took, Elems;
    ListsAre(end, ns, input, out, start, c);
    CheckpointGrows(start, end, ns, input, out, c);
    InList(out.recordIds, c.written);
    InList(out.resolvedIds, c.resolved);
    if out.snapshot.Some? {
      CheckpointText(start, end, ns, input, out, c);
    }
    CourseKeeps(start, end, ns, input, out, c);
  }

  /** What neither list holds is untouched until the checkpoint, and nothing else is new. */
  lemma CourseKeeps(start: State, end: State, ns: Namespace, input: NotesInput, out: NotesResult, c: Course)
    requires Took(start, end, ns, input, out, c)
    ensures forall id :: id in start.records && id !in c.written && id !in c.resolved ==>
      Untouched(start.records, c.done, id)
    ensures forall id :: id in c.done ==> id in start.records || id in c.written
  {
    hide Clean, NotesOf, Checked, ToResolve, ToReport, NotesDraft, WrittenAs, Elems;
    ResolvingKeeps(c, ToResolve(c.middle, ns, input), start.clock);
    ReportedCovers(c.middle, ns, input);
    InElems(c.resolved);
    forall id | id in start.records && id !in c.written && id !in c.resolved
      ensures Untouched(start.records, c.done, id)
    {
      assert Untouched(start.records, c.middle, id);
    }
  }

  lemma InList(a: seq<string>, b: seq<string>)
    requires Elems(a) == Elems(b)
    ensures forall id :: id in a <==> id in b
  {
    assert forall id :: (id in a <==> id in Elems(a)) && (id in b <==> id in Elems(b));
  }

  lemma InElems(a: seq<string>)
    ensures forall id :: id in a <==> id in Elems(a)
  {
  }

  lemma CheckpointText(start: State, end: State, ns: Namespace, input: NotesInput, out: NotesResult, c: Course)
    requires Took(start, end, ns, input, out, c) && Inv(end) && out.snapshot.Some?
    ensures Trim(out.snapshot.value.id) == out.snapshot.value.id
  {
    hide Inv, Clean, NotesOf, WroteAll, ResolvedExactly, ToResolve, ToReport, NotesDraft, Trim, NormalizeSnapshot,
      BuildSnapshot,
      ComputeChecksum, PreviousChecksum, SnapshotListing, WroteOne;
    StoredSnapshotId(end, out.snapshot.value.id);
  }

  /** What a note's record looks like at the end. */
  lemma WrittenAtEnd(start: State, end: State, ns: Namespace, input: NotesInput, out: NotesResult, c: Course, k: nat)
    requires Took(start, end, ns, input, out, c) && k < |c.written|
    ensures |NotesOf(input)| == |c.written| && NotesOf(input)[k] in NotesOf(input)
    ensures WrittenHere(start, end, ns, input, c.written[k])
    ensures HoldsNote(end.records, c.written[k], ns, NotesOf(input)[k])
  {
    hide Clean, NotesOf, Checked, WroteAll, ToResolve, ToReport, NotesDraft, Wants, OpenGap;
    NotesProper(input);
    DraftScopeIs(ns, input);
    WroteCount(start.records, c.middle, c.written, NotesDraft(ns, input), NotesOf(input));
    WrittenAt(start.records, c.middle, c.written, NotesDraft(ns, input), NotesOf(input), k);
    ResolvingKeeps(c, ToResolve(c.middle, ns, input), start.clock);
    CheckpointGrows(start, end, ns, input, out, c);
    var id := c.written[k];
    assert Untouched(c.done, end.records, id);
    var r := end.records[id];
    assert Note(r.class_, r.text) == NotesOf(input)[k];
  }

  lemma DraftScopeIs(ns: Namespace, input: NotesInput)
    ensures NotesDraft(ns, input).scope == ns
  {
    hide StatusFor, MetadataFor, SourceFor, Default;
  }

  lemma CourseWrote(start: State, end: State, ns: Namespace, input: NotesInput, out: NotesResult, c: Course)
    requires Took(start, end, ns, input, out, c) && Inv(end)
    ensures out.recordsWritten == |NotesOf(input)|
    ensures forall id :: id in out.recordIds ==> WrittenHere(start, end, ns, input, id)
    ensures forall note :: note in NotesOf(input) ==> Noted(end.records, out.recordIds, ns, note)
  {
    hide Inv, Took, WrittenHere, HoldsNote, NotesOf, Elems, NotesDraft;
    TookCounts(start, end, ns, input, out, c);
    ListsAre(end, ns, input, out, start, c);
    InList(out.recordIds, c.written);
    forall id | id in out.recordIds ensures WrittenHere(start, end, ns, input, id) {
      var k :| 0 <= k < |c.written| && c.written[k] == id;
      WrittenAtEnd(start, end, ns, input, out, c, k);
    }
    forall note | note in NotesOf(input) ensures Noted(end.records, out.recordIds, ns, note) {
      var k :| 0 <= k < |NotesOf(input)| && NotesOf(input)[k] == note;
      WrittenAtEnd(start, end, ns, input, out, c, k);
      assert c.written[k] in c.written && c.written[k] in out.recordIds;
    }
  }

  lemma TookCounts(start: State, end: State, ns: Namespace, input: NotesInput, out: NotesResult, c: Course)
    requires Took(start, end, ns, input, out, c)
    ensures out.recordsWritten == |c.written| == |NotesOf(input)|
    ensures WroteAll(start.records, c.middle, c.written, NotesDraft(ns, input), NotesOf(input))
  {
    hide Clean, NotesOf, Checked, WroteAll, ToResolve, ToReport, NotesDraft, ResolvedExactly;
    WroteCount(start.records, c.middle, c.written, NotesDraft(ns, input), NotesOf(input));
  }

  lemma CourseResolved(start: State, end: State, ns: Namespace, input: NotesInput, out: NotesResult, c: Course)
    requires Took(start, end, ns, input, out, c) && Inv(end)
    ensures forall id :: id in out.resolvedIds ==> ResolvedHere(end, ns, input, id)
    ensures OpenGapsWithText(end.records, ns, Clean(input.resolveUnresolvedGaps)) == {}
  {
    hide Inv, Clean, NotesOf, Checked, WroteAll, ToResolve, ToReport, NotesDraft, Elems, AskedIds;
    ListsAre(end, ns, input, out, start, c);
    InList(out.resolvedIds, c.resolved);
    InElems(c.resolved);
    ResolvingKeeps(c, ToResolve(c.middle, ns, input), start.clock);
    CheckpointGrows(start, end, ns, input, out, c);
    ReportedCovers(c.middle, ns, input);
    forall id | id in out.resolvedIds ensures ResolvedHere(end, ns, input, id) {
      assert id in ToReport(c.middle, ns, input);
      ReportedAre(c.middle, ns, input, id);
      assert Untouched(c.done, end.records, id);
    }
    forall id | id in end.records ensures id !in OpenGapsWithText(end.records, ns, Clean(input.resolveUnresolvedGaps)) {
      if id in c.done {
        assert Untouched(c.done, end.records, id);
        if id !in ToResolve(c.middle, ns, input) {
          GapsToResolve(c.middle, ns, input, id);
        }
      }
    }
  }

  lemma GapsToResolve(m: map<string, Record>, ns: Namespace, input: NotesInput, id: string)
    requires id in m && id !in ToResolve(m, ns, input)
    ensures id !in OpenGapsWithText(m, ns, Clean(input.resolveUnresolvedGaps))
  {
    hide Clean, AskedIds, CanResolve;
  }

  /** Whatever could be resolved at the start and was asked for is reported. */
  lemma CourseReported(start: State, middle: State, end: State, ns: Namespace, input: NotesInput, out: NotesResult,
                       c: Course)
    requires Took(start, end, ns, input, out, c) && Inv(end) && Evolves(start, middle) && middle.records == c.middle
    ensures forall id :: id in AskedIds(input) && Hit(start.records, id) ==> id in out.resolvedIds
  {
    hide Inv, Clean, NotesOf, Checked, WroteAll, ToResolve, NotesDraft, Elems, AskedIds, ResolvedExactly, Evolves, Hit;
    ListsAre(end, ns, input, out, start, c);
    InList(out.resolvedIds, c.resolved);
    InElems(c.resolved);
    forall id | id in AskedIds(input) && Hit(start.records, id) ensures id in out.resolvedIds {
      HitLater(start, middle, id);
      HitStored(c.middle, id);
    }
  }

  lemma HitStored(m: map<string, Record>, id: string)
    requires Hit(m, id)
    ensures id in m
  {
    hide Actionable;
  }

  lemma CourseCheckpointed(start: State, end: State, ns: Namespace, input: NotesInput, out: NotesResult, c: Course)
    requires Took(start, end, ns, input, out, c) && Inv(end) && out.snapshot.Some?
    requires forall id :: id in start.records ==> id in c.done
    ensures Checkpointed(start, end, out.snapshot.value, Elems(out.recordIds) + Elems(out.resolvedIds))
  {
    hide Inv, Clean, NotesOf, WroteAll, ToResolve, ToReport, NotesDraft, Elems, ResolvedExactly, RefsResolve,
      NormalizeSnapshot,
      BuildSnapshot, ComputeChecksum, PreviousChecksum, SnapshotListing, NormalizeStatus, TrimSource, Trim;
    ListsAre(end, ns, input, out, start, c);
    CheckpointText(start, end, ns, input, out, c);
    var s := out.snapshot.value;
    assert c.reference in end.records && c.reference !in start.records;
    assert end.records[c.reference].class_.SnapshotReference? && end.records[c.reference].text == Trim(s.id);
  }

  lemma StartStays(start: State, end: State, ns: Namespace, input: NotesInput, out: NotesResult, c: Course)
    requires Took(start, end, ns, input, out, c)
    ensures forall id :: id in start.records ==> id in c.done
  {
    hide Clean, NotesOf, WroteAll, ToResolve, ToReport, NotesDraft, Checked;
    WrittenAreStored(start.records, c.middle, c.written, NotesDraft(ns, input), NotesOf(input));
    ResolvingKeeps(c, ToResolve(c.middle, ns, input), start.clock);
  }

  lemma CourseMeans(start: State, middle: State, end: State, ns: Namespace, input: NotesInput, out: NotesResult,
                    c: Course)
    requires Took(start, end, ns, input, out, c) && Inv(end) && Evolves(start, middle) && middle.records == c.middle
    ensures Kept(start, end, ns, input, out)
  {
    hide Inv, Took, NotesOf, AskedIds, Evolves, Framed, WrittenHere, ResolvedHere, Noted, Checkpointed, Hit,
      OpenGapsWithText, Clean;
    CourseFramed(start, end, ns, input, out, c);
    CourseWrote(start, end, ns, input, out, c);
    CourseResolved(start, end, ns, input, out, c);
    CourseReported(start, middle, end, ns, input, out, c);
    CourseEmpty(start, end, ns, input, out, c);
    if out.snapshot.Some? {
      StartStays(start, end, ns, input, out, c);
      CourseCheckpointed(start, end, ns, input, out, c);
    }
  }

  lemma CourseEmpty(start: State, end: State, ns: Namespace, input: NotesInput, out: NotesResult, c: Course)
    requires Took(start, end, ns, input, out, c) && Inv(end)
    ensures out.snapshot.None? <==> out.recordIds == [] && out.resolvedIds == []
  {
    hide Inv, Clean, NotesOf, WroteAll, ToResolve, ToReport, NotesDraft, Checked, ResolvedExactly, Elems;
    ListsAre(end, ns, input, out, start, c);
  }

  /** The steps of a call, put together. */
  lemma CourseTaken(start: State, middle: State, done: State, end: State, ns: Namespace, input: NotesInput,
                    out: NotesResult, c: Course)
    requires Inv(end) && Evolves(start, middle) && start.clock <= middle.clock
    requires c.middle == middle.records && c.done == done.records && done.snapshots == start.snapshots
    requires WroteAll(start.records, middle.records, c.written, NotesDraft(ns, input), NotesOf(input))
    requires ResolvedExactly(middle.records, done.records, ToResolve(middle.records, ns, input), middle.clock)
    requires Elems(c.resolved) == ToReport(middle.records, ns, input)
    requires out.recordsWritten == |c.written| && out.recordIds == Clean(c.written)
    requires out.resolvedIds == Clean(c.resolved)
    requires match out.snapshot
      case None => c.written == [] && c.resolved == [] && end.records == done.records && end.snapshots == done.snapshots
      case Some(s) =>
        (c.written != [] || c.resolved != []) && Checked(done, end, ns, input, c.written, c.resolved, s, c.reference)
    ensures Persisted(start, end, ns, input, out)
  {
    hide Inv, Clean, NotesOf, WroteAll, ToResolve, ToReport, NotesDraft, Checked, ResolvedExactly, Elems, Evolves, Kept;
    ResolvedEarlier(middle.records, done.records, ToResolve(middle.records, ns, input), middle.clock, start.clock);
    if out.snapshot.Some? {
      CheckedSame(done, State(c.done, start.snapshots, start.clock), end, ns, input, c.written, c.resolved,
                  out.snapshot.value, c.reference);
    }
    assert Took(start, end, ns, input, out, c);
    CourseMeans(start, middle, end, ns, input, out, c);
  }

  lemma CheckedSame(s: State, same: State, t: State, ns: Namespace, input: NotesInput, written: seq<string>,
                    resolved: seq<string>,
                    snapshot: Snapshot, reference: string)
    requires Checked(s, t, ns, input, written, resolved, snapshot, reference)
    requires same.records == s.records && same.snapshots == s.snapshots
    ensures Checked(same, t, ns, input, written, resolved, snapshot, reference)
  {
    hide Clean, NotesDraft, NormalizeSnapshot, BuildSnapshot, ComputeChecksum, PreviousChecksum, SnapshotListing,
      WroteOne;
  }

  lemma SnappedSame(s: State, same: State, t: State, ns: Namespace, input: NotesInput, written: seq<string>,
                    resolved: seq<string>, snapshot: Snapshot)
    requires Snapped(s, t, ns, input, written, resolved, snapshot) && same.snapshots == s.snapshots
    ensures Snapped(same, t, ns, input, written, resolved, snapshot)
  {
    hide Clean, NormalizeSnapshot, BuildSnapshot, ComputeChecksum, PreviousChecksum, SnapshotListing, CheckpointInput;
  }

  // ----- what a call that did not go through means -----

  lemma StoppedWriting(start: State, end: State, ns: Namespace, input: NotesInput, written: seq<string>)
    requires |written| < |NotesOf(input)| && IdTaken(end.records.Keys) && end.snapshots == start.snapshots
    requires WroteAll(start.records, end.records, written, NotesDraft(ns, input), NotesOf(input)[..|written|])
    ensures Failed(start, end, ns, input, AlreadyExists)
  {
    hide WroteAll, NotesOf, NotesDraft, IdTaken, StoppedAt, Unchecked;
    assert Stopped(start, end, ns, input, AlreadyExists, Course(written, end.records, [], end.records, ""));
  }

  lemma StoppedResolving(start: State, middle: State, end: State, ns: Namespace, input: NotesInput,
                         written: seq<string>, k: nat)
    requires WroteAll(start.records, middle.records, written, NotesDraft(ns, input), NotesOf(input))
    requires StoppedAt(middle.records, end.records, AskedLists(input), k, middle.clock)
    requires start.clock <= middle.clock && end.snapshots == start.snapshots
    ensures Failed(start, end, ns, input, InvalidId)
  {
    hide WroteAll, NotesOf, NotesDraft, Unchecked, ResolvedExactly, AskedOf, AllUsable, UsableLists, UsablePrefix,
      Clean, AskedLists;
    WroteCount(start.records, middle.records, written, NotesDraft(ns, input), NotesOf(input));
    assert NotesOf(input)[..|written|] == NotesOf(input);
    var lists := AskedLists(input);
    var done := AskedOf(lists[..k]) + Elems(UsablePrefix(Clean(lists[k])));
    ResolvedEarlier(middle.records, end.records, CanAmong(middle.records, done), middle.clock, start.clock);
    assert StoppedAt(middle.records, end.records, lists, k, start.clock);
    assert Stopped(start, end, ns, input, InvalidId, Course(written, middle.records, [], end.records, ""));
  }

  lemma StoppedChecking(start: State, middle: State, done: State, end: State, ns: Namespace, input: NotesInput,
                        written: seq<string>, resolved: seq<string>)
    requires WroteAll(start.records, middle.records, written, NotesDraft(ns, input), NotesOf(input))
    requires ResolvedExactly(middle.records, done.records, ToResolve(middle.records, ns, input), middle.clock)
    requires Elems(resolved) == ToReport(middle.records, ns, input) && UsableLists(AskedLists(input))
    requires start.clock <= middle.clock && done.snapshots == start.snapshots && (written != [] || resolved != [])
    requires Unchecked(done, end, ns, input, written, resolved)
    ensures Failed(start, end, ns, input, AlreadyExists)
  {
    hide WroteAll, NotesOf, NotesDraft, ResolvedExactly, StoppedAt, UsableLists, Snapped, ToResolve, ToReport, IdTaken,
      Elems;
    WroteCount(start.records, middle.records, written, NotesDraft(ns, input), NotesOf(input));
    assert NotesOf(input)[..|written|] == NotesOf(input);
    ResolvedEarlier(middle.records, done.records, ToResolve(middle.records, ns, input), middle.clock, start.clock);
    var same := State(done.records, start.snapshots, start.clock);
    if !(end.snapshots == done.snapshots && IdTaken(done.snapshots.Keys)) {
      var snapshot :| Snapped(done, end, ns, input, written, resolved, snapshot);
      SnappedSame(done, same, end, ns, input, written, resolved, snapshot);
    }
    assert Unchecked(same, end, ns, input, written, resolved);
    assert Stopped(start, end, ns, input, AlreadyExists, Course(written, middle.records, resolved, done.records, ""));
  }

  /**
    A call fails on a taken id, or on an asked id that cannot be a file name. In the second case it has written every
    note, those that are not gaps as new records, so that sending it again writes them again; and it fails again.
   */
  lemma FailureMeans(start: State, end: State, ns: Namespace, input: NotesInput, error: Error)
    requires Failed(start, end, ns, input, error)
    ensures error == AlreadyExists || error == InvalidId
    ensures error == AlreadyExists ==> IdTaken(end.records.Keys) || IdTaken(end.snapshots.Keys)
    ensures error == InvalidId ==>
      && !UsableLists(AskedLists(input)) && end.snapshots == start.snapshots
      && forall note :: note in NotesOf(input) ==> WrittenAnyway(start, end, ns, note)
  {
    hide Stopped, NotesOf, AskedLists, WrittenAnyway, UsableLists, IdTaken;
    var c :| Stopped(start, end, ns, input, error, c);
    StoppedBy(start, end, ns, input, error, c);
    if error == InvalidId {
      forall note | note in NotesOf(input) ensures WrittenAnyway(start, end, ns, note) {
        var k :| 0 <= k < |NotesOf(input)| && NotesOf(input)[k] == note;
        StoppedNote(start, end, ns, input, c, k);
      }
    }
  }

  ghost predicate WrittenAnyway(start: State, end: State, ns: Namespace, note: Note) {
    exists id :: HoldsNote(end.records, id, ns, note) && (id in start.records ==> note.class_.UnresolvedGaps?)
  }

  lemma StoppedBy(start: State, end: State, ns: Namespace, input: NotesInput, error: Error, c: Course)
    requires Stopped(start, end, ns, input, error, c)
    ensures error == AlreadyExists || error == InvalidId
    ensures error == AlreadyExists ==> IdTaken(end.records.Keys) || IdTaken(end.snapshots.Keys)
    ensures error == InvalidId ==> !UsableLists(AskedLists(input)) && end.snapshots == start.snapshots
  {
    hide WroteAll, NotesOf, NotesDraft, ResolvedExactly, Snapped, ToResolve, ToReport, IdTaken, Elems, AllUsable,
      AskedLists, CanAmong, AskedOf, UsablePrefix, Clean;
    if error == InvalidId {
      var k: nat :| StoppedAt(c.middle, end.records, AskedLists(input), k, start.clock);
      assert AskedLists(input)[k] in AskedLists(input);
    }
  }

  lemma StoppedNote(start: State, end: State, ns: Namespace, input: NotesInput, c: Course, k: nat)
    requires Stopped(start, end, ns, input, InvalidId, c) && k < |NotesOf(input)|
    ensures WrittenAnyway(start, end, ns, NotesOf(input)[k])
  {
    hide WroteAll, NotesOf, NotesDraft, Unchecked, ToResolve, ToReport, Elems, AllUsable, UsableLists, AskedLists,
      AskedOf, UsablePrefix, Clean, CanAmong, Wants, OpenGap, IdTaken, Proper;
    var notes := NotesOf(input);
    var stop: nat :| StoppedAt(c.middle, end.records, AskedLists(input), stop, start.clock);
    assert notes[..|c.written|] == notes;
    NotesProper(input);
    DraftScopeIs(ns, input);
    WrittenAt(start.records, c.middle, c.written, NotesDraft(ns, input), notes, k);
    assert c.written[k] in end.records;
    assert HoldsNote(end.records, c.written[k], ns, notes[k]);
  }

  /** A call with nothing to write and nothing to resolve changes nothing. */
  lemma NothingAskedNothingDone(start: State, end: State, ns: Namespace, input: NotesInput, out: NotesResult)
    requires Persisted(start, end, ns, input, out)
    requires NotesOf(input) == [] && AskedIds(input) == {} && Clean(input.resolveUnresolvedGaps) == []
    ensures end.records == start.records && end.snapshots == start.snapshots && out == NotesResult(None, 0, [], [])
  {
    hide Kept, NotesDraft, Clean, NotesOf, AskedIds, Checked, WroteAll, ResolvedExactly, ToReport;
    var c :| Took(start, end, ns, input, out, c);
    CleanNothing();
    TookCounts(start, end, ns, input, out, c);
    NothingToReport(c.middle, ns, input);
    NoElems(c.resolved);
    CourseKeeps(start, end, ns, input, out, c);
    forall id | id in start.records ensures id in c.done && c.done[id] == start.records[id] {
      assert Untouched(start.records, c.done, id);
    }
    assert c.done == start.records;
  }

  lemma NothingToReport(m: map<string, Record>, ns: Namespace, input: NotesInput)
    requires AskedIds(input) == {} && Clean(input.resolveUnresolvedGaps) == []
    ensures ToReport(m, ns, input) == {}
  {
    hide AskedIds, Clean, Hit;
  }

  lemma NoElems(s: seq<string>)
    ensures Elems(s) == {} ==> s == []
  {
    assert s != [] ==> s[0] in Elems(s);
  }

  lemma CleanNothing()
    ensures Clean([]) == []
  {
  }
}
