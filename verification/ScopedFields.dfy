/**
  What the calls of scoped memory come to, field by field: in terms of what the caller gave and of what is stored, and
  of no draft, query or default that the service makes of it.
 */
module ScopedFields {
  import opened Wrappers
  import opened Ordering
  import opened Text
  import opened ScopedModel
  import opened ScopedStore
  import opened SnapshotChain
  import opened ScopedRules
  import opened ScopedGaps
  import opened ScopedResolve
  import opened ScopedSnapshots
  import opened ScopedNotes
  import opened ScopedPersist
  import opened Compaction

  // ----- the records that persisting notes writes -----

  /** What a call gives for a provenance link: the trimmed field or, without one, the trimmed entry of that name. */
  ghost function LinkGiven(field: string, entries: map<string, string>, name: string): string {
    if Trim(field) != "" then Trim(field) else if name in entries then Trim(entries[name]) else ""
  }

  /** All five links, each from its own field and entry. */
  ghost function LinksGiven(input: NotesInput): Source {
    Source(LinkGiven(input.source.run, input.provenance, "source_run_id"),
           LinkGiven(input.source.cycle, input.provenance, "source_cycle_id"),
           LinkGiven(input.source.artifact, input.provenance, "source_artifact_id"),
           LinkGiven(input.source.policyDecision, input.provenance, "source_policy_decision_id"),
           LinkGiven(input.source.modelProfile, input.provenance, "source_model_profile_id"))
  }

  /** The metadata of a call, with its provenance entries, if any, under their own name. */
  ghost predicate MetadataGiven(m: JsonMap, input: NotesInput) {
    var own := if input.provenance == map[] then {} else {"provenance"};
    && m.Keys == input.metadata.Keys + own
    && forall key :: key in m ==> m[key] == if key in own then Object(input.provenance) else input.metadata[key]
  }

  /** The given namespace without outer white space. */
  ghost predicate ScopeGiven(scope: Namespace, n: Namespace) {
    scope.repo == Trim(n.repo) && scope.run == Trim(n.run) && scope.cycle == Trim(n.cycle)
    && scope.agent == Trim(n.agent)
  }

  ghost predicate CreatorGiven(createdBy: string, given: string) {
    createdBy == if Trim(given) == "" then "control-plane" else Trim(given)
  }

  /** What every new record of a call has from it. Only working context has the content. */
  ghost predicate NoteGiven(r: Record, n: Namespace, input: NotesInput) {
    && ScopeGiven(r.scope, n) && CreatorGiven(r.createdBy, input.createdBy)
    && r.expiresAt == input.expiresAt && r.content == (if r.class_.WorkingContext? then input.content else map[])
    && r.source == LinksGiven(input) && MetadataGiven(r.metadata, input)
  }

  /** Open when no status was given or for a gap, otherwise the status that was given; resolved when it was created. */
  ghost predicate StatusGiven(r: Record, input: NotesInput) {
    && (if r.class_.UnresolvedGaps? || BlankStatus(input.status) then r.status.Open?
        else KnownStatus(r.status) && Names(input.status, r.status))
    && r.updatedAt == r.createdAt && r.resolvedAt == if r.status.Resolved? then Some(r.createdAt) else None
  }

  lemma LinkIs(field: string, entries: map<string, string>, name: string)
    ensures Trim(FirstNonEmpty(field, ValueFromMap(entries, name))) == LinkGiven(field, entries, name)
    ensures FirstNonEmpty(field, ValueFromMap(entries, name)) == LinkGiven(field, entries, name)
  {
    hide Trim;
    TrimTwice(field);
    if name in entries {
      TrimTwice(entries[name]);
    }
    assert Trim("") == "";
  }

  lemma LinksAre(input: NotesInput)
    ensures SourceFor(input) == LinksGiven(input) && TrimSource(SourceFor(input)) == LinksGiven(input)
  {
    hide Trim, LinkGiven, FirstNonEmpty, ValueFromMap;
    LinkIs(input.source.run, input.provenance, "source_run_id");
    LinkIs(input.source.cycle, input.provenance, "source_cycle_id");
    LinkIs(input.source.artifact, input.provenance, "source_artifact_id");
    LinkIs(input.source.policyDecision, input.provenance, "source_policy_decision_id");
    LinkIs(input.source.modelProfile, input.provenance, "source_model_profile_id");
  }

  lemma MetadataIs(input: NotesInput)
    ensures MetadataGiven(MetadataFor(input), input)
  {
    if input.provenance == map[] {
      assert MetadataFor(input) == input.metadata;
    } else {
      assert |input.provenance| > 0;
      assert MetadataFor(input).Keys == input.metadata.Keys + {"provenance"};
    }
  }

  lemma CreatorIs(given: string)
    ensures CreatorGiven(Trim(Default(given, "control-plane")), given)
  {
    hide Trim;
    assert Trim("control-plane") == "control-plane" by {
      Literals();
    }
    TrimTwice(given);
  }

  /** A record made from the draft of a call, for a class. */
  lemma DraftedNote(id: string, n: Namespace, input: NotesInput, c: MemoryClass, text: string, now: Time)
    requires KnownStatus(StatusFor(input)) && !c.OtherClass? && !c.NoClass?
    ensures var r := NewRecord(id, DraftOf(NotesDraft(NormalizeNamespace(n), input), c), text, now);
      r.class_ == c && NoteGiven(r, n, input) && StatusGiven(r, input)
  {
    hide Trim, NormalizeStatus, Default, SourceFor, TrimSource, MetadataFor, MetadataGiven, LinksGiven, CreatorGiven,
      Names, BlankStatus;
    StatusRead(input.status);
    LinksAre(input);
    MetadataIs(input);
    CreatorIs(input.createdBy);
  }

  /** An open gap that stands for this text in the given namespace; a blank cycle or agent is not compared. */
  ghost predicate FitsGap(r: Record, n: Namespace, text: string) {
    && r.class_.UnresolvedGaps? && r.status.Open? && r.text == text
    && r.scope.repo == Trim(n.repo) && r.scope.run == Trim(n.run)
    && Passes(n.cycle, r.scope.cycle) && Passes(n.agent, r.scope.agent)
  }

  lemma CandidateFits(r: Record, n: Namespace, text: string)
    ensures GapCandidate(r, NormalizeNamespace(n), text) <==> FitsGap(r, n, text)
  {
    hide Trim;
  }

  lemma NewAsDrafted(before: map<string, Record>, after: map<string, Record>, id: string, d: Draft, text: string)
    requires WrittenAs(before, after, id, d, text) && id !in before
    ensures id in after && after[id] == NewRecord(id, d, text, after[id].createdAt)
    ensures d.class_.UnresolvedGaps? ==> FirstCandidate(before, d.scope, text, None)
  {
    hide NewRecord, RefreshGap, GapCandidate, RecordBefore;
  }

  lemma RefreshedAsDrafted(before: map<string, Record>, after: map<string, Record>, id: string, d: Draft, text: string)
    requires WrittenAs(before, after, id, d, text) && id in before
    ensures d.class_.UnresolvedGaps? && FirstCandidate(before, d.scope, text, Some(before[id])) && id in after
    ensures after[id] == RefreshGap(before[id], text, d.metadata, d.source, after[id].updatedAt)
  {
    hide NewRecord, RefreshGap, GapCandidate, RecordBefore;
  }

  /** A written record at the end of the call: as it was written, or resolved by the same call. */
  lemma WrittenToEnd(start: State, end: State, ns: Namespace, input: NotesInput, out: NotesResult, c: Course,
                     id: string)
    requires Took(start, end, ns, input, out, c) && Inv(end) && id in c.middle
    ensures id in end.records && (id !in out.resolvedIds ==> end.records[id] == c.middle[id])
    ensures end.records[id] == c.middle[id]
      || end.records[id] == ResolveRecord(c.middle[id], end.records[id].updatedAt)
  {
    hide Inv, Clean, NotesOf, Checked, WroteAll, ToResolve, ToReport, NotesDraft, ResolveRecord, Elems;
    ListsAre(end, ns, input, out, start, c);
    InList(out.resolvedIds, c.resolved);
    InElems(c.resolved);
    ReportedCovers(c.middle, ns, input);
    CheckpointGrows(start, end, ns, input, out, c);
    assert id in c.done && Untouched(c.done, end.records, id);
  }

  /** Which note a listed record is the record of. */
  lemma ListedNote(start: State, end: State, ns: Namespace, input: NotesInput, out: NotesResult, c: Course, id: string)
    returns (k: nat)
    requires Took(start, end, ns, input, out, c) && Inv(end) && id in out.recordIds
    ensures k < |c.written| == |NotesOf(input)| && c.written[k] == id && id in c.middle
    ensures var note := NotesOf(input)[k];
      && WrittenAs(start.records, c.middle, id, DraftOf(NotesDraft(ns, input), note.class_), note.text)
      && note in NotesOf(input) && !note.class_.OtherClass? && !note.class_.NoClass? && Trim(note.text) == note.text
  {
    hide Inv, Clean, NotesOf, Checked, ToResolve, ToReport, NotesDraft, ResolvedExactly, Elems, WrittenAs, DraftOf,
      Trim;
    ListsAre(end, ns, input, out, start, c);
    InList(out.recordIds, c.written);
    WrittenAreStored(start.records, c.middle, c.written, NotesDraft(ns, input), NotesOf(input));
    NotesProper(input);
    k :| 0 <= k < |c.written| && c.written[k] == id;
    assert NotesOf(input)[k] in NotesOf(input);
  }

  /**
    A new record of a call that went through has its scope, creator, expiry, content, metadata and links from the call;
    it is open when no status was given or when it is a gap, and otherwise has the given status, unless the same call
    has resolved it; and a new gap is written only when no open gap fitted.
   */
  lemma NewRecordFields(start: State, end: State, n: Namespace, input: NotesInput, out: NotesResult, id: string)
    requires NotesPersisted(start, end, n, input, Ok(out)) && Inv(end)
    requires id in out.recordIds && id !in start.records
    ensures id in end.records && NoteGiven(end.records[id], n, input)
    ensures if id in out.resolvedIds then end.records[id].status.Resolved? else StatusGiven(end.records[id], input)
    ensures var r := end.records[id];
      r.class_.UnresolvedGaps? ==> forall o :: o in start.records ==> !FitsGap(start.records[o], n, r.text)
  {
    hide Inv, Took, NotesOf, NotesDraft, NormalizeNamespace, ValidNamespace, StatusFor, Kept, UsableLists, DraftOf,
      WrittenAs, StatusGiven, NewRecord, GapCandidate, FitsGap, MetadataGiven, LinksGiven, CreatorGiven, ScopeGiven,
      Trim;
    var ns := NormalizeNamespace(n);
    var c :| Took(start, end, ns, input, out, c);
    var k := ListedNote(start, end, ns, input, out, c, id);
    var note := NotesOf(input)[k];
    var d := DraftOf(NotesDraft(ns, input), note.class_);
    NewAsDrafted(start.records, c.middle, id, d, note.text);
    DraftedNote(id, n, input, note.class_, note.text, c.middle[id].createdAt);
    WrittenToEnd(start, end, ns, input, out, c, id);
    ResolvedListed(start, end, ns, input, out, id);
    DraftClass(NotesDraft(ns, input), note.class_);
    DraftScopeIs(ns, input);
    DraftText(id, d, note.text, c.middle[id].createdAt);
    forall o | o in start.records ensures !FitsGap(start.records[o], n, note.text) || !note.class_.UnresolvedGaps? {
      CandidateFits(start.records[o], n, note.text);
    }
  }

  /**
    A call is rejected exactly for a blank repository or run, or for a status that is given but names none of the four.
    Then nothing has changed.
   */
  lemma RejectedNotes(start: State, end: State, n: Namespace, input: NotesInput, r: Result<NotesResult>)
    requires NotesPersisted(start, end, n, input, r)
    ensures r == Err(Rejected) <==>
      || Trim(n.repo) == "" || Trim(n.run) == ""
      || (!BlankStatus(input.status) && forall s :: KnownStatus(s) ==> !Names(input.status, s))
    ensures r == Err(Rejected) ==> end == start
  {
    hide Persisted, Failed, UsableLists, AskedLists, NormalizeStatus, Names, BlankStatus, NormalizeNamespace, Trim;
    StatusRead(input.status);
    if r.Err? && ValidNamespace(n) && KnownStatus(StatusFor(input)) {
      FailureMeans(start, end, NormalizeNamespace(n), input, r.error);
    }
  }

  lemma DraftText(id: string, d: Draft, text: string, now: Time)
    requires Trim(text) == text
    ensures NewRecord(id, d, text, now).text == text
  {
  }

  lemma ResolvedListed(start: State, end: State, ns: Namespace, input: NotesInput, out: NotesResult, id: string)
    requires Persisted(start, end, ns, input, out)
    ensures id in out.resolvedIds ==> id in end.records && end.records[id].status.Resolved?
  {
    hide Took, Framed, Noted, NotesOf, AskedIds, Clean, Checkpointed, Hit, OpenGapsWithText, WrittenHere;
  }

  /** A link once written stays; a blank one is filled in. */
  ghost predicate LinksFilled(a: Source, b: Source, given: Source) {
    && b.run == (if a.run != "" then a.run else given.run)
    && b.cycle == (if a.cycle != "" then a.cycle else given.cycle)
    && b.artifact == (if a.artifact != "" then a.artifact else given.artifact)
    && b.policyDecision == (if a.policyDecision != "" then a.policyDecision else given.policyDecision)
    && b.modelProfile == (if a.modelProfile != "" then a.modelProfile else given.modelProfile)
  }

  /** The call's metadata is laid over the record's own. */
  ghost predicate MetadataMerged(a: JsonMap, b: JsonMap, input: NotesInput) {
    exists given: JsonMap :: MetadataGiven(given, input) && b == a + given
  }

  /** a was created earlier, or at the same time with the smaller id. */
  ghost predicate Older(a: Record, b: Record) {
    a.createdAt < b.createdAt || (a.createdAt == b.createdAt && Before(a.id, b.id))
  }

  lemma FilledLinks(a: Source, input: NotesInput)
    requires TrimSource(a) == a
    ensures LinksFilled(a, FillSource(a, SourceFor(input)), LinksGiven(input))
  {
    hide Trim, LinkGiven;
    LinksAre(input);
  }

  /**
    A listed record that was there before is the oldest open gap that fitted the text, refreshed: links that were blank
    are filled in from the call, its metadata is laid over the old, and the rest stays, unless the same call has
    resolved it.
   */
  lemma RefreshedRecordFields(start: State, end: State, n: Namespace, input: NotesInput, out: NotesResult, id: string)
    requires NotesPersisted(start, end, n, input, Ok(out)) && Inv(start) && Inv(end)
    requires id in out.recordIds && id in start.records
    ensures id in end.records
    ensures var a, b := start.records[id], end.records[id];
      && FitsGap(a, n, b.text) && a.text == b.text
      && (forall o :: o in start.records && FitsGap(start.records[o], n, b.text) && o != id ==>
            Older(a, start.records[o]))
      && LinksFilled(a.source, b.source, LinksGiven(input)) && MetadataMerged(a.metadata, b.metadata, input)
      && b.scope == a.scope && b.class_ == a.class_ && b.createdBy == a.createdBy && b.createdAt == a.createdAt
      && b.content == a.content && b.expiresAt == a.expiresAt
      && (if id in out.resolvedIds then b.status.Resolved? else b.status.Open? && b.resolvedAt == a.resolvedAt)
  {
    hide Inv, Took, NotesOf, NotesDraft, NormalizeNamespace, ValidNamespace, StatusFor, Kept, UsableLists, DraftOf,
      WrittenAs, GapCandidate, FitsGap, LinksGiven, LinksFilled, FillSource, MetadataMerged, Trim;
    var ns := NormalizeNamespace(n);
    var c :| Took(start, end, ns, input, out, c);
    var k := ListedNote(start, end, ns, input, out, c, id);
    var note, a := NotesOf(input)[k], start.records[id];
    var d := DraftOf(NotesDraft(ns, input), note.class_);
    RefreshedAsDrafted(start.records, c.middle, id, d, note.text);
    WrittenToEnd(start, end, ns, input, out, c, id);
    ResolvedListed(start, end, ns, input, out, id);
    DraftClass(NotesDraft(ns, input), note.class_);
    DraftScopeIs(ns, input);
    DraftExtras(ns, input, note.class_);
    StoredSource(start, id);
    FilledLinks(a.source, input);
    MetadataIs(input);
    MergedWith(a.metadata, MetadataFor(input), input);
    forall o | o in start.records
      ensures GapCandidate(start.records[o], ns, note.text) <==> FitsGap(start.records[o], n, note.text)
    {
      CandidateFits(start.records[o], n, note.text);
    }
    FitsFields(a, n, note.text);
  }

  lemma MergedWith(a: JsonMap, given: JsonMap, input: NotesInput)
    requires MetadataGiven(given, input)
    ensures MetadataMerged(a, a + given, input)
  {
  }

  lemma FitsFields(r: Record, n: Namespace, text: string)
    requires FitsGap(r, n, text)
    ensures r.text == text && r.status.Open?
  {
    hide Trim;
  }

  lemma DraftExtras(ns: Namespace, input: NotesInput, c: MemoryClass)
    ensures var d := DraftOf(NotesDraft(ns, input), c); d.metadata == MetadataFor(input) && d.source == SourceFor(input)
  {
    hide StatusFor, MetadataFor, SourceFor, Default;
  }

  lemma StoredSource(s: State, id: string)
    requires Inv(s) && id in s.records
    ensures TrimSource(s.records[id].source) == s.records[id].source
  {
    hide Inv, RecordOk, ValidRecord, Trim, NormalizeClass, NormalizeStatus, NormalizeNamespace;
    StoredOk(s, id);
  }

  /** The texts a call gives for a class. */
  ghost function TextsGiven(input: NotesInput, c: MemoryClass): seq<string> {
    match c
    case WorkingContext => input.workingContext + [input.note]
    case PriorCycleSummaries => input.priorCycleSummaries + input.cycleSummaries
    case CarryForwardRisks => input.carryForwardRisks
    case UnresolvedGaps => input.unresolvedGaps
    case BacklogItems => input.backlogItems
    case ReviewerNotes => input.reviewerNotes
    case PolicyExceptions => input.policyExceptions
    case _ => []
  }

  lemma NotesForHas(c: MemoryClass, texts: seq<string>, note: Note)
    ensures note in NotesFor(c, texts) <==> note.class_ == c && note.text in texts
  {
    if note.class_ == c && note.text in texts {
      var i :| 0 <= i < |texts| && texts[i] == note.text;
      assert NotesFor(c, texts)[i] == note;
    }
  }

  /** The trimmed non-blank texts of a list. */
  ghost predicate TextIn(text: string, values: seq<string>) {
    text != "" && exists v :: v in values && Trim(v) == text
  }

  lemma CleanHas(values: seq<string>, text: string)
    ensures text in Clean(values) <==> TextIn(text, values)
  {
    hide Clean, Trim;
    CleanMeaning(values);
  }

  lemma ContextHas(values: seq<string>, value: string, text: string)
    ensures text in Clean(AppendIfPresent(values, value)) <==> TextIn(text, values + [value])
  {
    hide Clean, Trim;
    CleanHas(AppendIfPresent(values, value), text);
    TrimTwice(value);
    if v :| v in values && Trim(v) == text {
      assert v in values + [value] && v in AppendIfPresent(values, value);
    }
    assert Trim(value) != "" ==> Trim(value) in AppendIfPresent(values, value);
    assert value in values + [value];
  }

  lemma EachClass(input: NotesInput, note: Note)
    ensures note in NotesOf(input) <==>
      || note in NotesFor(WorkingContext, Clean(AppendIfPresent(input.workingContext, input.note)))
      || note in NotesFor(PriorCycleSummaries, Clean(input.priorCycleSummaries + input.cycleSummaries))
      || note in NotesFor(CarryForwardRisks, Clean(input.carryForwardRisks))
      || note in NotesFor(UnresolvedGaps, Clean(input.unresolvedGaps))
      || note in NotesFor(BacklogItems, Clean(input.backlogItems))
      || note in NotesFor(ReviewerNotes, Clean(input.reviewerNotes))
      || note in NotesFor(PolicyExceptions, Clean(input.policyExceptions))
  {
    hide NotesFor, Clean, AppendIfPresent;
  }

  /** The notes of a call are the trimmed non-blank texts that it gives, for the class it gives them for. */
  lemma NotesMeaning(input: NotesInput, note: Note)
    ensures note in NotesOf(input) <==> TextIn(note.text, TextsGiven(input, note.class_))
  {
    hide NotesOf, NotesFor, Clean, AppendIfPresent, TextIn;
    EachClass(input, note);
    NotesForHas(WorkingContext, Clean(AppendIfPresent(input.workingContext, input.note)), note);
    NotesForHas(PriorCycleSummaries, Clean(input.priorCycleSummaries + input.cycleSummaries), note);
    NotesForHas(CarryForwardRisks, Clean(input.carryForwardRisks), note);
    NotesForHas(UnresolvedGaps, Clean(input.unresolvedGaps), note);
    NotesForHas(BacklogItems, Clean(input.backlogItems), note);
    NotesForHas(ReviewerNotes, Clean(input.reviewerNotes), note);
    NotesForHas(PolicyExceptions, Clean(input.policyExceptions), note);
    ContextHas(input.workingContext, input.note, note.text);
    CleanHas(TextsGiven(input, note.class_), note.text);
    NothingIn(note.text);
  }

  lemma NothingIn(text: string)
    ensures !TextIn(text, [])
  {
  }

  // ----- snapshots -----

  ghost predicate SummaryGiven(summary: string, given: string, default_: string) {
    summary == if Trim(given) == "" then default_ else Trim(given)
  }

  /** What a snapshot has from the input. */
  ghost predicate SnapshotGiven(s: Snapshot, input: SnapshotInput) {
    && s.scope == SnapshotScope(Trim(input.scope.repo), Trim(input.scope.run), Trim(input.scope.cycle))
    && CreatorGiven(s.createdBy, input.createdBy)
    && SummaryGiven(s.summary, input.summary, "scoped memory snapshot")
    && s.manifestRef == Trim(input.manifestRef) && s.metadata == input.metadata
  }

  lemma BuiltGiven(id: string, input: SnapshotInput, refs: seq<string>, previous: Checksum, now: Time)
    requires ValidNamespace(input.scope)
    ensures SnapshotGiven(NormalizeSnapshot(BuildSnapshot(id, input, refs, previous, now)), input)
  {
    hide Trim, NormalizeQuery, CriteriaFor, Clean, ComputeChecksum;
    TrimTwice(input.scope.repo);
    TrimTwice(input.scope.run);
    TrimTwice(input.scope.cycle);
    TrimTwice(input.createdBy);
    Literals();
  }

  /** A snapshot is rejected for a blank repository or run only; its fields are from the input, its time is now. */
  lemma SnapshotFields(s: State, t: State, input: SnapshotInput, r: Result<Snapshot>)
    requires SnapshotTaken(s, t, input, r)
    ensures r == Err(Rejected) <==> Trim(input.scope.repo) == "" || Trim(input.scope.run) == ""
    ensures r.Ok? ==> SnapshotGiven(r.value, input) && r.value.createdAt == t.clock
  {
    hide BuildSnapshot, NormalizeSnapshot, RefsFor, PreviousChecksum, SnapshotListing, ComputeChecksum, SnapshotGiven,
      NormalizeNamespace, Trim;
    if r.Ok? {
      var previous := PreviousChecksum(SnapshotListing(s.snapshots, SnapshotScopeOf(NormalizeNamespace(input.scope))));
      BuiltGiven(r.value.id, input, RefsFor(s.records, input), previous, t.clock);
      BuiltTime(r.value.id, input, RefsFor(s.records, input), previous, t.clock);
    }
  }

  lemma BuiltTime(id: string, input: SnapshotInput, refs: seq<string>, previous: Checksum, now: Time)
    ensures NormalizeSnapshot(BuildSnapshot(id, input, refs, previous, now)).createdAt == now
  {
    hide Trim, NormalizeQuery, CriteriaFor, Clean, NormalizeScope, NormalizeNamespace, Default, ComputeChecksum;
  }

  /** A filter whose place another one takes when it is blank. */
  ghost predicate PassesEither(wanted: string, otherwise: string, actual: string) {
    if Trim(wanted) != "" then Passes(wanted, actual) else Passes(otherwise, actual)
  }

  /**
    The records that a snapshot without refs is of: those of the namespace's repository, run and cycle, where the given
    criteria, if any, do not say otherwise, that pass the criteria.
   */
  ghost predicate Covers(r: Record, input: SnapshotInput) {
    var n := input.scope;
    match input.criteria
    case None => Passes(n.repo, r.scope.repo) && Passes(n.run, r.scope.run) && Passes(n.cycle, r.scope.cycle)
    case Some(q) =>
      && PassesEither(q.scope.repo, n.repo, r.scope.repo) && PassesEither(q.scope.run, n.run, r.scope.run)
      && PassesEither(q.scope.cycle, n.cycle, r.scope.cycle) && Passes(q.scope.agent, r.scope.agent)
      && FromSource(r, q.source)
      && (NormalizeClass(q.class_).NoClass? || r.class_ == NormalizeClass(q.class_))
      && (NormalizeStatus(q.status).NoStatus? || r.status == NormalizeStatus(q.status))
  }

  lemma EitherIs(wanted: string, otherwise: string, actual: string)
    ensures Passes(FillBlank(Trim(wanted), Trim(otherwise)), actual) <==> PassesEither(wanted, otherwise, actual)
    ensures Passes(FillBlank("", Trim(otherwise)), actual) <==> Passes(otherwise, actual)
    ensures Passes(Trim(wanted), actual) <==> Passes(wanted, actual)
  {
    hide Trim;
    assert Trim("") == "";
    TrimTwice(wanted);
    TrimTwice(otherwise);
  }

  lemma TrimmedSource(r: Record, s: Source)
    ensures FromSource(r, TrimSource(s)) <==> FromSource(r, s)
    ensures FromSource(r, Source("", "", "", "", ""))
  {
    hide Trim;
    assert Trim("") == "";
    TrimSourceTwice(s);
  }

  lemma CoversAsked(r: Record, input: SnapshotInput)
    ensures Covers(r, input) <==> Asked(r, CriteriaFor(input.criteria, NormalizeNamespace(input.scope)))
  {
    hide Trim, NormalizeClass, NormalizeStatus, Passes, PassesEither, FromSource, TrimSource, FillBlank;
    var n, given := input.scope, input.criteria.Some?;
    var q := if given then input.criteria.value else NO_CRITERIA;
    EitherIs(q.scope.repo, n.repo, r.scope.repo);
    EitherIs(q.scope.run, n.run, r.scope.run);
    EitherIs(q.scope.cycle, n.cycle, r.scope.cycle);
    EitherIs(q.scope.agent, "", r.scope.agent);
    TrimmedSource(r, q.source);
    if given {
      NormalizeClassTwice(q.class_);
      NormalizeStatusTwice(q.status);
    } else {
      PassesAny(r.scope.agent);
    }
  }

  lemma PassesAny(actual: string)
    ensures Passes("", actual)
  {
    assert Trim("") == "";
  }

  /** How many of the covered records, the oldest first, are passed over. */
  ghost function Skipped(input: SnapshotInput): nat {
    if input.criteria.Some? && 0 < input.criteria.value.offset then input.criteria.value.offset else 0
  }

  /** The covered records, oldest first, ties by id. */
  ghost predicate CoveredList(l: seq<Record>, m: map<string, Record>, input: SnapshotInput) {
    && (forall i, j :: 0 <= i < j < |l| ==> Older(l[i], l[j]))
    && forall r :: r in l <==> r.id in m && m[r.id] == r && Covers(r, input)
  }

  lemma CoveredListing(s: State, input: SnapshotInput)
    requires Inv(s)
    ensures KeyedRecords(s.records)
    ensures var q := NormalizeQuery(CriteriaFor(input.criteria, NormalizeNamespace(input.scope)));
      CoveredList(Listing(s.records, q), s.records, input) && q.offset == Skipped(input)
  {
    hide Inv, RecordsOk, SnapshotsOk, Listing, Asked, Covers, NormalizeRecord, Trim, NormalizeClass, NormalizeStatus,
      Reads, NormalizeNamespace, TrimSource;
    InvParts(s);
    var q := CriteriaFor(input.criteria, NormalizeNamespace(input.scope));
    QueryListing(s.records, q);
    forall r ensures Reads(s.records, r) && Asked(r, q) <==>
      r.id in s.records && s.records[r.id] == r && Covers(r, input)
    {
      ReadsStored(s.records, s.clock, r);
      CoversAsked(r, input);
    }
  }

  /** The snapshot refers to the listed records after the first few. */
  ghost predicate RefersToRest(s: Snapshot, l: seq<Record>, skipped: nat) {
    forall id :: id in s.refs <==> exists i :: skipped <= i < |l| && l[i].id == id
  }

  lemma RestIds(s: State, l: seq<Record>, skipped: nat, refs: seq<string>)
    requires Inv(s) && refs == Clean(IdsOf(From(l, skipped)))
    requires forall r :: r in l ==> r.id in s.records && s.records[r.id] == r
    ensures forall id :: id in refs <==> exists i :: skipped <= i < |l| && l[i].id == id
  {
    hide Inv, Clean, From;
    var ids := IdsOf(From(l, skipped));
    forall id ensures id in ids <==> exists i :: skipped <= i < |l| && l[i].id == id {
      RestHas(l, skipped, id);
    }
    assert AllStored(s.records, ids);
    CleanIds(s, ids);
    InList(refs, ids);
  }

  lemma RestHas(l: seq<Record>, skipped: nat, id: string)
    ensures id in IdsOf(From(l, skipped)) <==> exists i :: skipped <= i < |l| && l[i].id == id
  {
    var ids := IdsOf(From(l, skipped));
    if i :| skipped <= i < |l| && l[i].id == id {
      assert ids[i - skipped] == id;
    }
    if k :| 0 <= k < |ids| && ids[k] == id {
      assert l[k + skipped].id == id;
    }
  }

  /**
    A snapshot without refs refers to exactly the records that its namespace and criteria cover, or, when the criteria
    have an offset, to all of them but that many of the oldest.
   */
  lemma SnapshotCovers(s: State, t: State, input: SnapshotInput, snapshot: Snapshot)
    requires Inv(s) && SnapshotTaken(s, t, input, Ok(snapshot)) && forall v :: v in input.refs ==> Trim(v) == ""
    ensures exists l :: CoveredList(l, s.records, input) && RefersToRest(snapshot, l, Skipped(input))
    ensures Skipped(input) == 0 ==>
      forall id :: id in snapshot.refs <==> id in s.records && Covers(s.records[id], input)
  {
    hide Inv, SnapshotTaken, CriteriaFor, NormalizeQuery, NormalizeNamespace, Clean, CoveredList, Covers, Listing, Trim;
    CoveredListing(s, input);
    var q := NormalizeQuery(CriteriaFor(input.criteria, NormalizeNamespace(input.scope)));
    var l := Listing(s.records, q);
    TakenRefs(s, t, input, snapshot);
    NoRefs(input.refs);
    CoveredMembers(l, s, input);
    RestIds(s, l, Skipped(input), snapshot.refs);
    if Skipped(input) == 0 {
      forall id ensures id in snapshot.refs <==> id in s.records && Covers(s.records[id], input) {
        if id in s.records && Covers(s.records[id], input) {
          assert s.records[id] in l;
        }
      }
    }
  }

  lemma CoveredMembers(l: seq<Record>, s: State, input: SnapshotInput)
    requires Inv(s) && CoveredList(l, s.records, input)
    ensures forall r :: r in l ==> r.id in s.records && s.records[r.id] == r && Covers(r, input)
    ensures forall id :: id in s.records && Covers(s.records[id], input) ==>
      s.records[id] in l && s.records[id].id == id
  {
    hide Inv, Covers, RecordsOk, SnapshotsOk;
    InvParts(s);
  }

  lemma TakenRefs(s: State, t: State, input: SnapshotInput, snapshot: Snapshot)
    requires SnapshotTaken(s, t, input, Ok(snapshot))
    ensures KeyedRecords(s.records) && snapshot.refs == RefsFor(s.records, input)
  {
    hide RefsFor, BuildSnapshot, NormalizeSnapshot, PreviousChecksum, SnapshotListing, ComputeChecksum;
  }

  lemma NoRefs(refs: seq<string>)
    ensures Clean(refs) == [] <==> forall v :: v in refs ==> Trim(v) == ""
  {
    hide Clean, Trim;
    CleanMeaning(refs);
    assert Clean(refs) != [] ==> Clean(refs)[0] in Clean(refs);
    forall v | v in refs && Trim(v) != "" ensures Trim(v) in Clean(refs) {
    }
  }

  /** A snapshot with refs refers to exactly these, trimmed, each once and in order. */
  lemma SnapshotRefsGiven(s: State, t: State, input: SnapshotInput, snapshot: Snapshot)
    requires SnapshotTaken(s, t, input, Ok(snapshot)) && exists v :: v in input.refs && Trim(v) != ""
    ensures Sorted(Before, snapshot.refs) && forall id :: id in snapshot.refs <==> TextIn(id, input.refs)
  {
    hide SnapshotTaken, Clean, Trim, TextIn;
    TakenRefs(s, t, input, snapshot);
    NoRefs(input.refs);
    CleanMeaning(input.refs);
    forall id ensures id in Clean(input.refs) <==> TextIn(id, input.refs) {
      CleanHas(input.refs, id);
    }
  }

  /** What the closing snapshot of a call has from it; resolved ids are counted as often as they were reported. */
  ghost predicate CheckpointGiven(s: Snapshot, n: Namespace, input: NotesInput, out: NotesResult) {
    && s.scope == SnapshotScope(Trim(n.repo), Trim(n.run), Trim(n.cycle))
    && CreatorGiven(s.createdBy, input.createdBy)
    && SummaryGiven(s.summary, input.snapshotSummary, "scoped memory checkpoint")
    && s.manifestRef == Trim(input.snapshotManifestRef)
    && exists resolved: nat ::
      |out.resolvedIds| <= resolved
      && s.metadata == map["record_count" := Number(out.recordsWritten), "resolved_count" := Number(resolved)]
  }

  /** What the record that refers to the snapshot has. */
  ghost predicate ReferenceGiven(r: Record, s: Snapshot, n: Namespace, input: NotesInput) {
    && r.class_.SnapshotReference? && r.text == s.id && r.status.Open? && r.resolvedAt.None?
    && ScopeGiven(r.scope, n) && CreatorGiven(r.createdBy, input.createdBy)
    && r.content == map[] && r.expiresAt.None? && r.source == LinksGiven(input)
    && r.metadata == map["summary" := Json.Text(s.summary), "snapshot_id" := Json.Text(s.id),
                         "record_count" := Number(|s.refs|), "checksum" := Sum(s.checksum)]
  }

  lemma AskedCheckpoint(s: Snapshot, n: Namespace, input: NotesInput, out: NotesResult, written: seq<string>,
                        resolved: seq<string>)
    requires SnapshotGiven(s, CheckpointInput(NormalizeNamespace(n), input, written, resolved))
    requires out.recordsWritten == |written| && |out.resolvedIds| <= |resolved|
    ensures CheckpointGiven(s, n, input, out)
  {
    hide Trim;
    TrimTwice(n.repo);
    TrimTwice(n.run);
    TrimTwice(n.cycle);
    TrimTwice(input.createdBy);
    TrimTwice(input.snapshotSummary);
    TrimTwice(input.snapshotManifestRef);
    Literals();
  }

  lemma ReferenceIs(id: string, s: Snapshot, n: Namespace, input: NotesInput, now: Time)
    requires Trim(s.id) == s.id
    ensures ReferenceGiven(NewRecord(id, ReferenceDraft(NotesDraft(NormalizeNamespace(n), input), s), s.id, now), s, n,
                           input)
  {
    hide Trim, StatusFor, MetadataFor, SourceFor, LinksGiven, TrimSource, Default, CreatorGiven;
    LinksAre(input);
    CreatorIs(input.createdBy);
  }

  lemma {:induction false} DistinctTextsFew(values: seq<string>)
    ensures |DistinctTexts(values)| <= |values|
  {
    hide Trim;
    if values != [] {
      DistinctTextsFew(values[..|values| - 1]);
    }
  }

  lemma CleanFew(values: seq<string>)
    ensures |Clean(values)| <= |values|
  {
    hide DistinctTexts;
    DistinctTextsFew(values);
    SortBySorts(Before, DistinctTexts(values));
  }

  /** What the closing snapshot of a call that went through, and the record that refers to it, have from the call. */
  lemma CheckpointFields(start: State, end: State, n: Namespace, input: NotesInput, out: NotesResult)
    requires NotesPersisted(start, end, n, input, Ok(out)) && Inv(end) && out.snapshot.Some?
    ensures var s := out.snapshot.value;
      && CheckpointGiven(s, n, input, out)
      && exists id :: id in end.records && id !in start.records && ReferenceGiven(end.records[id], s, n, input)
  {
    hide Inv, WroteAll, ResolvedExactly, ToResolve, ToReport, NotesOf, NotesDraft, NormalizeNamespace, StatusFor, Kept,
      UsableLists, CheckpointGiven, ReferenceGiven, SnapshotGiven, NewRecord, ReferenceDraft, BuildSnapshot, Clean,
      NormalizeSnapshot, ComputeChecksum, PreviousChecksum, SnapshotListing, CheckpointInput, Elems, AskedLists, Trim;
    var s, ns := out.snapshot.value, NormalizeNamespace(n);
    var c :| Took(start, end, ns, input, out, c);
    CheckpointText(start, end, ns, input, out, c);
    var asked := CheckpointInput(ns, input, c.written, c.resolved);
    CheckpointScope(n, input, c.written, c.resolved);
    BuiltGiven(s.id, asked, Clean(c.written + c.resolved),
               PreviousChecksum(SnapshotListing(start.snapshots, SnapshotScopeOf(ns))), s.createdAt);
    CleanFew(c.resolved);
    AskedCheckpoint(s, n, input, out, c.written, c.resolved);
    StartStays(start, end, ns, input, out, c);
    ReferenceIs(c.reference, s, n, input, end.records[c.reference].createdAt);
  }

  lemma CheckpointScope(n: Namespace, input: NotesInput, written: seq<string>, resolved: seq<string>)
    requires ValidNamespace(n)
    ensures ValidNamespace(CheckpointInput(NormalizeNamespace(n), input, written, resolved).scope)
  {
    hide Trim, Default;
    TrimTwice(n.repo);
    TrimTwice(n.run);
  }

  // ----- statuses -----

  /** The classes whose records take part in status transitions. */
  ghost predicate HasTransitions(c: MemoryClass) {
    c in {UnresolvedGaps, CarryForwardRisks, BacklogItems, ReviewerNotes, PolicyExceptions}
  }

  lemma StoredClass(s: State, id: string)
    requires Inv(s) && id in s.records
    ensures Actionable(s.records[id].class_) <==> HasTransitions(s.records[id].class_)
    ensures s.records[id].id == id && KnownStatus(s.records[id].status) && UsableId(id) && id != ""
  {
    hide Inv, NormalizeRecord, ValidRecord, Actionable, UsableId;
    StoredOk(s, id);
    IdTrimmed(s.records[id], s.clock);
    ActionableClasses(s.records[id].class_);
  }

  /** What moving a record to a status leaves of it. */
  ghost predicate Moved(a: Record, b: Record, status: Status, updatedBy: string, reason: string, now: Time) {
    && KnownStatus(b.status) && Names(status, b.status) && (a.status == b.status || EarlierStatus(a.status, b.status))
    && b.updatedAt == now
    && b.resolvedAt == (if b.status.Resolved? then Some(now) else if b.status.Open? then None else a.resolvedAt)
    && b.metadata == a.metadata["status_updated_by" := Json.Text(Trim(updatedBy))]
                               ["status_reason" := Json.Text(Trim(reason))]["status_updated_at" := Instant(now)]
    && SameButStatus(a, b)
  }

  ghost predicate SameButStatus(a: Record, b: Record) {
    && b.id == a.id && b.scope == a.scope && b.class_ == a.class_ && b.text == a.text && b.content == a.content
    && b.createdBy == a.createdBy && b.createdAt == a.createdAt && b.expiresAt == a.expiresAt && b.source == a.source
  }

  /** A status that is named, and does not lie before the one that the record has. */
  ghost predicate MayMove(r: Record, status: Status) {
    HasTransitions(r.class_)
    && exists target ::
      KnownStatus(target) && Names(status, target) && (r.status == target || EarlierStatus(r.status, target))
  }

  lemma MayMoveIs(r: Record, status: Status)
    requires KnownStatus(r.status) && (Actionable(r.class_) <==> HasTransitions(r.class_))
    ensures var target := NormalizeStatus(status);
      MayMove(r, status) <==> Actionable(r.class_) && KnownStatus(target) && Rank(r.status) <= Rank(target)
  {
    hide NormalizeStatus, Names, Actionable, HasTransitions;
    StatusRead(status);
  }

  /**
    Updating a status goes through exactly for a stored record of a class with transitions and a named status that does
    not lie before its own; then this record, and no other, is moved.
   */
  lemma StatusUpdateFields(s: State, t: State, recordId: string, status: Status, updatedBy: string, reason: string,
                           r: Result<Record>)
    requires Inv(s) && StatusUpdated(s, t, recordId, status, updatedBy, reason, r)
    ensures var id := Trim(recordId);
      && (r.Ok? <==> id in s.records && MayMove(s.records[id], status))
      && (r.Ok? ==>
            && t.records.Keys == s.records.Keys && t.records[id] == r.value
            && Moved(s.records[id], r.value, status, updatedBy, reason, t.clock)
            && forall o :: o in s.records && o != id ==> t.records[o] == s.records[o])
      && (r.Err? ==> t.records == s.records)
  {
    hide Inv, Actionable, NormalizeStatus, Names, HasTransitions, MayMove, UsableId, Trim;
    var id := Trim(recordId);
    StatusRead(status);
    if id in s.records {
      StoredClass(s, id);
      MayMoveIs(s.records[id], status);
    }
  }

  /** What resolving leaves of a record. */
  ghost predicate NowResolved(a: Record, b: Record, since: Time) {
    && b.status.Resolved? && since <= b.updatedAt && b.resolvedAt == Some(b.updatedAt)
    && b.metadata == a.metadata && SameButStatus(a, b)
  }

  /**
    Resolving by id resolves exactly the asked records that are not resolved and have transitions, and reports exactly
    those and the asked ones that are resolved already.
   */
  lemma ResolvedByIds(s: State, after: map<string, Record>, ids: seq<string>, since: Time, id: string)
    requires Inv(s) && ResolvedExactly(s.records, after, Resolvable(s.records, ids), since) && id in s.records
    ensures var a := s.records[id];
      && id in after
      && (if id in ids && !a.status.Resolved? && HasTransitions(a.class_) then NowResolved(a, after[id], since)
          else after[id] == a)
      && (id in Hits(s.records, ids) <==> id in ids && (a.status.Resolved? || HasTransitions(a.class_)))
  {
    hide Inv, Actionable, HasTransitions;
    StoredClass(s, id);
    HitsElems(s.records, ids);
    InElems(Hits(s.records, ids));
    InElems(ids);
  }

  // ----- the export of a run -----

  ghost predicate OfRun(r: Record, n: Namespace) {
    r.scope.repo == Trim(n.repo) && r.scope.run == Trim(n.run)
  }

  lemma RunAsked(r: Record, n: Namespace, c: MemoryClass)
    requires ValidNamespace(n) && !c.OtherClass?
    ensures Asked(r, RunQuery(NormalizeNamespace(n))) <==> OfRun(r, n) && Passes(n.cycle, r.scope.cycle)
    ensures Asked(r, ClassQuery(NormalizeNamespace(n), c)) <==> OfRun(r, n) && (c.NoClass? || r.class_ == c)
  {
    hide Trim;
    assert Trim("") == "";
    TrimTwice(n.repo);
    TrimTwice(n.run);
    TrimTwice(n.cycle);
  }

  /** A run exports the stored records and snapshots of its repository, run and, if given, cycle, oldest first. */
  lemma RunListings(s: State, n: Namespace)
    requires Inv(s) && ValidNamespace(n)
    ensures KeyedRecords(s.records) && KeyedSnapshots(s.snapshots)
    ensures var l := Listing(s.records, RunQuery(NormalizeNamespace(n)));
      && (forall i, j :: 0 <= i < j < |l| ==> Older(l[i], l[j]))
      && forall r :: r in l <==>
        r.id in s.records && s.records[r.id] == r && OfRun(r, n) && Passes(n.cycle, r.scope.cycle)
    ensures forall x :: x in SnapshotListing(s.snapshots, SnapshotScopeOf(NormalizeNamespace(n))) <==>
      && x.id in s.snapshots && s.snapshots[x.id] == x
      && x.scope.repo == Trim(n.repo) && x.scope.run == Trim(n.run) && Passes(n.cycle, x.scope.cycle)
  {
    hide Inv, RecordsOk, SnapshotsOk, Listing, SnapshotListing, Asked, OfRun, Reads, NormalizeNamespace, ValidNamespace,
      Passes, NormalizeQuery;
    InvParts(s);
    var ns := NormalizeNamespace(n);
    ScopeNormal(n);
    RunQueryNormal(ns);
    QueryListing(s.records, RunQuery(ns));
    forall r ensures Reads(s.records, r) && Asked(r, RunQuery(ns)) <==>
      r.id in s.records && s.records[r.id] == r && OfRun(r, n) && Passes(n.cycle, r.scope.cycle)
    {
      ReadsStored(s.records, s.clock, r);
      RunAsked(r, n, NoClass);
    }
    RunSnapshots(s, n);
  }

  lemma RunSnapshots(s: State, n: Namespace)
    requires Inv(s) && ValidNamespace(n)
    ensures KeyedSnapshots(s.snapshots)
    ensures forall x :: x in SnapshotListing(s.snapshots, SnapshotScopeOf(NormalizeNamespace(n))) <==>
      && x.id in s.snapshots && s.snapshots[x.id] == x
      && x.scope.repo == Trim(n.repo) && x.scope.run == Trim(n.run) && Passes(n.cycle, x.scope.cycle)
  {
    hide RecordsOk, SnapshotsOk, SnapshotListing, Trim;
    InvParts(s);
    var scope := SnapshotScopeOf(NormalizeNamespace(n));
    ShownOk(s.snapshots, s.clock, scope);
    TrimTwice(n.cycle);
  }

  // ----- the compact context -----

  /** The records that a list of the context is chosen from: prior summaries are those of other cycles. */
  ghost function ContextRecords(m: map<string, Record>, n: Namespace, c: MemoryClass, otherCycles: bool): set<Record> {
    set id | id in m && m[id].class_ == c && OfRun(m[id], n) && !m[id].status.Archived?
             && !(otherCycles && Trim(n.cycle) != "" && m[id].scope.cycle == Trim(n.cycle)) :: m[id]
  }

  /** Of those, at most so many texts, the preferred ones first. */
  ghost predicate ContextList(texts: seq<string>, m: map<string, Record>, n: Namespace, c: MemoryClass, most: nat,
                              otherCycles: bool)
  {
    KeptOf(texts, ContextRecords(m, n, c, otherCycles), NormalizeNamespace(n), most)
  }

  lemma ContextSelected(s: State, n: Namespace, c: MemoryClass, r: Record)
    requires Inv(s) && ValidNamespace(n) && !c.OtherClass? && !c.NoClass?
    ensures r in Selected(s.records, ClassQuery(NormalizeNamespace(n), c)) <==>
      r.id in s.records && s.records[r.id] == r && OfRun(r, n) && r.class_ == c
  {
    hide RecordsOk, SnapshotsOk, Matches, NormalizeRecord, Asked, OfRun, Trim, NormalizeNamespace, ValidNamespace;
    InvParts(s);
    var q := ClassQuery(NormalizeNamespace(n), c);
    ScopeNormal(n);
    ClassQueryNormal(NormalizeNamespace(n), c);
    RunAsked(r, n, c);
    if r.id in s.records && s.records[r.id] == r {
      StoredOk(s, r.id);
      MatchesAsked(r, q);
    }
    if r in Selected(s.records, q) {
      var id :| id in s.records && Matches(NormalizeRecord(s.records[id]), q) && NormalizeRecord(s.records[id]) == r;
      StoredOk(s, id);
    }
  }

  lemma ContextEligible(s: State, n: Namespace, c: MemoryClass, rule: CompactRule)
    requires Inv(s) && ValidNamespace(n) && !c.OtherClass? && !c.NoClass?
    requires rule.scope == NormalizeNamespace(n) && rule.includeResolved
    ensures var records := Selected(s.records, ClassQuery(NormalizeNamespace(n), c));
      && EligibleSet(records, rule) == ContextRecords(s.records, n, c, rule.excludeCurrentCycle)
      && AllKnown(records)
  {
    hide Inv, OfRun, Selected, ClassQuery, ValidNamespace;
    var records := Selected(s.records, ClassQuery(NormalizeNamespace(n), c));
    forall r ensures r in records <==> r.id in s.records && s.records[r.id] == r && OfRun(r, n) && r.class_ == c {
      ContextSelected(s, n, c, r);
    }
    forall r | r in records ensures KnownStatus(r.status) && Trim(r.scope.cycle) == r.scope.cycle {
      StoredClass(s, r.id);
      StoredCycle(s, r.id);
    }
    TrimTwice(n.cycle);
    hide Trim;
    forall id | id in s.records ensures s.records[id].id == id {
      StoredClass(s, id);
    }
  }

  lemma StoredCycle(s: State, id: string)
    requires Inv(s) && id in s.records
    ensures Trim(s.records[id].scope.cycle) == s.records[id].scope.cycle
  {
    hide Inv, RecordOk, ValidRecord, Trim, NormalizeClass, NormalizeStatus, TrimSource;
    StoredOk(s, id);
  }

  lemma ContextChosen(s: State, n: Namespace, c: MemoryClass, rule: CompactRule, texts: seq<string>)
    requires Inv(s) && ValidNamespace(n) && !c.OtherClass? && !c.NoClass?
    requires rule.scope == NormalizeNamespace(n) && rule.includeResolved && 0 < rule.maxItems
    requires var records := Selected(s.records, ClassQuery(NormalizeNamespace(n), c));
      DistinctIds(records) && texts == Compacted(records, rule)
    ensures ContextList(texts, s.records, n, c, rule.maxItems, rule.excludeCurrentCycle)
  {
    hide Inv, Selected, ClassQuery, NormalizeNamespace, ValidNamespace, Compacted, KeptOf, ContextRecords, EligibleSet,
      AllKnown, DistinctIds;
    ContextEligible(s, n, c, rule);
    KeptByFields(Selected(s.records, ClassQuery(NormalizeNamespace(n), c)), rule);
  }

  /**
    A context keeps at most seven prior summaries of other cycles, and at most five texts of each other class, of the
    run's records that are not archived; the preferred ones first, and none is missing but for preferred ones that fill
    the list.
   */
  lemma ContextFields(s: State, n: Namespace, context: CompactContext)
    requires Inv(s) && ValidNamespace(n) && ContextOf(s.records, NormalizeNamespace(n), context)
    ensures ContextList(context.priorCycleSummaries, s.records, n, PriorCycleSummaries, 7, true)
    ensures ContextList(context.carryForwardRisks, s.records, n, CarryForwardRisks, 5, false)
    ensures ContextList(context.unresolvedGaps, s.records, n, UnresolvedGaps, 5, false)
    ensures ContextList(context.backlogItems, s.records, n, BacklogItems, 5, false)
    ensures ContextList(context.reviewerNotes, s.records, n, ReviewerNotes, 5, false)
  {
    hide Inv, Selected, ClassQuery, NormalizeNamespace, ValidNamespace, Compacted, ContextList, DistinctIds;
    var ns := NormalizeNamespace(n);
    var rule := CompactRule(ns, DEFAULT_CONTEXT_MAX, false, true);
    ContextChosen(s, n, PriorCycleSummaries, CompactRule(ns, PRIOR_SUMMARY_MAX, true, true),
                  context.priorCycleSummaries);
    ContextChosen(s, n, CarryForwardRisks, rule, context.carryForwardRisks);
    ContextChosen(s, n, UnresolvedGaps, rule, context.unresolvedGaps);
    ContextChosen(s, n, BacklogItems, rule, context.backlogItems);
    ContextChosen(s, n, ReviewerNotes, rule, context.reviewerNotes);
  }
}
