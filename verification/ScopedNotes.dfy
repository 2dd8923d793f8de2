/** What persisting a cycle's notes takes in, and what its writing steps leave behind. */
module ScopedNotes {
  import opened Wrappers
  import opened Text
  import opened ScopedModel
  import opened ScopedRules
  import opened ScopedGaps
  import opened ScopedResolve
  import opened ScopedSnapshots

  datatype NotesInput = NotesInput(
    note: string, priorCycleSummaries: seq<string>, carryForwardRisks: seq<string>, unresolvedGaps: seq<string>,
    backlogItems: seq<string>, reviewerNotes: seq<string>, policyExceptions: seq<string>, workingContext: seq<string>,
    cycleSummaries: seq<string>, resolveUnresolvedGaps: seq<string>,
    resolvedGapIds: seq<string>, resolvedRiskIds: seq<string>,
    resolvedBacklogItemIds: seq<string>, resolvedReviewerNoteIds: seq<string>, resolvedPolicyExceptionIds: seq<string>,
    createdBy: string, status: Status, content: JsonMap, metadata: JsonMap, provenance: map<string, string>,
    snapshotSummary: string, snapshotManifestRef: string, expiresAt: Option<Time>, source: Source)

  datatype NotesResult = NotesResult(snapshot: Option<Snapshot>, recordsWritten: nat, recordIds: seq<string>,
                                     resolvedIds: seq<string>)

  /** appendIfPresent */
  function AppendIfPresent(values: seq<string>, value: string): seq<string> {
    if Trim(value) == "" then values else values + [Trim(value)]
  }

  function ValueFromMap(m: map<string, string>, key: string): string {
    if key in m then Trim(m[key]) else ""
  }

  /** extractProvenance */
  function SourceFor(input: NotesInput): Source {
    Source(FirstNonEmpty(input.source.run, ValueFromMap(input.provenance, "source_run_id")),
           FirstNonEmpty(input.source.cycle, ValueFromMap(input.provenance, "source_cycle_id")),
           FirstNonEmpty(input.source.artifact, ValueFromMap(input.provenance, "source_artifact_id")),
           FirstNonEmpty(input.source.policyDecision, ValueFromMap(input.provenance, "source_policy_decision_id")),
           FirstNonEmpty(input.source.modelProfile, ValueFromMap(input.provenance, "source_model_profile_id")))
  }

  function MetadataFor(input: NotesInput): JsonMap {
    if |input.provenance| > 0 then input.metadata["provenance" := Object(input.provenance)] else input.metadata
  }

  function StatusFor(input: NotesInput): Status {
    if NormalizeStatus(input.status) == NoStatus then Open else NormalizeStatus(input.status)
  }

  /** The draft shared by all the records of one call; each class fills in its own name, and gaps are always open. */
  function NotesDraft(ns: Namespace, input: NotesInput): Draft {
    Draft(ns, WorkingContext, StatusFor(input), Default(input.createdBy, "control-plane"), input.content,
          MetadataFor(input), input.expiresAt, SourceFor(input))
  }

  function DraftOf(d: Draft, c: MemoryClass): Draft {
    if c.WorkingContext? then d.(class_ := c)
    else if c.UnresolvedGaps? then d.(class_ := c, status := Open, content := map[])
    else d.(class_ := c, content := map[])
  }

  lemma DraftOfOk(d: Draft, c: MemoryClass)
    requires DraftOk(d) && !c.OtherClass? && !c.NoClass?
    ensures DraftOf(d, c).class_ == c
    ensures var e := DraftOf(d, c); DraftOk(e) && e.scope == d.scope && (c.UnresolvedGaps? ==> e.status.Open?)
  {
    hide Trim, NormalizeNamespace, ValidNamespace;
  }

  lemma NotesDraftOk(n: Namespace, input: NotesInput)
    requires ValidNamespace(n) && KnownStatus(StatusFor(input))
    ensures DraftOk(NotesDraft(NormalizeNamespace(n), input))
  {
    hide Trim, StatusFor, SourceFor, MetadataFor, NormalizeStatus, Default;
    ScopeNormal(n);
    assert Trim("control-plane") == "control-plane" by {
      Literals();
    }
    DefaultTrimmed(input.createdBy, "control-plane");
  }

  // ----- what is written -----

  /** One text to be kept under a class. */
  datatype Note = Note(class_: MemoryClass, text: string)

  function NotesFor(c: MemoryClass, texts: seq<string>): (r: seq<Note>)
    ensures |r| == |texts|
  {
    seq(|texts|, i requires 0 <= i < |texts| => Note(c, texts[i]))
  }

  /** The notes of a call, in the order they are written. */
  function NotesOf(input: NotesInput): seq<Note> {
    NotesFor(WorkingContext, Clean(AppendIfPresent(input.workingContext, input.note)))
    + NotesFor(PriorCycleSummaries, Clean(input.priorCycleSummaries + input.cycleSummaries))
    + NotesFor(CarryForwardRisks, Clean(input.carryForwardRisks))
    + NotesFor(UnresolvedGaps, Clean(input.unresolvedGaps))
    + NotesFor(BacklogItems, Clean(input.backlogItems))
    + NotesFor(ReviewerNotes, Clean(input.reviewerNotes))
    + NotesFor(PolicyExceptions, Clean(input.policyExceptions))
  }

  /** The notes of the first classes, of two, and so on, begin the notes of the call. */
  lemma NotesInOrder(input: NotesInput)
    ensures var context := [] + NotesFor(WorkingContext, Clean(AppendIfPresent(input.workingContext, input.note)));
      var prior := context + NotesFor(PriorCycleSummaries, Clean(input.priorCycleSummaries + input.cycleSummaries));
      var risks := prior + NotesFor(CarryForwardRisks, Clean(input.carryForwardRisks));
      var gaps := risks + NotesFor(UnresolvedGaps, Clean(input.unresolvedGaps));
      var backlog := gaps + NotesFor(BacklogItems, Clean(input.backlogItems));
      var reviewer := backlog + NotesFor(ReviewerNotes, Clean(input.reviewerNotes));
      var policy := reviewer + NotesFor(PolicyExceptions, Clean(input.policyExceptions));
      && policy == NotesOf(input) && context <= policy && prior <= policy && risks <= policy && gaps <= policy
      && backlog <= policy && reviewer <= policy
  {
    hide NotesFor, Clean, AppendIfPresent;
    var first := NotesFor(WorkingContext, Clean(AppendIfPresent(input.workingContext, input.note)));
    assert [] + first == first;
  }

  ghost predicate WrittenAs(before: map<string, Record>, after: map<string, Record>, id: string, d: Draft, text: string)
  {
    if d.class_.UnresolvedGaps? then UpsertedOne(before, after, id, d, text) else WroteOne(before, after, id, d, text)
  }

  /** ids[k] is the record of notes[k], a refreshed gap or a new record, and nothing else changed. */
  ghost predicate WroteAll(before: map<string, Record>, after: map<string, Record>, ids: seq<string>, draft: Draft,
                           notes: seq<Note>)
  {
    && |ids| == |notes|
    && (forall k :: 0 <= k < |ids| ==> WrittenAs(before, after, ids[k], DraftOf(draft, notes[k].class_), notes[k].text))
    && (forall id :: id in before && id !in ids ==> Untouched(before, after, id))
    && (forall id :: id in after ==> id in before || id in ids)
  }

  /**
    Writing some texts, count in all, has either given the ids added after the earlier ones, or stopped before the end
    because a generated id was taken.
   */
  ghost predicate Ended(r: Result<seq<string>>, earlier: seq<string>, added: seq<string>, count: nat, used: set<string>)
  {
    match r
    case Ok(ids) => ids == earlier + added && |added| == count
    case Err(error) => error == AlreadyExists && IdTaken(used) && |added| < count
  }

  ghost predicate NoGaps(notes: seq<Note>) {
    forall note :: note in notes ==> !note.class_.UnresolvedGaps?
  }

  ghost predicate Proper(notes: seq<Note>) {
    forall note :: note in notes ==> !note.class_.OtherClass? && !note.class_.NoClass? && Trim(note.text) == note.text
  }

  lemma NoNotes()
    ensures Proper([]) && NoGaps([])
  {
  }

  lemma NothingWritten(m: map<string, Record>, draft: Draft)
    ensures WroteAll(m, m, [], draft, [])
  {
  }

  lemma DraftClass(draft: Draft, c: MemoryClass)
    ensures DraftOf(draft, c).class_ == c && DraftOf(draft, c).scope == draft.scope
  {
  }

  /**
    What is written is stored under the class and text, and is new with the full scope or was an open gap that fits.
   */
  lemma WrittenNote(before: map<string, Record>, after: map<string, Record>, id: string, d: Draft, text: string)
    requires WrittenAs(before, after, id, d, text) && !d.class_.OtherClass? && Trim(text) == text
    ensures id in after && after[id].class_ == d.class_ && after[id].text == text
    ensures if id in before
      then d.class_.UnresolvedGaps? && GapCandidate(before[id], d.scope, text) && after[id].scope == before[id].scope
      else after[id].scope == d.scope
  {
    hide Trim, NormalizeStatus, TrimSource, FillSource, RecordBefore, NormalizeNamespace, Wants;
    if d.class_.UnresolvedGaps? {
      var found :| FirstCandidate(before, d.scope, text, found) && UpsertedAs(found, before, after, id, d, text);
    }
  }

  lemma WrittenKept(before: map<string, Record>, middle: map<string, Record>, after: map<string, Record>, id: string,
      d: Draft, text: string)
    requires WrittenAs(before, middle, id, d, text) && id in middle && id in after && after[id] == middle[id]
    ensures WrittenAs(before, after, id, d, text)
  {
    hide NewRecord, UpsertedOne;
    if d.class_.UnresolvedGaps? {
      UpsertedKept(before, middle, after, id, d, text);
    }
  }

  lemma WrittenStored(before: map<string, Record>, after: map<string, Record>, id: string, d: Draft, text: string)
    requires WrittenAs(before, after, id, d, text)
    ensures id in after
  {
    hide NewRecord, RefreshGap, FirstCandidate;
  }

  lemma WrittenAreStored(before: map<string, Record>, after: map<string, Record>, ids: seq<string>, draft: Draft,
                         notes: seq<Note>)
    requires WroteAll(before, after, ids, draft, notes)
    ensures (forall id :: id in ids ==> id in after) && forall id :: id in before ==> id in after
  {
    hide WrittenAs, DraftOf;
    forall id | id in ids ensures id in after {
      var k :| 0 <= k < |ids| && ids[k] == id;
      WrittenStored(before, after, ids[k], DraftOf(draft, notes[k].class_), notes[k].text);
    }
    forall id | id in before ensures id in after {
      assert id !in ids ==> Untouched(before, after, id);
    }
  }

  lemma SplitNotes(ids: seq<string>, more: seq<string>, notes: seq<Note>, c: MemoryClass, texts: seq<string>, k: nat)
    requires |ids| == |notes| && |more| == |texts| && k < |ids| + |more|
    ensures var all, every := ids + more, notes + NotesFor(c, texts);
      if k < |ids| then all[k] == ids[k] && every[k] == notes[k]
      else all[k] == more[k - |ids|] && every[k] == Note(c, texts[k - |ids|])
  {
  }

  lemma WroteCount(before: map<string, Record>, after: map<string, Record>, ids: seq<string>, draft: Draft,
                   notes: seq<Note>)
    requires WroteAll(before, after, ids, draft, notes)
    ensures |ids| == |notes|
  {
    hide WrittenAs;
  }

  /** The notes of a class so far, among those of the whole call. */
  lemma NotesSoFar(notes: seq<Note>, c: MemoryClass, texts: seq<string>, n: nat, all: seq<Note>)
    requires n <= |texts| && notes + NotesFor(c, texts) <= all
    ensures notes + NotesFor(c, texts[..n]) == all[..|notes| + n]
    ensures n == |texts| ==> notes + NotesFor(c, texts[..n]) == notes + NotesFor(c, texts)
  {
    forall i | 0 <= i < |notes| + n ensures (notes + NotesFor(c, texts[..n]))[i] == all[i] {
      assert all[i] == (notes + NotesFor(c, texts))[i];
    }
  }

  /** Appending one more class keeps what was written before. */
  lemma WroteAllThenWrote(before: map<string, Record>, middle: map<string, Record>, after: map<string, Record>,
      ids: seq<string>, more: seq<string>, draft: Draft, notes: seq<Note>, c: MemoryClass, texts: seq<string>)
    requires WroteAll(before, middle, ids, draft, notes) && !c.UnresolvedGaps?
    requires Wrote(middle, after, more, DraftOf(draft, c), texts)
    ensures WroteAll(before, after, ids + more, draft, notes + NotesFor(c, texts))
  {
    hide WrittenAs, DraftOf, NotesFor, WroteOne;
    WrittenAreStored(before, middle, ids, draft, notes);
    DraftClass(draft, c);
    var all, every := ids + more, notes + NotesFor(c, texts);
    forall k | 0 <= k < |all| ensures WrittenAs(before, after, all[k], DraftOf(draft, every[k].class_), every[k].text) {
      SplitNotes(ids, more, notes, c, texts, k);
      if k < |ids| {
        assert ids[k] in ids && Untouched(middle, after, ids[k]);
        WrittenKept(before, middle, after, ids[k], DraftOf(draft, notes[k].class_), notes[k].text);
      } else {
        NewFromStart(before, middle, after, more[k - |ids|], DraftOf(draft, c), texts[k - |ids|]);
      }
    }
    forall id | id in before && id !in all ensures Untouched(before, after, id) {
      assert id !in ids && Untouched(before, middle, id) && Untouched(middle, after, id);
    }
    assert forall id :: id in after ==> id in middle || id in more;
  }

  lemma NewFromStart(before: map<string, Record>, middle: map<string, Record>, after: map<string, Record>, id: string,
      d: Draft, text: string)
    requires WroteOne(middle, after, id, d, text) && !d.class_.UnresolvedGaps?
    requires forall i :: i in before ==> i in middle
    ensures WrittenAs(before, after, id, d, text)
  {
    hide NewRecord;
  }

  /** So does upserting the gaps, when nothing but other classes was written before. */
  lemma WroteAllThenUpserted(before: map<string, Record>, middle: map<string, Record>, after: map<string, Record>,
      ids: seq<string>, more: seq<string>, draft: Draft, notes: seq<Note>, texts: seq<string>)
    requires WroteAll(before, middle, ids, draft, notes) && NoGaps(notes) && Proper(notes)
    requires Upserted(middle, after, more, DraftOf(draft, UnresolvedGaps), texts)
    ensures WroteAll(before, after, ids + more, draft, notes + NotesFor(UnresolvedGaps, texts))
  {
    hide WrittenAs, DraftOf, NotesFor, UpsertedOne, Trim;
    WrittenAreStored(before, middle, ids, draft, notes);
    DraftClass(draft, UnresolvedGaps);
    var d := DraftOf(draft, UnresolvedGaps);
    var all, every := ids + more, notes + NotesFor(UnresolvedGaps, texts);
    GapsUntouched(before, middle, ids, draft, notes);
    forall id | id in ids ensures id !in more {
      var k :| 0 <= k < |ids| && ids[k] == id;
      if id in more {
        var j :| 0 <= j < |more| && more[j] == id;
        UpsertedIsGap(middle, after, more[j], d, texts[j]);
      }
    }
    forall k | 0 <= k < |all| ensures WrittenAs(before, after, all[k], DraftOf(draft, every[k].class_), every[k].text) {
      SplitNotes(ids, more, notes, UnresolvedGaps, texts, k);
      if k < |ids| {
        assert ids[k] in ids && Untouched(middle, after, ids[k]);
        WrittenKept(before, middle, after, ids[k], DraftOf(draft, notes[k].class_), notes[k].text);
      } else {
        UpsertedFromStart(before, middle, after, more[k - |ids|], d, texts[k - |ids|]);
      }
    }
    forall id | id in before && id !in all ensures Untouched(before, after, id) {
      assert id !in ids && Untouched(before, middle, id) && Untouched(middle, after, id);
    }
    assert forall id :: id in after ==> id in middle || id in more;
  }

  /** Writing other classes changes no record, and adds no gap. */
  lemma GapsUntouched(before: map<string, Record>, middle: map<string, Record>, ids: seq<string>, draft: Draft,
                      notes: seq<Note>)
    requires WroteAll(before, middle, ids, draft, notes) && NoGaps(notes) && Proper(notes)
    ensures forall id :: id in ids ==> id in middle && id !in before && !middle[id].class_.UnresolvedGaps?
    ensures forall id :: id in before ==> id in middle && middle[id] == before[id]
    ensures forall id :: id in middle && id !in before ==> !middle[id].class_.UnresolvedGaps?
  {
    hide WrittenAs, DraftOf, Trim;
    forall id | id in ids ensures id in middle && id !in before && !middle[id].class_.UnresolvedGaps? {
      var k :| 0 <= k < |ids| && ids[k] == id;
      assert notes[k] in notes;
      DraftClass(draft, notes[k].class_);
      WrittenNote(before, middle, id, DraftOf(draft, notes[k].class_), notes[k].text);
    }
    forall id | id in before ensures id in middle && middle[id] == before[id] {
      assert id !in ids && Untouched(before, middle, id);
    }
  }

  lemma UpsertedIsGap(middle: map<string, Record>, after: map<string, Record>, id: string, d: Draft, text: string)
    requires UpsertedOne(middle, after, id, d, text)
    ensures id in middle ==> middle[id].class_.UnresolvedGaps?
  {
    hide NewRecord, RefreshGap, RecordBefore, Wants;
  }

  lemma UpsertedFromStart(before: map<string, Record>, middle: map<string, Record>, after: map<string, Record>,
                          id: string,
      d: Draft, text: string)
    requires UpsertedOne(middle, after, id, d, text) && d.class_.UnresolvedGaps?
    requires forall i :: i in before ==> i in middle && middle[i] == before[i]
    requires forall i :: i in middle && i !in before ==> !middle[i].class_.UnresolvedGaps?
    ensures WrittenAs(before, after, id, d, text)
  {
    hide NewRecord, RefreshGap, FirstCandidate;
    var found :| FirstCandidate(middle, d.scope, text, found) && UpsertedAs(found, middle, after, id, d, text);
    SameCandidate(before, middle, d.scope, text, found);
    assert UpsertedAs(found, before, after, id, d, text);
  }

  lemma SameCandidate(before: map<string, Record>, middle: map<string, Record>, ns: Namespace, text: string,
                      found: Option<Record>)
    requires FirstCandidate(middle, ns, text, found)
    requires forall i :: i in before ==> i in middle && middle[i] == before[i]
    requires forall i :: i in middle && i !in before ==> !middle[i].class_.UnresolvedGaps?
    ensures FirstCandidate(before, ns, text, found)
  {
    hide RecordBefore, Wants;
  }

  lemma CleanAllTrimmed(values: seq<string>)
    ensures forall t :: t in Clean(values) ==> Trim(t) == t
  {
    hide Clean, Trim;
    forall t | t in Clean(values) ensures Trim(t) == t {
      CleanTrimmed(values, t);
    }
  }

  lemma ProperMore(notes: seq<Note>, c: MemoryClass, values: seq<string>)
    requires Proper(notes) && !c.OtherClass? && !c.NoClass?
    ensures Proper(notes + NotesFor(c, Clean(values)))
    ensures NoGaps(notes) && !c.UnresolvedGaps? ==> NoGaps(notes + NotesFor(c, Clean(values)))
  {
    CleanAllTrimmed(values);
    hide Clean, Trim;
    var more := NotesFor(c, Clean(values));
    forall note | note in more ensures note.class_ == c && note.text in Clean(values) {
      var k :| 0 <= k < |more| && more[k] == note;
    }
  }

  lemma NotesProper(input: NotesInput)
    ensures Proper(NotesOf(input))
  {
    hide Proper, NotesFor, Clean, AppendIfPresent, NotesOf;
    NoNotes();
    NotesInOrder(input);
    var notes: seq<Note> := [];
    ProperMore(notes, WorkingContext, AppendIfPresent(input.workingContext, input.note));
    notes := notes + NotesFor(WorkingContext, Clean(AppendIfPresent(input.workingContext, input.note)));
    ProperMore(notes, PriorCycleSummaries, input.priorCycleSummaries + input.cycleSummaries);
    notes := notes + NotesFor(PriorCycleSummaries, Clean(input.priorCycleSummaries + input.cycleSummaries));
    ProperMore(notes, CarryForwardRisks, input.carryForwardRisks);
    notes := notes + NotesFor(CarryForwardRisks, Clean(input.carryForwardRisks));
    ProperMore(notes, UnresolvedGaps, input.unresolvedGaps);
    notes := notes + NotesFor(UnresolvedGaps, Clean(input.unresolvedGaps));
    ProperMore(notes, BacklogItems, input.backlogItems);
    notes := notes + NotesFor(BacklogItems, Clean(input.backlogItems));
    ProperMore(notes, ReviewerNotes, input.reviewerNotes);
    notes := notes + NotesFor(ReviewerNotes, Clean(input.reviewerNotes));
    ProperMore(notes, PolicyExceptions, input.policyExceptions);
  }

  lemma GrownSettles(before: map<string, Record>, after: map<string, Record>, ids: seq<string>, d: Draft,
                     texts: seq<string>)
    requires Wrote(before, after, ids, d, texts)
    ensures Settles(before, after, {})
  {
    hide WroteOne;
    forall id | id in before ensures id in after && after[id] == before[id] {
      assert Untouched(before, after, id);
    }
  }

  // ----- one step after the other -----

  lemma SettlesMore(m: map<string, Record>, n: map<string, Record>, e: set<string>, f: set<string>)
    requires Settles(m, n, e) && e <= f
    ensures Settles(m, n, f)
  {
  }

  /** Good so far: the invariant holds, the start has only evolved, and no status but the excused has moved down. */
  ghost predicate Progress(s: State, t: State, excused: set<string>) {
    Inv(t) && Evolves(s, t) && Settles(s.records, t.records, excused)
  }

  lemma ProgressStart(s: State, excused: set<string>)
    requires Inv(s)
    ensures Progress(s, s, excused)
  {
    hide Inv, Evolves;
    WaitKeepsSelf(s);
  }

  lemma WaitKeepsSelf(s: State)
    requires Inv(s)
    ensures Evolves(s, s)
  {
    hide Inv, RecordEvolves;
    EvolvesSelf(s.records);
  }

  lemma ProgressStep(s: State, t: State, u: State, excused: set<string>)
    requires Progress(s, t, excused) && Inv(u) && Evolves(t, u) && Settles(t.records, u.records, excused)
    ensures Progress(s, u, excused)
  {
    hide Inv, Evolves, Settles;
    EvolvesTransitive(s, t, u);
    SettlesTransitive(s.records, t.records, u.records, excused);
  }

  lemma ProgressWith(s: State, t: State, e: set<string>, f: set<string>)
    requires Progress(s, t, e) && e <= f
    ensures Progress(s, t, f)
  {
    hide Inv, Evolves, Settles;
    SettlesMore(s.records, t.records, e, f);
  }

  lemma ProgressOf(s: State, t: State, e: set<string>, f: set<string>)
    requires Progress(s, t, e) && e <= f
    ensures Evolves(s, t) && Settles(s.records, t.records, f) && Progress(s, t, f)
  {
    hide Inv, Evolves;
    SettlesMore(s.records, t.records, e, f);
  }
}
