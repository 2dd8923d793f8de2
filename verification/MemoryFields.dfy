/**
  What the calls of generic memory and of maintenance come to, field by field: in terms of what was given and of what is
  stored, and of no score, window, key or default by the name it has in the service.
 */
module MemoryFields {
  import opened Wrappers
  import opened Ordering
  import opened Text
  import opened MemoryModel
  import opened MemoryStore
  import opened MemoryCreation
  import opened Maintenance
  import opened Aggregates
  import Ops

  // ----- scores -----

  ghost predicate ReplayRecord(r: MemoryRecord) {
    r.replayLinked || r.memoryType == "replay_case" || r.retention == ReplayPreserve
  }

  /** The importance, 5 more for each of the first four recalls, 4 for each of the first four references, and so on. */
  ghost function ScoreOf(r: MemoryRecord): int {
    r.importance + (if r.recallCount < 4 then 5 * r.recallCount else 20)
    + (if r.referenceCount < 4 then 4 * r.referenceCount else 16)
    + (if r.pinned then 20 else 0) + if ReplayRecord(r) then 15 else 0
  }

  /** A score below 0 counts as 0 and one above 100 as 100. */
  ghost predicate Bounded(score: int, s: int) {
    s == if score < 0 then 0 else if 100 < score then 100 else score
  }

  lemma StabilityExact(r: MemoryRecord)
    ensures Bounded(ScoreOf(r), ComputeStability(r))
  {
  }

  /** A read counts, is dated, and scores the record afresh. Nothing else changes. */
  lemma RecalledFields(r: MemoryRecord, now: Time)
    ensures var c := Recall(r, now);
      && c.recallCount == r.recallCount + 1 && c.lastAccessedAt == Some(now) && c.updatedAt == now
      && Bounded(ScoreOf(c), c.stability)
      && c == r.(recallCount := c.recallCount, lastAccessedAt := c.lastAccessedAt, updatedAt := c.updatedAt,
                 stability := c.stability)
  {
    hide ScoreOf, ComputeStability;
    StabilityExact(r.(recallCount := r.recallCount + 1, lastAccessedAt := Some(now), updatedAt := now));
    ScoreIgnores(r.(recallCount := r.recallCount + 1, lastAccessedAt := Some(now), updatedAt := now), Recall(r, now));
  }

  lemma ScoreIgnores(a: MemoryRecord, b: MemoryRecord)
    requires b == a.(stability := b.stability)
    ensures ScoreOf(a) == ScoreOf(b)
  {
  }

  // ----- decay, expiry and preservation -----

  ghost predicate Unprotected(r: MemoryRecord) {
    !r.pinned && !r.replayLinked && r.retention != ReplayPreserve && r.retention != Preserved
  }

  /** The hours a record may lie unused. */
  ghost function HoursUnused(r: MemoryRecord): int {
    if r.retention == Session then 12
    else 24 + r.importance / 2 + r.stability / 3 + 4 * r.recallCount + 6 * r.referenceCount
  }

  /** The record has been neither updated nor accessed within so many nanoseconds. */
  ghost predicate UnusedFor(r: MemoryRecord, span: int, now: Time) {
    r.updatedAt + span <= now && (r.lastAccessedAt.Some? ==> r.lastAccessedAt.value + span <= now)
  }

  lemma WindowExact(r: MemoryRecord)
    requires ScoresInBounds(r)
    ensures -0x8000_0000_0000_0000 <= Window(r) < 0x8000_0000_0000_0000
    ensures exists k :: Window(r) == HoursUnused(r) * 3_600_000_000_000 - k * 0x1_0000_0000_0000_0000
    ensures HoursUnused(r) <= 2_562_047 ==> Window(r) == HoursUnused(r) * 3_600_000_000_000
  {
    var x := HoursUnused(r) * 3_600_000_000_000;
    assert WindowHours(r) == HoursUnused(r);
    var k := (x + 0x8000_0000_0000_0000) / 0x1_0000_0000_0000_0000;
    assert Wrap64(x) == x - k * 0x1_0000_0000_0000_0000;
  }

  /**
    Decay takes a record that is unprotected, has not expired, and has been unused for its hours, as long as these fit
    in 64 bits of nanoseconds; a longer span wraps around.
   */
  lemma DueExact(r: MemoryRecord, now: Time)
    requires ScoresInBounds(r)
    ensures DecayDue(r, now) <==>
      Unprotected(r) && (r.expiresAt.Some? ==> now < r.expiresAt.value) && UnusedFor(r, Window(r), now)
    ensures HoursUnused(r) <= 2_562_047 ==> Window(r) == HoursUnused(r) * 3_600_000_000_000
  {
    WindowExact(r);
    hide Window, HoursUnused;
  }

  /** Cleanup takes an expired unprotected record. */
  lemma RemovableExact(r: MemoryRecord, now: Time)
    ensures Removable(r, now) <==> Unprotected(r) && r.expiresAt.Some? && r.expiresAt.value <= now
  {
  }

  /** Decay lowers the score, by less if it is high and by more if the record is unimportant, and dates the record. */
  lemma DecayedFields(r: MemoryRecord, now: Time)
    ensures var d := Decay(r, now);
      && (var less := if 70 < r.stability then 5 else if r.importance < 40 then 15 else 10;
          d.stability == if r.stability < less then 0 else r.stability - less)
      && d.decayEligibleAt == Some(now) && d.updatedAt == now
      && d == r.(decayEligibleAt := d.decayEligibleAt, stability := d.stability, updatedAt := d.updatedAt)
  {
  }

  /** Preservation takes the records that are linked, replay cases or tagged, and do not have all it gives. */
  lemma PreservableExact(m: Records, id: string)
    ensures id in PreserveSet(m) <==>
      && id in m
      && var l := Load(m[id]);
         && (l.replayLinked || l.memoryType == "replay_case" || "replay" in l.tags || "replay-linked" in l.tags)
         && !(l.replayLinked && l.retention == ReplayPreserve && 70 <= l.stability)
  {
    hide Load;
  }

  lemma PreservedFields(r: MemoryRecord, now: Time)
    ensures var p := Preserve(r, now);
      && p.replayLinked && p.retention == ReplayPreserve && p.updatedAt == now
      && p.stability == (if r.stability < 70 then 70 else r.stability)
      && p == r.(replayLinked := p.replayLinked, retention := p.retention, stability := p.stability,
                 updatedAt := p.updatedAt)
  {
  }

  // ----- what is read -----

  ghost predicate Filled(text: string, given: string, default_: string) {
    text == if Trim(given) == "" then default_ else given
  }

  /** A namespace that is missing is made of the five texts, with a slash between those that are not blank. */
  ghost predicate NamespaceOf(namespace: string, project: string, environment: string, clawbot: string, session: string,
                              memoryType: string)
  {
    var owner := Trim(project) + "/" + Trim(environment) + "/" + Trim(clawbot);
    namespace == owner + (if Trim(session) == "" then "" else "/" + Trim(session))
                 + if Trim(memoryType) == "" then "" else "/" + Trim(memoryType)
  }

  lemma JoinMore(parts: seq<string>, part: string)
    requires parts != []
    ensures Join(parts + [part], '/') == Join(parts, '/') + "/" + part
  {
    if |parts| > 1 {
      JoinMore(parts[1..], part);
      assert (parts + [part])[1..] == parts[1..] + [part];
    } else {
      assert (parts + [part])[1..] == [part];
    }
  }

  lemma JoinSome(parts: seq<string>, part: string)
    requires parts != []
    ensures Join(parts + (if part == "" then [] else [part]), '/')
      == Join(parts, '/') + if part == "" then "" else "/" + part
  {
    if part == "" {
      assert parts + [] == parts && Join(parts, '/') + "" == Join(parts, '/');
    } else {
      JoinMore(parts, part);
      assert Join(parts, '/') + "/" + part == Join(parts, '/') + ("/" + part);
    }
  }

  lemma {:induction false} NoneBlank(parts: seq<string>)
    requires forall part :: part in parts ==> part != ""
    ensures NonBlank(parts) == parts
  {
    if parts != [] {
      assert parts[0] in parts && forall part :: part in parts[1..] ==> part in parts;
      NoneBlank(parts[1..]);
      assert parts == [parts[0]] + parts[1..];
    }
  }

  lemma NamespaceIs(project: string, environment: string, clawbot: string, session: string, memoryType: string)
    requires Trim(project) != "" && Trim(environment) != "" && Trim(clawbot) != ""
    ensures NamespaceOf(BuildNamespace(project, environment, clawbot, session, memoryType), project, environment,
                        clawbot, session, memoryType)
  {
    hide Trim, Join, NonBlank;
    var p, e, c, s, t := Trim(project), Trim(environment), Trim(clawbot), Trim(session), Trim(memoryType);
    var owner := [p, e, c];
    var two := owner + if s == "" then [] else [s];
    var all := two + if t == "" then [] else [t];
    BlankPartsDropped(owner, s, t);
    assert owner + [s, t] == [p, e, c, s, t];
    NoneBlank(all);
    OwnerJoined(p, e, c);
    JoinSome(owner, s);
    JoinSome(two, t);
  }

  lemma OwnerJoined(p: string, e: string, c: string)
    ensures Join([p, e, c], '/') == p + "/" + e + "/" + c
  {
    JoinMore([p], e);
    JoinMore([p, e], c);
    assert [p] + [e] == [p, e] && [p, e] + [c] == [p, e, c];
  }

  /** What a stored record is read as: what it lacks is filled in, also its score. Nothing else changes. */
  lemma LoadedFields(r: MemoryRecord)
    ensures var l := Load(r);
      && Filled(l.projectId, r.projectId, "default-project") && Filled(l.environment, r.environment, "development")
      && Filled(l.clawbotId, r.clawbotId, "shared")
      && (if Trim(r.namespace) != "" then l.namespace == r.namespace
          else NamespaceOf(l.namespace, l.projectId, l.environment, l.clawbotId, r.sessionId, r.memoryType))
      && l.sourceRef == (if Trim(r.sourceRef) == "" then Trim(r.sourceId) else r.sourceRef)
      && l.sourceId == (if Trim(r.sourceId) == "" then Trim(r.sourceRef) else r.sourceId)
      && l.importance == (if r.importance == 0 then 50 else r.importance)
      && l.replayLinked == ReplayRecord(r)
      && l.retention == (if !r.retention.Unset? then r.retention
                         else if r.memoryType == "replay_case" then ReplayPreserve else Standard)
      && (if r.stability == 0 then Bounded(ScoreOf(l), l.stability) else l.stability == r.stability)
      && l.tags == Clean(r.tags)
      && l == r.(projectId := l.projectId, environment := l.environment, clawbotId := l.clawbotId,
                 namespace := l.namespace, sourceRef := l.sourceRef, sourceId := l.sourceId,
                 importance := l.importance, replayLinked := l.replayLinked, retention := l.retention,
                 stability := l.stability, tags := l.tags)
  {
    LoadedTextFields(r);
    hide LoadTexts, ComputeStability, ScoreOf, NamespaceOf, Filled, Trim, Clean, Bounded;
    LoadScore(r);
  }

  lemma LoadScore(r: MemoryRecord)
    ensures if r.stability == 0 then Bounded(ScoreOf(Load(r)), Load(r).stability) else Load(r).stability == r.stability
  {
    hide Load, ComputeStability, ScoreOf;
    LoadStability(r);
    StabilityExact(Load(r));
  }

  lemma LoadedTextFields(r: MemoryRecord)
    ensures var l := LoadTexts(r);
      && Filled(l.projectId, r.projectId, "default-project") && Filled(l.environment, r.environment, "development")
      && Filled(l.clawbotId, r.clawbotId, "shared")
      && (if Trim(r.namespace) != "" then l.namespace == r.namespace
          else NamespaceOf(l.namespace, l.projectId, l.environment, l.clawbotId, r.sessionId, r.memoryType))
      && l.sourceRef == (if Trim(r.sourceRef) == "" then Trim(r.sourceId) else r.sourceRef)
      && l.sourceId == (if Trim(r.sourceId) == "" then Trim(r.sourceRef) else r.sourceId)
      && l == r.(projectId := l.projectId, environment := l.environment, clawbotId := l.clawbotId,
                 namespace := l.namespace, sourceRef := l.sourceRef, sourceId := l.sourceId, tags := Clean(r.tags))
  {
    hide Trim, Clean, BuildNamespace, NamespaceOf;
    DefaultsNotBlank();
    TrimTwice(r.sourceId);
    var l := LoadTexts(r);
    NamespaceIs(l.projectId, l.environment, l.clawbotId, r.sessionId, r.memoryType);
  }

  // ----- what is created and stored -----

  ghost predicate Trimmed(text: string, given: string, default_: string) {
    text == if Trim(given) == "" then default_ else Trim(given)
  }

  lemma TrimmedIs(given: string, default_: string)
    requires Trim(default_) == default_
    ensures Trimmed(FirstNonEmpty(given, default_), given, default_)
  {
    hide Trim;
  }

  /** What a create makes of its input. */
  lemma CreatedFields(id: string, now: Time, input: CreateInput)
    ensures var r := BuildRecord(id, now, input);
      && r.id == id && r.createdAt == now && r.updatedAt == now
      && Trimmed(r.projectId, input.projectId, "default-project")
      && Trimmed(r.environment, input.environment, "development") && Trimmed(r.clawbotId, input.clawbotId, "shared")
      && r.sessionId == Trim(input.sessionId) && r.memoryType == input.memoryType && r.scope == input.scope
      && r.scenarioId == Trim(input.scenarioId) && r.summary == Trim(input.summary)
      && r.sourceRef == r.sourceId && Trimmed(r.sourceRef, input.sourceRef, Trim(input.sourceId))
      && NamespaceOf(r.namespace, r.projectId, r.environment, r.clawbotId, r.sessionId, r.memoryType)
    ensures var r := BuildRecord(id, now, input);
      && r.importance == (if input.importance == 0 then 50 else input.importance) && r.pinned == input.pinned
      && r.retention == (if !input.retention.Unset? then input.retention else if input.pinned then Preserved
                         else if input.memoryType == "replay_case" then ReplayPreserve else Standard)
      && r.replayLinked == (input.memoryType == "replay_case" || r.retention.ReplayPreserve?)
      && r.recallCount == 0 && r.referenceCount == 0 && Bounded(ScoreOf(r), r.stability)
      && r.expiresAt == input.expiresAt && r.decayEligibleAt.None? && r.lastAccessedAt.None?
      && r.idempotencyKey == Trim(input.idempotencyKey) && r.metadata == input.metadata && r.tags == Clean(input.tags)
  {
    hide Trim, Clean, BuildNamespace, ComputeStability, ScoreOf, Bounded, FirstNonEmpty, NamespaceOf, Trimmed;
    DefaultsTrimmed();
    TrimmedIs(input.projectId, "default-project");
    TrimmedIs(input.environment, "development");
    TrimmedIs(input.clawbotId, "shared");
    TrimTwice(input.sourceId);
    CreatedSource(input);
    var r := BuildRecord(id, now, input);
    FirstNonEmptyTrimmed(input.projectId, "default-project");
    FirstNonEmptyTrimmed(input.environment, "development");
    FirstNonEmptyTrimmed(input.clawbotId, "shared");
    NamespaceIs(r.projectId, r.environment, r.clawbotId, r.sessionId, r.memoryType);
    StabilityExact(r.(stability := 0));
    ScoreIgnores(r.(stability := 0), r);
  }

  lemma DefaultsTrimmed()
    ensures Trim("default-project") == "default-project" && Trim("development") == "development"
    ensures Trim("shared") == "shared"
  {
  }

  lemma CreatedSource(input: CreateInput)
    ensures Trimmed(FirstNonEmpty(input.sourceRef, input.sourceId), input.sourceRef, Trim(input.sourceId))
  {
    hide Trim;
  }

  /** A create accepts an input with a type, scope, source and summary, an importance in bounds and a known policy. */
  lemma AcceptableFields(input: CreateInput)
    ensures Acceptable(input) <==>
      && Trim(input.memoryType) != "" && Trim(input.scope) != "" && Trim(input.summary) != ""
      && (Trim(input.sourceRef) != "" || Trim(input.sourceId) != "")
      && 0 <= input.importance <= 100 && !input.retention.UnknownPolicy?
  {
    hide Trim;
  }

  /** An update accepts a record whose texts are there, whose scores are in bounds and whose policy is known. */
  lemma ValidFields(r: MemoryRecord)
    ensures ValidRecord(r) <==>
      && Trim(r.id) != "" && Trim(r.memoryType) != "" && Trim(r.scope) != "" && Trim(r.summary) != ""
      && Trim(r.projectId) != "" && Trim(r.environment) != "" && Trim(r.clawbotId) != "" && Trim(r.namespace) != ""
      && (Trim(r.sourceRef) != "" || Trim(r.sourceId) != "")
      && 0 <= r.importance <= 100 && 0 <= r.stability <= 100 && 0 <= r.recallCount && 0 <= r.referenceCount
      && !r.retention.Unset? && !r.retention.UnknownPolicy?
  {
    hide Trim;
    var texts := RequiredTexts(r);
    assert texts[0] == r.id && texts[1] == r.memoryType && texts[2] == r.scope && texts[3] == r.summary
           && texts[4] == r.projectId && texts[5] == r.environment && texts[6] == r.clawbotId
           && texts[7] == r.namespace;
  }

  /** The keys in use are the trimmed non-blank keys of the stored records. */
  lemma KeysInUse(m: Records, key: string)
    ensures key in Keys(m) <==> key != "" && exists id :: id in m && Trim(m[id].idempotencyKey) == key
  {
    hide Trim;
    if id :| id in m && Trim(m[id].idempotencyKey) == key && key != "" {
      assert KeyOf(m[id]) == key;
    }
  }

  // ----- queries -----

  ghost predicate Passes(wanted: string, actual: string) {
    Trim(wanted) == "" || actual == Trim(wanted)
  }

  /** What a query asks of a record as read. The type is the one filter that is not trimmed. */
  ghost predicate Asked(r: MemoryRecord, q: MemoryQuery) {
    && Passes(q.namespace, r.namespace) && Passes(q.projectId, r.projectId) && Passes(q.environment, r.environment)
    && Passes(q.clawbotId, r.clawbotId) && Passes(q.sessionId, r.sessionId)
    && (q.memoryType == "" || r.memoryType == q.memoryType)
    && Passes(q.scenarioId, r.scenarioId) && Passes(q.sourceRef, r.sourceRef)
  }

  lemma MatchesAsked(r: MemoryRecord, q: MemoryQuery)
    ensures Matches(r, NormalizeQuery(q)) <==> Asked(r, q)
  {
    hide Trim;
  }

  /** A query lists the records, as read, that pass each of its filters, oldest first, 25 to a page without a limit. */
  lemma QueryListing(m: Records, q: MemoryQuery)
    requires Keyed(m)
    ensures forall r :: r in Selected(m, NormalizeQuery(q)) <==> Reads(m, r) && Asked(r, q)
    ensures var l := Listing(m, NormalizeQuery(q));
      && Elems(l) == Selected(m, NormalizeQuery(q))
      && forall i, j :: 0 <= i < j < |l| ==>
        l[i].createdAt < l[j].createdAt || (l[i].createdAt == l[j].createdAt && Before(l[i].id, l[j].id))
    ensures NormalizeQuery(q).limit == if 1 <= q.limit <= 100 then q.limit else if q.limit < 1 then 25 else 100
    ensures NormalizeQuery(q).offset == if q.offset < 0 then 0 else q.offset
  {
    hide Load, UsableId, Matches, Trim, Selected, Reads, Asked;
    var p := NormalizeQuery(q);
    SelectedOrdered(m, p);
    forall r ensures r in Selected(m, p) <==> Reads(m, r) && Asked(r, q) {
      SelectedReads(m, p, r);
      MatchesAsked(r, q);
    }
  }

  // ----- duplicates -----

  /** A newer duplicate of the record is stored. */
  ghost predicate HasNewer(m: Records, id: string)
    requires id in m
  {
    exists o :: o in m && NewerDuplicate(m[o], m[id])
  }

  /** Two records are in one group exactly when namespace, type and source ref are the same. */
  lemma SameGroup(a: MemoryRecord, b: MemoryRecord)
    ensures KeyOfGroup(Load(a)) == KeyOfGroup(Load(b)) <==>
      Load(a).namespace == Load(b).namespace && a.memoryType == b.memoryType && Load(a).sourceRef == Load(b).sourceRef
  {
    LoadFields(a);
    LoadFields(b);
    hide Load;
  }

  lemma DuplicateIs(a: MemoryRecord, b: MemoryRecord)
    ensures NewerDuplicate(a, b) <==> KeyOfGroup(Load(a)) == KeyOfGroup(Load(b)) && Newer(Load(a), Load(b))
  {
    SameGroup(a, b);
    LoadFields(a);
    LoadFields(b);
    hide Load, KeyOfGroup;
  }

  lemma NewestExact(m: Records, id: string)
    requires Keyed(m) && id in m
    ensures Newest(m, id) <==> !HasNewer(m, id)
  {
    hide Load, KeyOfGroup, NewerDuplicate, Newer, UsableId;
    forall o | o in m
      ensures NewerDuplicate(m[o], m[id]) <==>
        KeyOfGroup(Load(m[o])) == KeyOfGroup(Load(m[id])) && Newer(Load(m[o]), Load(m[id]))
      ensures o != id ==> (Newer(Load(m[o]), Load(m[id])) <==> !Newer(Load(m[id]), Load(m[o])))
      ensures !Newer(Load(m[id]), Load(m[id]))
    {
      DuplicateIs(m[o], m[id]);
      OneIsNewer(m, o, id);
    }
  }

  lemma OneIsNewer(m: Records, o: string, id: string)
    requires Keyed(m) && o in m && id in m
    ensures o != id ==> (Newer(Load(m[o]), Load(m[id])) <==> !Newer(Load(m[id]), Load(m[o])))
    ensures !Newer(Load(m[id]), Load(m[id]))
  {
    LoadFields(m[o]);
    LoadFields(m[id]);
    hide Load, UsableId;
    BeforeTotal(o, id);
    BeforeTotal(id, id);
  }

  /**
    Compaction deletes a record exactly when it is neither pinned nor linked and a newer one of the same namespace, type
    and source ref is stored.
   */
  lemma DeletedExactly(m: Records, id: string)
    requires Keyed(m) && id in m
    ensures id !in Compacted(m) <==> !Load(m[id]).pinned && !Load(m[id]).replayLinked && HasNewer(m, id)
  {
    hide Load, Newest, HasNewer, UsableId;
    NewestExact(m, id);
  }

  ghost function WithNewer(m: Records): set<string> {
    set id | id in m && HasNewer(m, id)
  }

  /** The three texts of a group with bars between them. */
  ghost function JoinedTexts(l: MemoryRecord): string {
    l.namespace + "|" + l.memoryType + "|" + l.sourceRef
  }

  lemma JoinedIs(l: MemoryRecord)
    ensures JoinedKey(KeyOfGroup(l)) == JoinedTexts(l)
  {
    JoinThree(l.namespace, l.memoryType, l.sourceRef);
    assert l.namespace + ['|'] + (l.memoryType + ['|'] + l.sourceRef)
      == l.namespace + "|" + l.memoryType + "|" + l.sourceRef;
  }

  /**
    The candidate count is of all records less one per joined text; when neither namespaces nor types hold a bar, it is
    of the records that have a newer duplicate, protected or not.
   */
  lemma CandidateCount(m: Records)
    requires Keyed(m)
    ensures StaleCandidates(m) == |m| - |set id | id in m :: JoinedTexts(Load(m[id]))|
    ensures (forall id :: id in m ==> '|' !in Load(m[id]).namespace && '|' !in m[id].memoryType) ==>
      StaleCandidates(m) == |WithNewer(m)|
  {
    hide Load, Newest, HasNewer, UsableId, JoinedKey, KeyOfGroup, JoinedTexts, Protected;
    forall id | id in m ensures JoinedKey(KeyOfGroup(Load(m[id]))) == JoinedTexts(Load(m[id])) {
      JoinedIs(Load(m[id]));
    }
    assert JoinedKeys(m) == set id | id in m :: JoinedTexts(Load(m[id]));
    if forall id :: id in m ==> '|' !in Load(m[id]).namespace && '|' !in m[id].memoryType {
      OldOnes(m);
      CandidatesBound(m);
      GroupsJoined(m);
    }
  }

  lemma OldOnes(m: Records)
    requires Keyed(m)
    ensures |WithNewer(m)| == |StaleSet(m)| + |ProtectedOld(m)|
  {
    hide Load, Newest, HasNewer, UsableId, Protected;
    forall id | id in m ensures Newest(m, id) <==> !HasNewer(m, id) {
      NewestExact(m, id);
    }
    assert WithNewer(m) == StaleSet(m) + ProtectedOld(m);
    assert StaleSet(m) !! ProtectedOld(m);
  }

  // ----- the aggregate views -----

  /** Project, environment and clawbot with slashes between them. */
  ghost function OwnerText(project: string, environment: string, clawbot: string): string {
    project + "/" + environment + "/" + clawbot
  }

  ghost function Owner(r: MemoryRecord): string {
    OwnerText(r.projectId, r.environment, r.clawbotId)
  }

  ghost predicate ShowsRecord(h: Heading, all: set<MemoryRecord>) {
    exists r ::
      r in all && h == NamespaceHeading(r.namespace, r.projectId, r.environment, r.clawbotId, r.sessionId)
  }

  ghost predicate ShowsOwner(h: Heading, all: set<MemoryRecord>) {
    exists r :: r in all && h == ClawbotHeading(r.projectId, r.environment, r.clawbotId)
  }

  ghost function OfNamespace(all: set<MemoryRecord>, namespace: string): set<MemoryRecord> {
    set r | r in all && r.namespace == namespace
  }

  ghost function OfOwner(all: set<MemoryRecord>, owner: string): set<MemoryRecord> {
    set r | r in all && Owner(r) == owner
  }

  ghost function OfClawbot(all: set<MemoryRecord>, project: string, environment: string,
                           clawbot: string): set<MemoryRecord> {
    set r | r in all && r.projectId == project && r.environment == environment && r.clawbotId == clawbot
  }

  /** The counts are of exactly these records; the average of scores that are not negative is rounded down. */
  ghost predicate CountsOf(c: Counts, g: set<MemoryRecord>, now: Time, size: MemoryRecord -> int) {
    && c.totalRecords == |g| && c.approximateBytes == Total(g, size)
    && c.pinnedCount == |set r | r in g && r.pinned|
    && c.replayLinkedCount == |set r | r in g && (r.replayLinked || r.memoryType == "replay_case")|
    && c.decayEligible == |set r | r in g && IsDecayEligible(r, now)|
    && c.recordsByType.Keys == (set r | r in g :: r.memoryType)
    && (forall t :: t in c.recordsByType ==> c.recordsByType[t] == |set r | r in g && r.memoryType == t|)
    && LatestIn(c.lastActivityAt, g)
    && var sum := Total(g, (r: MemoryRecord) => r.stability);
       0 <= sum && g != {} ==> c.averageStability * |g| <= sum < c.averageStability * |g| + |g|
  }

  lemma TotalSame(g: set<MemoryRecord>, f: MemoryRecord -> int, h: MemoryRecord -> int)
    requires forall r :: r in g ==> f(r) == h(r)
    ensures Total(g, f) == Total(g, h)
    decreases |g|
  {
    if g != {} {
      var x :| x in g && Total(g, f) == f(x) + Total(g - {x}, f);
      TotalMore(g - {x}, h, x);
      assert g - {x} + {x} == g;
      TotalSame(g - {x}, f, h);
    }
  }

  lemma RoundedDown(sum: int, n: int)
    requires 0 <= sum && 0 < n
    ensures Quotient(sum, n) * n <= sum < Quotient(sum, n) * n + n
  {
  }

  lemma DescribedCounts(c: Counts, g: set<MemoryRecord>, now: Time, size: MemoryRecord -> int)
    requires Describes(c, g, now, size) && g != {} && c.averageStability == Quotient(Total(g, StabilityOf), |g|)
    ensures CountsOf(c, g, now, size)
  {
    hide Quotient, Total, LatestIn, IsDecayEligible;
    assert Having(g, IsPinned) == set r | r in g && r.pinned;
    assert Having(g, IsReplay) == set r | r in g && (r.replayLinked || r.memoryType == "replay_case");
    assert Having(g, EligibleAt(now)) == set r | r in g && IsDecayEligible(r, now);
    forall t | t in c.recordsByType ensures c.recordsByType[t] == |set r | r in g && r.memoryType == t| {
      assert Having(g, OfType(t)) == set r | r in g && r.memoryType == t;
    }
    TotalSame(g, StabilityOf, (r: MemoryRecord) => r.stability);
    if 0 <= Total(g, StabilityOf) {
      RoundedDown(Total(g, StabilityOf), |g|);
    }
  }

  /** A summary and its group, for a view whose keys are given by the text of the headings. */
  lemma SummaryIs(result: seq<Summary>, all: set<MemoryRecord>, view: View, now: Time, size: MemoryRecord -> int,
                  i: nat)
    requires Summarized(result, all, view, now, size) && i < |result|
    ensures exists r :: r in all && result[i].heading == HeadingOf(view, r)
    ensures CountsOf(result[i].counts, Group(all, view, HeadingKey(result[i].heading)), now, size)
  {
    hide HeadingOf, HeadingKey, KeyIn, CountsOf, Describes, Quotient, Total, Sorted;
    var g := Group(all, view, HeadingKey(result[i].heading));
    assert SummaryOf(result[i], all, view, now, size);
    DescribedCounts(result[i].counts, g, now, size);
  }

  /**
    The namespace view has one summary per namespace, in order, that shows the fields of one of its records and counts
    exactly its records.
   */
  lemma NamespaceView(result: seq<Summary>, all: set<MemoryRecord>, now: Time, size: MemoryRecord -> int)
    requires Summarized(result, all, ByNamespace, now, size)
    ensures forall i :: 0 <= i < |result| ==>
      && result[i].heading.NamespaceHeading?
      && ShowsRecord(result[i].heading, all)
      && CountsOf(result[i].counts, OfNamespace(all, result[i].heading.namespace), now, size)
    ensures forall i, j :: 0 <= i < j < |result| ==>
      Before(result[i].heading.namespace, result[j].heading.namespace)
    ensures forall r :: r in all ==> exists i :: 0 <= i < |result| && result[i].heading.namespace == r.namespace
  {
    hide CountsOf, SummaryOf, Before;
    forall i | 0 <= i < |result|
      ensures result[i].heading.NamespaceHeading?
      ensures ShowsRecord(result[i].heading, all)
      ensures CountsOf(result[i].counts, OfNamespace(all, result[i].heading.namespace), now, size)
    {
      SummaryIs(result, all, ByNamespace, now, size, i);
      assert Group(all, ByNamespace, HeadingKey(result[i].heading)) == OfNamespace(all, result[i].heading.namespace);
    }
  }

  lemma OwnerIs(project: string, environment: string, clawbot: string)
    ensures HeadingKey(ClawbotHeading(project, environment, clawbot)) == OwnerText(project, environment, clawbot)
  {
    OwnerJoined(project, environment, clawbot);
  }

  /**
    The clawbot view has one summary per slash-joined owner, in order, that shows the fields of one of its records and
    counts exactly the records whose fields join to the same text.
   */
  lemma ClawbotView(result: seq<Summary>, all: set<MemoryRecord>, now: Time, size: MemoryRecord -> int)
    requires Summarized(result, all, ByClawbot, now, size)
    ensures forall i :: 0 <= i < |result| ==>
      && result[i].heading.ClawbotHeading?
      && ShowsOwner(result[i].heading, all)
      && CountsOf(result[i].counts, OfOwner(all, Shown(result[i].heading)), now, size)
    ensures forall i, j :: 0 <= i < j < |result| ==> Before(Shown(result[i].heading), Shown(result[j].heading))
    ensures forall r :: r in all ==> exists i :: 0 <= i < |result| && Shown(result[i].heading) == Owner(r)
  {
    hide CountsOf, SummaryOf, Before, HeadingKey, OwnerText;
    forall i | 0 <= i < |result|
      ensures result[i].heading.ClawbotHeading? && HeadingKey(result[i].heading) == Shown(result[i].heading)
      ensures ShowsOwner(result[i].heading, all)
      ensures CountsOf(result[i].counts, OfOwner(all, Shown(result[i].heading)), now, size)
    {
      SummaryIs(result, all, ByClawbot, now, size, i);
      var h := result[i].heading;
      OwnerIs(h.projectId, h.environment, h.clawbotId);
      forall r | r in all ensures KeyIn(ByClawbot, r) == Owner(r) {
        OwnerIs(r.projectId, r.environment, r.clawbotId);
      }
      assert Group(all, ByClawbot, HeadingKey(h)) == OfOwner(all, Shown(h));
    }
    forall r | r in all ensures KeyIn(ByClawbot, r) == Owner(r) {
      OwnerIs(r.projectId, r.environment, r.clawbotId);
    }
  }

  /** The owner that a clawbot heading shows. */
  ghost function Shown(h: Heading): string {
    OwnerText(h.projectId, h.environment, h.clawbotId)
  }

  lemma OwnersApart(a: MemoryRecord, b: MemoryRecord)
    requires '/' !in a.projectId && '/' !in a.environment && '/' !in b.projectId && '/' !in b.environment
    requires Owner(a) == Owner(b)
    ensures a.projectId == b.projectId && a.environment == b.environment && a.clawbotId == b.clawbotId
  {
    assert Owner(a) == a.projectId + ['/'] + (a.environment + ['/'] + a.clawbotId);
    assert Owner(b) == b.projectId + ['/'] + (b.environment + ['/'] + b.clawbotId);
    CutAtFirst('/', a.projectId, a.environment + ['/'] + a.clawbotId, b.projectId,
               b.environment + ['/'] + b.clawbotId);
    CutAtFirst('/', a.environment, a.clawbotId, b.environment, b.clawbotId);
  }

  /** Without slashes in projects and environments, that is one summary per project, environment and clawbot. */
  lemma ClawbotTriples(result: seq<Summary>, all: set<MemoryRecord>, now: Time, size: MemoryRecord -> int, i: nat)
    requires Summarized(result, all, ByClawbot, now, size) && i < |result|
    requires forall r :: r in all ==> '/' !in r.projectId && '/' !in r.environment
    ensures var h := result[i].heading;
      CountsOf(result[i].counts, OfClawbot(all, h.projectId, h.environment, h.clawbotId), now, size)
  {
    hide CountsOf, Summarized, OfOwner, OfClawbot, Owner, OwnerText;
    ClawbotView(result, all, now, size);
    var h := result[i].heading;
    var o :| o in all && h == ClawbotHeading(o.projectId, o.environment, o.clawbotId);
    OwnerSet(all, o);
    OwnerShown(o);
  }

  lemma OwnerShown(o: MemoryRecord)
    ensures Shown(ClawbotHeading(o.projectId, o.environment, o.clawbotId)) == Owner(o)
  {
  }

  lemma OwnerSet(all: set<MemoryRecord>, o: MemoryRecord)
    requires o in all && forall r :: r in all ==> '/' !in r.projectId && '/' !in r.environment
    ensures OfOwner(all, Owner(o)) == OfClawbot(all, o.projectId, o.environment, o.clawbotId)
  {
    hide OwnerText;
    forall r | r in all && Owner(r) == Owner(o)
      ensures r.projectId == o.projectId && r.environment == o.environment && r.clawbotId == o.clawbotId
    {
      OwnersApart(r, o);
    }
  }

  // ----- the jobs' names -----

  /** The overview lists the known jobs by name: decay, cleanup, preservation, compaction. */
  lemma JobsInOrder(jobs: seq<Ops.JobStatus>)
    requires Sorted(Ops.ByJobName, jobs)
    ensures forall i, j :: 0 <= i < |jobs| && 0 <= j < |jobs| && i != j ==>
      && (jobs[i].jobType.DecayUpdate? && jobs[j].jobType.ExpiredCleanup? ==> i < j)
      && (jobs[i].jobType.ExpiredCleanup? && jobs[j].jobType.ReplayPreservation? ==> i < j)
      && (jobs[i].jobType.ReplayPreservation? && jobs[j].jobType.StaleCompaction? ==> i < j)
  {
    forall i, j | 0 <= j < i < |jobs| ensures Before(JobName(jobs[j].jobType), JobName(jobs[i].jobType)) {
      assert Ops.ByJobName(jobs[j], jobs[i]);
    }
    assert JobName(DecayUpdate)[0] == 'd' && JobName(ExpiredCleanup)[0] == 'e';
    assert JobName(ReplayPreservation)[0] == 'r' && JobName(StaleCompaction)[0] == 's';
  }
}
