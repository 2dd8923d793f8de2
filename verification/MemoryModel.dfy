/**
  The records of generic memory: validation, stability, expiry, decay and the normal form in which stored
  records are read (internal/domain/memory/models.go, and normalizeLegacyRecord of
  internal/platform/store/file_store.go).
 */
module MemoryModel {
  import opened Wrappers
  import opened Ordering
  import opened Text

  /** Nanoseconds since the zero value of time.Time. */
  type Time = int

  const HOUR := 3_600_000_000_000
  const REPLAY_CASE := "replay_case"
  const DEFAULT_IMPORTANCE := 50
  const PRESERVED_STABILITY := 70
  const DEFAULT_PAGE_SIZE := 25
  const MAX_PAGE_SIZE := 100
  const MAX_WINDOW_HOURS := 2_562_047

  datatype RetentionPolicy =
    Unset | Standard | Session | Expiring | Preserved | ReplayPreserve | UnknownPolicy(name: string)

  datatype MemoryRecord = MemoryRecord(
    id: string, namespace: string, projectId: string, environment: string, clawbotId: string, sessionId: string,
    memoryType: string, scope: string, scenarioId: string, sourceId: string, sourceRef: string, summary: string,
    importance: int, pinned: bool, replayLinked: bool, stability: int, recallCount: int, referenceCount: int,
    retention: RetentionPolicy, expiresAt: Option<Time>, decayEligibleAt: Option<Time>, lastAccessedAt: Option<Time>,
    idempotencyKey: string, metadata: map<string, string>, tags: seq<string>, createdAt: Time, updatedAt: Time)

  datatype MemoryQuery = MemoryQuery(
    namespace: string, projectId: string, environment: string, clawbotId: string, sessionId: string,
    memoryType: string, scenarioId: string, sourceRef: string, limit: int, offset: int)

  predicate IsReplayCase(r: MemoryRecord) {
    r.memoryType == REPLAY_CASE
  }

  predicate KnownPolicy(p: RetentionPolicy) {
    !p.Unset? && !p.UnknownPolicy?
  }

  /** The texts that must not be blank. */
  function RequiredTexts(r: MemoryRecord): seq<string> {
    [r.id, r.memoryType, r.scope, r.summary, r.projectId, r.environment, r.clawbotId, r.namespace]
  }

  predicate TextsPresent(r: MemoryRecord) {
    && (Trim(r.sourceRef) != "" || Trim(r.sourceId) != "")
    && forall t :: t in RequiredTexts(r) ==> Trim(t) != ""
  }

  predicate ScoresInBounds(r: MemoryRecord) {
    0 <= r.importance <= 100 && 0 <= r.stability <= 100 && 0 <= r.recallCount && 0 <= r.referenceCount
  }

  predicate ValidRecord(r: MemoryRecord) {
    TextsPresent(r) && ScoresInBounds(r) && KnownPolicy(r.retention)
  }

  function Min(a: int, b: int): int {
    if a < b then a else b
  }

  function Clamp(score: int): (s: int)
    ensures 0 <= s <= 100
  {
    if score < 0 then 0 else if score > 100 then 100 else score
  }

  function ComputeStability(r: MemoryRecord): (s: int)
    ensures 0 <= s <= 100
  {
    Clamp(r.importance + Min(r.recallCount * 5, 20) + Min(r.referenceCount * 4, 16)
          + (if r.pinned then 20 else 0)
          + (if r.replayLinked || IsReplayCase(r) || r.retention == ReplayPreserve then 15 else 0))
  }

  /**
    More importance, recalls, references or protection never lower the score; all the bonuses together are at most 71.
   */
  lemma StabilityGrows(a: MemoryRecord, b: MemoryRecord)
    requires a.importance <= b.importance && a.recallCount <= b.recallCount && a.referenceCount <= b.referenceCount
    requires (a.pinned ==> b.pinned) && (a.replayLinked ==> b.replayLinked)
    requires a.memoryType == b.memoryType && a.retention == b.retention
    ensures ComputeStability(a) <= ComputeStability(b) <= Clamp(b.importance + 71)
    ensures b.pinned && b.replayLinked && 4 <= b.recallCount && 4 <= b.referenceCount ==>
      ComputeStability(b) == Clamp(b.importance + 71)
  {
  }

  function Recall(r: MemoryRecord, now: Time): MemoryRecord {
    var recalled := r.(recallCount := r.recallCount + 1, lastAccessedAt := Some(now), updatedAt := now);
    recalled.(stability := ComputeStability(recalled))
  }

  predicate IsExpired(r: MemoryRecord, now: Time) {
    r.expiresAt.Some? && r.expiresAt.value <= now
  }

  function LastActivity(r: MemoryRecord): (t: Time)
    ensures r.updatedAt <= t
  {
    if r.lastAccessedAt.Some? && r.lastAccessedAt.value > r.updatedAt then r.lastAccessedAt.value else r.updatedAt
  }

  /** Go's integer division truncates toward zero. */
  function Quotient(a: int, b: int): int
    requires 0 < b
  {
    if 0 <= a then a / b else -((-a) / b)
  }

  function WindowHours(r: MemoryRecord): int {
    if r.retention == Session then 12
    else 24 + Quotient(r.importance, 2) + Quotient(r.stability, 3) + r.recallCount * 4 + r.referenceCount * 6
  }

  /** The value a 64-bit signed integer takes. */
  function Wrap64(x: int): int {
    (x + 0x8000_0000_0000_0000) % 0x1_0000_0000_0000_0000 - 0x8000_0000_0000_0000
  }

  /** The decay window as a duration: hours times an hour in nanoseconds, in 64 bits. */
  function Window(r: MemoryRecord): int {
    Wrap64(WindowHours(r) * HOUR)
  }

  predicate Shielded(r: MemoryRecord) {
    r.pinned || r.replayLinked || r.retention == ReplayPreserve || r.retention == Preserved
  }

  predicate IsDecayEligible(r: MemoryRecord, now: Time) {
    !Shielded(r) && (IsExpired(r, now) || LastActivity(r) + Window(r) <= now)
  }

  function DecayPenalty(r: MemoryRecord): int {
    if r.stability > 70 then 5 else if r.importance < 40 then 15 else 10
  }

  function Decay(r: MemoryRecord, now: Time): MemoryRecord {
    var score := r.stability - DecayPenalty(r);
    r.(decayEligibleAt := Some(now), stability := if score < 0 then 0 else score, updatedAt := now)
  }

  // ----- the 64-bit window -----

  /** The window is what the formula says as long as it stays within 64 bits. */
  predicate WindowFits(r: MemoryRecord) {
    WindowHours(r) <= MAX_WINDOW_HOURS
  }

  lemma FittingWindow(r: MemoryRecord)
    requires ScoresInBounds(r)
    ensures 12 <= WindowHours(r) && (r.retention != Session ==> 24 <= WindowHours(r))
    ensures Window(r) == WindowHours(r) * HOUR <==> WindowFits(r)
  {
  }

  predicate CountsFit(r: MemoryRecord) {
    4 * r.recallCount + 6 * r.referenceCount <= 2_561_940
  }

  /** Up to this many recalls and references the window always fits. */
  lemma CountsThatFit(r: MemoryRecord)
    requires ScoresInBounds(r) && CountsFit(r)
    ensures WindowFits(r)
  {
  }

  // ----- reading stored records -----

  /** BuildNamespace: the non-blank trimmed parts, joined with slashes. */
  function BuildNamespace(project: string, environment: string, clawbot: string, session: string,
      memoryType: string): string {
    JoinSlash(NonBlank([Trim(project), Trim(environment), Trim(clawbot), Trim(session), Trim(memoryType)]))
  }

  function NonBlank(parts: seq<string>): seq<string> {
    if parts == [] then [] else if parts[0] == "" then NonBlank(parts[1..]) else [parts[0]] + NonBlank(parts[1..])
  }

  function JoinSlash(parts: seq<string>): string {
    Join(parts, '/')
  }

  /** strings.Join with a one-character separator. */
  function Join(parts: seq<string>, separator: char): string {
    if parts == [] then "" else if |parts| == 1 then parts[0] else parts[0] + [separator] + Join(parts[1..], separator)
  }

  method NamespaceFor(project: string, environment: string, clawbot: string, session: string,
      memoryType: string) returns (namespace: string)
    ensures namespace == BuildNamespace(project, environment, clawbot, session, memoryType)
  {
    hide Trim;
    var parts := [Trim(project), Trim(environment), Trim(clawbot)];
    if Trim(session) != "" {
      parts := parts + [Trim(session)];
    }
    if Trim(memoryType) != "" {
      parts := parts + [Trim(memoryType)];
    }
    var filtered: seq<string> := [];
    for i := 0 to |parts|
      invariant filtered == NonBlank(parts[..i])
    {
      assert parts[..i + 1] == parts[..i] + [parts[i]];
      NonBlankMore(parts[..i], parts[i]);
      if parts[i] != "" {
        filtered := filtered + [parts[i]];
      }
    }
    assert parts[..|parts|] == parts;
    assert NonBlank(parts) == filtered;
    ghost var first := [Trim(project), Trim(environment), Trim(clawbot)];
    BlankPartsDropped(first, Trim(session), Trim(memoryType));
    assert parts == first + (if Trim(session) == "" then [] else [Trim(session)])
      + if Trim(memoryType) == "" then [] else [Trim(memoryType)];
    assert first + [Trim(session), Trim(memoryType)]
      == [Trim(project), Trim(environment), Trim(clawbot), Trim(session), Trim(memoryType)];
    return JoinSlash(filtered);
  }

  lemma {:induction false} NonBlankMore(parts: seq<string>, part: string)
    ensures NonBlank(parts + [part]) == NonBlank(parts) + if part == "" then [] else [part]
  {
    if parts == [] {
    } else {
      NonBlankMore(parts[1..], part);
      assert (parts + [part])[1..] == parts[1..] + [part];
    }
  }

  lemma BlankPartsDropped(parts: seq<string>, session: string, memoryType: string)
    ensures NonBlank(parts + [session, memoryType])
      == NonBlank(parts + (if session == "" then [] else [session]) + if memoryType == "" then [] else [memoryType])
  {
    NonBlankMore(parts, session);
    NonBlankMore(parts + [session], memoryType);
    assert parts + [session, memoryType] == parts + [session] + [memoryType];
    var some := parts + if session == "" then [] else [session];
    NonBlankMore(some, memoryType);
    assert some + [] == some && parts + [] == parts;
  }

  lemma NamespaceNotBlank(project: string, environment: string, clawbot: string, session: string, memoryType: string)
    requires Trim(project) != ""
    ensures Trim(BuildNamespace(project, environment, clawbot, session, memoryType)) != ""
  {
    var parts := [Trim(project), Trim(environment), Trim(clawbot), Trim(session), Trim(memoryType)];
    var kept := NonBlank(parts);
    assert kept != [] && kept[0] == Trim(project);
    assert BuildNamespace(project, environment, clawbot, session, memoryType)[0] == Trim(project)[0];
    TrimBlank(BuildNamespace(project, environment, clawbot, session, memoryType));
  }

  function OrDefault(text: string, default_: string): string {
    if Trim(text) == "" then default_ else text
  }

  /** The text fields of a record as read: defaults for blank ones, cleaned tags. */
  function LoadTexts(r: MemoryRecord): MemoryRecord {
    var project := OrDefault(r.projectId, "default-project");
    var environment := OrDefault(r.environment, "development");
    var clawbot := OrDefault(r.clawbotId, "shared");
    var sourceRef := if Trim(r.sourceRef) == "" then Trim(r.sourceId) else r.sourceRef;
    var sourceId := if Trim(r.sourceId) == "" then Trim(sourceRef) else r.sourceId;
    var namespace :=
      if Trim(r.namespace) == "" then BuildNamespace(project, environment, clawbot, r.sessionId, r.memoryType)
      else r.namespace;
    r.(projectId := project, environment := environment, clawbotId := clawbot, sourceRef := sourceRef,
       sourceId := sourceId, namespace := namespace, tags := Clean(r.tags))
  }

  function LoadPolicy(r: MemoryRecord): RetentionPolicy {
    if r.retention != Unset then r.retention else if IsReplayCase(r) then ReplayPreserve else Standard
  }

  function LoadImportance(r: MemoryRecord): int {
    if r.importance == 0 then DEFAULT_IMPORTANCE else r.importance
  }

  /** normalizeLegacyRecord: how a stored record is read when a directory is listed. */
  function Load(r: MemoryRecord): MemoryRecord {
    var l := LoadTexts(r).(importance := LoadImportance(r),
                           replayLinked := r.replayLinked || IsReplayCase(r) || r.retention == ReplayPreserve,
                           retention := LoadPolicy(r));
    if l.stability == 0 then l.(stability := ComputeStability(l)) else l
  }

  /** What reading leaves alone, and what it derives. */
  lemma LoadFields(r: MemoryRecord)
    ensures var l := Load(r);
      && l.id == r.id && l.pinned == r.pinned && l.memoryType == r.memoryType && l.scope == r.scope
      && l.summary == r.summary
      && l.expiresAt == r.expiresAt && l.updatedAt == r.updatedAt && l.createdAt == r.createdAt
      && l.lastAccessedAt == r.lastAccessedAt
      && l.idempotencyKey == r.idempotencyKey && l.recallCount == r.recallCount && l.referenceCount == r.referenceCount
      && l.replayLinked == (r.replayLinked || IsReplayCase(r) || r.retention == ReplayPreserve)
      && l.retention == LoadPolicy(r) && l.tags == Clean(r.tags) && l.importance == LoadImportance(r)
      && (r.stability != 0 ==> l.stability == r.stability)
  {
    hide Trim, Clean, BuildNamespace, OrDefault, ComputeStability, IsReplayCase, LoadPolicy;
  }

  /** What a stored record must have to read as valid: everything else has a default. */
  predicate Readable(r: MemoryRecord) {
    && (forall t :: t in [r.id, r.memoryType, r.scope, r.summary] ==> Trim(t) != "")
    && (Trim(r.sourceRef) != "" || Trim(r.sourceId) != "")
    && ScoresInBounds(r) && !r.retention.UnknownPolicy?
  }

  lemma DefaultsNotBlank()
    ensures Trim("default-project") != "" && Trim("development") != "" && Trim("shared") != ""
  {
    assert !IsSpace("default-project"[0]) && !IsSpace("development"[0]) && !IsSpace("shared"[0]);
  }

  lemma LoadedTexts(r: MemoryRecord)
    ensures var l := Load(r);
      && Trim(l.projectId) != "" && Trim(l.environment) != "" && Trim(l.clawbotId) != "" && Trim(l.namespace) != ""
      && (Trim(l.sourceRef) != "" || Trim(l.sourceId) != "" <==> Trim(r.sourceRef) != "" || Trim(r.sourceId) != "")
  {
    hide Trim, LoadTexts, IsReplayCase, ComputeStability, LoadPolicy, LoadImportance;
    LoadedOwner(r);
    LoadedSource(r);
  }

  lemma LoadedOwner(r: MemoryRecord)
    ensures var l := LoadTexts(r);
      Trim(l.projectId) != "" && Trim(l.environment) != "" && Trim(l.clawbotId) != "" && Trim(l.namespace) != ""
  {
    hide Trim, Clean, BuildNamespace;
    DefaultsNotBlank();
    var l := LoadTexts(r);
    NamespaceNotBlank(l.projectId, l.environment, l.clawbotId, r.sessionId, r.memoryType);
  }

  lemma LoadedSource(r: MemoryRecord)
    ensures var l := LoadTexts(r);
      Trim(l.sourceRef) != "" || Trim(l.sourceId) != "" <==> Trim(r.sourceRef) != "" || Trim(r.sourceId) != ""
  {
    hide Trim, Clean, BuildNamespace, OrDefault;
    TrimTwice(r.sourceId);
    TrimTwice(r.sourceRef);
  }

  /** Exactly the readable records read as valid ones. */
  lemma LoadValidExact(r: MemoryRecord)
    ensures ValidRecord(Load(r)) <==> Readable(r)
  {
    hide Trim, Load, LoadImportance;
    LoadedTexts(r);
    LoadFields(r);
    LoadedScores(r);
  }

  lemma LoadedScores(r: MemoryRecord)
    ensures ScoresInBounds(Load(r)) <==> ScoresInBounds(r)
  {
    hide Trim, LoadTexts, LoadPolicy, IsReplayCase, ComputeStability;
    TextsOnly(r);
  }

  lemma TextsOnly(r: MemoryRecord)
    ensures var l := LoadTexts(r);
      && l.importance == r.importance && l.stability == r.stability
      && l.recallCount == r.recallCount && l.referenceCount == r.referenceCount
  {
    hide Trim, Clean, BuildNamespace, OrDefault;
  }

  /** So reading keeps a valid record valid. */
  lemma LoadValid(r: MemoryRecord)
    requires ValidRecord(r)
    ensures Readable(r) && ValidRecord(Load(r))
  {
    hide Trim, Load;
    LoadValidExact(r);
  }

  /** Recalling, decaying and preserving keep a valid record valid, so the writes that follow cannot be refused. */
  lemma RecallValid(r: MemoryRecord, now: Time)
    requires ValidRecord(r)
    ensures ValidRecord(Recall(r, now))
  {
    hide Trim;
  }

  lemma DecayValid(r: MemoryRecord, now: Time)
    requires ValidRecord(r)
    ensures ValidRecord(Decay(r, now))
  {
    hide Trim;
  }

  predicate ReplayTagged(r: MemoryRecord) {
    "replay" in r.tags || "replay-linked" in r.tags
  }

  /** Does replay preservation look after this record? */
  predicate Replayish(r: MemoryRecord) {
    r.replayLinked || IsReplayCase(r) || ReplayTagged(r)
  }

  predicate FullyPreserved(r: MemoryRecord) {
    r.replayLinked && r.retention == ReplayPreserve && PRESERVED_STABILITY <= r.stability
  }

  function Preserve(r: MemoryRecord, now: Time): MemoryRecord {
    r.(replayLinked := true, retention := ReplayPreserve,
       stability := if r.stability < PRESERVED_STABILITY then PRESERVED_STABILITY else r.stability, updatedAt := now)
  }

  lemma PreserveValid(r: MemoryRecord, now: Time)
    requires ValidRecord(r)
    ensures ValidRecord(Preserve(r, now)) && FullyPreserved(Preserve(r, now))
  {
    hide Trim;
  }

  // ----- order and selection -----

  predicate CreatedBefore(a: MemoryRecord, b: MemoryRecord) {
    a.createdAt < b.createdAt || (a.createdAt == b.createdAt && Before(a.id, b.id))
  }

  /** Newest update first, ties by id: the order within a group of duplicates. */
  predicate Newer(a: MemoryRecord, b: MemoryRecord) {
    a.updatedAt > b.updatedAt || (a.updatedAt == b.updatedAt && Before(a.id, b.id))
  }

  lemma CreatedBeforeTotalOn(s: set<MemoryRecord>)
    requires forall a, b :: a in s && b in s && a.id == b.id ==> a == b
    ensures TotalOn(CreatedBefore, s)
  {
    forall a, b | a in s && b in s
      ensures !CreatedBefore(a, a) && (a != b ==> CreatedBefore(a, b) || CreatedBefore(b, a))
    {
      BeforeTotal(a.id, b.id);
    }
    forall a: MemoryRecord, b: MemoryRecord, c: MemoryRecord | CreatedBefore(a, b) && CreatedBefore(b, c)
      ensures CreatedBefore(a, c)
    {
      if Before(a.id, b.id) && Before(b.id, c.id) {
        BeforeTransitive(a.id, b.id, c.id);
      }
    }
  }

  lemma NewerTotalOn(s: set<MemoryRecord>)
    requires forall a, b :: a in s && b in s && a.id == b.id ==> a == b
    ensures TotalOn(Newer, s)
  {
    forall a, b | a in s && b in s ensures !Newer(a, a) && (a != b ==> Newer(a, b) || Newer(b, a)) {
      BeforeTotal(a.id, b.id);
    }
    forall a: MemoryRecord, b: MemoryRecord, c: MemoryRecord | Newer(a, b) && Newer(b, c) ensures Newer(a, c) {
      if Before(a.id, b.id) && Before(b.id, c.id) {
        BeforeTransitive(a.id, b.id, c.id);
      }
    }
  }

  function PageSize(limit: int): (n: int)
    ensures 1 <= n <= MAX_PAGE_SIZE
  {
    if limit <= 0 then DEFAULT_PAGE_SIZE else if limit > MAX_PAGE_SIZE then MAX_PAGE_SIZE else limit
  }

  /** The type filter is the one text that is not trimmed. */
  function NormalizeQuery(q: MemoryQuery): MemoryQuery {
    MemoryQuery(Trim(q.namespace), Trim(q.projectId), Trim(q.environment), Trim(q.clawbotId), Trim(q.sessionId),
                q.memoryType, Trim(q.scenarioId), Trim(q.sourceRef), PageSize(q.limit),
                if q.offset < 0 then 0 else q.offset)
  }

  predicate Wants(wanted: string, actual: string) {
    wanted == "" || actual == wanted
  }

  /** matchesQuery */
  predicate Matches(r: MemoryRecord, q: MemoryQuery) {
    && Wants(q.namespace, r.namespace) && Wants(q.projectId, r.projectId) && Wants(q.environment, r.environment)
    && Wants(q.clawbotId, r.clawbotId) && Wants(q.sessionId, r.sessionId) && Wants(q.memoryType, r.memoryType)
    && Wants(q.scenarioId, r.scenarioId) && Wants(q.sourceRef, r.sourceRef)
  }
}
