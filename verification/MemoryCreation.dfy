/**
  What creating a record makes of an input (internal/services/memory/service.go), and what it adds to the keys in use.
 */
module MemoryCreation {
  import opened Wrappers
  import opened Text
  import opened MemoryModel
  import opened MemoryStore

  datatype CreateInput = CreateInput(
    projectId: string, environment: string, clawbotId: string, sessionId: string, memoryType: string, scope: string,
    scenarioId: string, sourceId: string, sourceRef: string, summary: string, importance: int, pinned: bool,
    retention: RetentionPolicy, expiresAt: Option<Time>, idempotencyKey: string,
    metadata: map<string, string>, tags: seq<string>)

  predicate InputComplete(input: CreateInput) {
    && Trim(input.memoryType) != "" && Trim(input.scope) != ""
    && (Trim(input.sourceRef) != "" || Trim(input.sourceId) != "")
    && Trim(input.summary) != ""
  }

  function FirstNonEmpty(a: string, b: string): string {
    if Trim(a) != "" then Trim(a) else Trim(b)
  }

  function DefaultPolicy(memoryType: string, pinned: bool): RetentionPolicy {
    if pinned then Preserved else if memoryType == REPLAY_CASE then ReplayPreserve else Standard
  }

  /** normalizeRecord, once the input is complete. */
  function BuildRecord(id: string, now: Time, input: CreateInput): MemoryRecord {
    var project := FirstNonEmpty(input.projectId, "default-project");
    var environment := FirstNonEmpty(input.environment, "development");
    var clawbot := FirstNonEmpty(input.clawbotId, "shared");
    var session := Trim(input.sessionId);
    var sourceRef := FirstNonEmpty(input.sourceRef, input.sourceId);
    var policy := if input.retention == Unset then DefaultPolicy(input.memoryType, input.pinned) else input.retention;
    var record := MemoryRecord(
      id, BuildNamespace(project, environment, clawbot, session, input.memoryType), project, environment, clawbot,
      session, input.memoryType, input.scope, Trim(input.scenarioId), sourceRef, sourceRef, Trim(input.summary),
      if input.importance == 0 then DEFAULT_IMPORTANCE else input.importance, input.pinned,
      input.memoryType == REPLAY_CASE || policy == ReplayPreserve, 0, 0, 0, policy, input.expiresAt, None, None,
      Trim(input.idempotencyKey), input.metadata, Clean(input.tags), now, now);
    record.(stability := ComputeStability(record))
  }

  /** An input that normalizeRecord accepts. */
  predicate Acceptable(input: CreateInput) {
    InputComplete(input) && 0 <= input.importance <= 100 && !input.retention.UnknownPolicy?
  }

  /** Whatever the generated id and the time, an accepted input makes a valid record, and no other complete one does. */
  lemma AcceptableExact(id: string, now: Time, input: CreateInput)
    requires GeneratedId(id) && InputComplete(input)
    ensures ValidRecord(BuildRecord(id, now, input)) <==> Acceptable(input)
  {
    hide BuildRecord, Trim, UsableId;
    BuiltTexts(id, now, input);
    BuiltScores(id, now, input);
  }

  lemma BuiltTexts(id: string, now: Time, input: CreateInput)
    requires GeneratedId(id) && InputComplete(input)
    ensures TextsPresent(BuildRecord(id, now, input))
  {
    hide Trim, BuildNamespace, BuildRecord, GeneratedId, FirstNonEmpty;
    GeneratedTrimmed(id);
    DefaultsNotBlank();
    FirstNonEmptyTrimmed(input.projectId, "default-project");
    FirstNonEmptyTrimmed(input.environment, "development");
    FirstNonEmptyTrimmed(input.clawbotId, "shared");
    FirstNonEmptyTrimmed(input.sourceRef, input.sourceId);
    TrimTwice(input.summary);
    BuiltFields(id, now, input);
    var r := BuildRecord(id, now, input);
    NamespaceNotBlank(r.projectId, r.environment, r.clawbotId, r.sessionId, input.memoryType);
  }

  lemma BuiltFields(id: string, now: Time, input: CreateInput)
    ensures var r := BuildRecord(id, now, input);
      && r.id == id && r.memoryType == input.memoryType && r.scope == input.scope && r.summary == Trim(input.summary)
      && r.projectId == FirstNonEmpty(input.projectId, "default-project")
      && r.environment == FirstNonEmpty(input.environment, "development")
      && r.clawbotId == FirstNonEmpty(input.clawbotId, "shared")
      && r.sourceRef == FirstNonEmpty(input.sourceRef, input.sourceId)
      && r.namespace == BuildNamespace(r.projectId, r.environment, r.clawbotId, r.sessionId, r.memoryType)
  {
    hide Trim, Clean, BuildNamespace, ComputeStability, DefaultPolicy, FirstNonEmpty;
  }

  lemma GeneratedTrimmed(id: string)
    requires GeneratedId(id)
    ensures Trim(id) != ""
  {
    hide Trim;
  }

  lemma FirstNonEmptyTrimmed(a: string, b: string)
    ensures Trim(FirstNonEmpty(a, b)) == "" <==> Trim(a) == "" && Trim(b) == ""
  {
    hide Trim;
    TrimTwice(a);
    TrimTwice(b);
  }

  lemma BuiltScores(id: string, now: Time, input: CreateInput)
    ensures var r := BuildRecord(id, now, input);
      && (ScoresInBounds(r) <==> 0 <= input.importance <= 100)
      && (KnownPolicy(r.retention) <==> !input.retention.UnknownPolicy?)
  {
    hide Trim, Clean, BuildNamespace, ComputeStability, FirstNonEmpty;
  }

  function InputKeys(inputs: seq<CreateInput>): set<string> {
    set i | i in inputs && Trim(i.idempotencyKey) != "" :: Trim(i.idempotencyKey)
  }

  predicate FullyKeyed(inputs: seq<CreateInput>) {
    forall i :: i in inputs ==> Trim(i.idempotencyKey) != ""
  }

  /** What creating adds: nothing when the key is in use, one new record otherwise. */
  ghost predicate Added(before: Records, after: Records, done: seq<CreateInput>) {
    && (forall id :: id in before ==> id in after && after[id] == before[id])
    && Keys(after) == Keys(before) + InputKeys(done)
    && (FullyKeyed(done) ==> |after| + |Keys(before)| == |before| + |Keys(after)|)
  }

  lemma BlankKeyUnused(m: Records)
    ensures "" !in Keys(m)
  {
    hide Trim;
  }

  lemma BuiltKey(id: string, now: Time, input: CreateInput)
    ensures var r := BuildRecord(id, now, input);
      r.id == id && r.idempotencyKey == Trim(input.idempotencyKey) && KeyOf(r) == Trim(input.idempotencyKey)
  {
    TrimTwice(input.idempotencyKey);
    hide Trim, Clean, FirstNonEmpty, BuildNamespace, ComputeStability, DefaultPolicy;
  }

  lemma CreatedKey(r: MemoryRecord, now: Time, input: CreateInput)
    requires r == BuildRecord(r.id, now, input) || KeyOf(r) == Trim(input.idempotencyKey)
    ensures KeyOf(r) == Trim(input.idempotencyKey)
  {
    hide BuildRecord, Trim;
    BuiltKey(r.id, now, input);
  }

  lemma InputKeysOne(input: CreateInput)
    ensures InputKeys([input]) == if Trim(input.idempotencyKey) == "" then {} else {Trim(input.idempotencyKey)}
  {
    hide Trim;
    assert input in [input];
  }

  lemma AddedNone(m: Records)
    ensures Added(m, m, [])
  {
    hide Trim;
  }

  lemma AddedNothing(m: Records, input: CreateInput)
    requires Trim(input.idempotencyKey) in Keys(m)
    ensures Added(m, m, [input])
  {
    hide Trim;
    InputKeysOne(input);
  }

  lemma KeysGrow(m: Records, r: MemoryRecord)
    requires r.id !in m
    ensures Keys(m[r.id := r]) == Keys(m) + if KeyOf(r) == "" then {} else {KeyOf(r)}
  {
    hide Trim;
    var n := m[r.id := r];
    forall k ensures k in Keys(n) <==> k in Keys(m) || (KeyOf(r) != "" && k == KeyOf(r)) {
      if k in Keys(m) {
        var id :| id in m && KeyOf(m[id]) != "" && KeyOf(m[id]) == k;
        assert id in n && n[id] == m[id];
      }
      if KeyOf(r) != "" && k == KeyOf(r) {
        assert r.id in n && n[r.id] == r;
      }
    }
  }

  /** A new record whose key is not in use keeps keys unique. */
  lemma NewRecordAdded(m: Records, r: MemoryRecord, input: CreateInput)
    requires r.id !in m && KeyOf(r) == Trim(input.idempotencyKey) && Trim(input.idempotencyKey) !in Keys(m)
    ensures Added(m, m[r.id := r], [input]) && (KeysUnique(m) ==> KeysUnique(m[r.id := r]))
  {
    hide KeyOf, Keys, InputKeys, FullyKeyed, KeysUnique, Trim;
    KeysGrow(m, r);
    InputKeysOne(input);
    if KeysUnique(m) {
      NewKeyUnique(m, r);
    }
    if FullyKeyed([input]) {
      OneKeyed(input);
      assert Keys(m[r.id := r]) == Keys(m) + {KeyOf(r)};
    }
  }

  lemma OneKeyed(input: CreateInput)
    requires FullyKeyed([input])
    ensures Trim(input.idempotencyKey) != ""
  {
    hide Trim;
    assert input in [input];
  }

  lemma NewKeyUnique(m: Records, r: MemoryRecord)
    requires KeysUnique(m) && r.id !in m && KeyOf(r) !in Keys(m)
    ensures KeysUnique(m[r.id := r])
  {
    hide KeyOf;
    assert forall id :: id in m && KeyOf(m[id]) != "" ==> KeyOf(m[id]) in Keys(m);
  }

  lemma AddedMore(before: Records, middle: Records, after: Records, done: seq<CreateInput>, input: CreateInput)
    requires Added(before, middle, done) && Added(middle, after, [input])
    ensures Added(before, after, done + [input])
  {
    hide Trim, Keys, InputKeys, FullyKeyed;
    InputKeysMore(done, input);
  }

  lemma InputKeysMore(done: seq<CreateInput>, input: CreateInput)
    ensures InputKeys(done + [input]) == InputKeys(done) + InputKeys([input])
    ensures FullyKeyed(done + [input]) ==> FullyKeyed(done) && FullyKeyed([input])
  {
    hide Trim;
    assert forall i :: i in done + [input] <==> i in done || i in [input];
  }

  /**
    A fully keyed batch that stopped part-way can be sent again: the second time adds exactly the missing records,
    one per missing key, and nothing stored before changes.
   */
  lemma ResubmitAddsMissing(before: Records, middle: Records, after: Records, inputs: seq<CreateInput>, n: nat)
    requires n <= |inputs| && FullyKeyed(inputs)
    requires Added(before, middle, inputs[..n]) && Added(middle, after, inputs)
    ensures Keys(after) == Keys(before) + InputKeys(inputs)
    ensures |after| - |middle| == |InputKeys(inputs) - Keys(middle)|
    ensures |after| - |before| == |InputKeys(inputs) - Keys(before)|
    ensures forall id :: id in middle ==> id in after && after[id] == middle[id]
    ensures n == |inputs| ==> |after| == |middle|
  {
    hide Added, Keys, InputKeys, FullyKeyed;
    PrefixKeys(inputs, n);
    AddedCounts(before, middle, inputs[..n]);
    AddedCounts(middle, after, inputs);
    assert Keys(after) == Keys(before) + InputKeys(inputs);
    NewKeysCount(Keys(before), InputKeys(inputs[..n]));
    NewKeysCount(Keys(middle), InputKeys(inputs));
    NewKeysCount(Keys(before), InputKeys(inputs));
    if n == |inputs| {
      assert inputs[..n] == inputs;
      assert InputKeys(inputs) - Keys(middle) == {};
    }
  }

  lemma AddedCounts(before: Records, after: Records, done: seq<CreateInput>)
    requires Added(before, after, done) && FullyKeyed(done)
    ensures Keys(after) == Keys(before) + InputKeys(done) && |after| - |before| == |InputKeys(done) - Keys(before)|
    ensures forall id :: id in before ==> id in after && after[id] == before[id]
  {
    hide Keys, InputKeys, FullyKeyed;
    NewKeysCount(Keys(before), InputKeys(done));
  }

  lemma PrefixKeys(inputs: seq<CreateInput>, n: nat)
    requires n <= |inputs|
    ensures InputKeys(inputs[..n]) <= InputKeys(inputs) && (FullyKeyed(inputs) ==> FullyKeyed(inputs[..n]))
  {
    hide Trim;
  }

  lemma NewKeysCount(keys: set<string>, more: set<string>)
    ensures |keys + more| == |keys| + |more - keys|
  {
    assert keys + more == keys + (more - keys);
  }

  lemma RecallOk(m: Records, id: string, now: Time)
    requires StoreOk(m) && id in m
    ensures var r := Recall(m[id], now);
      && r.id == id && UsableId(id) && r.idempotencyKey == m[id].idempotencyKey
      && (ValidRecord(r) ==> StoreOk(m[id := r])) && (KeysUnique(m) ==> KeysUnique(m[id := r]))
  {
    hide Trim, Load, ValidRecord, UsableId, ComputeStability, KeysUnique;
    StoreOkAt(m, id);
    var r := Recall(m[id], now);
    if ValidRecord(r) {
      StoreOkMore(m, r);
    }
    if KeysUnique(m) {
      SameKeysUnique(m, m[id := r]);
    }
  }
}
