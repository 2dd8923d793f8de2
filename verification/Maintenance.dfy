/**
  What the four maintenance jobs do to a store, as functions of its contents, and how they relate to each
  other and to the queue counters (internal/services/ops/service.go).
 */
module Maintenance {
  import opened Wrappers
  import opened Ordering
  import opened Text
  import opened Counting
  import opened MemoryModel
  import opened MemoryStore

  // ----- decay and expiry -----

  /** decay_update takes what is eligible but not expired; expired_cleanup what is expired and not shielded. */
  predicate DecayDue(r: MemoryRecord, now: Time) {
    IsDecayEligible(r, now) && !IsExpired(r, now)
  }

  predicate Removable(r: MemoryRecord, now: Time) {
    IsExpired(r, now) && !Shielded(r)
  }

  function DecaySet(m: Records, now: Time): set<string> {
    set id | id in m && DecayDue(Load(m[id]), now)
  }

  function RemoveSet(m: Records, now: Time): set<string> {
    set id | id in m && Removable(Load(m[id]), now)
  }

  /** The records that the overview's decay queue counts. */
  function EligibleSet(m: Records, now: Time): set<string> {
    set id | id in m && IsDecayEligible(Load(m[id]), now)
  }

  /** The store after decaying the given records. */
  function DecayedAt(m: Records, ids: set<string>, now: Time): Records {
    map id | id in m :: if id in ids then Decay(Load(m[id]), now) else m[id]
  }

  function Decayed(m: Records, now: Time): Records {
    DecayedAt(m, DecaySet(m, now), now)
  }

  function Cleaned(m: Records, now: Time): Records {
    m - RemoveSet(m, now)
  }

  /** Reading back a decayed record. */
  lemma LoadDecayed(r: MemoryRecord, now: Time)
    ensures var d := Load(Decay(Load(r), now));
      && d.expiresAt == r.expiresAt && d.updatedAt == now && d.lastAccessedAt == r.lastAccessedAt
      && d.pinned == r.pinned && d.replayLinked == Load(r).replayLinked && d.retention == Load(r).retention
      && d.recallCount == r.recallCount && d.referenceCount == r.referenceCount && d.memoryType == r.memoryType
      && Shielded(d) == Shielded(Load(r)) && (forall t :: IsExpired(d, t) == IsExpired(r, t))
  {
    LoadFields(r);
    LoadFields(Decay(Load(r), now));
    hide Load, Clean, ComputeStability;
  }

  /**
    Reading back a decayed record gives the lowered score, but never 0: a score that would reach 0 is read as the
    freshly computed one.
   */
  lemma DecayReads(r: MemoryRecord, now: Time)
    requires Readable(r)
    ensures var l := Load(r); var d := Load(Decay(l, now));
      && 1 <= l.stability && 1 <= d.stability
      && d.stability == if l.stability > DecayPenalty(l) then l.stability - DecayPenalty(l) else ComputeStability(l)
  {
    hide Trim, Clean, Load, DecayPenalty, ComputeStability;
    var l := Load(r);
    LoadedScores(r);
    assert ScoresInBounds(r) && ScoresInBounds(l);
    LoadStability(r);
    LoadStability(Decay(l, now));
    LoadFields(r);
    LoadFields(Decay(l, now));
    SameScore(l, Load(Decay(l, now)));
    SameScore(l, Load(r));
    ComputedPositive(l);
  }

  /** A stored score of 0 is read as the computed one. */
  lemma LoadStability(r: MemoryRecord)
    ensures Load(r).stability == if r.stability == 0 then ComputeStability(Load(r)) else r.stability
  {
    hide LoadTexts, LoadPolicy, LoadImportance, IsReplayCase, ComputeStability;
    TextsOnly(r);
    var l := LoadTexts(r).(importance := LoadImportance(r),
                           replayLinked := r.replayLinked || IsReplayCase(r) || r.retention == ReplayPreserve,
                           retention := LoadPolicy(r));
    SameScore(l, Load(r));
  }

  lemma SameScore(a: MemoryRecord, b: MemoryRecord)
    requires a.importance == b.importance && a.recallCount == b.recallCount && a.referenceCount == b.referenceCount
    requires a.pinned == b.pinned && a.replayLinked == b.replayLinked && a.memoryType == b.memoryType
    requires a.retention == b.retention
    ensures ComputeStability(a) == ComputeStability(b)
  {
  }

  lemma ComputedPositive(r: MemoryRecord)
    requires 1 <= r.importance && 0 <= r.recallCount && 0 <= r.referenceCount
    ensures 1 <= ComputeStability(r)
  {
  }

  /** A read recomputes the stability and touches the record; what protects it stays. */
  lemma LoadRecalled(r: MemoryRecord, now: Time)
    ensures var d := Load(Recall(r, now));
      && d.pinned == r.pinned && d.replayLinked == Load(r).replayLinked && d.retention == Load(r).retention
      && d.updatedAt == now
  {
    LoadFields(r);
    LoadFields(Recall(r, now));
    hide Load, Clean, ComputeStability;
  }

  /** The overview's decay queue is the two jobs' work, split between them with no overlap. */
  lemma QueueConservation(m: Records, now: Time)
    ensures EligibleSet(m, now) == DecaySet(m, now) + RemoveSet(m, now)
    ensures DecaySet(m, now) !! RemoveSet(m, now)
    ensures |EligibleSet(m, now)| == |DecaySet(m, now)| + |RemoveSet(m, now)|
  {
    hide Load, Window;
    var d, r := DecaySet(m, now), RemoveSet(m, now);
    assert EligibleSet(m, now) == d + r;
    assert |d + r| == |d| + |r|;
  }

  /** At one instant the two jobs can run in either order. */
  lemma DecayAndCleanupCommute(m: Records, now: Time)
    ensures Cleaned(Decayed(m, now), now) == Decayed(Cleaned(m, now), now)
    ensures RemoveSet(Decayed(m, now), now) == RemoveSet(m, now)
    ensures DecaySet(Cleaned(m, now), now) == DecaySet(m, now)
  {
    hide Load, Removable, DecayDue, Decay;
    var decayed, cleaned := Decayed(m, now), Cleaned(m, now);
    forall id | id in m ensures Removable(Load(decayed[id]), now) <==> Removable(Load(m[id]), now) {
      DecayKeepsRemovable(m[id], now);
    }
    assert RemoveSet(decayed, now) == RemoveSet(m, now);
    forall id | id in DecaySet(m, now) ensures id !in RemoveSet(m, now) {
      NotBoth(Load(m[id]), now);
    }
    assert DecaySet(cleaned, now) == DecaySet(m, now);
  }

  lemma DecayKeepsRemovable(r: MemoryRecord, now: Time)
    ensures Removable(Load(Decay(Load(r), now)), now) <==> Removable(Load(r), now)
  {
    LoadDecayed(r, now);
    LoadFields(r);
    hide Load, Shielded, Decay;
  }

  lemma NotBoth(r: MemoryRecord, now: Time)
    ensures !(DecayDue(r, now) && Removable(r, now))
  {
    hide Window, Shielded;
  }

  // ----- spacing -----

  /** The least time between two decays of a record. */
  function LeastGap(r: MemoryRecord): int {
    if r.retention == Session then 12 * HOUR else 24 * HOUR
  }

  /** A record whose 64-bit window reaches the least gap is not due before that gap since its last update has passed. */
  lemma DueAfterWindow(r: MemoryRecord, now: Time)
    requires DecayDue(r, now) && LeastGap(r) <= Window(r)
    ensures r.updatedAt + LeastGap(r) <= now
  {
    hide Window;
  }

  /** A window that fits reaches it. */
  lemma FittingReachesGap(r: MemoryRecord)
    requires ScoresInBounds(r) && WindowFits(r)
    ensures LeastGap(r) <= Window(r)
  {
    FittingWindow(r);
    hide Wrap64, WindowHours;
  }

  /** The first time since its last update at which the record is due, if it has not expired by then. */
  function FirstDue(r: MemoryRecord): Time {
    var t := LastActivity(r) + Window(r);
    if t < r.updatedAt then r.updatedAt else t
  }

  predicate EarlyDue(r: MemoryRecord) {
    FirstDue(r) < r.updatedAt + LeastGap(r) && !IsExpired(r, FirstDue(r))
  }

  /**
    The exact condition for a record to come due too early. Without expiry, and with no access after the last update,
    it is that the 64-bit window falls short of the least gap.
   */
  lemma GapExact(r: MemoryRecord)
    requires !Shielded(r)
    ensures (exists t :: r.updatedAt <= t < r.updatedAt + LeastGap(r) && DecayDue(r, t)) <==> EarlyDue(r)
    ensures r.expiresAt.None? && LastActivity(r) == r.updatedAt ==> (EarlyDue(r) <==> Window(r) < LeastGap(r))
  {
    hide Window, Shielded;
    if EarlyDue(r) {
      assert DecayDue(r, FirstDue(r));
    }
  }

  lemma StillDecayable(r: MemoryRecord, now: Time)
    requires DecayDue(Load(r), now)
    ensures var d := Load(Decay(Load(r), now)); !Shielded(d) && d.updatedAt == now
  {
    LoadDecayed(r, now);
    hide Load, Decay, Window, Shielded;
  }

  /**
    Rerunning decay_update at the same instant finds nothing to do, unless a decayed record has been recalled over half
    a million times.
   */
  lemma DecayOnce(m: Records, now: Time)
    requires StoreOk(m)
    requires forall id :: id in DecaySet(m, now) ==> CountsFit(m[id])
    ensures DecaySet(Decayed(m, now), now) == {} && Decayed(Decayed(m, now), now) == Decayed(m, now)
  {
    hide Load, DecayDue, Decay, CountsFit, StoreOk;
    var n := Decayed(m, now);
    forall id | id in n ensures !DecayDue(Load(n[id]), now) {
      if id in DecaySet(m, now) {
        StoreOkAt(m, id);
        JustDecayed(m[id], now);
      }
    }
    assert DecaySet(n, now) == {};
    DecayedNone(n, now);
  }

  lemma JustDecayed(r: MemoryRecord, now: Time)
    requires ValidRecord(Load(r)) && CountsFit(r)
    ensures !DecayDue(Load(Decay(Load(r), now)), now)
  {
    hide Load, DecayDue, Decay, WindowFits, TextsPresent, KnownPolicy, ScoresInBounds;
    var d := Load(Decay(Load(r), now));
    DecayValid(Load(r), now);
    LoadValid(Decay(Load(r), now));
    LoadDecayed(r, now);
    CountsThatFit(d);
    FittingReachesGap(d);
    if DecayDue(d, now) {
      DueAfterWindow(d, now);
    }
  }

  /** How far the last access lies ahead of now; nothing on a clock that does not run backwards. */
  function Ahead(r: MemoryRecord, now: Time): int {
    if r.lastAccessedAt.Some? && r.lastAccessedAt.value > now then r.lastAccessedAt.value - now else 0
  }

  /** A decayed record is due again at once exactly when its window, in 64 bits, came out as zero or negative. */
  lemma DueAgain(r: MemoryRecord, now: Time)
    requires DecayDue(Load(r), now)
    ensures var d := Load(Decay(Load(r), now)); DecayDue(d, now) <==> Window(d) <= -Ahead(r, now)
  {
    hide Load, Window, Decay, Shielded;
    LoadFields(r);
    LoadDecayed(r, now);
  }

  /** So a rerun at the same instant decays exactly the records whose window left 64 bits for such a value. */
  lemma RerunExact(m: Records, now: Time)
    ensures DecaySet(Decayed(m, now), now)
      == set id | id in DecaySet(m, now) && Window(Load(Decay(Load(m[id]), now))) <= -Ahead(m[id], now)
  {
    hide Load, Window, Decay, DecayDue, Ahead;
    forall id | id in DecaySet(m, now)
      ensures var d := Load(Decay(Load(m[id]), now)); DecayDue(d, now) <==> Window(d) <= -Ahead(m[id], now)
    {
      DueAgain(m[id], now);
    }
  }

  /**
    A record that a read has brought to 640486 recalls, just past the bound of CountsThatFit, is due at once, and still
    due when it has been decayed.
   */
  lemma OverflowingWindow(q: MemoryRecord, at: Time, now: Time)
    requires q.importance == 100 && q.recallCount == 640_485 && q.referenceCount == 0 && q.expiresAt.None? && at <= now
    requires !Shielded(Load(q)) && Load(q).retention != Session
    ensures var r := Recall(q, at);
      !CountsFit(r) && DecayDue(Load(r), now) && DecayDue(Load(Decay(Load(r), now)), now)
  {
    hide Load, Decay, Clean, LoadPolicy, IsReplayCase, Window, ComputeStability, Recall;
    var r := Recall(q, at);
    LoadFields(q);
    Recalled100(q, at);
    LoadRecalled(q, at);
    LoadFields(r);
    NegativeWindow(Load(r));
    Decayed95(Load(r), now);
    LoadDecayed(r, now);
    LoadFields(Decay(Load(r), now));
    NegativeWindow(Load(Decay(Load(r), now)));
  }

  lemma Recalled100(q: MemoryRecord, at: Time)
    requires q.importance == 100 && q.recallCount == 640_485 && q.referenceCount == 0
    ensures var r := Recall(q, at);
      && r.stability == 100 && r.importance == 100 && r.recallCount == 640_486 && r.referenceCount == 0
      && r.updatedAt == at && r.lastAccessedAt == Some(at) && r.expiresAt == q.expiresAt
  {
    hide IsReplayCase;
  }

  lemma Decayed95(l: MemoryRecord, now: Time)
    requires l.stability == 100
    ensures var d := Decay(l, now); d.stability == 95 && d.importance == l.importance
  {
  }

  lemma NegativeWindow(r: MemoryRecord)
    requires r.importance == 100 && 95 <= r.stability && r.recallCount == 640_486 && r.referenceCount == 0
    requires r.stability <= 100 && r.retention != Session
    ensures Window(r) < 0
  {
  }

  // ----- compaction -----

  datatype GroupKey = GroupKey(namespace: string, memoryType: string, sourceRef: string)

  function KeyOfGroup(r: MemoryRecord): GroupKey {
    GroupKey(r.namespace, r.memoryType, r.sourceRef)
  }

  predicate Protected(r: MemoryRecord) {
    r.pinned || r.replayLinked
  }

  /** The newest record of its group, ties by smaller id. */
  ghost predicate Newest(m: Records, id: string)
    requires id in m
  {
    forall o :: o in m && o != id && KeyOfGroup(Load(m[o])) == KeyOfGroup(Load(m[id])) ==>
      Newer(Load(m[id]), Load(m[o]))
  }

  /** What compaction deletes: neither newest of its group nor protected. */
  ghost function StaleSet(m: Records): set<string> {
    set id | id in m && !Newest(m, id) && !Protected(Load(m[id]))
  }

  ghost function Compacted(m: Records): Records {
    m - StaleSet(m)
  }

  /** The groups of a store. */
  function Groups(m: Records): set<GroupKey> {
    set id | id in m :: KeyOfGroup(Load(m[id]))
  }

  lemma NewestIsOne(m: Records, a: string, b: string)
    requires Keyed(m) && a in m && b in m && Newest(m, a) && Newest(m, b)
    requires KeyOfGroup(Load(m[a])) == KeyOfGroup(Load(m[b]))
    ensures a == b
  {
    LoadFields(m[a]);
    LoadFields(m[b]);
    hide Load, UsableId;
    BeforeTotal(a, b);
  }

  /** Every group has a newest record. */
  lemma NewestExists(m: Records, key: GroupKey)
    requires Keyed(m) && key in Groups(m)
    ensures exists id :: id in m && KeyOfGroup(Load(m[id])) == key && Newest(m, id)
  {
    hide Load, UsableId, KeyOfGroup, Newer, Newest, TotalOn;
    var group := set id | id in m && KeyOfGroup(Load(m[id])) == key :: Load(m[id]);
    assert forall id :: id in m && KeyOfGroup(Load(m[id])) == key ==> Load(m[id]) in group;
    GroupOrdered(m, group);
    var sorted := SortedSet(Newer, group);
    var first := sorted[0];
    assert first in Elems(sorted);
    var id :| id in m && KeyOfGroup(Load(m[id])) == key && first == Load(m[id]);
    LoadFields(m[id]);
    forall o | o in m && KeyOfGroup(Load(m[o])) == key && Load(m[o]) != first ensures Newer(first, Load(m[o])) {
      assert Load(m[o]) in Elems(sorted);
    }
    FirstIsNewest(m, id);
  }

  lemma FirstIsNewest(m: Records, id: string)
    requires Keyed(m) && id in m
    requires forall o :: o in m && KeyOfGroup(Load(m[o])) == KeyOfGroup(Load(m[id])) && Load(m[o]) != Load(m[id]) ==>
      Newer(Load(m[id]), Load(m[o]))
    ensures Newest(m, id)
  {
    hide Load, UsableId, KeyOfGroup, Newer;
    forall o | o in m && o != id ensures Load(m[o]) != Load(m[id]) {
      LoadFields(m[o]);
      LoadFields(m[id]);
    }
  }

  lemma GroupOrdered(m: Records, group: set<MemoryRecord>)
    requires Keyed(m) && forall r :: r in group ==> exists id :: id in m && r == Load(m[id])
    ensures TotalOn(Newer, group)
  {
    hide Load, UsableId, Newer, TotalOn;
    forall id | id in m ensures Load(m[id]).id == id {
      LoadFields(m[id]);
    }
    NewerTotalOn(group);
  }

  /**
    Compaction is exact: the newest record of each group stays, every other record that stays is pinned or
    replay-linked, what stays is unchanged, and no group is lost.
   */
  lemma CompactionExact(m: Records)
    requires Keyed(m)
    ensures forall id :: id in Compacted(m) <==> id in m && (Newest(m, id) || Protected(Load(m[id])))
    ensures forall id :: id in Compacted(m) ==> Compacted(m)[id] == m[id]
    ensures Groups(Compacted(m)) == Groups(m)
  {
    hide Load, UsableId, Newest, KeyOfGroup;
    var n := Compacted(m);
    forall key | key in Groups(m) ensures key in Groups(n) {
      NewestExists(m, key);
      var id :| id in m && KeyOfGroup(Load(m[id])) == key && Newest(m, id);
      assert id in n && n[id] == m[id];
    }
    forall key | key in Groups(n) ensures key in Groups(m) {
      var id :| id in n && KeyOfGroup(Load(n[id])) == key;
      assert id in m && n[id] == m[id];
    }
  }

  /**
    For whatever compaction deletes, a duplicate that was updated later, or at the same time with a smaller id,
    survives.
   */
  lemma DeletedHasNewer(m: Records, id: string)
    requires Keyed(m) && id in m && id !in Compacted(m)
    ensures exists o :: o in Compacted(m) && o in m && NewerDuplicate(m[o], m[id])
  {
    hide Load, UsableId, Newest, Newer, Protected, NewerDuplicate;
    NewestExists(m, KeyOfGroup(Load(m[id])));
    var o :| o in m && KeyOfGroup(Load(m[o])) == KeyOfGroup(Load(m[id])) && Newest(m, o);
    assert o in Compacted(m) && o != id;
    NewestIsNewer(m, o, id);
  }

  /** Both read as duplicates of each other, and a is the one to keep. */
  ghost predicate NewerDuplicate(a: MemoryRecord, b: MemoryRecord) {
    && Load(a).namespace == Load(b).namespace && a.memoryType == b.memoryType && Load(a).sourceRef == Load(b).sourceRef
    && (a.updatedAt > b.updatedAt || (a.updatedAt == b.updatedAt && Before(a.id, b.id)))
  }

  lemma NewestIsNewer(m: Records, o: string, id: string)
    requires o in m && id in m && o != id && Newest(m, o) && KeyOfGroup(Load(m[o])) == KeyOfGroup(Load(m[id]))
    ensures NewerDuplicate(m[o], m[id])
  {
    hide Load;
    LoadFields(m[o]);
    LoadFields(m[id]);
  }

  /** A second compaction deletes nothing. */
  lemma CompactionOnce(m: Records)
    requires Keyed(m)
    ensures StaleSet(Compacted(m)) == {} && Compacted(Compacted(m)) == Compacted(m)
  {
    hide Load, UsableId, KeyOfGroup, Newer;
    var n := Compacted(m);
    forall id | id in n ensures Newest(n, id) || Protected(Load(n[id])) {
      if Newest(m, id) {
        assert forall o :: o in n ==> o in m && n[o] == m[o];
      }
    }
    hide Newest;
    assert StaleSet(n) == {};
  }

  // ----- stale candidates -----

  /** The key of the overview's counter: the three fields joined with bars. */
  function JoinedKey(k: GroupKey): string {
    Join([k.namespace, k.memoryType, k.sourceRef], '|')
  }

  function JoinedKeys(m: Records): set<string> {
    set id | id in m :: JoinedKey(KeyOfGroup(Load(m[id])))
  }

  /** StaleSummaryCandidates: all records but one per joined key. */
  function StaleCandidates(m: Records): int {
    |m| - |JoinedKeys(m)|
  }

  /** The protected records that are not newest of their group. */
  ghost function ProtectedOld(m: Records): set<string> {
    set id | id in m && !Newest(m, id) && Protected(Load(m[id]))
  }

  ghost function NewestSet(m: Records): set<string> {
    set id | id in m && Newest(m, id)
  }

  /** There are as many newest records as groups. */
  lemma OneNewestPerGroup(m: Records)
    requires Keyed(m)
    ensures |NewestSet(m)| == |Groups(m)|
  {
    hide Load, UsableId, KeyOfGroup, Newest;
    var f: string -> GroupKey := id => if id in m then KeyOfGroup(Load(m[id])) else GroupKey("", "", "");
    forall a, b | a in NewestSet(m) && b in NewestSet(m) && f(a) == f(b) ensures a == b {
      NewestIsOne(m, a, b);
    }
    var image := set id | id in NewestSet(m) :: f(id);
    forall key ensures key in image <==> key in Groups(m) {
      if key in Groups(m) {
        NewestExists(m, key);
        var id :| id in m && KeyOfGroup(Load(m[id])) == key && Newest(m, id);
        assert id in NewestSet(m) && f(id) == key;
      }
    }
    assert image == Groups(m);
    InjectiveImage(NewestSet(m), f, image);
  }

  lemma JoinedKeysOfGroups(m: Records)
    ensures JoinedKeys(m) == set k | k in Groups(m) :: JoinedKey(k)
  {
    hide Load, KeyOfGroup, JoinedKey;
    forall joined ensures joined in JoinedKeys(m) <==> joined in (set k | k in Groups(m) :: JoinedKey(k)) {
      if joined in JoinedKeys(m) {
        var id :| id in m && JoinedKey(KeyOfGroup(Load(m[id]))) == joined;
        assert KeyOfGroup(Load(m[id])) in Groups(m);
      }
    }
  }

  /** A store is its newest records, its protected old ones and its stale ones. */
  lemma ThreeParts(m: Records)
    ensures |m| == |NewestSet(m)| + |ProtectedOld(m)| + |StaleSet(m)|
  {
    hide Load, Newest, Protected;
    var a, b, c := NewestSet(m), ProtectedOld(m), StaleSet(m);
    assert a !! b && (a + b) !! c && a + b + c == m.Keys;
    assert |a + b| == |a| + |b| && |a + b + c| == |a + b| + |c|;
    assert |m| == |m.Keys|;
  }

  /**
    The candidate count never falls short of what compaction deletes. The surplus is exactly the protected old
    records plus the groups that the joined key merges.
   */
  lemma CandidatesBound(m: Records)
    requires Keyed(m)
    ensures |JoinedKeys(m)| <= |Groups(m)|
    ensures StaleCandidates(m) == |StaleSet(m)| + |ProtectedOld(m)| + (|Groups(m)| - |JoinedKeys(m)|)
    ensures StaleCandidates(m) == |StaleSet(m)| <==> ProtectedOld(m) == {} && |JoinedKeys(m)| == |Groups(m)|
  {
    hide Load, UsableId, KeyOfGroup, Newest, JoinedKey;
    OneNewestPerGroup(m);
    ThreeParts(m);
    JoinedKeysOfGroups(m);
    ImageNotLarger(Groups(m), JoinedKey, JoinedKeys(m));
  }

  /** The joined key tells groups apart when neither the namespace nor the type contains a bar. */
  lemma {:induction false} JoinedKeyTellsApart(a: GroupKey, b: GroupKey)
    requires '|' !in a.namespace && '|' !in a.memoryType && '|' !in b.namespace && '|' !in b.memoryType
    requires JoinedKey(a) == JoinedKey(b)
    ensures a == b
  {
    assert JoinedKey(a) == a.namespace + ['|'] + (a.memoryType + ['|'] + a.sourceRef) by {
      JoinThree(a.namespace, a.memoryType, a.sourceRef);
    }
    assert JoinedKey(b) == b.namespace + ['|'] + (b.memoryType + ['|'] + b.sourceRef) by {
      JoinThree(b.namespace, b.memoryType, b.sourceRef);
    }
    CutAtFirst('|', a.namespace, a.memoryType + ['|'] + a.sourceRef, b.namespace,
               b.memoryType + ['|'] + b.sourceRef);
    CutAtFirst('|', a.memoryType, a.sourceRef, b.memoryType, b.sourceRef);
  }

  lemma JoinThree(x: string, y: string, z: string)
    ensures Join([x, y, z], '|') == x + ['|'] + (y + ['|'] + z)
  {
    assert [x, y, z][1..] == [y, z] && [y, z][1..] == [z];
    assert Join([y, z], '|') == y + ['|'] + Join([z], '|');
  }

  /** Texts that are cut at their first separator. */
  lemma CutAtFirst(c: char, x: string, xs: string, y: string, ys: string)
    requires c !in x && c !in y && x + [c] + xs == y + [c] + ys
    ensures x == y && xs == ys
  {
    var s, t := x + [c] + xs, y + [c] + ys;
    assert s[|x|] == c && t[|y|] == c;
    FirstAt(c, x, xs, |y|);
    FirstAt(c, y, ys, |x|);
    assert x == s[..|x|] && y == t[..|y|];
    assert xs == s[|x| + 1..] && ys == t[|y| + 1..];
  }

  /** The first separator of a text that continues x with one is right after x. */
  lemma FirstAt(c: char, x: string, xs: string, i: nat)
    requires c !in x && i < |x + [c] + xs| && (x + [c] + xs)[i] == c
    ensures |x| <= i
  {
    var s := x + [c] + xs;
    assert forall j :: 0 <= j < |x| ==> s[j] == x[j];
  }

  lemma NoBars(m: Records, key: GroupKey)
    requires key in Groups(m)
    requires forall id :: id in m ==> '|' !in Load(m[id]).namespace && '|' !in m[id].memoryType
    ensures '|' !in key.namespace && '|' !in key.memoryType
  {
    hide Load;
    var id :| id in m && KeyOfGroup(Load(m[id])) == key;
    LoadFields(m[id]);
  }

  lemma GroupsJoined(m: Records)
    requires forall id :: id in m ==> '|' !in Load(m[id]).namespace && '|' !in m[id].memoryType
    ensures |JoinedKeys(m)| == |Groups(m)|
  {
    hide Load, JoinedKey, KeyOfGroup;
    forall a, b | a in Groups(m) && b in Groups(m) && JoinedKey(a) == JoinedKey(b) ensures a == b {
      NoBars(m, a);
      NoBars(m, b);
      JoinedKeyTellsApart(a, b);
    }
    JoinedKeysOfGroups(m);
    InjectiveImage(Groups(m), JoinedKey, JoinedKeys(m));
  }

  /** So without bars and without protected old records the candidate count is exact. */
  lemma CandidatesExact(m: Records)
    requires Keyed(m)
    requires forall id :: id in m ==> '|' !in Load(m[id]).namespace && '|' !in m[id].memoryType
    ensures StaleCandidates(m) == |StaleSet(m)| <==> ProtectedOld(m) == {}
  {
    hide Load, UsableId, Newest, JoinedKey, KeyOfGroup, StaleSet, ProtectedOld;
    GroupsJoined(m);
    CandidatesBound(m);
  }

  // ----- replay preservation -----

  function PreserveSet(m: Records): set<string> {
    set id | id in m && Replayish(Load(m[id])) && !FullyPreserved(Load(m[id]))
  }

  function PreservedAt(m: Records, ids: set<string>, now: Time): Records {
    map id | id in m :: if id in ids then Preserve(Load(m[id]), now) else m[id]
  }

  function AllPreserved(m: Records, now: Time): Records {
    PreservedAt(m, PreserveSet(m), now)
  }

  lemma LoadPreserved(r: MemoryRecord, now: Time)
    ensures FullyPreserved(Load(Preserve(Load(r), now))) && Load(Preserve(Load(r), now)).pinned == r.pinned
  {
    LoadFields(r);
    LoadFields(Preserve(Load(r), now));
    hide Load, IsReplayCase, Clean, ComputeStability;
  }

  /**
    After preservation every replay record is linked, replay_preserve and stable, and a second run finds nothing to do.
   */
  lemma PreservationFixpoint(m: Records, now: Time, later: Time)
    ensures var n := AllPreserved(m, now);
      && (forall id :: id in m && Replayish(Load(m[id])) ==> id in n && FullyPreserved(Load(n[id])))
      && PreserveSet(n) == {} && AllPreserved(n, later) == n
  {
    hide Load, Replayish, FullyPreserved, Preserve;
    var n := AllPreserved(m, now);
    forall id | id in m ensures Replayish(Load(m[id])) || n[id] != m[id] ==> FullyPreserved(Load(n[id])) {
      LoadPreserved(m[id], now);
    }
    assert PreserveSet(n) == {};
    PreservedNone(n, later);
  }

  /** A read recomputes the score: a preserved record keeps its 70 exactly when its computed stability reaches it. */
  lemma ReadMayUndercut(r: MemoryRecord, now: Time)
    requires ScoresInBounds(r) && FullyPreserved(Load(r)) && r.retention == ReplayPreserve
    ensures FullyPreserved(Load(Recall(r, now))) <==>
      PRESERVED_STABILITY <= ComputeStability(r.(recallCount := r.recallCount + 1))
  {
    LoadFields(r);
    LoadFields(Recall(r, now));
    hide Load, IsReplayCase, Clean;
    assert ComputeStability(Recall(r, now)) == ComputeStability(r.(recallCount := r.recallCount + 1));
  }

  /** A first read of an unpinned preserved record of importance 10 takes its stability to 30. */
  lemma ReadUndercutsLowImportance(r: MemoryRecord, now: Time)
    requires r.importance == 10 && r.recallCount == 0 && r.referenceCount == 0 && !r.pinned
    requires FullyPreserved(Load(r)) && r.retention == ReplayPreserve
    ensures Recall(r, now).stability == 30 && !FullyPreserved(Load(Recall(r, now)))
  {
    LoadFields(r);
    LoadFields(Recall(r, now));
    hide Load, IsReplayCase, Clean;
  }

  // ----- one record at a time -----

  lemma DecayedMore(m: Records, ids: set<string>, id: string, now: Time)
    requires id in m && id !in ids
    ensures DecayedAt(m, ids, now)[id := Decay(Load(m[id]), now)] == DecayedAt(m, ids + {id}, now)
  {
    hide Load, Decay;
  }

  lemma DecayedNone(m: Records, now: Time)
    ensures DecayedAt(m, {}, now) == m
  {
    hide Load, Decay;
  }

  lemma PreservedMore(m: Records, ids: set<string>, id: string, now: Time)
    requires id in m && id !in ids
    ensures PreservedAt(m, ids, now)[id := Preserve(Load(m[id]), now)] == PreservedAt(m, ids + {id}, now)
  {
    hide Load, Preserve;
  }

  lemma PreservedNone(m: Records, now: Time)
    ensures PreservedAt(m, {}, now) == m
  {
    hide Load, Preserve;
  }

  // ----- every write is valid -----

  lemma DecayedOk(m: Records, ids: set<string>, now: Time)
    requires StoreOk(m)
    ensures StoreOk(DecayedAt(m, ids, now))
    ensures forall id :: id in m ==>
      ValidRecord(Decay(Load(m[id]), now)) && UsableId(id) && Decay(Load(m[id]), now).id == id
  {
    hide Load, ValidRecord, UsableId, StoreOk, Decay;
    forall id | id in m
      ensures ValidRecord(Decay(Load(m[id]), now)) && Decay(Load(m[id]), now).id == id && UsableId(id)
    {
      StoreOkAt(m, id);
      LoadFields(m[id]);
      DecayValid(Load(m[id]), now);
      DecayFields(Load(m[id]), now);
    }
    ReplacedOk(m, DecayedAt(m, ids, now));
  }

  lemma PreservedOk(m: Records, ids: set<string>, now: Time)
    requires StoreOk(m)
    ensures StoreOk(PreservedAt(m, ids, now))
    ensures forall id :: id in m ==>
      ValidRecord(Preserve(Load(m[id]), now)) && UsableId(id) && Preserve(Load(m[id]), now).id == id
  {
    hide Load, ValidRecord, UsableId, StoreOk, Preserve;
    forall id | id in m
      ensures ValidRecord(Preserve(Load(m[id]), now)) && Preserve(Load(m[id]), now).id == id && UsableId(id)
    {
      StoreOkAt(m, id);
      LoadFields(m[id]);
      PreserveValid(Load(m[id]), now);
      PreserveFields(Load(m[id]), now);
    }
    ReplacedOk(m, PreservedAt(m, ids, now));
  }

  lemma DecayFields(r: MemoryRecord, now: Time)
    ensures Decay(r, now).id == r.id && Decay(r, now).idempotencyKey == r.idempotencyKey
  {
  }

  lemma PreserveFields(r: MemoryRecord, now: Time)
    ensures Preserve(r, now).id == r.id && Preserve(r, now).idempotencyKey == r.idempotencyKey
  {
  }

  /** Replacing records by valid ones of the same id keeps every record readable. */
  lemma ReplacedOk(m: Records, n: Records)
    requires StoreOk(m) && n.Keys == m.Keys
    requires forall id :: id in m ==> n[id] == m[id] || (ValidRecord(n[id]) && n[id].id == id)
    ensures StoreOk(n)
  {
    hide ValidRecord, UsableId, Readable;
    forall id | id in n ensures Readable(n[id]) && n[id].id == id {
      if n[id] != m[id] {
        LoadValid(n[id]);
      }
    }
  }

  // ----- the jobs -----

  datatype JobKind = DecayUpdate | ExpiredCleanup | StaleCompaction | ReplayPreservation | OtherJob(name: string)

  /** The text of a job type. */
  function JobName(job: JobKind): string {
    match job
    case DecayUpdate => "decay_update"
    case ExpiredCleanup => "expired_cleanup"
    case StaleCompaction => "stale_summary_compaction"
    case ReplayPreservation => "replay_preservation_enforcement"
    case OtherJob(name) => name
  }

  predicate Unknown(name: string) {
    && name != "decay_update" && name != "expired_cleanup"
    && name != "stale_summary_compaction" && name != "replay_preservation_enforcement"
  }

  /** A job type is one of the four, or a text that names none of them. */
  type JobType = job: JobKind | job.OtherJob? ==> Unknown(job.name) witness DecayUpdate

  lemma JobNamesDiffer(a: JobType, b: JobType)
    requires JobName(a) == JobName(b)
    ensures a == b
  {
    assert "decay_update"[0] == 'd' && "expired_cleanup"[0] == 'e';
    assert "stale_summary_compaction"[0] == 's' && "replay_preservation_enforcement"[0] == 'r';
  }

  /** What a job makes of a store at an instant. */
  ghost function AfterJob(m: Records, job: JobType, now: Time): Records {
    match job
    case DecayUpdate => Decayed(m, now)
    case ExpiredCleanup => Cleaned(m, now)
    case StaleCompaction => Compacted(m)
    case ReplayPreservation => AllPreserved(m, now)
    case OtherJob(_) => m
  }

  /** The records a job updates or deletes. */
  ghost function Touched(m: Records, job: JobType, now: Time): set<string> {
    match job
    case DecayUpdate => DecaySet(m, now)
    case ExpiredCleanup => RemoveSet(m, now)
    case StaleCompaction => StaleSet(m)
    case ReplayPreservation => PreserveSet(m)
    case OtherJob(_) => {}
  }

  function CountName(job: JobType): string {
    if job.DecayUpdate? || job.ReplayPreservation? then "updated" else "deleted"
  }

  /** Updating leaves as many records as there were; deleting leaves as many fewer as the job reports. */
  lemma JobCounts(m: Records, job: JobType, now: Time)
    ensures AfterJob(m, job, now).Keys <= m.Keys && Touched(m, job, now) <= m.Keys
    ensures CountName(job) == "deleted" || CountName(job) == "updated"
    ensures |AfterJob(m, job, now)| == |m| - if CountName(job) == "deleted" then |Touched(m, job, now)| else 0
    ensures forall id :: id in m && id !in Touched(m, job, now) ==>
      id in AfterJob(m, job, now) && AfterJob(m, job, now)[id] == m[id]
  {
    hide Load, DecayDue, Removable, Newest, Protected, Replayish, FullyPreserved, Decay, Preserve;
    var n, touched := AfterJob(m, job, now), Touched(m, job, now);
    if CountName(job) == "deleted" {
      assert n.Keys == m.Keys - touched;
      assert |m.Keys - touched| == |m.Keys| - |touched|;
    } else {
      assert n.Keys == m.Keys;
    }
    assert |n| == |n.Keys| && |m| == |m.Keys|;
  }
}
