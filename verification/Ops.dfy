/** The maintenance service (internal/services/ops/service.go): the four jobs and the overview counters. */
module Ops {
  import opened Wrappers
  import opened Ordering
  import opened Text
  import opened Counting
  import opened MemoryModel
  import opened MemoryStore
  import opened Maintenance
  import opened Aggregates
  import MemoryService

  datatype JobResult = NeverRun | Completed | Failed

  datatype JobStatus = JobStatus(jobType: JobType, lastRunAt: Option<Time>, lastResult: JobResult,
                                 summary: map<string, int>)

  datatype Overview = Overview(lastUpdatedAt: Time, decayQueueCount: nat, expiredCount: nat, replayPreservedCount: nat,
                               staleSummaryCandidates: int, jobs: seq<JobStatus>)

  predicate ByJobName(a: JobStatus, b: JobStatus) {
    Before(JobName(a.jobType), JobName(b.jobType))
  }

  ghost predicate StatusesKeyed(jobs: map<JobType, JobStatus>) {
    forall j :: j in jobs ==> jobs[j].jobType == j
  }

  lemma ValuesAre(jobs: map<JobType, JobStatus>)
    requires StatusesKeyed(jobs)
    ensures forall s :: s in jobs.Values <==> s.jobType in jobs && jobs[s.jobType] == s
  {
  }

  lemma StatusesOrdered(jobs: map<JobType, JobStatus>)
    requires StatusesKeyed(jobs)
    ensures TotalOn(ByJobName, jobs.Values)
  {
    forall a, b | a in jobs.Values && b in jobs.Values
      ensures !ByJobName(a, a) && (a != b ==> ByJobName(a, b) || ByJobName(b, a))
    {
      BeforeTotal(JobName(a.jobType), JobName(b.jobType));
      BeforeTotal(JobName(a.jobType), JobName(a.jobType));
      if JobName(a.jobType) == JobName(b.jobType) {
        JobNamesDiffer(a.jobType, b.jobType);
      }
    }
    forall a, b, c | ByJobName(a, b) && ByJobName(b, c) ensures ByJobName(a, c) {
      BeforeTransitive(JobName(a.jobType), JobName(b.jobType), JobName(c.jobType));
    }
  }

  class Service {
    const memory: MemoryService.Service
    const jsonSize: MemoryRecord -> int
    var jobs: map<JobType, JobStatus>

    ghost predicate Valid()
      reads this, memory.store, memory.clock
    {
      memory.Valid() && StatusesKeyed(jobs)
    }

    constructor (memory: MemoryService.Service, jsonSize: MemoryRecord -> int)
      requires memory.Valid()
      ensures this.memory == memory && this.jsonSize == jsonSize && Valid()
      ensures jobs.Keys == {DecayUpdate, ExpiredCleanup, StaleCompaction, ReplayPreservation}
      ensures forall job :: job in jobs ==> jobs[job] == JobStatus(job, None, NeverRun, map[])
    {
      this.memory, this.jsonSize := memory, jsonSize;
      this.jobs := map[DecayUpdate := JobStatus(DecayUpdate, None, NeverRun, map[]),
                       ExpiredCleanup := JobStatus(ExpiredCleanup, None, NeverRun, map[]),
                       StaleCompaction := JobStatus(StaleCompaction, None, NeverRun, map[]),
                       ReplayPreservation := JobStatus(ReplayPreservation, None, NeverRun, map[])];
    }

    /**
      A known job always completes: it leaves the store as AfterJob says, and reports how many records it
      touched. An unknown one fails and changes nothing but its own status.
     */
    method RunJob(job: JobType) returns (r: Result<JobStatus>)
      requires Valid()
      modifies this, memory.store, memory.clock
      ensures Valid() && old(memory.clock.last) <= memory.clock.last
      ensures job.OtherJob? ==>
        && r == Err(Unsupported) && memory.store.records == old(memory.store.records)
        && job in jobs && jobs == old(jobs)[job := jobs[job]] && jobs[job].lastRunAt.Some?
        && jobs[job] == JobStatus(job, jobs[job].lastRunAt, Failed, map[])
      ensures !job.OtherJob? ==>
        && r.Ok? && r.value.lastRunAt.Some? && old(memory.clock.last) <= r.value.lastRunAt.value <= memory.clock.last
        && jobs == old(jobs)[job := r.value] && r.value.lastResult == Completed
        && memory.store.records == AfterJob(old(memory.store.records), job, r.value.lastRunAt.value)
        && r.value.summary == map[CountName(job) := |Touched(old(memory.store.records), job, r.value.lastRunAt.value)|]
    {
      hide Decayed, Cleaned, Compacted, AllPreserved, DecaySet, RemoveSet, StaleSet, PreserveSet, ReadsAll, StoreOk;
      var startedAt := memory.clock.Now();
      StoreOkKeyed(memory.store.records);
      var records := memory.ListAll();
      var count: Result<nat>;
      match job {
        case DecayUpdate =>
          count := RunDecayUpdate(records, startedAt);
        case ExpiredCleanup =>
          count := RunExpiredCleanup(records, startedAt);
        case StaleCompaction =>
          count := RunStaleCompaction(records);
        case ReplayPreservation =>
          count := RunReplayPreservation(records, startedAt);
        case OtherJob(_) =>
          count := Err(Unsupported);
      }
      var _ := memory.clock.Now();
      if count.Err? {
        jobs := jobs[job := JobStatus(job, Some(startedAt), Failed, map[])];
        return Err(count.error);
      }
      var status := JobStatus(job, Some(startedAt), Completed, map[CountName(job) := count.value]);
      jobs := jobs[job := status];
      return Ok(status);
    }

    method RunDecayUpdate(records: seq<MemoryRecord>, now: Time) returns (r: Result<nat>)
      requires Valid() && ReadsAll(memory.store.records, records)
      modifies memory.store
      ensures Valid()
      ensures r == Ok(|DecaySet(old(memory.store.records), now)|)
      ensures memory.store.records == Decayed(old(memory.store.records), now)
    {
      hide StoreOk, Keyed, Load, ValidRecord, UsableId, ReadsAll, IdsOf, DecayedAt, Decay, IsDecayEligible, IsExpired,
          DecaySet;
      ghost var m := memory.store.records;
      ghost var due := DecaySet(m, now);
      ghost var done: set<string> := {};
      DecayedNone(m, now);
      StoreOkKeyed(m);
      IdsNone(records);
      var updated := 0;
      for i := 0 to |records|
        invariant memory.Valid()
        invariant done == due * IdsOf(records[..i]) && updated == |done|
        invariant memory.store.records == DecayedAt(m, done, now)
      {
        var record := records[i];
        ReadAt(m, records, i);
        InDecaySet(m, record.id, now);
        if !IsDecayEligible(record, now) || IsExpired(record, now) {
          Skip(due, IdsOf(records[..i]), record.id);
          continue;
        }
        DecayedMore(m, done, record.id, now);
        DecayedOk(m, done, now);
        DecayedOk(m, done + {record.id}, now);
        SameIds(m, done, now);
        var written := memory.UpdateRecord(Decay(record, now));
        match written {
          case Err(error) => return Err(error);
          case Ok(_) =>
        }
        Take(due, IdsOf(records[..i]), record.id);
        done := done + {record.id};
        updated := updated + 1;
      }
      IdsAll(m, records);
      AllDue(m, now);
      TakeAll(due, IdsOf(records[..|records|]));
      return Ok(updated);
    }

    method RunExpiredCleanup(records: seq<MemoryRecord>, now: Time) returns (r: Result<nat>)
      requires Valid() && ReadsAll(memory.store.records, records)
      modifies memory.store
      ensures Valid()
      ensures r == Ok(|RemoveSet(old(memory.store.records), now)|)
      ensures memory.store.records == Cleaned(old(memory.store.records), now)
    {
      hide StoreOk, Keyed, Load, ValidRecord, UsableId, ReadsAll, IdsOf, RemoveSet, IsExpired, Shielded;
      ghost var m := memory.store.records;
      ghost var due := RemoveSet(m, now);
      ghost var done: set<string> := {};
      StoreOkKeyed(m);
      RemoveNone(m);
      IdsNone(records);
      var deleted := 0;
      for i := 0 to |records|
        invariant memory.Valid()
        invariant done == due * IdsOf(records[..i]) && deleted == |done|
        invariant memory.store.records == m - done
      {
        var record := records[i];
        ReadAt(m, records, i);
        InRemoveSet(m, record.id, now);
        if !IsExpired(record, now) || Shielded(record) {
          Skip(due, IdsOf(records[..i]), record.id);
          continue;
        }
        StoreOkAt(m, record.id);
        StoreOkLess(memory.store.records, {record.id});
        var removed := memory.Delete(record.id);
        match removed {
          case Err(error) => return Err(error);
          case Ok(_) =>
        }
        RemoveMore(m, done, {record.id});
        Take(due, IdsOf(records[..i]), record.id);
        done := done + {record.id};
        deleted := deleted + 1;
      }
      IdsAll(m, records);
      AllRemovable(m, now);
      TakeAll(due, IdsOf(records[..|records|]));
      return Ok(deleted);
    }

    method RunReplayPreservation(records: seq<MemoryRecord>, now: Time) returns (r: Result<nat>)
      requires Valid() && ReadsAll(memory.store.records, records)
      modifies memory.store
      ensures Valid()
      ensures r == Ok(|PreserveSet(old(memory.store.records))|)
      ensures memory.store.records == AllPreserved(old(memory.store.records), now)
    {
      hide StoreOk, Keyed, Load, ValidRecord, UsableId, ReadsAll, IdsOf, PreservedAt, PreserveSet, ReplayTagged;
      ghost var m := memory.store.records;
      ghost var due := PreserveSet(m);
      ghost var done: set<string> := {};
      PreservedNone(m, now);
      StoreOkKeyed(m);
      IdsNone(records);
      var updated := 0;
      for i := 0 to |records|
        invariant memory.Valid()
        invariant done == due * IdsOf(records[..i]) && updated == |done|
        invariant memory.store.records == PreservedAt(m, done, now)
      {
        var record := records[i];
        ReadAt(m, records, i);
        InPreserveSet(m, record.id);
        if !record.replayLinked && record.memoryType != REPLAY_CASE && !ReplayTagged(record) {
          Skip(due, IdsOf(records[..i]), record.id);
          continue;
        }
        var changed :=
          !record.replayLinked || record.retention != ReplayPreserve || record.stability < PRESERVED_STABILITY;
        if !changed {
          Skip(due, IdsOf(records[..i]), record.id);
          continue;
        }
        var score := if record.stability < PRESERVED_STABILITY then PRESERVED_STABILITY else record.stability;
        var preserved := record.(replayLinked := true, retention := ReplayPreserve, stability := score,
                                 updatedAt := now);
        PreserveOne(m, done, record, now);
        var written := memory.UpdateRecord(preserved);
        match written {
          case Err(error) => return Err(error);
          case Ok(_) =>
        }
        Take(due, IdsOf(records[..i]), record.id);
        done := done + {record.id};
        updated := updated + 1;
      }
      IdsAll(m, records);
      AllPreservable(m);
      TakeAll(due, IdsOf(records[..|records|]));
      return Ok(updated);
    }

    method RunStaleCompaction(records: seq<MemoryRecord>) returns (r: Result<nat>)
      requires Valid() && ReadsAll(memory.store.records, records)
      modifies memory.store
      ensures Valid()
      ensures r == Ok(|StaleSet(old(memory.store.records))|)
      ensures memory.store.records == Compacted(old(memory.store.records))
    {
      hide StoreOk, Keyed, ReadsAll, StaleSet, StaleOf, IdsOfKeys, GroupOf, KeyOfGroup, KeysIn, Compacted;
      ghost var m := memory.store.records;
      StoreOkKeyed(m);
      var grouped := GroupRecords(records);
      var keys := grouped.Keys;
      ghost var taken: set<GroupKey> := {};
      NoneStale(m);
      var deleted := 0;
      while keys != {}
        invariant memory.Valid() && taken == grouped.Keys - keys && keys <= grouped.Keys
        invariant memory.store.records == m - StaleOf(m, taken) && deleted == |StaleOf(m, taken)|
        decreases keys
      {
        var key :| key in keys;
        StaleMore(m, taken, key);
        KeyTaken(grouped.Keys, keys, taken, key);
        keys := keys - {key};
        var compacted := CompactGroup(m, records, key, grouped[key], StaleOf(m, taken));
        match compacted {
          case Err(error) => return Err(error);
          case Ok(n) => deleted := deleted + n;
        }
        taken := taken + {key};
      }
      AllStale(m, records, taken);
      return Ok(deleted);
    }

    /** Put each record into the group of its key, keeping their order. */
    static method GroupRecords(records: seq<MemoryRecord>) returns (grouped: map<GroupKey, seq<MemoryRecord>>)
      ensures grouped.Keys == KeysIn(records)
      ensures forall key :: key in grouped ==> grouped[key] == GroupOf(records, key)
    {
      hide KeyOfGroup;
      grouped := map[];
      for i := 0 to |records|
        invariant grouped.Keys == KeysIn(records[..i])
        invariant forall key :: key in grouped ==> grouped[key] == GroupOf(records[..i], key)
      {
        var record := records[i];
        var key := KeyOfGroup(record);
        GroupMore(records, i);
        grouped := grouped[key := (if key in grouped then grouped[key] else []) + [record]];
      }
      assert records[..|records|] == records;
    }

    /** Delete what is stale in one group. */
    method CompactGroup(ghost m: Records, ghost records: seq<MemoryRecord>, ghost key: GroupKey,
        group: seq<MemoryRecord>, ghost gone: set<string>)
      returns (r: Result<nat>)
      requires Valid() && Keyed(m) && ReadsAll(m, records) && group == GroupOf(records, key)
      requires memory.store.records == m - gone && gone !! IdsOfKeys(m, {key})
      modifies memory.store
      ensures Valid()
      ensures r == Ok(|StaleOf(m, {key})|)
      ensures memory.store.records == m - (gone + StaleOf(m, {key}))
    {
      hide StoreOk, Load, UsableId, ReadsAll, StaleSet, IdsOfKeys, GroupOf, Keyed, IdsOf, Protected, SortBy, Newer;
      if |group| < 2 {
        LoneIsNewest(m, records, key);
        assert gone + StaleOf(m, {key}) == gone;
        return Ok(0);
      }
      var sorted := SortBy(Newer, group);
      SortedGroup(m, records, key);
      IdsOne(m, records, key);
      ghost var done: set<string> := {};
      assert m - gone == m - (gone + done);
      var deleted := 0;
      for i := 1 to |sorted|
        invariant memory.Valid()
        invariant done == StaleSet(m) * IdsOf(sorted[..i]) && deleted == |done|
        invariant memory.store.records == m - (gone + done)
      {
        var record := sorted[i];
        CompactStep(m, records, key, gone, i);
        if Protected(record) {
          continue;
        }
        StoreOkLess(memory.store.records, {record.id});
        var removed := memory.Delete(record.id);
        match removed {
          case Err(error) => return Err(error);
          case Ok(_) =>
        }
        done := done + {record.id};
        deleted := deleted + 1;
      }
      assert sorted[..|sorted|] == sorted;
      return Ok(deleted);
    }

    // ----- the aggregate views -----

    method NamespaceSummaries(query: MemoryQuery) returns (result: seq<Summary>)
      requires Valid()
      modifies memory.clock
      ensures Valid() && old(memory.clock.last) <= memory.clock.last
      ensures Summarized(result, Selected(memory.store.records, NormalizeQuery(query)), ByNamespace, memory.clock.last,
                         jsonSize)
    {
      result := Summaries(ByNamespace, query);
    }

    method ClawbotSummaries(query: MemoryQuery) returns (result: seq<Summary>)
      requires Valid()
      modifies memory.clock
      ensures Valid() && old(memory.clock.last) <= memory.clock.last
      ensures Summarized(result, Selected(memory.store.records, NormalizeQuery(query)), ByClawbot, memory.clock.last,
                         jsonSize)
    {
      result := Summaries(ByClawbot, query);
    }

    method Summaries(view: View, query: MemoryQuery) returns (result: seq<Summary>)
      requires Valid()
      modifies memory.clock
      ensures Valid() && old(memory.clock.last) <= memory.clock.last
      ensures Summarized(result, Selected(memory.store.records, NormalizeQuery(query)), view, memory.clock.last,
                         jsonSize)
    {
      hide StoreOk, ReadsAll, Summarized, NormalizeQuery, Selected, Chosen;
      StoreOkKeyed(memory.store.records);
      var records := memory.ListAll();
      var now := memory.clock.Now();
      ReadOnce(memory.store.records, records);
      result := Summarize(records, view, query, now, jsonSize);
      ChosenIsSelected(memory.store.records, records, NormalizeQuery(query));
    }

    // ----- the overview -----

    method MaintenanceOverview() returns (o: Overview)
      requires Valid()
      modifies memory.clock
      ensures Valid() && old(memory.clock.last) <= memory.clock.last
      ensures var m, now := memory.store.records, memory.clock.last;
        && o.decayQueueCount == |EligibleSet(m, now)|
        && o.expiredCount == |ExpiredSet(m, now)|
        && o.replayPreservedCount == |ReplaySet(m)|
        && o.staleSummaryCandidates == StaleCandidates(m)
        && o.lastUpdatedAt == now
      ensures Lists(ByJobName, jobs.Values, o.jobs)
    {
      hide StatusesKeyed, ByJobName, StoreOk, ReadsAll, EligibleSet, ExpiredSet, ReplaySet, StaleCandidates,
        IsDecayEligible, IsExpired, InReplayCount;
      ghost var m := memory.store.records;
      StoreOkKeyed(m);
      var records := memory.ListAll();
      var now := memory.clock.Now();
      ReadOnce(m, records);
      var eligible := (r: MemoryRecord) => IsDecayEligible(r, now);
      var decay := CountWhere(records, eligible);
      InEligibleSet(m, now);
      CountedIds(m, records, eligible, EligibleSet(m, now));
      var past := (r: MemoryRecord) => IsExpired(r, now);
      var expired := CountWhere(records, past);
      InExpiredSet(m, now);
      CountedIds(m, records, past, ExpiredSet(m, now));
      var replay := CountWhere(records, InReplayCount);
      InReplaySet(m);
      CountedIds(m, records, InReplayCount, ReplaySet(m));
      var stale := CountStaleSummaryCandidates(records);
      CountedKeys(m, records);
      var statuses := SortedJobs();
      o := Overview(now, decay, expired, replay, stale, statuses);
    }

    /** The latest status of each job, by the job's name. */
    method SortedJobs() returns (statuses: seq<JobStatus>)
      requires StatusesKeyed(jobs)
      ensures Lists(ByJobName, jobs.Values, statuses)
    {
      hide ByJobName;
      statuses := [];
      var keys := jobs.Keys;
      while keys != {}
        invariant keys <= jobs.Keys && Distinct(statuses)
        invariant forall s :: s in statuses <==> s.jobType in jobs && s.jobType !in keys && jobs[s.jobType] == s
        decreases keys
      {
        var key :| key in keys;
        keys := keys - {key};
        statuses := statuses + [jobs[key]];
      }
      ValuesAre(jobs);
      StatusesOrdered(jobs);
      SortCollected(ByJobName, statuses, jobs.Values);
      statuses := SortBy(ByJobName, statuses);
    }

    /** The counting loop of the overview's counters. */
    static method CountWhere(records: seq<MemoryRecord>, p: MemoryRecord -> bool) returns (total: nat)
      requires Distinct(records)
      ensures total == |set r | r in records && p(r)|
    {
      total := 0;
      assert records[..0] == [];
      for i := 0 to |records|
        invariant total == |Passing(records[..i], p)|
      {
        PassingMore(records, p, i);
        if p(records[i]) {
          total := total + 1;
        }
      }
      assert records[..|records|] == records;
    }

    /** Count the records of each joined key, then add up all but one of each. */
    static method CountStaleSummaryCandidates(records: seq<MemoryRecord>) returns (total: int)
      ensures total == |records| - |Elems(JoinedOf(records))|
    {
      hide Increment, JoinedKey;
      ghost var joined := JoinedOf(records);
      var counts: map<string, nat> := map[];
      TalliesNone<string>();
      assert joined[..0] == [];
      for i := 0 to |records|
        invariant Tallies(counts, joined[..i])
      {
        TallyMore(counts, joined[..i], joined[i]);
        assert joined[..i + 1] == joined[..i] + [joined[i]];
        counts := Increment(counts, JoinedKey(KeyOfGroup(records[i])));
      }
      assert joined[..|joined|] == joined;
      total := 0;
      var keys := counts.Keys;
      ghost var rest := multiset(joined);
      while keys != {}
        invariant keys <= counts.Keys
        invariant forall k :: rest[k] == if k in keys then multiset(joined)[k] else 0
        invariant total == |records| - |rest| - (|counts.Keys| - |keys|)
        decreases keys
      {
        var key :| key in keys;
        var count := counts[key];
        if count > 1 {
          total := total + count - 1;
        }
        assert count >= 1;
        rest := rest[key := 0];
        keys := keys - {key};
      }
      assert rest == multiset{};
      assert counts.Keys == Elems(joined);
    }
  }

  lemma ChosenIsSelected(m: Records, records: seq<MemoryRecord>, q: MemoryQuery)
    requires Keyed(m) && ReadsAll(m, records)
    ensures Chosen(records, q) == Selected(m, q)
  {
    hide Load, Matches, Reads, Selected, UsableId;
    forall r ensures r in Chosen(records, q) <==> r in Selected(m, q) {
      SelectedReads(m, q, r);
    }
  }

  /** A view adds up to as many records as listing with the same query finds in all. */
  lemma ViewMatchesList(m: Records, query: MemoryQuery, result: seq<Summary>, view: View, now: Time,
      size: MemoryRecord -> int)
    requires Keyed(m) && Summarized(result, Selected(m, NormalizeQuery(query)), view, now, size)
    ensures Overall(result, RecordsIn) == |Listing(m, NormalizeQuery(query))|
  {
    hide Summarized, Selected, Overall, NormalizeQuery, Keyed;
    ViewTotals(result, Selected(m, NormalizeQuery(query)), view, now, size);
    SelectedOrdered(m, NormalizeQuery(query));
  }

  // ----- counters -----

  ghost function Passing(records: seq<MemoryRecord>, p: MemoryRecord -> bool): set<MemoryRecord> {
    set r | r in records && p(r)
  }

  lemma PassingMore(records: seq<MemoryRecord>, p: MemoryRecord -> bool, i: nat)
    requires Distinct(records) && i < |records|
    ensures |Passing(records[..i + 1], p)| == |Passing(records[..i], p)| + if p(records[i]) then 1 else 0
  {
    var before, after, r := Passing(records[..i], p), Passing(records[..i + 1], p), records[i];
    assert records[..i + 1] == records[..i] + [r];
    assert r !in before;
    if p(r) {
      assert after == before + {r};
    } else {
      assert after == before;
    }
  }

  predicate InReplayCount(r: MemoryRecord) {
    r.replayLinked || r.retention == ReplayPreserve || r.memoryType == REPLAY_CASE
  }

  function ExpiredSet(m: Records, now: Time): set<string> {
    set id | id in m && IsExpired(Load(m[id]), now)
  }

  function ReplaySet(m: Records): set<string> {
    set id | id in m && InReplayCount(Load(m[id]))
  }

  /** The expired records that cleanup leaves. */
  function ShieldedExpired(m: Records, now: Time): set<string> {
    set id | id in m && IsExpired(Load(m[id]), now) && Shielded(Load(m[id]))
  }

  /**
    The overview counts as expired what cleanup would remove and, besides, what is shielded; after a cleanup at the same
    instant only the shielded ones are left to count.
   */
  lemma ExpiredSplit(m: Records, now: Time)
    ensures ExpiredSet(m, now) == RemoveSet(m, now) + ShieldedExpired(m, now)
    ensures |ExpiredSet(m, now)| == |RemoveSet(m, now)| + |ShieldedExpired(m, now)|
    ensures ExpiredSet(Cleaned(m, now), now) == ShieldedExpired(m, now)
  {
    hide Load, IsExpired, Shielded;
    var removed, left := RemoveSet(m, now), ShieldedExpired(m, now);
    assert ExpiredSet(m, now) == removed + left && removed !! left;
    assert |removed + left| == |removed| + |left|;
  }

  /** The overview counts the linked records; preserving adds to them what it works on. */
  lemma ReplayCounted(m: Records, now: Time)
    ensures forall id :: id in ReplaySet(m) <==> id in m && Load(m[id]).replayLinked
    ensures ReplaySet(AllPreserved(m, now)) == ReplaySet(m) + PreserveSet(m)
  {
    hide Load, Preserve, Replayish;
    forall id | id in m ensures InReplayCount(Load(m[id])) <==> Load(m[id]).replayLinked {
      ReplayCountIsLinked(m[id]);
    }
    forall id | id in m ensures InReplayCount(Load(Preserve(Load(m[id]), now))) {
      LoadPreserved(m[id], now);
    }
  }

  lemma ReplayCountIsLinked(r: MemoryRecord)
    ensures InReplayCount(Load(r)) <==> Load(r).replayLinked
  {
    LoadFields(r);
    hide Load, Clean;
  }

  function JoinedOf(records: seq<MemoryRecord>): (r: seq<string>)
    ensures |r| == |records| && forall i :: 0 <= i < |records| ==> r[i] == JoinedKey(KeyOfGroup(records[i]))
  {
    seq(|records|, i requires 0 <= i < |records| => JoinedKey(KeyOfGroup(records[i])))
  }

  /** Counting records that pass a test counts the ids whose records do. */
  lemma CountedIds(m: Records, records: seq<MemoryRecord>, p: MemoryRecord -> bool, ids: set<string>)
    requires Keyed(m) && ReadsAll(m, records)
    requires forall id :: id in ids <==> id in m && p(Load(m[id]))
    ensures |set r: MemoryRecord | r in records && p(r)| == |ids|
  {
    hide Load, UsableId;
    var passing := set r: MemoryRecord | r in records && p(r);
    var f := (r: MemoryRecord) => r.id;
    forall a: MemoryRecord, b: MemoryRecord | a in passing && b in passing && f(a) == f(b) ensures a == b {
      assert Reads(m, a) && Reads(m, b);
    }
    var image := set r: MemoryRecord | r in passing :: f(r);
    forall id | id in ids ensures id in image {
      LoadFields(m[id]);
      assert Reads(m, Load(m[id])) && Load(m[id]) in passing && f(Load(m[id])) == id;
    }
    assert forall r :: r in passing ==> Reads(m, r);
    assert image == ids;
    InjectiveImage(passing, f, image);
  }

  lemma InEligibleSet(m: Records, now: Time)
    ensures forall id :: id in EligibleSet(m, now) <==> id in m && IsDecayEligible(Load(m[id]), now)
  {
    hide Load, IsDecayEligible;
  }

  lemma InExpiredSet(m: Records, now: Time)
    ensures forall id :: id in ExpiredSet(m, now) <==> id in m && IsExpired(Load(m[id]), now)
  {
    hide Load, IsExpired;
  }

  lemma InReplaySet(m: Records)
    ensures forall id :: id in ReplaySet(m) <==> id in m && InReplayCount(Load(m[id]))
  {
    hide Load, InReplayCount;
  }

  lemma CountedKeys(m: Records, records: seq<MemoryRecord>)
    requires ReadsAll(m, records) && Keyed(m) && |records| == |m|
    ensures |records| - |Elems(JoinedOf(records))| == StaleCandidates(m)
  {
    hide Load, Keyed, ReadsAll, JoinedKeys, JoinedOf;
    var joined := JoinedOf(records);
    forall k | k in JoinedKeys(m) ensures k in Elems(joined) {
      JoinedKeyRead(m, records, k);
    }
    forall k | k in Elems(joined) ensures k in JoinedKeys(m) {
      ReadJoinedKey(m, records, k);
    }
    assert Elems(joined) == JoinedKeys(m);
  }

  lemma JoinedKeyRead(m: Records, records: seq<MemoryRecord>, k: string)
    requires ReadsAll(m, records) && Keyed(m) && k in JoinedKeys(m)
    ensures k in JoinedOf(records)
  {
    hide Load, UsableId, JoinedKey, KeyOfGroup, JoinedOf;
    var id :| id in m && JoinedKey(KeyOfGroup(Load(m[id]))) == k;
    LoadFields(m[id]);
    assert Reads(m, Load(m[id]));
    var i :| 0 <= i < |records| && records[i] == Load(m[id]);
    assert JoinedOf(records)[i] == k;
  }

  lemma ReadJoinedKey(m: Records, records: seq<MemoryRecord>, k: string)
    requires ReadsAll(m, records) && k in JoinedOf(records)
    ensures k in JoinedKeys(m)
  {
    hide Load, JoinedKey, KeyOfGroup, JoinedOf;
    var i :| 0 <= i < |records| && JoinedOf(records)[i] == k;
    ReadAt(m, records, i);
  }

  // ----- jobs, record by record -----

  lemma InRemoveSet(m: Records, id: string, now: Time)
    requires id in m
    ensures id in RemoveSet(m, now) <==> IsExpired(Load(m[id]), now) && !Shielded(Load(m[id]))
  {
    hide Load, IsExpired, Shielded;
  }

  lemma AllRemovable(m: Records, now: Time)
    ensures RemoveSet(m, now) <= m.Keys
  {
    hide Load, Removable;
  }

  lemma InPreserveSet(m: Records, id: string)
    requires id in m
    ensures var r := Load(m[id]);
      id in PreserveSet(m) <==>
        && (r.replayLinked || r.memoryType == REPLAY_CASE || ReplayTagged(r))
        && (!r.replayLinked || r.retention != ReplayPreserve || r.stability < PRESERVED_STABILITY)
  {
    hide Load, ReplayTagged;
  }

  lemma AllPreservable(m: Records)
    ensures PreserveSet(m) <= m.Keys
  {
    hide Load, Replayish, FullyPreserved;
  }

  /** One more record preserved: the write is valid and gives the next store. */
  lemma PreserveOne(m: Records, done: set<string>, r: MemoryRecord, now: Time)
    requires StoreOk(m) && r.id in m && r == Load(m[r.id]) && r.id !in done
    ensures var p := Preserve(r, now);
      && ValidRecord(p) && UsableId(p.id) && p.id == r.id && r.id in PreservedAt(m, done, now)
      && PreservedAt(m, done, now)[r.id := p] == PreservedAt(m, done + {r.id}, now)
      && StoreOk(PreservedAt(m, done + {r.id}, now))
  {
    hide StoreOk, Load, ValidRecord, UsableId, Preserve;
    PreservedOk(m, done + {r.id}, now);
    PreservedMore(m, done, r.id, now);
  }

  // ----- groups -----

  ghost function KeysIn(records: seq<MemoryRecord>): set<GroupKey> {
    set r | r in records :: KeyOfGroup(r)
  }

  /** The records of one key, in order. */
  function GroupOf(records: seq<MemoryRecord>, key: GroupKey): seq<MemoryRecord> {
    if records == [] then []
    else
      var front, last := GroupOf(records[..|records| - 1], key), records[|records| - 1];
      if KeyOfGroup(last) == key then front + [last] else front
  }

  lemma GroupMore(records: seq<MemoryRecord>, i: nat)
    requires i < |records|
    ensures var key := KeyOfGroup(records[i]);
      && KeysIn(records[..i + 1]) == KeysIn(records[..i]) + {key}
      && GroupOf(records[..i + 1], key) == GroupOf(records[..i], key) + [records[i]]
      && (key !in KeysIn(records[..i]) ==> GroupOf(records[..i], key) == [])
    ensures forall k :: k != KeyOfGroup(records[i]) ==> GroupOf(records[..i + 1], k) == GroupOf(records[..i], k)
  {
    hide KeyOfGroup;
    assert records[..i + 1] == records[..i] + [records[i]];
    assert records[..i + 1][..i] == records[..i];
    assert forall r :: r in records[..i + 1] <==> r in records[..i] || r == records[i];
    GroupMembers(records[..i], KeyOfGroup(records[i]));
    var g := GroupOf(records[..i], KeyOfGroup(records[i]));
    assert g == [] || (g[0] in g && KeyOfGroup(g[0]) in KeysIn(records[..i]));
  }

  lemma {:induction false} GroupMembers(records: seq<MemoryRecord>, key: GroupKey)
    ensures forall r :: r in GroupOf(records, key) <==> r in records && KeyOfGroup(r) == key
    ensures Distinct(records) ==> Distinct(GroupOf(records, key))
  {
    hide KeyOfGroup;
    if records != [] {
      var front, last := records[..|records| - 1], records[|records| - 1];
      GroupMembers(front, key);
      assert forall r :: r in records <==> r in front || r == last;
    }
  }

  ghost function IdsOfKeys(m: Records, keys: set<GroupKey>): set<string> {
    set id | id in m && KeyOfGroup(Load(m[id])) in keys
  }

  /** The stale records of some groups. */
  ghost function StaleOf(m: Records, keys: set<GroupKey>): set<string> {
    StaleSet(m) * IdsOfKeys(m, keys)
  }

  lemma NoneStale(m: Records)
    ensures StaleOf(m, {}) == {} && m - StaleOf(m, {}) == m
  {
    hide Load, StaleSet;
  }

  lemma KeysMore(m: Records, keys: set<GroupKey>, key: GroupKey)
    requires key !in keys
    ensures IdsOfKeys(m, keys + {key}) == IdsOfKeys(m, keys) + IdsOfKeys(m, {key})
    ensures IdsOfKeys(m, keys) !! IdsOfKeys(m, {key})
  {
    hide Load, KeyOfGroup;
  }

  lemma StaleMore(m: Records, keys: set<GroupKey>, key: GroupKey)
    requires key !in keys
    ensures var gone, more := StaleOf(m, keys), StaleOf(m, {key});
      gone !! IdsOfKeys(m, {key}) && gone + more == StaleOf(m, keys + {key}) && |gone + more| == |gone| + |more|
  {
    hide StaleSet, IdsOfKeys;
    KeysMore(m, keys, key);
    assert StaleOf(m, keys + {key}) == StaleSet(m) * (IdsOfKeys(m, keys) + IdsOfKeys(m, {key}));
    assert StaleOf(m, keys) !! StaleOf(m, {key});
  }

  /** One key of a set taken out of those left. */
  lemma KeyTaken<T>(all: set<T>, left: set<T>, taken: set<T>, key: T)
    requires left <= all && taken == all - left && key in left
    ensures key in all && key !in taken && taken + {key} == all - (left - {key})
  {
  }

  lemma AllStale(m: Records, records: seq<MemoryRecord>, keys: set<GroupKey>)
    requires Keyed(m) && ReadsAll(m, records) && keys == KeysIn(records)
    ensures StaleOf(m, keys) == StaleSet(m) && m - StaleOf(m, keys) == Compacted(m)
  {
    hide UsableId, Newest, Protected;
    forall id | id in m ensures Load(m[id]) in records {
      LoadFields(m[id]);
      assert Reads(m, Load(m[id]));
    }
    hide Load, KeyOfGroup;
    assert StaleOf(m, keys) == StaleSet(m);
  }

  /** The group of a key, as collected, holds the records of that key, each once. */
  lemma GroupIsKey(m: Records, records: seq<MemoryRecord>, key: GroupKey)
    requires Keyed(m) && ReadsAll(m, records)
    ensures Distinct(GroupOf(records, key)) && IdsOf(GroupOf(records, key)) == IdsOfKeys(m, {key})
    ensures forall r :: r in GroupOf(records, key) <==> Reads(m, r) && KeyOfGroup(r) == key
  {
    GroupMembers(records, key);
    forall id | id in m ensures Load(m[id]).id == id && Reads(m, Load(m[id])) {
      LoadFields(m[id]);
    }
    hide Load, KeyOfGroup, UsableId, GroupOf;
    forall id ensures id in IdsOf(GroupOf(records, key)) <==> id in IdsOfKeys(m, {key}) {
      if id in IdsOfKeys(m, {key}) {
        assert Load(m[id]) in GroupOf(records, key);
      }
    }
  }

  /** The one record of a group is its newest. */
  lemma LoneIsNewest(m: Records, records: seq<MemoryRecord>, key: GroupKey)
    requires Keyed(m) && ReadsAll(m, records) && |GroupOf(records, key)| < 2
    ensures StaleSet(m) !! IdsOfKeys(m, {key})
  {
    hide Load, KeyOfGroup, Keyed, ReadsAll, GroupOf, IdsOfKeys, Newest;
    GroupIsKey(m, records, key);
    forall id | id in IdsOfKeys(m, {key}) ensures id in m && Newest(m, id) {
      AloneIsNewest(m, GroupOf(records, key), key, id);
    }
  }

  lemma AloneIsNewest(m: Records, g: seq<MemoryRecord>, key: GroupKey, id: string)
    requires |g| < 2 && IdsOf(g) == IdsOfKeys(m, {key}) && id in IdsOf(g)
    ensures id in m && Newest(m, id)
  {
    hide Load, KeyOfGroup, Newer, IdsOf;
    forall o | o in m && KeyOfGroup(Load(m[o])) == KeyOfGroup(Load(m[id])) ensures o == id {
      assert o in IdsOfKeys(m, {key});
      OneId(g, o, id);
    }
  }

  lemma OneId(g: seq<MemoryRecord>, a: string, b: string)
    requires |g| < 2 && a in IdsOf(g) && b in IdsOf(g)
    ensures a == b
  {
  }

  /** A group, sorted: the same records, newest first. */
  lemma SortedGroup(m: Records, records: seq<MemoryRecord>, key: GroupKey)
    requires Keyed(m) && ReadsAll(m, records)
    ensures var sorted := SortBy(Newer, GroupOf(records, key));
      && Sorted(Newer, sorted) && |sorted| == |GroupOf(records, key)| && IdsOf(sorted) == IdsOfKeys(m, {key})
      && (forall r :: r in sorted <==> Reads(m, r) && KeyOfGroup(r) == key)
      && TotalOn(Newer, Elems(sorted))
  {
    var g := GroupOf(records, key);
    GroupIsKey(m, records, key);
    hide Load, KeyOfGroup, UsableId, GroupOf, Newer;
    NewerTotalOn(Elems(g));
    SortBySorts(Newer, g);
    var sorted := SortBy(Newer, g);
    assert Elems(sorted) == Elems(g);
    assert IdsOf(sorted) == IdsOf(g);
  }

  lemma IdsOne(m: Records, records: seq<MemoryRecord>, key: GroupKey)
    requires Keyed(m) && ReadsAll(m, records) && GroupOf(records, key) != []
    ensures var sorted := SortBy(Newer, GroupOf(records, key)); sorted != [] && StaleSet(m) * IdsOf(sorted[..1]) == {}
  {
    SortedGroup(m, records, key);
    var sorted := SortBy(Newer, GroupOf(records, key));
    HeadIsNewest(m, sorted, key);
    hide Load, KeyOfGroup, UsableId, GroupOf, Newer, Newest, Protected, SortBy;
    assert sorted[..1] == [sorted[0]];
  }

  lemma HeadIsNewest(m: Records, sorted: seq<MemoryRecord>, key: GroupKey)
    requires sorted != [] && Sorted(Newer, sorted) && Keyed(m)
    requires forall r :: r in sorted <==> Reads(m, r) && KeyOfGroup(r) == key
    ensures sorted[0].id in m && Newest(m, sorted[0].id)
  {
    hide Load, Newer, KeyOfGroup, UsableId;
    assert sorted[0] in sorted;
    var id := sorted[0].id;
    forall o | o in m && o != id && KeyOfGroup(Load(m[o])) == KeyOfGroup(Load(m[id]))
      ensures Newer(Load(m[id]), Load(m[o]))
    {
      LoadFields(m[o]);
      assert Load(m[o]) in sorted;
      FirstBefore(sorted, Load(m[o]));
    }
  }

  lemma FirstBefore(sorted: seq<MemoryRecord>, r: MemoryRecord)
    requires Sorted(Newer, sorted) && r in sorted && r != sorted[0]
    ensures Newer(sorted[0], r)
  {
    var i :| 0 <= i < |sorted| && sorted[i] == r;
  }

  /** A later entry of a sorted group is not newest, so it is stale exactly when it is not protected. */
  lemma SortedAt(m: Records, records: seq<MemoryRecord>, key: GroupKey, i: nat)
    requires Keyed(m) && ReadsAll(m, records)
    requires var sorted := SortBy(Newer, GroupOf(records, key)); 1 <= i < |sorted|
    ensures var sorted := SortBy(Newer, GroupOf(records, key)); var r := sorted[i];
      && r.id in m && UsableId(r.id) && r.id in IdsOfKeys(m, {key})
      && (r.id in StaleSet(m) <==> !Protected(r))
      && r.id !in IdsOf(sorted[..i]) && IdsOf(sorted[..i + 1]) == IdsOf(sorted[..i]) + {r.id}
  {
    SortedGroup(m, records, key);
    var sorted := SortBy(Newer, GroupOf(records, key));
    var r := sorted[i];
    hide Load, KeyOfGroup, UsableId, GroupOf, SortBy, Newest, Protected;
    assert r in sorted && sorted[0] in sorted;
    assert Reads(m, r);
    LaterNotNewest(m, sorted, key, i);
    IdsCut(m, sorted, key, i);
  }

  /** One more record of a sorted group: what deleting it, or leaving it, makes of the deleted ids. */
  lemma CompactStep(m: Records, records: seq<MemoryRecord>, key: GroupKey, gone: set<string>, i: nat)
    requires Keyed(m) && ReadsAll(m, records) && gone !! IdsOfKeys(m, {key})
    requires var sorted := SortBy(Newer, GroupOf(records, key)); 1 <= i < |sorted|
    ensures var sorted := SortBy(Newer, GroupOf(records, key));
      var r, done, after := sorted[i], StaleSet(m) * IdsOf(sorted[..i]), StaleSet(m) * IdsOf(sorted[..i + 1]);
      if Protected(r) then after == done
      else
        && r.id in m - (gone + done) && UsableId(r.id)
        && after == done + {r.id} && |after| == |done| + 1
        && (m - (gone + done)) - {r.id} == m - (gone + after)
  {
    hide Load, UsableId, ReadsAll, StaleSet, IdsOfKeys, GroupOf, Keyed, IdsOf, Protected, SortBy, Newer;
    SortedAt(m, records, key, i);
    var sorted := SortBy(Newer, GroupOf(records, key));
    var r, done := sorted[i], StaleSet(m) * IdsOf(sorted[..i]);
    if Protected(r) {
      Skip(StaleSet(m), IdsOf(sorted[..i]), r.id);
    } else {
      Take(StaleSet(m), IdsOf(sorted[..i]), r.id);
      RemoveMore(m, gone + done, {r.id});
      assert gone + done + {r.id} == gone + (done + {r.id});
    }
  }

  lemma LaterNotNewest(m: Records, sorted: seq<MemoryRecord>, key: GroupKey, i: nat)
    requires 1 <= i < |sorted| && Sorted(Newer, sorted)
    requires forall r :: r in sorted <==> Reads(m, r) && KeyOfGroup(r) == key
    ensures sorted[i].id in m && !Newest(m, sorted[i].id)
  {
    assert sorted[i] in sorted && sorted[0] in sorted;
    var a, b := sorted[0], sorted[i];
    assert Reads(m, a) && Reads(m, b) && Newer(a, b);
    BeforeTotal(a.id, b.id);
    hide Load, KeyOfGroup;
    assert !Newer(b, a) && a.id != b.id;
  }

  lemma IdsCut(m: Records, sorted: seq<MemoryRecord>, key: GroupKey, i: nat)
    requires i < |sorted| && Sorted(Newer, sorted) && forall r :: r in sorted <==> Reads(m, r) && KeyOfGroup(r) == key
    ensures sorted[i].id !in IdsOf(sorted[..i]) && IdsOf(sorted[..i + 1]) == IdsOf(sorted[..i]) + {sorted[i].id}
  {
    hide Load, KeyOfGroup;
    var r := sorted[i];
    assert r in sorted;
    forall o | o in sorted[..i] ensures o.id != r.id {
      var j :| 0 <= j < i && sorted[j] == o;
      assert o in sorted && Newer(o, r);
      BeforeTotal(r.id, r.id);
      assert Reads(m, o) && Reads(m, r);
    }
    assert sorted[..i + 1] == sorted[..i] + [r];
    assert forall o :: o in sorted[..i + 1] <==> o in sorted[..i] || o == r;
  }

  lemma InDecaySet(m: Records, id: string, now: Time)
    requires id in m
    ensures id in DecaySet(m, now) <==> IsDecayEligible(Load(m[id]), now) && !IsExpired(Load(m[id]), now)
  {
    hide Load, IsDecayEligible, IsExpired;
  }

  lemma SameIds(m: Records, ids: set<string>, now: Time)
    ensures DecayedAt(m, ids, now).Keys == m.Keys
  {
    hide Load, Decay;
  }

  lemma AllDue(m: Records, now: Time)
    ensures DecaySet(m, now) <= m.Keys
  {
    hide Load, DecayDue;
  }
}
