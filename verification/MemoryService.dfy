/** The generic memory service (internal/services/memory/service.go): keyed creation, batches and recalling reads. */
module MemoryService {
  import opened Wrappers
  import opened Text
  import opened Clock
  import opened MemoryModel
  import opened MemoryStore
  import opened MemoryCreation
  import opened MemoryRuns

  class Service {
    const store: FileStore
    const clock: WallClock

    ghost predicate Valid()
      reads store, clock
    {
      StoreOk(store.records) && clock.Valid()
    }

    constructor (store: FileStore, clock: WallClock)
      requires StoreOk(store.records) && clock.Valid()
      ensures this.store == store && this.clock == clock && Valid()
    {
      this.store, this.clock := store, clock;
    }

    method NextId() returns (id: string)
      ensures GeneratedId(id)
    {
      assert GeneratedId("mem-0");
      id :| GeneratedId(id);
    }

    /** A keyed create whose key is in use gives the existing record back and writes nothing. */
    method Create(input: CreateInput) returns (r: Result<MemoryRecord>)
      requires Valid()
      modifies store, clock
      ensures Valid() && old(clock.last) <= clock.last
      ensures Trim(input.idempotencyKey) in Keys(old(store.records)) ==>
        && r.Ok? && Reads(store.records, r.value) && KeyOf(r.value) == Trim(input.idempotencyKey)
        && store.records == old(store.records)
      ensures Trim(input.idempotencyKey) !in Keys(old(store.records)) && r.Ok? ==>
        && r.value.id !in old(store.records)
        && r.value == BuildRecord(r.value.id, clock.last, input) && ValidRecord(r.value)
        && store.records == old(store.records)[r.value.id := r.value]
      ensures r.Err? ==> Refused(old(store.records), input, r.error) && store.records == old(store.records)
      ensures Trim(input.idempotencyKey) !in Keys(old(store.records)) && r.Ok? ==> Acceptable(input)
      ensures r.Ok? ==> Added(old(store.records), store.records, [input])
      ensures KeysUnique(old(store.records)) ==> KeysUnique(store.records)
    {
      hide StoreOk, Added, Keys, KeysUnique, Keyed, Trim, Load, ValidRecord, UsableId, GeneratedId, BuildRecord,
          InputComplete, Acceptable;
      StoreOkKeyed(store.records);
      var key := Trim(input.idempotencyKey);
      TrimTwice(input.idempotencyKey);
      if key != "" {
        var existing := store.FindByIdempotency(key);
        if existing.Ok? {
          AddedNothing(store.records, input);
          return existing;
        }
      }
      BlankKeyUnused(store.records);
      var now := clock.Now();
      var id := NextId();
      if !InputComplete(input) {
        Incomplete(input);
        return Err(Rejected);
      }
      AcceptableExact(id, now, input);
      GeneratedUsable(id);
      var record := BuildRecord(id, now, input);
      ghost var before := store.records;
      BuiltKey(id, now, input);
      r := store.Create(record);
      if r.Ok? {
        StoreOkMore(before, record);
        NewRecordAdded(before, record, input);
      }
    }

    /**
      Stops at the first input that is refused, if there is one, the n-th; what was created before it stays. The steps
      are the creations that took place.
     */
    method CreateBatch(inputs: seq<CreateInput>)
      returns (r: Result<seq<MemoryRecord>>, ghost n: nat, ghost steps: seq<Step>)
      requires Valid()
      modifies store, clock
      ensures Valid() && old(clock.last) <= clock.last
      ensures KeysUnique(old(store.records)) ==> KeysUnique(store.records)
      ensures Extends(old(store.records), old(clock.last), store.records, clock.last, steps)
      ensures n <= |inputs| && CreationsOf(old(store.records), inputs[..n], steps)
      ensures Added(old(store.records), store.records, inputs[..n])
      ensures r.Err? ==> n < |inputs| && Refused(store.records, inputs[n], r.error)
      ensures r.Ok? ==> n == |inputs| == |r.value|
      ensures r.Ok? ==>
        forall i :: 0 <= i < |inputs| && Trim(inputs[i].idempotencyKey) != "" ==>
          KeyOf(r.value[i]) == Trim(inputs[i].idempotencyKey)
    {
      hide StoreOk, Added, Extends, CreationsOf, Refused, Keys, KeysUnique, Trim, Load, ValidRecord, BuildRecord, Reads;
      var records: seq<MemoryRecord> := [];
      ghost var before, start := store.records, clock.last;
      AddedNone(before);
      NoStep(before, start, start);
      n, steps := 0, [];
      NoCreations(before);
      assert inputs[..0] == [];
      for i := 0 to |inputs|
        invariant KeysUnique(before) ==> KeysUnique(store.records)
        invariant start <= clock.last && Extends(before, start, store.records, clock.last, steps)
        invariant n == i && CreationsOf(before, inputs[..i], steps)
        invariant Valid() && |records| == i && Added(before, store.records, inputs[..i])
        invariant
          forall j :: 0 <= j < i && Trim(inputs[j].idempotencyKey) != "" ==>
            KeyOf(records[j]) == Trim(inputs[j].idempotencyKey)
      {
        ghost var middle, since := store.records, clock.last;
        var record := Create(inputs[i]);
        if record.Err? {
          NoStep(middle, since, clock.last);
          ExtendsMore(before, start, middle, since, middle, clock.last, steps, []);
          assert steps + [] == steps;
          return Err(record.error), n, steps;
        }
        ghost var made := CreatedSteps(middle, since, inputs[i], record.value, store.records, clock.last);
        ExtendsMore(before, start, middle, since, store.records, clock.last, steps, made);
        ReachedBy(before, start, middle, since, steps);
        CreationsMore(before, inputs[..i], steps, inputs[i], made);
        AddedMore(before, middle, store.records, inputs[..i], inputs[i]);
        assert inputs[..i + 1] == inputs[..i] + [inputs[i]];
        CreatedKey(record.value, clock.last, inputs[i]);
        records := records + [record.value];
        n, steps := n + 1, steps + made;
      }
      assert inputs[..|inputs|] == inputs;
      return Ok(records), n, steps;
    }

    /** Reading a record counts as a recall and is written back. */
    method Get(id: string) returns (r: Result<MemoryRecord>)
      requires Valid()
      modifies store, clock
      ensures Valid() && old(clock.last) <= clock.last
      ensures var m := old(store.records);
        if !UsableId(id) then r == Err(InvalidId) && store.records == m
        else if id !in m then r == Err(NotFound) && store.records == m
        else if ValidRecord(Recall(m[id], clock.last))
        then r == Ok(Recall(m[id], clock.last)) && store.records == m[id := r.value]
        else r == Err(Rejected) && store.records == m
      ensures KeysUnique(old(store.records)) ==> KeysUnique(store.records)
    {
      hide StoreOk, Keyed, KeysUnique, Trim, Load, ValidRecord, UsableId, Recall;
      var found := store.Get(id);
      if found.Err? {
        return found;
      }
      var now := clock.Now();
      StoreOkAt(store.records, id);
      RecallOk(store.records, id, now);
      r := store.Update(Recall(found.value, now));
    }

    method ListAll() returns (all: seq<MemoryRecord>)
      requires store.Valid()
      ensures ReadsAll(store.records, all) && |all| == |store.records|
    {
      hide ReadsAll;
      all := store.ListAll();
    }

    method UpdateRecord(record: MemoryRecord) returns (r: Result<MemoryRecord>)
      modifies store
      ensures if ValidRecord(record) && UsableId(record.id) && record.id in old(store.records)
        then r == Ok(record) && store.records == old(store.records)[record.id := record]
        else r.Err? && store.records == old(store.records)
    {
      hide ValidRecord, UsableId;
      r := store.Update(record);
    }

    method Delete(id: string) returns (r: Result<()>)
      modifies store
      ensures if UsableId(id) && id in old(store.records)
        then r == Ok(()) && store.records == old(store.records) - {id}
        else r.Err? && store.records == old(store.records)
    {
      hide UsableId;
      r := store.Delete(id);
    }
  }

  /** A create is refused only when its key is not in use: for what it says, or because the generated id is taken. */
  ghost predicate Refused(m: Records, input: CreateInput, error: Error) {
    && Trim(input.idempotencyKey) !in Keys(m)
    && if Acceptable(input) then error == AlreadyExists && IdTaken(m.Keys) else error == Rejected
  }

  lemma Incomplete(input: CreateInput)
    requires !InputComplete(input)
    ensures !Acceptable(input)
  {
    hide InputComplete;
  }

  lemma GeneratedUsable(id: string)
    requires GeneratedId(id)
    ensures UsableId(id)
  {
    hide UsableId, Trim;
  }

  lemma NoCreations(m: Records)
    ensures CreationsOf(m, [], [])
  {
  }

  lemma ReachedBy(m: Records, from: Time, n: Records, to: Time, steps: seq<Step>)
    requires Extends(m, from, n, to, steps)
    ensures After(m, steps) == n
  {
    hide IsRun, After, EndTime;
  }

  /** A create that succeeded is a run: of one step, or of none when the key was in use. */
  lemma CreatedSteps(m: Records, from: Time, input: CreateInput, r: MemoryRecord, n: Records, to: Time)
    returns (steps: seq<Step>)
    requires StoreOk(n) && from <= to
    requires Trim(input.idempotencyKey) in Keys(m) ==> n == m
    requires Trim(input.idempotencyKey) !in Keys(m) ==>
      r.id !in m && r == BuildRecord(r.id, to, input) && ValidRecord(r) && n == m[r.id := r]
    ensures Extends(m, from, n, to, steps)
    ensures if Trim(input.idempotencyKey) in Keys(m) then steps == [] else |steps| == 1 && CreatesFrom(steps[0], input)
  {
    hide StoreOk, Keys, KeyOf, Trim, ValidRecord, UsableId, BuildRecord, Extends;
    if Trim(input.idempotencyKey) in Keys(m) {
      NoStep(m, from, to);
      steps := [];
    } else {
      BuiltKey(r.id, to, input);
      StoreOkAt(n, r.id);
      OneStep(m, from, Step(Act.Create(r.id, input), to), to);
      steps := [Step(Act.Create(r.id, input), to)];
    }
  }
}
