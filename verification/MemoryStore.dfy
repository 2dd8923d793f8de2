/**
  The file store of generic memory (internal/platform/store/file_store.go): one JSON file per record, named
  after its id. Listing a directory reads every file, in no particular order, and normalises legacy records;
  getting one record does not.
 */
module MemoryStore {
  import opened Wrappers
  import opened Ordering
  import opened Text
  import opened MemoryModel

  type Records = map<string, MemoryRecord>

  /** Every file carries the id it is named after. */
  ghost predicate Keyed(m: Records) {
    forall id :: id in m ==> m[id].id == id && UsableId(id)
  }

  /** Every record reads as a valid one, which is to say that every record is readable. */
  ghost predicate StoreOk(m: Records) {
    Keyed(m) && forall id :: id in m ==> Readable(m[id])
  }

  /** The record is what listing the directory gives for its id. */
  ghost predicate Reads(m: Records, r: MemoryRecord) {
    r.id in m && r == Load(m[r.id])
  }

  /** Every record is read exactly once. */
  ghost predicate ReadsAll(m: Records, all: seq<MemoryRecord>) {
    Distinct(all) && forall r :: r in all <==> Reads(m, r)
  }

  /** Entry i is what reading gives for its id, and no other entry has that id. */
  lemma ReadAt(m: Records, all: seq<MemoryRecord>, i: nat)
    requires ReadsAll(m, all) && i < |all|
    ensures all[i].id in m && all[i] == Load(m[all[i].id])
    ensures all[i].id !in IdsOf(all[..i]) && IdsOf(all[..i + 1]) == IdsOf(all[..i]) + {all[i].id}
  {
    hide Load;
    assert Reads(m, all[i]) by {
      assert all[i] in all;
    }
    assert all[..i + 1] == all[..i] + [all[i]];
    forall r | r in all[..i] ensures r.id != all[i].id {
      var j :| 0 <= j < i && all[j] == r;
      assert all[j] in all && Reads(m, all[j]);
    }
    assert forall r :: r in all[..i + 1] <==> r in all[..i] || r == all[i];
  }

  lemma ReadOnce(m: Records, all: seq<MemoryRecord>)
    requires ReadsAll(m, all)
    ensures Distinct(all)
  {
    hide Load;
  }

  function IdsOf(all: seq<MemoryRecord>): set<string> {
    set r | r in all :: r.id
  }

  lemma IdsNone(all: seq<MemoryRecord>)
    ensures IdsOf(all[..0]) == {}
  {
  }

  lemma IdsAll(m: Records, all: seq<MemoryRecord>)
    requires Keyed(m) && ReadsAll(m, all)
    ensures IdsOf(all) == m.Keys && IdsOf(all[..|all|]) == m.Keys
  {
    hide UsableId;
    assert all[..|all|] == all;
    forall id ensures id in IdsOf(all) <==> id in m {
      if id in m {
        LoadFields(m[id]);
        assert Reads(m, Load(m[id]));
      }
    }
  }

  // ----- listings -----

  ghost function Selected(m: Records, q: MemoryQuery): set<MemoryRecord> {
    set id | id in m && Matches(Load(m[id]), q) :: Load(m[id])
  }

  lemma SelectedOrdered(m: Records, q: MemoryQuery)
    requires Keyed(m)
    ensures TotalOn(CreatedBefore, Selected(m, q))
  {
    forall id | id in m ensures Load(m[id]).id == id {
      LoadFields(m[id]);
    }
    hide Load, Matches;
    CreatedBeforeTotalOn(Selected(m, q));
  }

  lemma SelectedReads(m: Records, q: MemoryQuery, r: MemoryRecord)
    requires Keyed(m)
    ensures r in Selected(m, q) <==> Reads(m, r) && Matches(r, q)
  {
    hide Load, Matches, UsableId;
    if r in Selected(m, q) {
      var id :| id in m && Matches(Load(m[id]), q) && r == Load(m[id]);
      LoadFields(m[id]);
    }
  }

  /** The matching records, oldest first. */
  ghost function Listing(m: Records, q: MemoryQuery): seq<MemoryRecord>
    requires Keyed(m)
  {
    SelectedOrdered(m, q);
    SortedSet(CreatedBefore, Selected(m, q))
  }

  lemma CollectedIsListing(m: Records, q: MemoryQuery, collected: seq<MemoryRecord>)
    requires Keyed(m) && Distinct(collected)
    requires forall r :: r in collected <==> Reads(m, r) && Matches(r, q)
    ensures SortBy(CreatedBefore, collected) == Listing(m, q) && |collected| == |Selected(m, q)|
  {
    hide Load, Matches, UsableId, CreatedBefore, Selected, Reads;
    SelectedOrdered(m, q);
    forall r ensures r in collected <==> r in Selected(m, q) {
      SelectedReads(m, q, r);
    }
    SortCollected(CreatedBefore, collected, Selected(m, q));
    SortBySorts(CreatedBefore, collected);
  }

  // ----- idempotency keys -----

  function KeyOf(r: MemoryRecord): string {
    Trim(r.idempotencyKey)
  }

  /** The non-blank idempotency keys in use. */
  function Keys(m: Records): set<string> {
    set id | id in m && KeyOf(m[id]) != "" :: KeyOf(m[id])
  }

  /** At most one record per non-blank trimmed idempotency key. */
  ghost predicate KeysUnique(m: Records) {
    forall a, b :: a in m && b in m && KeyOf(m[a]) != "" && KeyOf(m[a]) == KeyOf(m[b]) ==> a == b
  }

  lemma SameKeysUnique(m: Records, n: Records)
    requires KeysUnique(m) && forall id :: id in n ==> id in m && n[id].idempotencyKey == m[id].idempotencyKey
    ensures KeysUnique(n)
  {
    hide Trim;
  }

  // ----- what keeps every record readable -----

  lemma StoreOkKeyed(m: Records)
    requires StoreOk(m)
    ensures Keyed(m)
  {
    hide UsableId, Readable;
  }

  lemma StoreOkAt(m: Records, id: string)
    requires StoreOk(m) && id in m
    ensures m[id].id == id && UsableId(id) && Readable(m[id]) && ValidRecord(Load(m[id]))
  {
    hide Load, UsableId, ValidRecord, Readable;
    LoadValidExact(m[id]);
  }

  lemma StoreOkMore(m: Records, r: MemoryRecord)
    requires StoreOk(m) && UsableId(r.id) && ValidRecord(r)
    ensures StoreOk(m[r.id := r])
  {
    hide Load, ValidRecord, UsableId, Readable;
    LoadValid(r);
  }

  lemma StoreOkLess(m: Records, gone: set<string>)
    requires StoreOk(m)
    ensures StoreOk(m - gone)
  {
    hide UsableId, Readable;
  }

  class FileStore {
    var records: Records

    ghost predicate Valid()
      reads this
    {
      Keyed(records)
    }

    constructor ()
      ensures records == map[]
    {
      records := map[];
    }

    method Create(record: MemoryRecord) returns (r: Result<MemoryRecord>)
      modifies this
      ensures if !ValidRecord(record) then r == Err(Rejected) && records == old(records)
        else if !UsableId(record.id) then r == Err(InvalidId) && records == old(records)
        else if record.id in old(records) then r == Err(AlreadyExists) && records == old(records)
        else r == Ok(record) && records == old(records)[record.id := record]
    {
      hide ValidRecord, UsableId;
      if !ValidRecord(record) {
        return Err(Rejected);
      }
      if !UsableId(record.id) {
        return Err(InvalidId);
      }
      if record.id in records {
        return Err(AlreadyExists);
      }
      records := records[record.id := record];
      return Ok(record);
    }

    method Update(record: MemoryRecord) returns (r: Result<MemoryRecord>)
      modifies this
      ensures if !ValidRecord(record) then r == Err(Rejected) && records == old(records)
        else if !UsableId(record.id) then r == Err(InvalidId) && records == old(records)
        else if record.id !in old(records) then r == Err(NotFound) && records == old(records)
        else r == Ok(record) && records == old(records)[record.id := record]
    {
      hide ValidRecord, UsableId;
      if !ValidRecord(record) {
        return Err(Rejected);
      }
      if !UsableId(record.id) {
        return Err(InvalidId);
      }
      if record.id !in records {
        return Err(NotFound);
      }
      records := records[record.id := record];
      return Ok(record);
    }

    method Delete(id: string) returns (r: Result<()>)
      modifies this
      ensures if !UsableId(id) then r == Err(InvalidId) && records == old(records)
        else if id !in old(records) then r == Err(NotFound) && records == old(records)
        else r == Ok(()) && records == old(records) - {id}
    {
      hide UsableId;
      if !UsableId(id) {
        return Err(InvalidId);
      }
      if id !in records {
        return Err(NotFound);
      }
      records := records - {id};
      return Ok(());
    }

    method Get(id: string) returns (r: Result<MemoryRecord>)
      ensures r == if !UsableId(id) then Err(InvalidId) else if id !in records then Err(NotFound) else Ok(records[id])
    {
      hide UsableId;
      if !UsableId(id) {
        return Err(InvalidId);
      }
      if id !in records {
        return Err(NotFound);
      }
      return Ok(records[id]);
    }

    method ListAll() returns (all: seq<MemoryRecord>)
      requires Valid()
      ensures ReadsAll(records, all) && |all| == |records|
    {
      hide Load, UsableId;
      var unread := records.Keys;
      all := [];
      while unread != {}
        invariant unread <= records.Keys && |all| + |unread| == |records.Keys|
        invariant Distinct(all)
        invariant forall r :: r in all <==> Reads(records, r) && r.id !in unread
        decreases unread
      {
        var id :| id in unread;
        LoadFields(records[id]);
        unread := unread - {id};
        all := all + [Load(records[id])];
      }
    }

    method Count() returns (n: nat)
      requires Valid()
      ensures n == |records|
    {
      var all := ListAll();
      n := |all|;
    }

    /** One page of the matching records, oldest first. */
    method List(query: MemoryQuery) returns (page: seq<MemoryRecord>, total: nat, hasMore: bool)
      requires Valid()
      ensures var q := NormalizeQuery(query); var listing := Listing(records, q);
        && total == |listing| == |Selected(records, q)|
        && page == listing[Min(q.offset, total)..Min(Min(q.offset, total) + q.limit, total)]
        && hasMore == (Min(Min(q.offset, total) + q.limit, total) < total)
    {
      hide Load, Trim, UsableId, Keyed, Wants;
      var q := NormalizeQuery(query);
      var all := ListAll();
      var filtered: seq<MemoryRecord> := [];
      for i := 0 to |all|
        invariant Distinct(filtered)
        invariant forall r :: r in filtered <==> r in all[..i] && Matches(r, q)
      {
        var record := all[i];
        assert all[..i + 1] == all[..i] + [record];
        ghost var wanted := Matches(record, q);
        if !Wants(q.namespace, record.namespace) {
          continue;
        }
        if !Wants(q.projectId, record.projectId) {
          continue;
        }
        if !Wants(q.environment, record.environment) {
          continue;
        }
        if !Wants(q.clawbotId, record.clawbotId) {
          continue;
        }
        if !Wants(q.sessionId, record.sessionId) {
          continue;
        }
        if !Wants(q.memoryType, record.memoryType) {
          continue;
        }
        if !Wants(q.scenarioId, record.scenarioId) {
          continue;
        }
        if !Wants(q.sourceRef, record.sourceRef) {
          continue;
        }
        filtered := filtered + [record];
      }
      assert all[..|all|] == all;
      CollectedIsListing(records, q, filtered);
      filtered := SortBy(CreatedBefore, filtered);
      total := |filtered|;
      var start := Min(q.offset, total);
      var end := Min(start + q.limit, total);
      page := filtered[start..end];
      hasMore := end < total;
    }

    /** Is there a record with this non-blank key? If so, some such record, as read. */
    method FindByIdempotency(key: string) returns (r: Result<MemoryRecord>)
      requires Valid()
      ensures r.Err? ==> r.error == NotFound
      ensures r.Ok? <==> Trim(key) in Keys(records)
      ensures r.Ok? ==>
        Reads(records, r.value) && KeyOf(r.value) == Trim(key) && KeyOf(records[r.value.id]) == Trim(key)
    {
      hide Load, Trim, UsableId, ReadsAll;
      var all := ListAll();
      for i := 0 to |all|
        invariant forall j :: 0 <= j < i ==> !(KeyOf(all[j]) == Trim(key) && Trim(key) != "")
      {
        if KeyOf(all[i]) == Trim(key) && Trim(key) != "" {
          ReadAt(records, all, i);
          LoadFields(records[all[i].id]);
          return Ok(all[i]);
        }
      }
      KeyNowhere(records, all, Trim(key));
      return Err(NotFound);
    }
  }

  lemma KeyNowhere(m: Records, all: seq<MemoryRecord>, key: string)
    requires Keyed(m) && ReadsAll(m, all)
    requires forall j :: 0 <= j < |all| ==> !(KeyOf(all[j]) == key && key != "")
    ensures key !in Keys(m)
  {
    hide Load, Trim, UsableId;
    forall id | id in m && KeyOf(m[id]) != "" ensures KeyOf(m[id]) != key {
      LoadFields(m[id]);
      assert Reads(m, Load(m[id]));
    }
  }
}
