/**
  The file store of scoped memory (internal/platform/store/file_store_scoped.go): one JSON file per record
  and per snapshot, named after its id. A directory is a map from ids to values; reading it gives the
  entries in no particular order.
 */
module ScopedStore {
  import opened Wrappers
  import opened Ordering
  import opened Text
  import opened ScopedModel

  /** Every file carries the id it is named after. */
  ghost predicate KeyedRecords(m: map<string, Record>) {
    forall id :: id in m ==> m[id].id == id
  }

  ghost predicate KeyedSnapshots(m: map<string, Snapshot>) {
    forall id :: id in m ==> m[id].id == id
  }

  // ----- what a listing is -----

  /** The records, as read, that pass the filters of the query. */
  ghost function Selected(m: map<string, Record>, q: Query): set<Record> {
    set id | id in m && Matches(NormalizeRecord(m[id]), q) :: NormalizeRecord(m[id])
  }

  ghost function SelectedSnapshots(m: map<string, Snapshot>, scope: SnapshotScope): set<Snapshot> {
    set id | id in m && MatchesScope(NormalizeSnapshot(m[id]), scope) :: NormalizeSnapshot(m[id])
  }

  lemma SelectedOrdered(m: map<string, Record>, q: Query)
    requires KeyedRecords(m)
    ensures TotalOn(RecordBefore, Selected(m, q))
  {
    RecordBeforeTotalOn(Selected(m, q));
  }

  lemma SelectedSnapshotsOrdered(m: map<string, Snapshot>, scope: SnapshotScope)
    requires KeyedSnapshots(m)
    ensures TotalOn(SnapshotBefore, SelectedSnapshots(m, scope))
  {
    SnapshotBeforeTotalOn(SelectedSnapshots(m, scope));
  }

  /** The record is what reading the file of its id gives. */
  ghost predicate Reads(m: map<string, Record>, r: Record) {
    r.id in m && r == NormalizeRecord(m[r.id])
  }

  ghost predicate ReadsSnapshot(m: map<string, Snapshot>, s: Snapshot) {
    s.id in m && s == NormalizeSnapshot(m[s.id])
  }

  /** The selected records, oldest first. */
  ghost function Listing(m: map<string, Record>, q: Query): seq<Record>
    requires KeyedRecords(m)
  {
    SelectedOrdered(m, q);
    SortedSet(RecordBefore, Selected(m, q))
  }

  /** The snapshots of a scope, oldest first. */
  ghost function SnapshotListing(m: map<string, Snapshot>, scope: SnapshotScope): seq<Snapshot>
    requires KeyedSnapshots(m)
  {
    SelectedSnapshotsOrdered(m, scope);
    SortedSet(SnapshotBefore, SelectedSnapshots(m, scope))
  }

  /** A listing holds every record that passes the filters, each once, oldest first. */
  lemma ListingMeaning(m: map<string, Record>, q: Query)
    requires KeyedRecords(m)
    ensures Sorted(RecordBefore, Listing(m, q))
    ensures forall r :: r in Listing(m, q) <==> Reads(m, r) && Matches(r, q)
  {
    hide NormalizeRecord, Matches;
    SelectedOrdered(m, q);
    assert forall r :: r in Listing(m, q) <==> r in Elems(Listing(m, q));
  }

  lemma SnapshotListingMeaning(m: map<string, Snapshot>, scope: SnapshotScope)
    requires KeyedSnapshots(m)
    ensures Sorted(SnapshotBefore, SnapshotListing(m, scope))
    ensures forall s :: s in SnapshotListing(m, scope) <==> ReadsSnapshot(m, s) && MatchesScope(s, scope)
  {
    hide NormalizeSnapshot, MatchesScope;
    SelectedSnapshotsOrdered(m, scope);
    assert forall s :: s in SnapshotListing(m, scope) <==> s in Elems(SnapshotListing(m, scope));
  }

  /** A query lists the stored records, as read, that pass each of its filters; the oldest first, and ties by id. */
  lemma QueryListing(m: map<string, Record>, q: Query)
    requires KeyedRecords(m)
    ensures forall r :: r in Listing(m, NormalizeQuery(q)) <==> Reads(m, r) && Asked(r, q)
    ensures var l := Listing(m, NormalizeQuery(q));
      forall i, j :: 0 <= i < j < |l| ==>
        l[i].createdAt < l[j].createdAt || (l[i].createdAt == l[j].createdAt && Before(l[i].id, l[j].id))
  {
    hide NormalizeRecord, Matches, Asked, Listing, NormalizeQuery;
    ListingMeaning(m, NormalizeQuery(q));
    forall r | Reads(m, r) ensures Matches(r, NormalizeQuery(q)) <==> Asked(r, q) {
      NormalizeRecordTwice(m[r.id]);
      MatchesAsked(r, q);
    }
  }

  /** A scope lists the stored snapshots, as read, of its repository, run and cycle, as far as given, oldest first. */
  lemma ScopeListing(m: map<string, Snapshot>, scope: SnapshotScope)
    requires KeyedSnapshots(m)
    ensures forall s :: s in SnapshotListing(m, NormalizeScope(scope)) <==>
      ReadsSnapshot(m, s) && Passes(scope.repo, s.scope.repo) && Passes(scope.run, s.scope.run)
      && Passes(scope.cycle, s.scope.cycle)
    ensures var l := SnapshotListing(m, NormalizeScope(scope));
      forall i, j :: 0 <= i < j < |l| ==>
        l[i].createdAt < l[j].createdAt || (l[i].createdAt == l[j].createdAt && Before(l[i].id, l[j].id))
  {
    hide NormalizeSnapshot, SnapshotListing, Trim;
    SnapshotListingMeaning(m, NormalizeScope(scope));
  }

  /** A listing does not depend on the order in which its entries were collected, nor on limit and offset. */
  lemma ListingUnique(m: map<string, Record>, q: Query, collected: seq<Record>)
    requires KeyedRecords(m) && Distinct(collected)
    requires forall r :: r in collected <==> Reads(m, r) && Matches(r, q)
    ensures SortBy(RecordBefore, collected) == Listing(m, q)
  {
    hide NormalizeRecord, Matches;
    assert forall a, b :: a in collected && b in collected && a.id == b.id ==> a == b;
    RecordBeforeTotalOn(Elems(collected));
    ListingMeaning(m, q);
    hide Listing;
    SortByUnique(RecordBefore, collected, Listing(m, q));
  }

  lemma SnapshotListingUnique(m: map<string, Snapshot>, scope: SnapshotScope, collected: seq<Snapshot>)
    requires KeyedSnapshots(m) && Distinct(collected)
    requires forall s :: s in collected <==> ReadsSnapshot(m, s) && MatchesScope(s, scope)
    ensures SortBy(SnapshotBefore, collected) == SnapshotListing(m, scope)
  {
    hide NormalizeSnapshot, MatchesScope;
    assert forall a, b :: a in collected && b in collected && a.id == b.id ==> a == b;
    SnapshotBeforeTotalOn(Elems(collected));
    SnapshotListingMeaning(m, scope);
    hide SnapshotListing;
    SortByUnique(SnapshotBefore, collected, SnapshotListing(m, scope));
  }

  /** Limit and offset do not take part in selection. */
  lemma ListingIgnoresPage(m: map<string, Record>, q: Query, limit: int, offset: int)
    requires KeyedRecords(m)
    ensures Listing(m, q.(limit := limit, offset := offset)) == Listing(m, q)
  {
    var p := q.(limit := limit, offset := offset);
    assert forall r :: Matches(r, p) <==> Matches(r, q);
    assert Selected(m, p) == Selected(m, q);
  }

  class FileStore {
    var records: map<string, Record>
    var snapshots: map<string, Snapshot>

    ghost predicate Valid()
      reads this
    {
      KeyedRecords(records) && KeyedSnapshots(snapshots)
    }

    constructor ()
      ensures Valid() && records == map[] && snapshots == map[]
    {
      records, snapshots := map[], map[];
    }

    method CreateScopedRecord(input: Record) returns (r: Result<Record>)
      requires Valid()
      modifies this`records
      ensures Valid()
      ensures var record := NormalizeRecord(input);
        if !ValidRecord(record) then r == Err(Rejected) && records == old(records)
        else if !UsableId(record.id) then r == Err(InvalidId) && records == old(records)
        else if record.id in old(records) then r == Err(AlreadyExists) && records == old(records)
        else r == Ok(record) && records == old(records)[record.id := record]
    {
      hide NormalizeRecord, ValidRecord, UsableId;
      var record := NormalizeRecord(input);
      if !ValidRecord(record) {
        return Err(Rejected);
      }
      if !UsableId(record.id) {
        return Err(InvalidId);
      }
      if record.id in records {
        return Err(AlreadyExists);
      }
      records := records[record.id := record];
      return Ok(record);
    }

    method UpdateScopedRecord(input: Record) returns (r: Result<Record>)
      requires Valid()
      modifies this`records
      ensures Valid()
      ensures var record := NormalizeRecord(input);
        if !ValidRecord(record) then r == Err(Rejected) && records == old(records)
        else if !UsableId(record.id) then r == Err(InvalidId) && records == old(records)
        else if record.id !in old(records) then r == Err(NotFound) && records == old(records)
        else r == Ok(record) && records == old(records)[record.id := record]
    {
      hide NormalizeRecord, ValidRecord, UsableId;
      var record := NormalizeRecord(input);
      if !ValidRecord(record) {
        return Err(Rejected);
      }
      if !UsableId(record.id) {
        return Err(InvalidId);
      }
      if record.id !in records {
        return Err(NotFound);
      }
      records := records[record.id := record];
      return Ok(record);
    }

    method GetScopedRecord(id: string) returns (r: Result<Record>)
      ensures r == if !UsableId(id) then Err(InvalidId)
                   else if id !in records then Err(NotFound)
                   else Ok(NormalizeRecord(records[id]))
    {
      hide NormalizeRecord, UsableId;
      if !UsableId(id) {
        return Err(InvalidId);
      }
      if id !in records {
        return Err(NotFound);
      }
      return Ok(NormalizeRecord(records[id]));
    }

    method CreateScopedSnapshot(input: Snapshot) returns (r: Result<Snapshot>)
      requires Valid()
      modifies this`snapshots
      ensures Valid()
      ensures var snapshot := NormalizeSnapshot(input);
        if !ValidSnapshot(snapshot) then r == Err(Rejected) && snapshots == old(snapshots)
        else if !UsableId(snapshot.id) then r == Err(InvalidId) && snapshots == old(snapshots)
        else if snapshot.id in old(snapshots) then r == Err(AlreadyExists) && snapshots == old(snapshots)
        else r == Ok(snapshot) && snapshots == old(snapshots)[snapshot.id := snapshot]
    {
      hide NormalizeSnapshot, ValidSnapshot, UsableId;
      var snapshot := NormalizeSnapshot(input);
      if !ValidSnapshot(snapshot) {
        return Err(Rejected);
      }
      if !UsableId(snapshot.id) {
        return Err(InvalidId);
      }
      if snapshot.id in snapshots {
        return Err(AlreadyExists);
      }
      snapshots := snapshots[snapshot.id := snapshot];
      return Ok(snapshot);
    }

    method GetScopedSnapshot(id: string) returns (r: Result<Snapshot>)
      ensures r == if !UsableId(id) then Err(InvalidId)
                   else if id !in snapshots then Err(NotFound)
                   else Ok(NormalizeSnapshot(snapshots[id]))
    {
      hide NormalizeSnapshot, UsableId;
      if !UsableId(id) {
        return Err(InvalidId);
      }
      if id !in snapshots {
        return Err(NotFound);
      }
      return Ok(NormalizeSnapshot(snapshots[id]));
    }

    /** Reads the whole records directory, in no particular order. */
    method LoadAllScopedRecords() returns (all: seq<Record>)
      requires Valid()
      ensures Distinct(all)
      ensures forall r :: r in all <==> Reads(records, r)
    {
      hide NormalizeNamespace, NormalizeClass, NormalizeStatus, Trim;
      var unread := records.Keys;
      all := [];
      while unread != {}
        invariant unread <= records.Keys
        invariant Distinct(all)
        invariant forall r :: r in all <==> r.id in records.Keys - unread && r == NormalizeRecord(records[r.id])
        decreases unread
      {
        var id :| id in unread;
        unread := unread - {id};
        all := all + [NormalizeRecord(records[id])];
      }
    }

    method LoadAllScopedSnapshots() returns (all: seq<Snapshot>)
      requires Valid()
      ensures Distinct(all)
      ensures forall s :: s in all <==> ReadsSnapshot(snapshots, s)
    {
      hide NormalizeScope, NormalizeQuery, Clean, Trim;
      var unread := snapshots.Keys;
      all := [];
      while unread != {}
        invariant unread <= snapshots.Keys
        invariant Distinct(all)
        invariant forall s :: s in all <==> s.id in snapshots.Keys - unread && s == NormalizeSnapshot(snapshots[s.id])
        decreases unread
      {
        var id :| id in unread;
        unread := unread - {id};
        all := all + [NormalizeSnapshot(snapshots[id])];
      }
    }

    method ListScopedRecords(query: Query) returns (page: Page<Record>)
      requires Valid()
      ensures var q := NormalizeQuery(query);
        page == PageOf(Listing(records, q), q.limit, q.offset)
    {
      hide NormalizeNamespace, NormalizeClass, NormalizeStatus, NormalizeRecord, TrimSource, Trim, Matches;
      var q := NormalizeQuery(query);
      var all := LoadAllScopedRecords();
      var filtered: seq<Record> := [];
      for i := 0 to |all|
        invariant Distinct(filtered)
        invariant forall r :: r in filtered <==> r in all[..i] && Matches(r, q)
      {
        var record := all[i];
        assert all[..i + 1] == all[..i] + [record];
        if !Matches(record, q) {
          continue;
        }
        filtered := filtered + [record];
      }
      assert all[..|all|] == all;
      ListingUnique(records, q, filtered);
      filtered := SortBy(RecordBefore, filtered);

      var total := |filtered|;
      var start := Min(q.offset, total);
      var end := Min(start + q.limit, total);
      page := Page(filtered[start..end], total, q.limit, q.offset, end < total);
    }

    method ListScopedSnapshots(query: SnapshotQuery) returns (page: Page<Snapshot>)
      requires Valid()
      ensures var q := NormalizeSnapshotQuery(query);
        page == PageOf(SnapshotListing(snapshots, q.scope), q.limit, q.offset)
    {
      hide NormalizeScope, NormalizeSnapshot, Trim, MatchesScope;
      var q := NormalizeSnapshotQuery(query);
      var all := LoadAllScopedSnapshots();
      var filtered: seq<Snapshot> := [];
      for i := 0 to |all|
        invariant Distinct(filtered)
        invariant forall s :: s in filtered <==> s in all[..i] && MatchesScope(s, q.scope)
      {
        var snapshot := all[i];
        assert all[..i + 1] == all[..i] + [snapshot];
        if !MatchesScope(snapshot, q.scope) {
          continue;
        }
        filtered := filtered + [snapshot];
      }
      assert all[..|all|] == all;
      SnapshotListingUnique(snapshots, q.scope, filtered);
      filtered := SortBy(SnapshotBefore, filtered);

      var total := |filtered|;
      var start := Min(q.offset, total);
      var end := Min(start + q.limit, total);
      page := Page(filtered[start..end], total, q.limit, q.offset, end < total);
    }
  }
}
