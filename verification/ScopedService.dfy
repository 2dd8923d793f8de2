/**
  The scoped-memory service (internal/services/scopedmemory/service.go) over its file store and the wall
  clock. Every method keeps the invariant, refines Evolves, and states what it writes.
 */
module ScopedService {
  import opened Wrappers
  import opened Ordering
  import opened Text
  import opened Counting
  import opened Clock
  import opened ScopedModel
  import opened ScopedStore
  import opened ScopedRules
  import opened ScopedGaps
  import opened ScopedResolve
  import opened ScopedSnapshots
  import opened ScopedNotes
  import opened ScopedPersist
  import opened SnapshotChain
  import opened Compaction

  /** Asking for the next page changes nothing else about a normalised query. */
  lemma NextPageQuery(query: Query, offset: int)
    requires 0 <= offset
    ensures var q := NormalizeQuery(query); NormalizeQuery(q.(offset := offset)) == q.(offset := offset)
  {
    NormalizeQueryTwice(query);
    hide NormalizeClass, NormalizeNamespace, NormalizeStatus, TrimSource;
  }

  /** One more page, and whether it was the last. */
  lemma PageJoins<T>(listing: seq<T>, start: nat, offset: nat, limit: int)
    requires start <= offset && 1 <= limit && (offset == start || offset < |listing|)
    ensures var page := PageOf(listing, limit, offset);
      var read := listing[Min(start, |listing|)..Min(offset, |listing|)] + page.items;
      && read == listing[Min(start, |listing|)..Min(offset + limit, |listing|)]
      && (page.hasMore ==> offset + limit < |listing|)
      && (!page.hasMore ==> read == From(listing, start))
  {
  }

  lemma NextPageSnapshotQuery(query: SnapshotQuery, offset: int)
    requires 0 <= offset
    ensures var q := NormalizeSnapshotQuery(query); NormalizeSnapshotQuery(q.(offset := offset)) == q.(offset := offset)
  {
    hide Trim;
    TrimTwice(query.scope.repo);
    TrimTwice(query.scope.run);
    TrimTwice(query.scope.cycle);
  }

  class Service {
    const store: FileStore
    const clock: WallClock
    /** The text of a digest: any function will do. */
    const hexOf: Checksum -> string

    ghost function View(): State
      reads store, clock
    {
      State(store.records, store.snapshots, clock.last)
    }

    ghost predicate Valid()
      reads store, clock
    {
      Inv(View())
    }

    constructor (store: FileStore, clock: WallClock, hexOf: Checksum -> string)
      requires store.records == map[] && store.snapshots == map[] && clock.Valid()
      ensures this.store == store && this.clock == clock && this.hexOf == hexOf && Valid()
    {
      this.store, this.clock, this.hexOf := store, clock, hexOf;
    }

    /** Record ids look like "smr-" and digits. Nothing says that an id is not in use already. */
    method NextRecordId() returns (id: string)
      ensures GeneratedId(id)
    {
      assert GeneratedId("smr-0");
      id :| GeneratedId(id);
    }

    method NextSnapshotId() returns (id: string)
      ensures GeneratedId(id)
    {
      assert GeneratedId("sms-0");
      id :| GeneratedId(id);
    }

    // ----- paging -----

    /** Page by page, the whole listing from the query's offset on. */
    method ListAllRecords(query: Query) returns (all: seq<Record>)
      requires store.Valid()
      ensures var q := NormalizeQuery(query); all == From(Listing(store.records, q), q.offset)
    {
      hide NormalizeQuery, Listing, Matches, PageOf, From;
      var q := NormalizeQuery(query);
      ghost var listing := Listing(store.records, q);
      assert 1 <= q.limit && 0 <= q.offset by {
        PagedQuery(query);
      }
      all := [];
      var offset := q.offset;
      while true
        invariant q.offset <= offset && (offset == q.offset || offset < |listing|)
        invariant all == listing[Min(q.offset, |listing|)..Min(offset, |listing|)]
        decreases |listing| - offset
      {
        NextPageQuery(query, offset);
        ListingIgnoresPage(store.records, q, q.limit, offset);
        var page := store.ListScopedRecords(q.(offset := offset));
        PageJoins(listing, q.offset, offset, q.limit);
        all := all + page.items;
        if !page.hasMore {
          break;
        }
        offset := offset + q.limit;
      }
    }

    method ListAllSnapshots(query: SnapshotQuery) returns (all: seq<Snapshot>)
      requires store.Valid()
      ensures var q := NormalizeSnapshotQuery(query); all == From(SnapshotListing(store.snapshots, q.scope), q.offset)
    {
      hide SnapshotListing, NormalizeScope;
      var q := NormalizeSnapshotQuery(query);
      ghost var listing := SnapshotListing(store.snapshots, q.scope);
      all := [];
      var offset := q.offset;
      while true
        invariant q.offset <= offset && (offset == q.offset || offset < |listing|)
        invariant all == listing[Min(q.offset, |listing|)..Min(offset, |listing|)]
        decreases |listing| - offset
      {
        NextPageSnapshotQuery(query, offset);
        var page := store.ListScopedSnapshots(q.(offset := offset));
        PageJoins(listing, q.offset, offset, q.limit);
        all := all + page.items;
        if !page.hasMore {
          break;
        }
        offset := offset + q.limit;
      }
    }

    // ----- writing records -----

    method CreateRecord(d: Draft, text: string) returns (r: Result<Record>)
      requires Valid() && DraftOk(d) && Trim(text) != "" && NoSuchGap(store.records, d, text)
      modifies store`records, clock
      ensures Valid() && Evolves(old(View()), View())
      ensures r.Ok? ==>
        && r.value.id !in old(store.records)
        && store.records == old(store.records)[r.value.id := r.value]
        && WroteOne(old(store.records), store.records, r.value.id, d, text)
        && old(clock.last) <= r.value.createdAt
        && GeneratedId(r.value.id)
      ensures r.Err? ==>
        r.error == AlreadyExists && IdTaken(old(store.records).Keys) && store.records == old(store.records)
    {
      hide Inv, Evolves, RecordsOk, SnapshotsOk, KeyedRecords, KeyedSnapshots, WroteOne, NewRecord, NoSuchGap,
        NormalizeRecord, ValidRecord, UsableId, GeneratedId, DraftOk, Trim;
      InvParts(View());
      ghost var view := View();
      var now := clock.Now();
      var id := NextRecordId();
      var record := NewRecord(id, d, text, now);
      CreateKeeps(store.records, store.snapshots, view.clock, id, d, text, now);
      WaitKeeps(view, now);
      r := store.CreateScopedRecord(record);
    }

    /** ids are the new records: one for each text, or fewer when a generated id is taken. */
    method AppendTextRecords(recordIds: seq<string>, d: Draft, values: seq<string>)
      returns (r: Result<seq<string>>, ghost ids: seq<string>)
      requires Valid() && DraftOk(d) && !d.class_.UnresolvedGaps?
      modifies store`records, clock
      ensures Valid() && Evolves(old(View()), View())
      ensures Ended(r, recordIds, ids, |Clean(values)|, store.records.Keys)
      ensures Wrote(old(store.records), store.records, ids, d, Clean(values)[..|ids|])
    {
      hide Inv, Evolves, DraftOk, NewRecord, Trim, Clean, WroteOne, IdTaken;
      assert forall m, text :: NoSuchGap(m, d, text);
      var texts := CleanTexts(values);
      ghost var before := store.records;
      WaitKeeps(View(), clock.last);
      ids := [];
      var out := recordIds;
      for i := 0 to |texts|
        invariant Valid() && Evolves(old(View()), View())
        invariant out == recordIds + ids
        invariant Wrote(before, store.records, ids, d, texts[..i])
      {
        CleanTrimmed(values, texts[i]);
        ghost var middle, view := store.records, View();
        var record := CreateRecord(d, texts[i]);
        EvolvesTransitive(old(View()), view, View());
        if record.Err? {
          return Err(record.error), ids;
        }
        WroteMore(before, middle, store.records, ids, d, texts[..i], record.value.id, texts[i]);
        assert texts[..i] + [texts[i]] == texts[..i + 1];
        ids := ids + [record.value.id];
        out := out + [record.value.id];
      }
      return Ok(out), ids;
    }

    /** The oldest open record of the class in the repository and run whose text, cycle and agent fit. */
    method FindOpenGap(ns: Namespace, text: string) returns (found: Option<Record>)
      requires Valid() && NormalizeNamespace(ns) == ns && ValidNamespace(ns) && Trim(text) == text
      ensures FirstCandidate(store.records, ns, text, found)
    {
      hide Inv, RecordsOk, SnapshotsOk, NormalizeNamespace, ValidNamespace, Trim, NormalizeQuery, Listing,
          FirstCandidate, ListedGap, GapCandidate, Sorted, KeyedRecords, KeyedSnapshots;
      InvParts(View());
      BlankTrims(ns);
      var records := ListAllRecords(OpenGapQuery(ns));
      OpenGapListing(store.records, clock.last, ns, records);
      for i := 0 to |records|
        invariant forall j :: 0 <= j < i ==> !GapCandidate(records[j], ns, text)
      {
        var record := records[i];
        assert record in records && ListedGap(store.records, ns, record);
        ListedCandidate(store.records, ns, text, record);
        TextTrimmed(store.records, clock.last, record);
        if Trim(record.text) != Trim(text) {
          continue;
        }
        if ns.cycle != "" && record.scope.cycle != ns.cycle {
          continue;
        }
        if ns.agent != "" && record.scope.agent != ns.agent {
          continue;
        }
        FirstInListing(store.records, ns, text, records, i);
        return Some(record);
      }
      NoneInListing(store.records, ns, text, records);
      return None;
    }

    /** ids are the records of the texts: of all of them, or of fewer when a generated id is taken. */
    method UpsertUnresolvedGaps(recordIds: seq<string>, d: Draft, values: seq<string>)
      returns (r: Result<seq<string>>, ghost ids: seq<string>)
      requires Valid() && DraftOk(d) && d.class_.UnresolvedGaps? && d.status.Open?
      modifies store`records, clock
      ensures Valid() && Evolves(old(View()), View()) && Settles(old(store.records), store.records, {})
      ensures Ended(r, recordIds, ids, |Clean(values)|, store.records.Keys)
      ensures Upserted(old(store.records), store.records, ids, d, Clean(values)[..|ids|])
    {
      hide Inv, Evolves, Settles, UpsertedOne, DraftOk, Trim, Clean, IdTaken;
      var texts := CleanTexts(values);
      ghost var before := store.records;
      WaitKeeps(View(), clock.last);
      SettlesSelf(before);
      ids := [];
      var out := recordIds;
      for i := 0 to |texts|
        invariant Valid() && Evolves(old(View()), View()) && Settles(before, store.records, {})
        invariant out == recordIds + ids
        invariant Upserted(before, store.records, ids, d, texts[..i])
      {
        CleanTrimmed(values, texts[i]);
        ghost var middle, view := store.records, View();
        var id := UpsertOne(d, texts[i]);
        EvolvesTransitive(old(View()), view, View());
        SettlesTransitive(before, middle, store.records, {});
        if id.Err? {
          return Err(id.error), ids;
        }
        NextText(values, i);
        UpsertedMore(before, middle, store.records, ids, d, texts[..i], texts[i], id.value);
        assert texts[..i] + [texts[i]] == texts[..i + 1];
        ids := ids + [id.value];
        out := out + [id.value];
      }
      return Ok(out), ids;
    }

    /** One turn of the loop of upsertUnresolvedGaps. */
    method UpsertOne(d: Draft, text: string) returns (r: Result<string>)
      requires Valid() && DraftOk(d) && d.class_.UnresolvedGaps? && d.status.Open? && Trim(text) == text && text != ""
      modifies store`records, clock
      ensures Valid() && Evolves(old(View()), View()) && Settles(old(store.records), store.records, {})
      ensures r.Ok? ==>
        && UpsertedOne(old(store.records), store.records, r.value, d, text)
        && r.value in store.records
        && store.records == old(store.records)[r.value := store.records[r.value]]
      ensures r.Err? ==>
        r.error == AlreadyExists && IdTaken(old(store.records).Keys) && store.records == old(store.records)
    {
      hide Inv, Evolves, Settles, OpenGap, UpsertedOne, NewRecord, FirstCandidate, WroteOne, NormalizeNamespace,
          ValidNamespace, Trim;
      var found := FindOpenGap(d.scope, text);
      if found.None? {
        r := InsertGap(d, text);
      } else {
        r := RefreshFoundGap(d, text, found.value);
      }
    }

    method InsertGap(d: Draft, text: string) returns (r: Result<string>)
      requires Valid() && DraftOk(d) && d.class_.UnresolvedGaps? && d.status.Open? && Trim(text) == text && text != ""
      requires FirstCandidate(store.records, d.scope, text, None)
      modifies store`records, clock
      ensures Valid() && Evolves(old(View()), View()) && Settles(old(store.records), store.records, {})
      ensures r.Ok? ==>
        && UpsertedOne(old(store.records), store.records, r.value, d, text)
        && r.value in store.records
        && store.records == old(store.records)[r.value := store.records[r.value]]
      ensures r.Err? ==>
        r.error == AlreadyExists && IdTaken(old(store.records).Keys) && store.records == old(store.records)
    {
      hide Inv, Evolves, Settles, OpenGap, UpsertedOne, NewRecord, FirstCandidate, WroteOne, DraftOk, Trim;
      ghost var before := store.records;
      NoCandidateNoGap(before, d, text);
      var created := CreateRecord(d, text);
      if created.Err? {
        SettlesSelf(before);
        return Err(created.error);
      }
      SettlesAdd(before, created.value);
      InsertedGap(before, store.records, created.value.id, d, text);
      return Ok(created.value.id);
    }

    method RefreshFoundGap(d: Draft, text: string, found: Record) returns (r: Result<string>)
      requires Valid() && FirstCandidate(store.records, d.scope, text, Some(found))
      modifies store`records, clock
      ensures Valid() && Evolves(old(View()), View()) && Settles(old(store.records), store.records, {})
      ensures r.Ok? && UpsertedOne(old(store.records), store.records, r.value, d, text)
      ensures r.value in store.records && store.records == old(store.records)[r.value := store.records[r.value]]
    {
      hide Inv, RecordsOk, SnapshotsOk, Evolves, Settles, UpsertedOne, RefreshGap, FirstCandidate,
        NormalizeRecord, ValidRecord, UsableId, KeyedRecords, KeyedSnapshots;
      ghost var before, since := store.records, clock.last;
      InvParts(View());
      var now := clock.Now();
      var record := RefreshGap(found, text, d.metadata, d.source, now);
      RefreshKeeps(before, store.snapshots, since, found, text, d, now);
      var updated := store.UpdateScopedRecord(record);
      return Ok(updated.value.id);
    }

    // ----- resolving -----

    /** One turn of the loop of resolveByIDs: is the id reported? */
    method ResolveOne(id: string) returns (r: Result<bool>)
      requires Valid()
      modifies store`records, clock
      ensures Valid() && Evolves(old(View()), View())
      ensures r == if UsableId(id) then Ok(Hit(old(store.records), id)) else Err(InvalidId)
      ensures store.records == if UsableId(id) && CanResolve(old(store.records), id)
        then old(store.records)[id := ResolveRecord(old(store.records)[id], clock.last)]
        else old(store.records)
    {
      hide Inv, Evolves, RecordsOk, SnapshotsOk, KeyedRecords, KeyedSnapshots, NormalizeRecord, ValidRecord, UsableId,
          Actionable, RecordOk;
      ghost var view := View();
      InvParts(view);
      WaitKeeps(view, clock.last);
      var record := store.GetScopedRecord(id);
      if record.Err? {
        return if record.error == NotFound then Ok(false) else Err(record.error);
      }
      StoredOk(view, id);
      if record.value.status == Resolved {
        return Ok(true);
      }
      if !Actionable(record.value.class_) {
        return Ok(false);
      }
      ResolveStored(record.value);
      return Ok(true);
    }

    /** Resolve a stored record now; the loops over ids and over texts both end in this. */
    method ResolveStored(record: Record)
      requires Valid() && record.id in store.records && store.records[record.id] == record && Actionable(record.class_)
      modifies store`records, clock
      ensures Valid() && Evolves(old(View()), View())
      ensures store.records == old(store.records)[record.id := ResolveRecord(record, clock.last)]
    {
      hide Inv, Evolves, RecordsOk, SnapshotsOk, KeyedRecords, KeyedSnapshots, NormalizeRecord, ValidRecord, UsableId,
          Actionable;
      ghost var view := View();
      InvParts(view);
      var now := clock.Now();
      ResolveKeeps(view, record.id, now);
      var _ := store.UpdateScopedRecord(ResolveRecord(record, now));
    }

    method ResolveByIds(resolved: seq<string>, ids: seq<string>) returns (r: Result<seq<string>>)
      requires Valid()
      modifies store`records, clock
      ensures Valid() && Evolves(old(View()), View())
      ensures var done := UsablePrefix(Clean(ids));
        && ResolvedExactly(old(store.records), store.records, Resolvable(old(store.records), done), old(clock.last))
        && r == if done == Clean(ids) then Ok(resolved + Hits(old(store.records), done)) else Err(InvalidId)
    {
      hide Inv, Evolves, UsableId, CanResolve, Hit, ResolvedExactly, Hits, Resolvable, UsablePrefix;
      var cleaned := CleanTexts(ids);
      CleanMeaning(ids);
      ghost var view := View();
      WaitKeeps(view, clock.last);
      ResolvedNone(store.records, clock.last);
      NothingYet(store.records);
      assert cleaned[..0] == [];
      var out := resolved;
      for i := 0 to |cleaned|
        invariant Valid() && Evolves(view, View())
        invariant forall j :: 0 <= j < i ==> UsableId(cleaned[j])
        invariant out == resolved + Hits(view.records, cleaned[..i])
        invariant ResolvedExactly(view.records, store.records, Resolvable(view.records, cleaned[..i]), view.clock)
      {
        ResolvableMore(view.records, cleaned, i);
        StillAsBefore(view.records, store.records, Resolvable(view.records, cleaned[..i]), cleaned[i], view.clock);
        ghost var middle := View();
        var hit := ResolveOne(cleaned[i]);
        EvolvesTransitive(view, middle, View());
        if hit.Err? {
          UsablePrefixIs(cleaned, i);
          return Err(hit.error);
        }
        if CanResolve(view.records, cleaned[i]) {
          ResolvableIsThere(view.records, cleaned[i]);
          LaterClock(view, View());
          ResolvedMore(view.records, middle.records, store.records, Resolvable(view.records, cleaned[..i]), cleaned[i],
                       view.clock, clock.last);
        }
        if hit.value {
          out := out + [cleaned[i]];
        }
      }
      assert cleaned[..|cleaned|] == cleaned;
      UsablePrefixIs(cleaned, |cleaned|);
      return Ok(out);
    }

    method ResolveGapsByText(resolved: seq<string>, ns: Namespace, values: seq<string>) returns (r: seq<string>)
      requires Valid() && NormalizeNamespace(ns) == ns && ValidNamespace(ns)
      modifies store`records, clock
      ensures Valid() && Evolves(old(View()), View()) && Settles(old(store.records), store.records, {})
      ensures var targets := OpenGapsWithText(old(store.records), ns, Clean(values));
        && ResolvedExactly(old(store.records), store.records, targets, old(clock.last))
        && resolved <= r && Elems(r[|resolved|..]) == targets
      ensures OpenGapsWithText(store.records, ns, Clean(values)) == {}
    {
      hide Inv, Evolves, RecordsOk, SnapshotsOk, KeyedRecords, KeyedSnapshots, NormalizeNamespace, ValidNamespace,
          NormalizeQuery, Listing,
        ListedGap, ResolvedExactly, Settles, OpenGapsWithText, Sorted, Trim, OpenGap, Actionable, GapIds, CanResolve,
        Hit;
      var texts := CleanTexts(values);
      ghost var view := View();
      InvParts(view);
      WaitKeeps(view, clock.last);
      ResolvedNone(store.records, clock.last);
      if |texts| == 0 {
        NoTextNoGap(view.records, ns);
        SettlesSelf(view.records);
        NoGapWithTextLeft(view.records, view.records, ns, texts, view.clock);
        return resolved;
      }
      BlankTrims(ns);
      var records := ListAllRecords(OpenGapQuery(ns));
      OpenGapListing(view.records, view.clock, ns, records);
      var valueSet := TrimmedSet(texts);
      CleanedTextSet(values);
      assert records[..0] == [];
      NoGapIds(texts);
      r := resolved;
      for i := 0 to |records|
        invariant Valid() && Evolves(view, View())
        invariant ResolvedExactly(view.records, store.records, GapIds(records[..i], texts), view.clock)
        invariant resolved <= r && Elems(r[|resolved|..]) == GapIds(records[..i], texts)
      {
        var record := records[i];
        ListedAt(view.records, ns, records, i);
        TextTrimmed(view.records, view.clock, record);
        GapIdsMore(records, texts, i);
        if Trim(record.text) !in valueSet {
          continue;
        }
        ghost var middle := View();
        StillAsBefore(view.records, store.records, GapIds(records[..i], texts), record.id, view.clock);
        ResolveStored(record);
        EvolvesTransitive(view, middle, View());
        LaterClock(view, View());
        ResolvedMore(view.records, middle.records, store.records, GapIds(records[..i], texts), record.id, view.clock,
                     clock.last);
        ElemsMore(r[|resolved|..], record.id);
        assert (r + [record.id])[|resolved|..] == r[|resolved|..] + [record.id];
        r := r + [record.id];
      }
      assert records[..|records|] == records;
      GapIdsAll(view.records, ns, records, texts);
      OpenGapsSettle(view.records, store.records, ns, texts, view.clock);
      NoGapWithTextLeft(view.records, store.records, ns, texts, view.clock);
    }

    // ----- status updates -----

    method UpdateRecordStatus(recordId: string, status: Status, updatedBy: string,
        reason: string) returns (r: Result<Record>)
      requires Valid()
      modifies store`records, clock
      ensures Valid() && Evolves(old(View()), View()) && Climbs(old(store.records), store.records)
      ensures StatusUpdated(old(View()), View(), recordId, status, updatedBy, reason, r)
    {
      hide Inv, Evolves, Climbs, RecordsOk, SnapshotsOk, KeyedRecords, KeyedSnapshots, NormalizeRecord, ValidRecord,
          UsableId, Actionable,
        MoveRecord, Trim, GeneratedId, Fold;
      ghost var view := View();
      InvParts(view);
      WaitKeeps(view, clock.last);
      ClimbsSelf(store.records);
      var id := Trim(recordId);
      if id == "" {
        return Err(Rejected);
      }
      var found := store.GetScopedRecord(id);
      if found.Err? {
        return Err(found.error);
      }
      var record := found.value;
      StoredOk(view, id);
      if !Actionable(record.class_) {
        return Err(Rejected);
      }
      var target := NormalizeStatus(status);
      if target == NoStatus || !KnownStatus(target) {
        return Err(Rejected);
      }
      TransitionTableClimbs(record.status, target);
      if !AllowedTransition(record.status, target) {
        return Err(Rejected);
      }
      var now := clock.Now();
      MoveKeeps(view, id, target, updatedBy, reason, now);
      r := store.UpdateScopedRecord(MoveRecord(record, target, updatedBy, reason, now));
    }

    // ----- snapshots -----

    /** The checksum of the latest snapshot on the scope's first page, or none. */
    method LatestSnapshotChecksum(ns: Namespace) returns (previous: Checksum)
      requires store.Valid() && NormalizeScope(SnapshotScopeOf(ns)) == SnapshotScopeOf(ns)
      ensures previous == PreviousChecksum(SnapshotListing(store.snapshots, SnapshotScopeOf(ns)))
    {
      hide SnapshotListing, NormalizeScope, LatestOf, KeyedSnapshots;
      var page := store.ListScopedSnapshots(SnapshotQuery(SnapshotScopeOf(ns), MAX_PAGE_SIZE, 0));
      if |page.items| == 0 {
        return NoChecksum;
      }
      var latest := LatestSnapshot(page.items);
      return latest.checksum;
    }

    /** The loop that picks the latest entry of a page. */
    static method LatestSnapshot(listed: seq<Snapshot>) returns (latest: Snapshot)
      requires listed != []
      ensures latest == LatestOf(listed)
    {
      latest := listed[0];
      assert listed[..1] == [latest];
      hide LatestOf;
      for i := 1 to |listed|
        invariant latest == LatestOf(listed[..i])
      {
        LatestOfMore(listed, i);
        if listed[i].createdAt > latest.createdAt {
          latest := listed[i];
        }
      }
      assert listed[..|listed|] == listed;
    }

    method CreateSnapshot(input: SnapshotInput) returns (r: Result<Snapshot>)
      requires Valid()
      modifies store`snapshots, clock
      ensures Valid() && Evolves(old(View()), View())
      ensures SnapshotTaken(old(View()), View(), input, r)
    {
      hide Inv, Evolves, RecordsOk, SnapshotsOk, KeyedRecords, KeyedSnapshots, NormalizeNamespace, ValidNamespace,
          NormalizeScope, NormalizeSnapshot,
        ValidSnapshot, SnapshotOk, UsableId, GeneratedId, BuildSnapshot, CriteriaFor, NormalizeQuery, Listing,
        SnapshotListing, PreviousChecksum, Trim, ComputeChecksum;
      ghost var view := View();
      InvParts(view);
      WaitKeeps(view, clock.last);
      if !ValidNamespace(input.scope) {
        return Err(Rejected);
      }
      var ns := NormalizeNamespace(input.scope);
      ScopeNormal(input.scope);
      var refs := CleanTexts(input.refs);
      CleanTwice(input.refs);
      if |refs| == 0 {
        var records := ListAllRecords(CriteriaFor(input.criteria, ns));
        refs := CleanTexts(IdsOf(records));
        CleanTwice(IdsOf(records));
      }
      var id := NextSnapshotId();
      var now := clock.Now();
      var previous := LatestSnapshotChecksum(ns);
      var snapshot := BuildSnapshot(id, input, refs, previous, now);
      BuiltSnapshot(id, input, refs, previous, now);
      BuiltFields(id, input, refs, previous, now);
      WaitKeeps(view, now);
      if id !in store.snapshots {
        StoreSnapshotKeeps(view, NormalizeSnapshot(snapshot), now);
      }
      r := store.CreateScopedSnapshot(snapshot);
    }

    // ----- persisting notes -----

    /**
      Write the notes of one class: gaps are upserted, everything else is appended. all are the notes of the whole call,
      of which the first ones were written before.
     */
    method NoteClass(ghost start: State, recordIds: seq<string>, draft: Draft, c: MemoryClass, values: seq<string>,
                     ghost notes: seq<Note>, ghost all: seq<Note>)
      returns (r: Result<seq<string>>, ghost written: seq<string>)
      requires Valid() && DraftOk(draft) && !c.OtherClass? && !c.NoClass? && Progress(start, View(), {})
      requires WroteAll(start.records, store.records, recordIds, draft, notes)
      requires Proper(notes) && (c.UnresolvedGaps? ==> NoGaps(notes)) && notes + NotesFor(c, Clean(values)) <= all
      modifies store`records, clock
      ensures Valid() && Progress(start, View(), {})
      ensures var more := notes + NotesFor(c, Clean(values));
        && Proper(more) && (NoGaps(notes) && !c.UnresolvedGaps? ==> NoGaps(more))
        && Ended(r, [], written, |more|, store.records.Keys)
        && (r.Ok? ==> WroteAll(start.records, store.records, r.value, draft, more))
      ensures WroteAll(start.records, store.records, written, draft, all[..|written|])
    {
      hide Inv, Evolves, Settles, Progress, Wrote, Upserted, WroteAll, NormalizeNamespace, ValidNamespace, Trim,
        Untouched, Clean, Proper, NoGaps, NotesFor, IdTaken;
      var d := DraftOf(draft, c);
      DraftOfOk(draft, c);
      ghost var view := View();
      ProperMore(notes, c, values);
      WroteCount(start.records, view.records, recordIds, draft, notes);
      ghost var ids;
      if c == UnresolvedGaps {
        r, ids := UpsertUnresolvedGaps(recordIds, d, values);
        WroteAllThenUpserted(start.records, view.records, store.records, recordIds, ids, draft, notes,
                             Clean(values)[..|ids|]);
      } else {
        r, ids := AppendTextRecords(recordIds, d, values);
        GrownSettles(view.records, store.records, ids, d, Clean(values)[..|ids|]);
        WroteAllThenWrote(start.records, view.records, store.records, recordIds, ids, draft, notes, c,
                          Clean(values)[..|ids|]);
      }
      ProgressStep(start, view, View(), {});
      written := recordIds + ids;
      NotesSoFar(notes, c, Clean(values), |ids|, all);
    }

    /**
      The seven writing steps of PersistNotes: each note has its record, in order, and nothing else changes. When a
      generated id is taken, so far they do.
     */
    method WriteNotes(ghost start: State, draft: Draft, input: NotesInput)
      returns (r: Result<seq<string>>, ghost written: seq<string>)
      requires Valid() && DraftOk(draft) && start == View()
      modifies store`records, clock
      ensures Valid() && Progress(start, View(), {})
      ensures Ended(r, [], written, |NotesOf(input)|, store.records.Keys)
      ensures WroteAll(start.records, store.records, written, draft, NotesOf(input)[..|written|])
    {
      hide Inv, Progress, WroteAll, DraftOk, Clean, AppendIfPresent, NotesOf, NotesFor, Proper, NoGaps, IdTaken;
      NotesInOrder(input);
      ProgressStart(start, {});
      NothingWritten(store.records, draft);
      NoNotes();
      ghost var all := NotesOf(input);
      var ids: seq<string> := [];
      ghost var notes: seq<Note> := [];
      ids, written :-
        NoteClass(start, ids, draft, WorkingContext, AppendIfPresent(input.workingContext, input.note), notes, all);
      notes := notes + NotesFor(WorkingContext, Clean(AppendIfPresent(input.workingContext, input.note)));
      ids, written :- NoteClass(start, ids, draft, PriorCycleSummaries,
                                input.priorCycleSummaries + input.cycleSummaries, notes, all);
      notes := notes + NotesFor(PriorCycleSummaries, Clean(input.priorCycleSummaries + input.cycleSummaries));
      ids, written :- NoteClass(start, ids, draft, CarryForwardRisks, input.carryForwardRisks, notes, all);
      notes := notes + NotesFor(CarryForwardRisks, Clean(input.carryForwardRisks));
      ids, written :- NoteClass(start, ids, draft, UnresolvedGaps, input.unresolvedGaps, notes, all);
      notes := notes + NotesFor(UnresolvedGaps, Clean(input.unresolvedGaps));
      ids, written :- NoteClass(start, ids, draft, BacklogItems, input.backlogItems, notes, all);
      notes := notes + NotesFor(BacklogItems, Clean(input.backlogItems));
      ids, written :- NoteClass(start, ids, draft, ReviewerNotes, input.reviewerNotes, notes, all);
      notes := notes + NotesFor(ReviewerNotes, Clean(input.reviewerNotes));
      ids, written :- NoteClass(start, ids, draft, PolicyExceptions, input.policyExceptions, notes, all);
      notes := notes + NotesFor(PolicyExceptions, Clean(input.policyExceptions));
      return Ok(ids), written;
    }

    /** One call of resolveByIDs within PersistNotes, for list k of those asked for. */
    method ResolveStep(ghost start: State, ghost first: State, out: seq<string>, ids: seq<string>,
                       ghost lists: seq<seq<string>>, ghost k: nat)
      returns (r: Result<seq<string>>)
      requires Valid() && Progress(start, View(), AskedOf(lists)) && Evolves(first, View())
      requires k < |lists| && lists[k] == ids
      requires ResolvedTo(first.records, store.records, lists, k, out, first.clock)
      modifies store`records, clock
      ensures Valid() && Progress(start, View(), AskedOf(lists)) && Evolves(first, View())
      ensures match r
        case Ok(all) => ResolvedTo(first.records, store.records, lists, k + 1, all, first.clock)
        case Err(error) => error == InvalidId && StoppedAt(first.records, store.records, lists, k, first.clock)
    {
      hide Inv, Evolves, Settles, Progress, Hits, Resolvable, ResolvedExactly, UsablePrefix, Clean, ResolvedTo,
        StoppedAt, AskedOf, Elems;
      ghost var view := View();
      LaterClock(first, view);
      r := ResolveByIds(out, ids);
      AskedMore(lists, k);
      ResolveSettles(view.records, store.records, ids, AskedOf(lists), view.clock);
      ProgressStep(start, view, View(), AskedOf(lists));
      EvolvesTransitive(first, view, View());
      ResolvedToMore(first.records, view.records, store.records, lists, k, out, first.clock, view.clock);
    }

    /**
      The six resolving steps of PersistNotes: exactly the asked records and the gaps with a listed text. They stop at
      the first asked id that cannot be a file name.
     */
    method ResolveNotes(ghost start: State, ns: Namespace, input: NotesInput)
      returns (r: Result<seq<string>>, ghost k: nat)
      requires Valid() && Progress(start, View(), {}) && NormalizeNamespace(ns) == ns && ValidNamespace(ns)
      modifies store`records, clock
      ensures Valid() && Progress(start, View(), AskedIds(input)) && Evolves(old(View()), View())
      ensures match r
        case Ok(all) =>
          && UsableLists(AskedLists(input))
          && ResolvedExactly(old(store.records), store.records, ToResolve(old(store.records), ns, input),
                             old(clock.last))
          && Elems(all) == ToReport(old(store.records), ns, input)
        case Err(error) =>
          error == InvalidId && StoppedAt(old(store.records), store.records, AskedLists(input), k, old(clock.last))
    {
      hide Inv, Evolves, Settles, Progress, Clean, AskedOf, OpenGapsWithText, ResolvedExactly, CanAmong, HitsAmong,
        Elems, NormalizeNamespace, ValidNamespace, ResolvedTo, StoppedAt, UsableLists;
      ghost var first, lists := View(), AskedLists(input);
      ProgressWith(start, first, {}, AskedOf(lists));
      WaitKeepsSelf(first);
      ResolvedToNone(store.records, lists, clock.last);
      k := 0;
      var out :- ResolveStep(start, first, [], input.resolvedGapIds, lists, k);
      k := 1;
      out :- ResolveStep(start, first, out, input.resolvedRiskIds, lists, k);
      k := 2;
      out :- ResolveStep(start, first, out, input.resolvedBacklogItemIds, lists, k);
      k := 3;
      out :- ResolveStep(start, first, out, input.resolvedReviewerNoteIds, lists, k);
      k := 4;
      out :- ResolveStep(start, first, out, input.resolvedPolicyExceptionIds, lists, k);
      k := 5;
      ghost var view := View();
      LaterClock(first, view);
      var all := ResolveGapsByText(out, ns, input.resolveUnresolvedGaps);
      SettlesMore(view.records, store.records, {}, AskedOf(lists));
      ProgressStep(start, view, View(), AskedOf(lists));
      EvolvesTransitive(first, view, View());
      AllListsDone(first.records, view.records, store.records, ns, input, out, all, first.clock, view.clock);
      return Ok(all), k;
    }

    /**
      The checkpoint PersistNotes ends with: a snapshot of everything it touched, and a record that refers to it. It
      fails only on a taken id, of the one or of the other.
     */
    method Checkpoint(ghost start: State, n: Namespace, ns: Namespace, input: NotesInput, written: seq<string>,
                      resolved: seq<string>)
      returns (r: Result<Snapshot>, ghost reference: string)
      requires Valid() && ns == NormalizeNamespace(n) && ValidNamespace(n) && KnownStatus(StatusFor(input))
      requires Progress(start, View(), AskedIds(input))
      requires AllStored(store.records, written) && AllStored(store.records, resolved)
      requires (written != [] || resolved != [])
      modifies store, clock
      ensures Valid() && Progress(start, View(), AskedIds(input)) && Evolves(old(View()), View())
      ensures match r
        case Ok(snapshot) => Checked(old(View()), View(), ns, input, written, resolved, snapshot, reference)
        case Err(error) => error == AlreadyExists && Unchecked(old(View()), View(), ns, input, written, resolved)
    {
      hide Inv, Evolves, Settles, Progress, AllStored, DraftOk, Clean, NormalizeSnapshot, BuildSnapshot, IdTaken,
        ComputeChecksum, AskedIds, NormalizeNamespace, ValidNamespace, Trim, SnapshotListing, PreviousChecksum,
        NoSuchGap, RefsFor, KeyedRecords, KeyedSnapshots, NotesDraft, ReferenceDraft, StatusFor;
      ghost var view, excused := View(), AskedIds(input);
      reference := "";
      InvParts(view);
      ScopeNormal(n);
      NotesDraftOk(n, input);
      var draft := NotesDraft(ns, input);
      var snapshotInput := CheckpointInput(ns, input, written, resolved);
      StoredTogether(store.records, written, resolved);
      CleanIds(view, written + resolved);
      RefsGiven(store.records, snapshotInput);
      var created := CreateSnapshot(snapshotInput);
      SettlesSelf(store.records);
      SettlesMore(view.records, store.records, {}, excused);
      ProgressStep(start, view, View(), excused);
      if created.Err? {
        return Err(created.error), reference;
      }
      var snapshot := created.value;
      ghost var middle := View();
      StoredSnapshotId(middle, snapshot.id);
      ghost var previous := PreviousChecksum(SnapshotListing(view.snapshots, SnapshotScopeOf(ns)));
      SnapshotTime(snapshot.id, snapshotInput, written + resolved, previous, clock.last);
      assert Snapped(view, middle, ns, input, written, resolved, snapshot);
      var d := ReferenceDraft(draft, snapshot);
      ReferenceDraftOk(draft, snapshot);
      NoSuchGapTrivially(store.records, d, snapshot.id);
      var made := CreateRecord(d, snapshot.id);
      EvolvesTransitive(view, middle, View());
      assert Snapped(view, View(), ns, input, written, resolved, snapshot);
      if made.Err? {
        ProgressStep(start, middle, View(), excused);
        return Err(made.error), reference;
      }
      reference := made.value.id;
      SettlesAdd(middle.records, made.value);
      SettlesMore(middle.records, store.records, {}, excused);
      ProgressStep(start, middle, View(), excused);
      return Ok(snapshot), reference;
    }

    method PersistNotes(n: Namespace, input: NotesInput) returns (r: Result<NotesResult>)
      requires Valid()
      modifies store, clock
      ensures Valid() && Evolves(old(View()), View()) && Settles(old(store.records), store.records, AskedIds(input))
      ensures NotesPersisted(old(View()), View(), n, input, r)
    {
      hide Inv, Evolves, Settles, Progress, AllStored, Persisted, Checked, Unchecked, DraftOk, Clean, AskedIds, NotesOf,
        WroteAll, ResolvedExactly, ToResolve, ToReport, NormalizeNamespace, ValidNamespace, NotesDraft, StatusFor,
        Elems, Failed, AskedLists, UsableLists, StoppedAt, IdTaken;
      ghost var start, excused := View(), AskedIds(input);
      SettlesSelf(store.records);
      SettlesMore(store.records, store.records, {}, excused);
      WaitKeepsSelf(start);
      var ns := NormalizeNamespace(n);
      if !ValidNamespace(n) {
        return Err(Rejected);
      }
      if !KnownStatus(StatusFor(input)) {
        return Err(Rejected);
      }
      ScopeNormal(n);
      NotesDraftOk(n, input);
      var written, listed := WriteNotes(start, NotesDraft(ns, input), input);
      ProgressOf(start, View(), {}, excused);
      if written.Err? {
        StoppedWriting(start, View(), ns, input, listed);
        return Err(written.error);
      }
      assert NotesOf(input)[..|listed|] == NotesOf(input) && [] + listed == listed;
      ghost var middle := View();
      LaterClock(start, middle);
      var resolved, k := ResolveNotes(start, ns, input);
      ProgressOf(start, View(), excused, excused);
      if resolved.Err? {
        StoppedResolving(start, middle, View(), ns, input, listed, k);
        return Err(resolved.error);
      }
      ghost var done := View();
      ListedStored(start, middle, done, ns, input, written.value, resolved.value, middle.clock);
      var snapshot: Option<Snapshot> := None;
      ghost var reference := "";
      if |written.value| > 0 || |resolved.value| > 0 {
        var made, id := Checkpoint(start, n, ns, input, written.value, resolved.value);
        ProgressOf(start, View(), excused, excused);
        if made.Err? {
          StoppedChecking(start, middle, done, View(), ns, input, written.value, resolved.value);
          return Err(made.error);
        }
        snapshot, reference := Some(made.value), id;
      }
      var recordIds := CleanTexts(written.value);
      var resolvedIds := CleanTexts(resolved.value);
      var out := NotesResult(snapshot, |written.value|, recordIds, resolvedIds);
      ghost var c := Course(written.value, middle.records, resolved.value, done.records, reference);
      CourseTaken(start, middle, done, View(), ns, input, out, c);
      return Ok(out);
    }

    // ----- export -----

    method GetSnapshot(snapshotId: string) returns (r: Result<Snapshot>)
      ensures var id := Trim(snapshotId);
        r == if !UsableId(id) then Err(InvalidId) else if id !in store.snapshots then Err(NotFound)
             else Ok(NormalizeSnapshot(store.snapshots[id]))
    {
      hide Trim, UsableId, NormalizeSnapshot;
      r := store.GetScopedSnapshot(Trim(snapshotId));
    }

    method ExportSnapshot(snapshotId: string) returns (r: Result<SnapshotExport>)
      requires store.Valid()
      ensures var id := Trim(snapshotId);
        if !UsableId(id) then r == Err(InvalidId)
        else if id !in store.snapshots then r == Err(NotFound)
        else
          var s := NormalizeSnapshot(store.snapshots[id]);
          var q := NormalizeQuery(s.criteria);
          if UsablePrefix(s.refs) != s.refs then r == Err(InvalidId)
          else if Present(store.records, s.refs) != [] then r == Ok(SnapshotExport(s, Present(store.records, s.refs)))
          else r == Ok(SnapshotExport(s, From(Listing(store.records, q), q.offset)))
    {
      hide Trim, UsableId, NormalizeSnapshot, NormalizeRecord, NormalizeQuery, Listing, UsablePrefix, KeyedRecords,
          KeyedSnapshots;
      var snapshot :- GetSnapshot(snapshotId);
      var refs := snapshot.refs;
      var records: seq<Record> := [];
      for i := 0 to |refs|
        invariant records == Present(store.records, refs[..i])
        invariant forall j :: 0 <= j < i ==> UsableId(refs[j])
      {
        assert refs[..i + 1][..i] == refs[..i];
        var record := store.GetScopedRecord(refs[i]);
        if record.Err? {
          if record.error == NotFound {
            continue;
          }
          UsablePrefixIs(refs, i);
          return Err(record.error);
        }
        records := records + [record.value];
      }
      assert refs[..|refs|] == refs;
      UsablePrefixIs(refs, |refs|);
      if |records| == 0 {
        records := ListAllRecords(snapshot.criteria);
      }
      return Ok(SnapshotExport(snapshot, records));
    }

    method ExportRun(n: Namespace) returns (r: Result<RunExport>)
      requires Valid()
      modifies clock
      ensures Valid() && Evolves(old(View()), View())
      ensures if !ValidNamespace(n) then r == Err(Rejected)
        else
          var ns := NormalizeNamespace(n);
          && r.Ok?
          && r.value.scope == ns
          && r.value.records == Listing(store.records, RunQuery(ns))
          && r.value.snapshots == SnapshotListing(store.snapshots, SnapshotScopeOf(ns))
          && Tallies(r.value.classCounts, ClassesOf(r.value.records))
          && Tallies(r.value.statusCounts, StatusesOf(r.value.records))
          && Lists(Before, Elems(SnapshotIds(r.value.snapshots)), r.value.snapshotRefs)
          && InOrder(Before, r.value.snapshotChecksums)
          && multiset(r.value.snapshotChecksums) == multiset(ChecksumTexts(r.value.snapshots, hexOf))
          && r.value.generatedAt == clock.last
          && r.value.latestChecksum == HeadChecksum(r.value.snapshots)
    {
      hide Inv, RecordsOk, SnapshotsOk, KeyedRecords, KeyedSnapshots, NormalizeNamespace, ValidNamespace,
          NormalizeScope, NormalizeQuery, Listing, SnapshotListing,
        Tallies, Trim, LatestOf, Increment, Evolves, SortBy, InOrder, Lists, ChecksumTexts;
      ghost var view := View();
      InvParts(view);
      WaitKeeps(view, clock.last);
      if !ValidNamespace(n) {
        return Err(Rejected);
      }
      var ns := NormalizeNamespace(n);
      ScopeNormal(n);
      RunQueryNormal(ns);
      var records := ListAllRecords(RunQuery(ns));
      var snapshots := ListAllSnapshots(SnapshotQuery(SnapshotScopeOf(ns), MAX_PAGE_SIZE, 0));
      ShownChecksums(store.snapshots, clock.last, SnapshotScopeOf(ns));
      var classCounts, statusCounts := CountClassesAndStatuses(records);
      ListedIds(store.snapshots, clock.last, SnapshotScopeOf(ns));
      SortedIds(snapshots);
      var refs, checksums, latest := Manifest(snapshots, hexOf);
      TextsInOrder(ChecksumTexts(snapshots, hexOf));
      var now := clock.Now();
      WaitKeeps(view, now);
      return Ok(RunExport(ns, now, records, snapshots, classCounts, statusCounts, refs, checksums, latest));
    }

    /** The loop over the snapshots: their ids and their checksums, both sorted, and the latest one. */
    static method Manifest(snapshots: seq<Snapshot>, hexOf: Checksum -> string)
      returns (refs: seq<string>, checksums: seq<string>, latest: Checksum)
      requires forall s :: s in snapshots ==> !s.checksum.NoChecksum?
      ensures refs == SortBy(Before, SnapshotIds(snapshots))
      ensures checksums == SortBy(Before, ChecksumTexts(snapshots, hexOf)) && latest == HeadChecksum(snapshots)
    {
      hide SortBy, LatestOf, HeadChecksum;
      refs, checksums := [], [];
      ghost var ids, sums := SnapshotIds(snapshots), ChecksumTexts(snapshots, hexOf);
      var latestAt := 0;
      latest := NoChecksum;
      NoHead(snapshots);
      for i := 0 to |snapshots|
        invariant refs == ids[..i] && checksums == sums[..i]
        invariant latest == HeadChecksum(snapshots[..i])
        invariant i > 0 ==> latest != NoChecksum && latestAt == LatestOf(snapshots[..i]).createdAt
      {
        LatestMore(snapshots, i);
        HeadIs(snapshots[..i]);
        assert snapshots[i] in snapshots;
        refs := refs + [snapshots[i].id];
        checksums := checksums + [hexOf(snapshots[i].checksum)];
        if latest == NoChecksum || snapshots[i].createdAt > latestAt {
          latest, latestAt := snapshots[i].checksum, snapshots[i].createdAt;
        }
      }
      assert snapshots[..|snapshots|] == snapshots && ids[..|ids|] == ids && sums[..|sums|] == sums;
      refs, checksums := SortBy(Before, refs), SortBy(Before, checksums);
    }

    method CountClassesAndStatuses(records: seq<Record>) returns (classCounts: map<MemoryClass, nat>,
        statusCounts: map<Status, nat>)
      ensures Tallies(classCounts, ClassesOf(records)) && Tallies(statusCounts, StatusesOf(records))
    {
      hide Increment, Tallies;
      classCounts, statusCounts := map[], map[];
      TalliesNone<MemoryClass>();
      TalliesNone<Status>();
      ghost var classes, statuses := ClassesOf(records), StatusesOf(records);
      assert classes[..0] == [] && statuses[..0] == [];
      for i := 0 to |records|
        invariant Tallies(classCounts, classes[..i]) && Tallies(statusCounts, statuses[..i])
      {
        TallyMore(classCounts, classes[..i], classes[i]);
        TallyMore(statusCounts, statuses[..i], statuses[i]);
        assert classes[..i + 1] == classes[..i] + [classes[i]];
        assert statuses[..i + 1] == statuses[..i] + [statuses[i]];
        classCounts := Increment(classCounts, records[i].class_);
        statusCounts := Increment(statusCounts, records[i].status);
      }
      assert classes[..|records|] == classes && statuses[..|records|] == statuses;
    }

    // ----- the compact context -----

    /** The texts of one class for the context of a cycle. */
    method FetchClass(ns: Namespace, c: MemoryClass, rule: CompactRule) returns (texts: seq<string>)
      requires Valid() && NormalizeNamespace(ns) == ns && !c.OtherClass?
      ensures DistinctIds(Selected(store.records, ClassQuery(ns, c)))
      ensures texts == Compacted(Selected(store.records, ClassQuery(ns, c)), rule)
    {
      hide Inv, RecordsOk, SnapshotsOk, KeyedSnapshots, NormalizeNamespace, NormalizeQuery, NormalizeRecord, Matches,
          Compacted;
      InvParts(View());
      ClassQueryNormal(ns, c);
      var records := ListAllRecords(ClassQuery(ns, c));
      ListingIsSelected(store.records, ClassQuery(ns, c));
      texts := CompactTexts(records, rule);
    }

    method FetchCompactContext(n: Namespace) returns (r: Result<CompactContext>)
      requires Valid()
      ensures if ValidNamespace(n) then r.Ok? && ContextOf(store.records, NormalizeNamespace(n), r.value)
        else r == Err(Rejected)
    {
      hide Inv, NormalizeNamespace, ValidNamespace, Selected, Compacted, DistinctIds, Trim, RecordsOk, SnapshotsOk;
      if !ValidNamespace(n) {
        return Err(Rejected);
      }
      var ns := NormalizeNamespace(n);
      ScopeNormal(n);
      InvParts(View());
      SelectedDistinct(store.records, ns);
      var rule := CompactRule(ns, DEFAULT_CONTEXT_MAX, false, true);
      var prior := FetchClass(ns, PriorCycleSummaries, CompactRule(ns, PRIOR_SUMMARY_MAX, true, true));
      var risks := FetchClass(ns, CarryForwardRisks, rule);
      var gaps := FetchClass(ns, UnresolvedGaps, rule);
      var backlog := FetchClass(ns, BacklogItems, rule);
      var notes := FetchClass(ns, ReviewerNotes, rule);
      return Ok(CompactContext(prior, risks, gaps, backlog, notes));
    }
  }

  lemma PagedQuery(query: Query)
    ensures 1 <= NormalizeQuery(query).limit <= MAX_PAGE_SIZE && 0 <= NormalizeQuery(query).offset
  {
  }

  lemma NextText(values: seq<string>, i: nat)
    requires i < |Clean(values)|
    ensures Clean(values)[i] !in Clean(values)[..i]
    ensures forall t :: t in Clean(values)[..i] ==> Trim(t) == t
  {
    CleanMeaning(values);
    forall t | t in Clean(values)[..i] ensures Trim(t) == t {
      CleanTrimmed(values, t);
    }
  }

  lemma WroteMore(before: map<string, Record>, middle: map<string, Record>, after: map<string, Record>,
                  ids: seq<string>, d: Draft, texts: seq<string>, id: string, text: string)
    requires Wrote(before, middle, ids, d, texts) && WroteOne(middle, after, id, d, text)
    requires after == middle[id := after[id]]
    ensures Wrote(before, after, ids + [id], d, texts + [text])
  {
    hide NewRecord;
    forall k | 0 <= k < |ids| + 1 ensures WroteOne(before, after, (ids + [id])[k], d, (texts + [text])[k]) {
      if k < |ids| {
        assert WroteOne(before, middle, ids[k], d, texts[k]);
      } else {
        assert id !in before by {
          assert id in before ==> Untouched(before, middle, id);
        }
      }
    }
    forall i | i in before ensures Untouched(before, after, i) {
      assert Untouched(before, middle, i);
    }
  }

  lemma LatestMore(listing: seq<Snapshot>, i: nat)
    requires i < |listing|
    ensures HeadChecksum(listing[..i + 1]) ==
      if i == 0 || listing[i].createdAt > LatestOf(listing[..i]).createdAt then listing[i].checksum
      else LatestOf(listing[..i]).checksum
    ensures LatestOf(listing[..i + 1]).createdAt ==
      if i == 0 || listing[i].createdAt > LatestOf(listing[..i]).createdAt then listing[i].createdAt
      else LatestOf(listing[..i]).createdAt
  {
    assert listing[..i + 1][..i] == listing[..i];
  }

  lemma TextsInOrder(texts: seq<string>)
    ensures InOrder(Before, SortBy(Before, texts)) && multiset(SortBy(Before, texts)) == multiset(texts)
  {
    BeforeTotalOn(Elems(texts));
    SortByInOrder(Before, texts);
  }

  lemma NoHead(listing: seq<Snapshot>)
    ensures HeadChecksum(listing[..0]) == NoChecksum
  {
  }

  lemma HeadIs(listing: seq<Snapshot>)
    ensures listing != [] ==> HeadChecksum(listing) == LatestOf(listing).checksum
  {
  }

  lemma ListedIds(m: map<string, Snapshot>, clock: Time, scope: SnapshotScope)
    requires SnapshotsOk(m, clock)
    ensures var l := SnapshotListing(m, scope);
      Sorted(SnapshotBefore, l) && forall x, y :: x in l && y in l && x.id == y.id ==> x == y
  {
    ShownOk(m, clock, scope);
    hide SnapshotsOk, SnapshotListing, Sorted, HashesItself, MatchesScope;
  }

  lemma ShownChecksums(m: map<string, Snapshot>, clock: Time, scope: SnapshotScope)
    requires SnapshotsOk(m, clock)
    ensures forall s :: s in SnapshotListing(m, scope) ==> !s.checksum.NoChecksum?
  {
    ShownOk(m, clock, scope);
    hide SnapshotsOk, SnapshotListing;
    forall s | s in SnapshotListing(m, scope) ensures !s.checksum.NoChecksum? {
      HasDigest(s);
    }
  }

  lemma SelectedDistinct(m: map<string, Record>, ns: Namespace)
    requires KeyedRecords(m)
    ensures forall c :: DistinctIds(Selected(m, ClassQuery(ns, c)))
  {
    hide NormalizeRecord, Matches;
  }

  /** A listing holds the selected records, each once. */
  lemma ListingIsSelected(m: map<string, Record>, q: Query)
    requires KeyedRecords(m)
    ensures Distinct(Listing(m, q)) && Elems(Listing(m, q)) == Selected(m, q) && DistinctIds(Selected(m, q))
  {
    hide NormalizeRecord, Matches;
    SelectedOrdered(m, q);
    var l := Listing(m, q);
    forall i, j | 0 <= i < j < |l| ensures l[i] != l[j] {
      assert l[j] in Elems(l) && RecordBefore(l[i], l[j]);
      BeforeTotal(l[j].id, l[j].id);
    }
  }
}
