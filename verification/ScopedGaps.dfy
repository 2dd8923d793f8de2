/** The facts behind upserting gaps: which open gap stands for a text, and why there is never a second one. */
module ScopedGaps {
  import opened Wrappers
  import opened Ordering
  import opened Text
  import opened ScopedModel
  import opened ScopedStore
  import opened SnapshotChain
  import opened ScopedRules

  lemma TextTrimmed(m: map<string, Record>, clock: Time, r: Record)
    requires RecordsOk(m, clock) && r.id in m && m[r.id] == r
    ensures Trim(r.text) == r.text
  {
    hide Trim, GapsUnique, GeneratedId, NormalizeClass, NormalizeNamespace, NormalizeStatus, TrimSource;
    assert RecordOk(m[r.id], clock);
    TrimTwice(r.text);
  }

  lemma BlankTrims(ns: Namespace)
    requires NormalizeNamespace(ns) == ns && ValidNamespace(ns)
    ensures ns.repo != "" && ns.run != ""
  {
    hide Trim;
  }

  function OpenGapQuery(ns: Namespace): Query {
    Query(Namespace(ns.repo, ns.run, "", ""), UnresolvedGaps, Open, Source("", "", "", "", ""), MAX_PAGE_SIZE, 0)
  }

  lemma OpenGapQueryNormal(ns: Namespace)
    requires NormalizeNamespace(ns) == ns
    ensures NormalizeQuery(OpenGapQuery(ns)) == OpenGapQuery(ns)
  {
    assert Trim("") == "";
    hide Trim, Fold;
  }

  /** The open gaps of a repository and run. */
  ghost predicate ListedGap(m: map<string, Record>, ns: Namespace, r: Record) {
    r.id in m && m[r.id] == r && OpenGap(r) && r.scope.repo == ns.repo && r.scope.run == ns.run
  }

  lemma OpenGapMatches(r: Record, clock: Time, ns: Namespace)
    requires RecordOk(r, clock) && ns.repo != "" && ns.run != ""
    ensures Matches(r, OpenGapQuery(ns)) <==> OpenGap(r) && r.scope.repo == ns.repo && r.scope.run == ns.run
  {
    hide Trim, NormalizeRecord, ValidRecord, GeneratedId;
  }

  lemma ReadsStored(m: map<string, Record>, clock: Time, r: Record)
    requires RecordsOk(m, clock)
    ensures Reads(m, r) <==> r.id in m && m[r.id] == r
  {
    hide NormalizeRecord, ValidRecord, GeneratedId, GapsUnique;
    assert r.id in m ==> RecordOk(m[r.id], clock);
  }

  /** Listing the open gaps of a repository and run gives them all, oldest first. */
  lemma OpenGapListing(m: map<string, Record>, clock: Time, ns: Namespace, records: seq<Record>)
    requires RecordsOk(m, clock) && NormalizeNamespace(ns) == ns && ns.repo != "" && ns.run != ""
    requires var q := NormalizeQuery(OpenGapQuery(ns)); records == From(Listing(m, q), q.offset)
    ensures Sorted(RecordBefore, records)
    ensures forall r :: r in records <==> ListedGap(m, ns, r)
  {
    OpenGapQueryNormal(ns);
    ListingMeaning(m, OpenGapQuery(ns));
    hide Listing, Matches, RecordOk, Reads, NormalizeNamespace, GapsUnique;
    assert records == Listing(m, OpenGapQuery(ns));
    forall r ensures r in records <==> ListedGap(m, ns, r) {
      ReadsStored(m, clock, r);
      if r.id in m && m[r.id] == r {
        OpenGapMatches(r, clock, ns);
      }
    }
  }

  lemma FirstInListing(m: map<string, Record>, ns: Namespace, text: string, records: seq<Record>, i: nat)
    requires KeyedRecords(m) && Sorted(RecordBefore, records) && i < |records|
    requires forall r :: r in records <==> ListedGap(m, ns, r)
    requires forall j :: 0 <= j < i ==> !GapCandidate(records[j], ns, text)
    requires GapCandidate(records[i], ns, text)
    ensures FirstCandidate(m, ns, text, Some(records[i]))
  {
    assert records[i] in records;
    forall id | id in m && GapCandidate(m[id], ns, text) && id != records[i].id
      ensures RecordBefore(records[i], m[id])
    {
      assert m[id] in records;
      var j :| 0 <= j < |records| && records[j] == m[id];
    }
  }

  lemma NoneInListing(m: map<string, Record>, ns: Namespace, text: string, records: seq<Record>)
    requires KeyedRecords(m)
    requires forall r :: r in records <==> ListedGap(m, ns, r)
    requires forall j :: 0 <= j < |records| ==> !GapCandidate(records[j], ns, text)
    ensures FirstCandidate(m, ns, text, None)
  {
    forall id | id in m ensures !GapCandidate(m[id], ns, text) {
      assert ListedGap(m, ns, m[id]) <==> m[id] in records;
    }
  }

  /** No open gap has this scope and text, or the draft is not an open gap. */
  ghost predicate NoSuchGap(m: map<string, Record>, d: Draft, text: string) {
    d.class_.UnresolvedGaps? && d.status.Open? ==>
      forall id :: id in m && OpenGap(m[id]) && m[id].scope == d.scope ==> m[id].text != Trim(text)
  }

  /** With no candidate there is no open gap with this very scope and text. */
  lemma NoCandidateNoGap(m: map<string, Record>, d: Draft, text: string)
    requires FirstCandidate(m, d.scope, text, None) && Trim(text) == text
    ensures NoSuchGap(m, d, text)
  {
    forall id | id in m && OpenGap(m[id]) && m[id].scope == d.scope ensures m[id].text != Trim(text) {
      assert !GapCandidate(m[id], d.scope, text);
    }
  }

  lemma CreateKeeps(m: map<string, Record>, snapshots: map<string, Snapshot>, clock: Time, id: string, d: Draft,
      text: string, now: Time)
    requires Inv(State(m, snapshots, clock)) && clock <= now && GeneratedId(id)
    requires DraftOk(d) && Trim(text) != "" && NoSuchGap(m, d, text)
    ensures var record := NewRecord(id, d, text, now); var after := m[id := record];
      && NormalizeRecord(record) == record && ValidRecord(record) && UsableId(record.id) && record.id == id
      && record.createdAt == now
      && (id !in m ==>
        && Inv(State(after, snapshots, now)) && Evolves(State(m, snapshots, clock), State(after, snapshots, now))
        && WroteOne(m, after, id, d, text))
  {
    hide RecordOk, RecordEvolves, SnapshotsOk, NormalizeRecord, ValidRecord, UsableId, GapsUnique, GeneratedId,
        DraftOk, Trim,
      NormalizeStatus, NormalizeClass, TrimSource;
    var record := NewRecord(id, d, text, now);
    NewRecordOk(id, d, text, now);
    StoresAsIs(record, now);
    SnapshotsOkLater(snapshots, clock, now);
    if id !in m {
      AddRecordKeeps(m, clock, record, now);
    }
  }

  /** Time passing changes nothing. */
  lemma WaitKeeps(s: State, now: Time)
    requires Inv(s) && s.clock <= now
    ensures Inv(s.(clock := now)) && Evolves(s, s.(clock := now))
  {
    hide RecordOk, SnapshotOk, LinkOk, GapsUnique, RecordEvolves;
    SnapshotsOkLater(s.snapshots, s.clock, now);
    RecordsOkLater(s.records, s.clock, now);
    EvolvesSelf(s.records);
  }

  lemma InsertedGap(before: map<string, Record>, after: map<string, Record>, id: string, d: Draft, text: string)
    requires FirstCandidate(before, d.scope, text, None) && WroteOne(before, after, id, d, text)
    ensures UpsertedOne(before, after, id, d, text)
  {
    hide FirstCandidate, WroteOne;
    assert UpsertedAs(None, before, after, id, d, text);
  }

  lemma RefreshKeeps(m: map<string, Record>, snapshots: map<string, Snapshot>, clock: Time, r: Record, text: string,
      d: Draft, now: Time)
    requires Inv(State(m, snapshots, clock)) && clock <= now
    requires FirstCandidate(m, d.scope, text, Some(r))
    ensures var record := RefreshGap(r, text, d.metadata, d.source, now); var after := m[record.id := record];
      && NormalizeRecord(record) == record && ValidRecord(record) && UsableId(record.id) && record.id in m
      && Inv(State(after, snapshots, now)) && Evolves(State(m, snapshots, clock), State(after, snapshots, now))
      && Settles(m, after, {})
      && UpsertedOne(m, after, record.id, d, text)
  {
    var record := RefreshGap(r, text, d.metadata, d.source, now);
    var after := m[record.id := record];
    hide RecordOk, RecordEvolves, SnapshotsOk, NormalizeRecord, ValidRecord, UsableId, GapsUnique, FillSource, Wants,
        RecordBefore;
    assert RecordOk(m[r.id], clock) && r.text == text && record.id == r.id && record.status == r.status;
    assert UpsertedAs(Some(r), m, after, record.id, d, text);
    hide RefreshGap, RecordsOk, FirstCandidate;
    RefreshGapOk(r, d.metadata, d.source, clock, now);
    StoresAsIs(record, now);
    ReplaceRecordKeeps(m, clock, record, now);
    SnapshotsOkLater(snapshots, clock, now);
  }

  lemma StoresAsIs(r: Record, now: Time)
    requires RecordOk(r, now)
    ensures NormalizeRecord(r) == r && ValidRecord(r) && UsableId(r.id)
  {
    hide NormalizeRecord, ValidRecord, UsableId;
  }

  /** Changing a record with another text, or adding one, leaves the candidates for this text alone. */
  lemma SameCandidates(m: map<string, Record>, n: map<string, Record>, ns: Namespace, text: string,
                       found: Option<Record>)
    requires FirstCandidate(n, ns, text, found)
    requires forall id :: id in m ==> id in n && (m[id] == n[id] || (m[id].text != text && n[id].text != text))
    requires forall id :: id in n && id !in m ==> n[id].text != text
    ensures FirstCandidate(m, ns, text, found)
  {
  }

  lemma UpsertedText(before: map<string, Record>, after: map<string, Record>, id: string, d: Draft, text: string)
    requires UpsertedOne(before, after, id, d, text) && Trim(text) == text
    ensures id in after && after[id].text == text && (id in before ==> before[id].text == text)
  {
    hide Trim, FillSource, NormalizeClass, NormalizeStatus, TrimSource;
  }

  lemma UpsertedKept(before: map<string, Record>, middle: map<string, Record>, after: map<string, Record>, id: string,
      d: Draft, text: string)
    requires UpsertedOne(before, middle, id, d, text) && id in after && id in middle && after[id] == middle[id]
    ensures UpsertedOne(before, after, id, d, text)
  {
    hide NewRecord, RefreshGap, FirstCandidate;
    var found :| FirstCandidate(before, d.scope, text, found) && UpsertedAs(found, before, middle, id, d, text);
    assert UpsertedAs(found, before, after, id, d, text);
  }

  /** The texts touched so far are other texts, so the candidates for this one are still those of the start. */
  lemma CandidatesOfStart(before: map<string, Record>, middle: map<string, Record>, ids: seq<string>, d: Draft,
      texts: seq<string>, text: string, found: Option<Record>)
    requires Upserted(before, middle, ids, d, texts) && text !in texts && forall t :: t in texts ==> Trim(t) == t
    requires FirstCandidate(middle, d.scope, text, found)
    ensures FirstCandidate(before, d.scope, text, found)
  {
    forall k | 0 <= k < |ids|
      ensures ids[k] in middle && middle[ids[k]].text != text && (ids[k] in before ==> before[ids[k]].text != text)
    {
      UpsertedText(before, middle, ids[k], d, texts[k]);
    }
    hide FirstCandidate, UpsertedOne, Trim;
    assert forall id :: id in ids ==>
      id in middle && middle[id].text != text && (id in before ==> before[id].text != text);
    SameCandidates(before, middle, d.scope, text, found);
  }

  lemma UpsertedContains(before: map<string, Record>, after: map<string, Record>, ids: seq<string>, d: Draft,
      texts: seq<string>)
    requires Upserted(before, after, ids, d, texts) && forall t :: t in texts ==> Trim(t) == t
    ensures forall i :: i in before ==> i in after
  {
    hide UpsertedOne, Trim;
    forall i | i in before ensures i in after {
      if i in ids {
        var k :| 0 <= k < |ids| && ids[k] == i;
        assert texts[k] in texts;
        UpsertedText(before, after, ids[k], d, texts[k]);
      } else {
        assert Untouched(before, after, i);
      }
    }
  }

  lemma UpsertedMore(before: map<string, Record>, middle: map<string, Record>, after: map<string, Record>,
                     ids: seq<string>, d: Draft, texts: seq<string>, text: string, id: string)
    requires Upserted(before, middle, ids, d, texts) && text !in texts
    requires Trim(text) == text && forall t :: t in texts ==> Trim(t) == t
    requires UpsertedOne(middle, after, id, d, text) && id in after && after == middle[id := after[id]]
    ensures Upserted(before, after, ids + [id], d, texts + [text])
  {
    hide Trim, UpsertedOne;
    UpsertedContains(before, middle, ids, d, texts);
    UpsertedSinceStart(before, middle, after, ids, d, texts, text, id);
    forall k | 0 <= k < |ids| ensures UpsertedOne(before, after, ids[k], d, texts[k]) {
      UpsertedEarlier(before, middle, after, ids[k], d, texts[k], text, id);
    }
    assert forall k :: 0 <= k < |ids| ==> (ids + [id])[k] == ids[k] && (texts + [text])[k] == texts[k];
  }

  /** The newest upsert, seen from the start. */
  lemma UpsertedSinceStart(before: map<string, Record>, middle: map<string, Record>, after: map<string, Record>,
                           ids: seq<string>, d: Draft, texts: seq<string>, text: string, id: string)
    requires Upserted(before, middle, ids, d, texts) && text !in texts
    requires forall t :: t in texts ==> Trim(t) == t
    requires UpsertedOne(middle, after, id, d, text) && forall i :: i in before ==> i in middle
    ensures UpsertedOne(before, after, id, d, text)
  {
    hide Trim, FirstCandidate, NewRecord, RefreshGap, Upserted;
    var found :| FirstCandidate(middle, d.scope, text, found) && UpsertedAs(found, middle, after, id, d, text);
    CandidatesOfStart(before, middle, ids, d, texts, text, found);
    assert UpsertedAs(found, before, after, id, d, text);
  }

  /** An earlier upsert is not disturbed by a later one for another text. */
  lemma UpsertedEarlier(before: map<string, Record>, middle: map<string, Record>, after: map<string, Record>,
                        earlier: string, d: Draft, earlierText: string, text: string, id: string)
    requires UpsertedOne(before, middle, earlier, d, earlierText) && Trim(earlierText) == earlierText != text
    requires Trim(text) == text
    requires UpsertedOne(middle, after, id, d, text) && id in after && after == middle[id := after[id]]
    ensures UpsertedOne(before, after, earlier, d, earlierText)
  {
    hide Trim, UpsertedOne;
    UpsertedText(before, middle, earlier, d, earlierText);
    UpsertedText(middle, after, id, d, text);
    UpsertedKept(before, middle, after, earlier, d, earlierText);
  }

  /** A listed gap is a candidate when its text, cycle and agent fit. */
  lemma ListedCandidate(m: map<string, Record>, ns: Namespace, text: string, r: Record)
    requires ListedGap(m, ns, r)
    ensures GapCandidate(r, ns, text) <==>
      r.text == text && Wants(ns.cycle, r.scope.cycle) && Wants(ns.agent, r.scope.agent)
    ensures r.id in m && m[r.id] == r
  {
  }
}
