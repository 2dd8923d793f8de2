/** The facts behind resolving records, by id and by text, and behind status updates. */
module ScopedResolve {
  import opened Wrappers
  import opened Ordering
  import opened Text
  import opened ScopedModel
  import opened ScopedStore
  import opened SnapshotChain
  import opened ScopedRules
  import opened ScopedGaps

  lemma StoredOk(s: State, id: string)
    requires Inv(s) && id in s.records
    ensures RecordOk(s.records[id], s.clock) && s.records[id].id == id
    ensures NormalizeRecord(s.records[id]) == s.records[id] && UsableId(id)
  {
    hide GapsUnique, SnapshotsOk, NormalizeRecord, UsableId, ValidRecord;
  }

  lemma ReplaceKeeps(s: State, r: Record, now: Time)
    requires Inv(s) && s.clock <= now && r.id in s.records
    requires RecordOk(r, now) && RecordEvolves(s.records[r.id], r) && (OpenGap(r) ==> OpenGap(s.records[r.id]))
    ensures NormalizeRecord(r) == r && ValidRecord(r) && UsableId(r.id)
    ensures var t := State(s.records[r.id := r], s.snapshots, now); Inv(t) && Evolves(s, t)
  {
    hide RecordOk, RecordEvolves, SnapshotsOk, NormalizeRecord, ValidRecord, UsableId, GapsUnique;
    StoresAsIs(r, now);
    ReplaceRecordKeeps(s.records, s.clock, r, now);
    SnapshotsOkLater(s.snapshots, s.clock, now);
  }

  lemma ResolveKeeps(s: State, id: string, now: Time)
    requires Inv(s) && s.clock <= now && id in s.records && Actionable(s.records[id].class_)
    ensures var r := ResolveRecord(s.records[id], now); var t := State(s.records[id := r], s.snapshots, now);
      && NormalizeRecord(r) == r && ValidRecord(r) && UsableId(r.id) && r.id == id
      && Inv(t) && Evolves(s, t)
  {
    hide Inv, RecordOk, RecordEvolves, NormalizeRecord, ValidRecord, UsableId, Evolves, Actionable;
    StoredOk(s, id);
    ResolveRecordOk(s.records[id], s.clock, now);
    ReplaceKeeps(s, ResolveRecord(s.records[id], now), now);
  }

  lemma MoveKeeps(s: State, id: string, target: Status, updatedBy: string, reason: string, now: Time)
    requires Inv(s) && s.clock <= now && id in s.records && Actionable(s.records[id].class_)
    requires KnownStatus(target) && AllowedTransition(s.records[id].status, target)
    ensures var r := MoveRecord(s.records[id], target, updatedBy, reason, now);
      var t := State(s.records[id := r], s.snapshots, now);
      && NormalizeRecord(r) == r && ValidRecord(r) && UsableId(r.id) && r.id == id
      && Inv(t) && Evolves(s, t) && Climbs(s.records, t.records)
  {
    hide Inv, RecordOk, RecordEvolves, NormalizeRecord, ValidRecord, UsableId, Evolves, Actionable;
    StoredOk(s, id);
    var r := MoveRecord(s.records[id], target, updatedBy, reason, now);
    MoveRecordOk(s.records[id], target, updatedBy, reason, s.clock, now);
    assert OpenGap(r) ==> OpenGap(s.records[id]);
    ReplaceKeeps(s, r, now);
  }

  /** What updating a status answers and leaves behind, whatever it is asked. */
  ghost predicate StatusUpdated(s: State, t: State, recordId: string, status: Status, updatedBy: string,
                                reason: string, r: Result<Record>)
  {
    var id, target, m := Trim(recordId), NormalizeStatus(status), s.records;
    && t.snapshots == s.snapshots
    && if id == "" then r == Err(Rejected) && t.records == m
       else if !UsableId(id) then r == Err(InvalidId) && t.records == m
       else if id !in m then r == Err(NotFound) && t.records == m
       else if Actionable(m[id].class_) && KnownStatus(target) && Rank(m[id].status) <= Rank(target)
       then r == Ok(MoveRecord(m[id], target, updatedBy, reason, t.clock)) && t.records == m[id := r.value]
       else r == Err(Rejected) && t.records == m
  }

  lemma ResolvedNone(m: map<string, Record>, since: Time)
    ensures ResolvedExactly(m, m, {}, since)
  {
  }

  lemma NothingYet(m: map<string, Record>)
    ensures Resolvable(m, []) == {} && Hits(m, []) == []
  {
  }

  /** One more record resolved. */
  lemma ResolvedMore(before: map<string, Record>, middle: map<string, Record>, after: map<string, Record>,
                     changed: set<string>, id: string, since: Time, now: Time)
    requires ResolvedExactly(before, middle, changed, since) && id in before && id !in changed && since <= now
    requires after == middle[id := ResolveRecord(middle[id], now)]
    ensures ResolvedExactly(before, after, changed + {id}, since)
  {
  }

  /** Resolving lets no status move down except from superseded or archived to resolved. */
  lemma ResolvedSettles(before: map<string, Record>, after: map<string, Record>, changed: set<string>, since: Time)
    requires ResolvedExactly(before, after, changed, since)
    ensures Settles(before, after, changed)
    ensures forall id :: id in changed && id in before ==> id in after && after[id].status.Resolved?
    ensures (forall id :: id in changed && id in before ==> Rank(before[id].status) <= 1) ==> Settles(before, after, {})
  {
  }

  /** A record not among the changed ones is still as it was. */
  lemma StillAsBefore(before: map<string, Record>, after: map<string, Record>, changed: set<string>, id: string,
                      since: Time)
    requires ResolvedExactly(before, after, changed, since) && id !in changed
    ensures (id in after <==> id in before) && (id in before ==> after[id] == before[id])
    ensures (CanResolve(after, id) <==> CanResolve(before, id)) && (Hit(after, id) <==> Hit(before, id))
  {
    hide Actionable;
  }

  lemma ResolvableMore(m: map<string, Record>, ids: seq<string>, i: nat)
    requires i < |ids| && Distinct(ids)
    ensures ids[i] !in Resolvable(m, ids[..i])
    ensures Resolvable(m, ids[..i + 1])
      == if CanResolve(m, ids[i]) then Resolvable(m, ids[..i]) + {ids[i]} else Resolvable(m, ids[..i])
    ensures Hits(m, ids[..i + 1]) == if Hit(m, ids[i]) then Hits(m, ids[..i]) + [ids[i]] else Hits(m, ids[..i])
  {
    hide Actionable, Hit;
    assert ids[..i + 1] == ids[..i] + [ids[i]];
    assert ids[..i + 1][..i] == ids[..i];
  }

  lemma UsablePrefixIs(ids: seq<string>, n: nat)
    requires n <= |ids| && (forall i :: 0 <= i < n ==> UsableId(ids[i])) && (n < |ids| ==> !UsableId(ids[n]))
    ensures UsablePrefix(ids) == ids[..n]
  {
    hide UsableId;
    var p := |UsablePrefix(ids)|;
    assert p < |ids| ==> !UsableId(ids[p]);
  }

  lemma ResolvableIsThere(m: map<string, Record>, id: string)
    requires CanResolve(m, id)
    ensures id in m
  {
  }

  lemma LaterClock(s: State, t: State)
    requires Evolves(s, t)
    ensures s.clock <= t.clock
  {
  }

  // ----- by text -----

  lemma NoTextNoGap(m: map<string, Record>, ns: Namespace)
    ensures OpenGapsWithText(m, ns, []) == {}
  {
  }

  /** The ids of the listed records with one of the texts. */
  ghost function GapIds(records: seq<Record>, texts: seq<string>): set<string> {
    set r | r in records && r.text in texts :: r.id
  }

  lemma NoGapIds(texts: seq<string>)
    ensures GapIds([], texts) == {}
  {
  }

  function TrimmedSet(texts: seq<string>): set<string> {
    set text | text in texts :: Trim(text)
  }

  lemma CleanedTextSet(values: seq<string>)
    ensures TrimmedSet(Clean(values)) == Elems(Clean(values))
  {
    hide Clean;
    forall text | text in Clean(values) ensures Trim(text) == text {
      CleanTrimmed(values, text);
    }
  }

  lemma CleanTrimmed(values: seq<string>, text: string)
    requires text in Clean(values)
    ensures Trim(text) == text && text != ""
  {
    CleanMeaning(values);
    var v :| v in values && Trim(v) == text;
    TrimTwice(v);
  }

  /** Entry i of the listing of open gaps is stored, is an open gap, and its id appears only there. */
  lemma ListedAt(m: map<string, Record>, ns: Namespace, records: seq<Record>, i: nat)
    requires i < |records| && Sorted(RecordBefore, records)
    requires forall r :: r in records <==> ListedGap(m, ns, r)
    ensures var r := records[i]; r.id in m && m[r.id] == r && OpenGap(r) && Actionable(r.class_)
    ensures forall j :: 0 <= j < i ==> records[j].id != records[i].id
  {
    assert ListedGap(m, ns, records[i]) by {
      assert records[i] in records;
    }
    forall j | 0 <= j < i ensures records[j].id != records[i].id {
      assert records[j] in records;
      assert ListedGap(m, ns, records[j]) && RecordBefore(records[j], records[i]);
      BeforeTotal(records[i].id, records[i].id);
    }
  }

  lemma GapIdsMore(records: seq<Record>, texts: seq<string>, i: nat)
    requires i < |records| && forall j :: 0 <= j < i ==> records[j].id != records[i].id
    ensures records[i].id !in GapIds(records[..i], texts)
    ensures GapIds(records[..i + 1], texts) ==
      if records[i].text in texts then GapIds(records[..i], texts) + {records[i].id} else GapIds(records[..i], texts)
  {
    assert records[..i + 1] == records[..i] + [records[i]];
    assert forall r :: r in records[..i + 1] <==> r in records[..i] || r == records[i];
  }

  lemma GapIdsAll(m: map<string, Record>, ns: Namespace, records: seq<Record>, texts: seq<string>)
    requires KeyedRecords(m) && forall r :: r in records <==> ListedGap(m, ns, r)
    ensures GapIds(records, texts) == OpenGapsWithText(m, ns, texts)
  {
    forall id ensures id in GapIds(records, texts) <==> id in OpenGapsWithText(m, ns, texts) {
      if id in OpenGapsWithText(m, ns, texts) {
        assert ListedGap(m, ns, m[id]);
      }
    }
  }

  lemma OpenGapsSettle(before: map<string, Record>, after: map<string, Record>, ns: Namespace, texts: seq<string>,
      since: Time)
    requires ResolvedExactly(before, after, OpenGapsWithText(before, ns, texts), since)
    ensures Settles(before, after, {})
  {
    ResolvedSettles(before, after, OpenGapsWithText(before, ns, texts), since);
  }

  // ----- resolving in several steps -----

  lemma CanNone(m: map<string, Record>, since: Time)
    ensures ResolvedExactly(m, m, CanAmong(m, {}), since) && HitsAmong(m, {}) == {}
  {
  }

  lemma ResolvableIsCan(m: map<string, Record>, ids: seq<string>)
    ensures Resolvable(m, ids) == CanAmong(m, Elems(ids))
  {
    hide CanResolve;
  }

  lemma {:induction false} HitsElems(m: map<string, Record>, ids: seq<string>)
    ensures Elems(Hits(m, ids)) == HitsAmong(m, Elems(ids))
  {
    hide Actionable;
    if ids == [] {
      ElemsEmpty<string>();
      assert HitsAmong(m, {}) == {} && Hits(m, ids) == [] && Elems(ids) == {};
    } else {
      var front, id := ids[..|ids| - 1], ids[|ids| - 1];
      HitsElems(m, front);
      ElemsMore(front, id);
      assert ids == front + [id];
      ElemsMore(Hits(m, front), id);
    }
  }

  lemma HitsBoth(m: map<string, Record>, a: set<string>, b: set<string>)
    ensures HitsAmong(m, a + b) == HitsAmong(m, a) + HitsAmong(m, b)
  {
    hide Hit;
  }

  lemma ResolvedEarlier(before: map<string, Record>, after: map<string, Record>, changed: set<string>, since: Time,
                        earlier: Time)
    requires ResolvedExactly(before, after, changed, since) && earlier <= since
    ensures ResolvedExactly(before, after, changed, earlier)
  {
  }

  /** Resolving more ids after some: what is resolved already does not change again, and is reported again. */
  lemma ResolvedMoreIds(first: map<string, Record>, view: map<string, Record>, after: map<string, Record>,
      asked: set<string>, more: set<string>, since: Time, later: Time)
    requires ResolvedExactly(first, view, CanAmong(first, asked), since)
    requires ResolvedExactly(view, after, CanAmong(view, more), later) && since <= later
    ensures ResolvedExactly(first, after, CanAmong(first, asked + more), since)
    ensures HitsAmong(view, more) == HitsAmong(first, more)
  {
    hide Actionable;
  }

  /** Resolving the open gaps with some of the texts after some ids. */
  lemma ResolvedMoreGaps(first: map<string, Record>, view: map<string, Record>, after: map<string, Record>,
      asked: set<string>, ns: Namespace, texts: seq<string>, since: Time, later: Time)
    requires ResolvedExactly(first, view, CanAmong(first, asked), since)
    requires ResolvedExactly(view, after, OpenGapsWithText(view, ns, texts), later) && since <= later
    ensures ResolvedExactly(first, after, CanAmong(first, asked) + OpenGapsWithText(first, ns, texts), since)
    ensures HitsAmong(first, asked) + OpenGapsWithText(view, ns, texts)
      == HitsAmong(first, asked) + OpenGapsWithText(first, ns, texts)
  {
    forall id | id in first && id in asked && CanResolve(first, id)
      ensures Hit(first, id) && view[id].status.Resolved?
    {
      assert id in CanAmong(first, asked);
    }
    forall id | id in first && !(id in asked && CanResolve(first, id)) ensures view[id] == first[id] {
      assert id !in CanAmong(first, asked);
    }
    hide Actionable;
  }
}
