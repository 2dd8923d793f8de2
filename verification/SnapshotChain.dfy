/**
  The hash-linked chain of snapshots. Each new snapshot carries the checksum of the latest snapshot that
  its scope shows at that moment, found in one page of at most 500 entries, oldest first.
 */
module SnapshotChain {
  import opened Ordering
  import opened Text
  import opened ScopedModel
  import opened ScopedStore

  /** The loop of latestSnapshotForScope: a later entry replaces the current one only if it is strictly younger. */
  function LatestOf(listing: seq<Snapshot>): (latest: Snapshot)
    requires listing != []
    ensures latest in listing
  {
    var n := |listing| - 1;
    if n == 0 then listing[0]
    else
      var latest := LatestOf(listing[..n]);
      if listing[n].createdAt > latest.createdAt then listing[n] else latest
  }

  /** One turn of that loop. */
  lemma LatestOfMore(listing: seq<Snapshot>, i: nat)
    requires 0 < i < |listing|
    ensures var latest := LatestOf(listing[..i]);
      LatestOf(listing[..i + 1]) == if listing[i].createdAt > latest.createdAt then listing[i] else latest
  {
    assert listing[..i + 1][..i] == listing[..i];
  }

  /** The checksum the next snapshot of a scope will point back to, given the scope's listing. */
  function PreviousChecksum(listing: seq<Snapshot>): Checksum {
    if listing == [] then NoChecksum else LatestOf(listing[..Min(MAX_PAGE_SIZE, |listing|)]).checksum
  }

  // ----- the invariant -----

  /** The stored checksum is the hash of the stored snapshot, up to the page limit saved with the criteria. */
  ghost predicate HashesItself(s: Snapshot) {
    s.checksum == ComputeChecksum(s) || s.checksum == ComputeChecksum(s.(criteria := s.criteria.(limit := 0)))
  }

  ghost predicate SnapshotOk(s: Snapshot, clock: Time) {
    && NormalizeSnapshot(s) == s && GeneratedId(s.id) && HashesItself(s)
    && s.scope.repo != "" && s.scope.run != ""
    && 0 < s.createdAt <= clock
  }

  ghost function Older(m: map<string, Snapshot>, time: Time): map<string, Snapshot> {
    map id | id in m && m[id].createdAt < time :: m[id]
  }

  /** No other snapshot that the scope of s shows was made at the same instant. */
  ghost predicate Untied(m: map<string, Snapshot>, s: Snapshot) {
    forall id :: id in m && id != s.id && MatchesScope(m[id], s.scope) ==> m[id].createdAt != s.createdAt
  }

  /** The snapshots older than s that the scope of s shows. */
  ghost function Earlier(m: map<string, Snapshot>, s: Snapshot): seq<Snapshot>
    requires KeyedSnapshots(m)
  {
    SnapshotListing(Older(m, s.createdAt), s.scope)
  }

  /**
    Ties or not, a link points to another stored snapshot that the scope shows and that is no younger; a blank one
    means that the scope shows none that is older.
   */
  ghost predicate PointsBack(m: map<string, Snapshot>, s: Snapshot) {
    if s.previous.NoChecksum? then forall id :: id in m && MatchesScope(m[id], s.scope) ==>
      s.createdAt <= m[id].createdAt
    else exists id :: id in m && id != s.id && LinksTo(s, m[id])
  }

  ghost predicate LinksTo(s: Snapshot, e: Snapshot) {
    MatchesScope(e, s.scope) && e.createdAt <= s.createdAt && e.checksum == s.previous
  }

  ghost predicate LinkOk(m: map<string, Snapshot>, s: Snapshot)
    requires KeyedSnapshots(m)
  {
    PointsBack(m, s) && (Untied(m, s) ==> s.previous == PreviousChecksum(Earlier(m, s)))
  }

  ghost predicate SnapshotsOk(m: map<string, Snapshot>, clock: Time) {
    && KeyedSnapshots(m)
    && (forall id :: id in m ==> SnapshotOk(m[id], clock))
    && (forall id :: id in m ==> LinkOk(m, m[id]))
  }

  lemma SameSelectionSameListing(m: map<string, Snapshot>, n: map<string, Snapshot>, scope: SnapshotScope)
    requires KeyedSnapshots(m) && KeyedSnapshots(n)
    requires SelectedSnapshots(m, scope) == SelectedSnapshots(n, scope)
    ensures SnapshotListing(m, scope) == SnapshotListing(n, scope)
  {
    hide NormalizeSnapshot, MatchesScope;
  }

  /** The snapshots that are stored and that the scope shows. */
  ghost predicate Shown(m: map<string, Snapshot>, scope: SnapshotScope, s: Snapshot) {
    s.id in m && m[s.id] == s && MatchesScope(s, scope)
  }

  lemma ScopeMembers(m: map<string, Snapshot>, scope: SnapshotScope)
    requires KeyedSnapshots(m) && forall id :: id in m ==> NormalizeSnapshot(m[id]) == m[id]
    ensures Sorted(SnapshotBefore, SnapshotListing(m, scope))
    ensures forall s :: s in SnapshotListing(m, scope) <==> Shown(m, scope, s)
  {
    hide NormalizeSnapshot, MatchesScope, SnapshotListing;
    SnapshotListingMeaning(m, scope);
    forall s ensures s in SnapshotListing(m, scope) <==> Shown(m, scope, s) {
      assert s in SnapshotListing(m, scope) <==> ReadsSnapshot(m, s) && MatchesScope(s, scope);
    }
  }

  lemma ShownOk(m: map<string, Snapshot>, clock: Time, scope: SnapshotScope)
    requires SnapshotsOk(m, clock)
    ensures Sorted(SnapshotBefore, SnapshotListing(m, scope))
    ensures forall s :: s in SnapshotListing(m, scope) <==> Shown(m, scope, s)
    ensures forall s :: s in SnapshotListing(m, scope) ==> s.id in m && m[s.id] == s && HashesItself(s)
  {
    hide NormalizeSnapshot, MatchesScope, SnapshotListing, HashesItself, LinkOk, GeneratedId;
    ScopeMembers(m, scope);
  }

  lemma NewLinkOk(m: map<string, Snapshot>, s: Snapshot)
    requires KeyedSnapshots(m) && s.id !in m && s.previous == PreviousChecksum(SnapshotListing(m, s.scope))
    requires forall id :: id in m ==>
      m[id].createdAt <= s.createdAt && NormalizeSnapshot(m[id]) == m[id] && HashesItself(m[id])
    ensures LinkOk(m[s.id := s], s)
  {
    hide NormalizeSnapshot, MatchesScope, PreviousChecksum, SnapshotListing, HashesItself, PointsBack;
    var n := m[s.id := s];
    NewPointsBack(m, s);
    if Untied(n, s) {
      var older := Older(n, s.createdAt);
      forall id ensures id in older && MatchesScope(older[id], s.scope) <==> id in m && MatchesScope(m[id], s.scope) {
        assert id in m && MatchesScope(m[id], s.scope) ==> n[id] == m[id] && id != s.id;
      }
      assert SelectedSnapshots(older, s.scope) == SelectedSnapshots(m, s.scope) by {
        assert forall id :: id in older ==> id in m && older[id] == m[id];
      }
      SameSelectionSameListing(older, m, s.scope);
    }
  }

  lemma NewPointsBack(m: map<string, Snapshot>, s: Snapshot)
    requires KeyedSnapshots(m) && s.id !in m && s.previous == PreviousChecksum(SnapshotListing(m, s.scope))
    requires forall id :: id in m ==>
      m[id].createdAt <= s.createdAt && NormalizeSnapshot(m[id]) == m[id] && HashesItself(m[id])
    ensures PointsBack(m[s.id := s], s)
  {
    hide NormalizeSnapshot, MatchesScope, SnapshotListing, HashesItself, Sorted;
    var n, l := m[s.id := s], SnapshotListing(m, s.scope);
    ScopeMembers(m, s.scope);
    if l == [] {
      forall id | id in m ensures !MatchesScope(m[id], s.scope) {
        assert m[id] !in l;
      }
    } else {
      var latest := LatestOf(l[..Min(MAX_PAGE_SIZE, |l|)]);
      assert latest in l;
      HasDigest(latest);
      assert latest.id in n && LinksTo(s, n[latest.id]);
    }
  }

  lemma OldPointsBack(m: map<string, Snapshot>, s: Snapshot, e: Snapshot)
    requires s.id !in m && e.createdAt <= s.createdAt && PointsBack(m, e)
    ensures PointsBack(m[s.id := s], e)
  {
    hide MatchesScope;
    var n := m[s.id := s];
    if !e.previous.NoChecksum? {
      var id :| id in m && id != e.id && LinksTo(e, m[id]);
      assert id in n && n[id] == m[id];
    }
  }

  lemma OldLinkOk(m: map<string, Snapshot>, s: Snapshot, e: Snapshot)
    requires KeyedSnapshots(m) && s.id !in m && e.createdAt <= s.createdAt && LinkOk(m, e)
    ensures LinkOk(m[s.id := s], e)
  {
    hide MatchesScope, PreviousChecksum, SnapshotListing, PointsBack;
    var n := m[s.id := s];
    OldPointsBack(m, s, e);
    assert Older(n, e.createdAt) == Older(m, e.createdAt);
    if Untied(n, e) {
      forall id | id in m && id != e.id && MatchesScope(m[id], e.scope) ensures m[id].createdAt != e.createdAt {
        assert id in n && n[id] == m[id];
      }
    }
  }

  /** Adding a snapshot that points back the way the service does keeps every link of the store right. */
  lemma AddSnapshotKeeps(m: map<string, Snapshot>, clock: Time, s: Snapshot)
    requires SnapshotsOk(m, clock) && clock <= s.createdAt && s.id !in m
    requires SnapshotOk(s, s.createdAt) && s.previous == PreviousChecksum(SnapshotListing(m, s.scope))
    ensures SnapshotsOk(m[s.id := s], s.createdAt)
  {
    hide NormalizeSnapshot, HashesItself, GeneratedId, LinkOk, SnapshotListing;
    NewLinkOk(m, s);
    forall id | id in m ensures LinkOk(m[s.id := s], m[id]) {
      OldLinkOk(m, s, m[id]);
    }
  }

  lemma SnapshotsOkLater(m: map<string, Snapshot>, clock: Time, later: Time)
    requires SnapshotsOk(m, clock) && clock <= later
    ensures SnapshotsOk(m, later)
  {
    hide NormalizeSnapshot, MatchesScope, HashesItself, GeneratedId, LinkOk;
  }

  // ----- which snapshot a link points to -----

  lemma {:induction false} LatestOfSorted(listing: seq<Snapshot>)
    requires listing != [] && Sorted(SnapshotBefore, listing)
    ensures LatestOf(listing).createdAt == listing[|listing| - 1].createdAt
    ensures LatestOf(listing) == listing[|listing| - 1] <==>
      |listing| == 1 || listing[|listing| - 2].createdAt < listing[|listing| - 1].createdAt
  {
    var n := |listing| - 1;
    if n > 0 {
      LatestOfSorted(listing[..n]);
      assert SnapshotBefore(listing[n - 1], listing[n]);
      var latest := LatestOf(listing[..n]);
      assert latest in listing[..n];
      assert latest != listing[n] by {
        var i :| 0 <= i < n && listing[i] == latest;
        assert SnapshotBefore(listing[i], listing[n]);
        BeforeTotal(listing[n].id, listing[n].id);
      }
    }
  }

  /** The latest of a page is the latest of all exactly while no later entry is younger. */
  lemma LatestOfPage(l: seq<Snapshot>, n: nat)
    requires Sorted(SnapshotBefore, l) && 0 < n <= |l|
    ensures LatestOf(l[..n]) in l && LatestOf(l) in l
    ensures LatestOf(l[..n]) == LatestOf(l) <==> l[|l| - 1].createdAt == l[n - 1].createdAt
  {
    hide LatestOf, Sorted;
    SortedPrefix(l, n);
    LatestTime(l);
    LatestTime(l[..n]);
    assert LatestOf(l[..n]) in l[..n];
    if l[|l| - 1].createdAt == l[n - 1].createdAt {
      NoneYounger(l);
      LatestStays(l, n);
    }
  }

  lemma SortedPrefix(l: seq<Snapshot>, n: nat)
    requires Sorted(SnapshotBefore, l) && n <= |l|
    ensures Sorted(SnapshotBefore, l[..n])
  {
    hide SnapshotBefore;
  }

  lemma LatestTime(l: seq<Snapshot>)
    requires Sorted(SnapshotBefore, l) && l != []
    ensures LatestOf(l).createdAt == l[|l| - 1].createdAt
  {
    hide LatestOf, Sorted;
    LatestOfSorted(l);
  }

  lemma {:induction false} LatestStays(l: seq<Snapshot>, n: nat)
    requires 0 < n <= |l| && forall x :: x in l ==> x.createdAt <= LatestOf(l[..n]).createdAt
    ensures LatestOf(l[..n]) == LatestOf(l)
  {
    var k := |l| - 1;
    if n == |l| {
      assert l[..n] == l;
    } else {
      hide LatestOf;
      assert l[..k][..n] == l[..n] && l[..k + 1] == l;
      assert l[k] in l && forall x :: x in l[..k] ==> x in l;
      LatestStays(l[..k], n);
      LatestOfMore(l, k);
    }
  }

  lemma NoneYounger(l: seq<Snapshot>)
    requires Sorted(SnapshotBefore, l) && l != []
    ensures forall x :: x in l ==> x.createdAt <= l[|l| - 1].createdAt
  {
    hide Before;
    forall x | x in l ensures x.createdAt <= l[|l| - 1].createdAt {
      var i :| 0 <= i < |l| && l[i] == x;
      assert i < |l| - 1 ==> SnapshotBefore(l[i], l[|l| - 1]);
    }
  }

  lemma ChecksumsTellApart(a: Snapshot, b: Snapshot)
    requires HashesItself(a) && HashesItself(b) && a.id != b.id
    ensures a.checksum != b.checksum
  {
  }

  /**
    Whatever a scope shows, the next snapshot points back to its newest entry exactly when the listing fits
    in one page and the newest entry is strictly younger than the one before it.
   */
  lemma NextLinkExact(m: map<string, Snapshot>, clock: Time, scope: SnapshotScope)
    requires SnapshotsOk(m, clock)
    ensures var l := SnapshotListing(m, scope);
      l != [] ==> (PreviousChecksum(l) == l[|l| - 1].checksum <==>
        |l| <= MAX_PAGE_SIZE && (|l| == 1 || l[|l| - 2].createdAt < l[|l| - 1].createdAt))
  {
    ShownOk(m, clock, scope);
    hide SnapshotsOk, HashesItself, SnapshotListing, Shown, PreviousChecksum;
    var l := SnapshotListing(m, scope);
    if l != [] {
      forall a, b | a in l && b in l && a != b ensures a.checksum != b.checksum {
        ChecksumsTellApart(a, b);
      }
      PreviousChecksumExact(l);
    }
  }

  lemma PreviousChecksumExact(l: seq<Snapshot>)
    requires l != [] && Sorted(SnapshotBefore, l)
    requires forall a, b :: a in l && b in l && a != b ==> a.checksum != b.checksum
    ensures PreviousChecksum(l) == l[|l| - 1].checksum <==>
      |l| <= MAX_PAGE_SIZE && (|l| == 1 || l[|l| - 2].createdAt < l[|l| - 1].createdAt)
  {
    var page := l[..Min(MAX_PAGE_SIZE, |l|)];
    LatestOfSorted(page);
    var latest, newest := LatestOf(page), l[|l| - 1];
    assert latest in page && latest in l && newest in l;
    if latest == newest {
      OneEntry(l, |page| - 1, |l| - 1, page);
    }
  }

  /** In a sorted listing the last entry appears only at the end. */
  lemma OneEntry(l: seq<Snapshot>, p: int, n: int, page: seq<Snapshot>)
    requires l != [] && Sorted(SnapshotBefore, l) && n == |l| - 1 && 0 <= p <= n && page == l[..p + 1]
    requires l[n] in page
    ensures p == n
  {
    var i :| 0 <= i < |page| && page[i] == l[n];
    assert page[i] == l[i];
    BeforeTotal(l[n].id, l[n].id);
  }

  // ----- the chain of one cycle -----

  /** The first entry points nowhere, each later one to its immediate predecessor. */
  ghost predicate Linked(l: seq<Snapshot>) {
    forall i :: 0 <= i < |l| ==> l[i].previous == ChecksumBefore(l, i)
  }

  /** The checksum of the entry just before position i. */
  function ChecksumBefore(l: seq<Snapshot>, i: int): Checksum {
    if 0 < i <= |l| then l[i - 1].checksum else NoChecksum
  }

  ghost predicate StrictTimes(l: seq<Snapshot>) {
    forall i, j :: 0 <= i < j < |l| ==> l[i].createdAt < l[j].createdAt
  }

  ghost predicate CycleScope(scope: SnapshotScope) {
    scope.repo != "" && scope.run != "" && scope.cycle != ""
  }

  lemma {:induction false} LatestOfStrict(l: seq<Snapshot>)
    requires l != [] && StrictTimes(l)
    ensures LatestOf(l) == l[|l| - 1]
  {
    var n := |l| - 1;
    if n > 0 {
      LatestOfStrict(l[..n]);
    }
  }

  /** A strictly increasing listing, cut before entry i, is the sorted sequence of its entries older than entry i. */
  lemma CutAt(l: seq<Snapshot>, e: seq<Snapshot>, i: nat)
    requires StrictTimes(l) && Sorted(SnapshotBefore, l) && i < |l| && Sorted(SnapshotBefore, e)
    requires forall a, b :: a in l && b in l && a.id == b.id ==> a == b
    requires forall x :: x in e <==> x in l && x.createdAt < l[i].createdAt
    ensures e == l[..i]
  {
    forall x ensures x in l[..i] <==> x in e {
      if x in l[..i] {
        var j :| 0 <= j < i && l[j] == x;
        assert x in l;
      }
      if x in e {
        var j :| 0 <= j < |l| && l[j] == x;
        assert j < i && l[..i][j] == x;
      }
    }
    SnapshotBeforeTotalOn(Elems(l[..i]));
    SortedUnique(SnapshotBefore, l[..i], e);
  }

  /** The entries of a cycle's listing that are older than entry i are its first i entries. */
  lemma EarlierIsPrefix(m: map<string, Snapshot>, clock: Time, scope: SnapshotScope, i: nat)
    requires SnapshotsOk(m, clock) && CycleScope(scope)
    requires var l := SnapshotListing(m, scope); i < |l| && StrictTimes(l)
    ensures var l := SnapshotListing(m, scope);
      l[i] in l && Untied(m, l[i]) && Earlier(m, l[i]) == l[..i]
  {
    var l := SnapshotListing(m, scope);
    var s := l[i];
    ShownOk(m, clock, scope);
    OlderListing(m, clock, scope, s.createdAt);
    assert s in l;
    assert Shown(m, scope, s);
    CycleMember(s, scope);
    UntiedInStrict(m, clock, scope, s);
    assert forall a, b :: a in l && b in l && a.id == b.id ==> a == b;
    assert Earlier(m, s) == SnapshotListing(Older(m, s.createdAt), scope);
    hide *;
    CutAt(l, SnapshotListing(Older(m, s.createdAt), scope), i);
  }

  lemma CycleMember(s: Snapshot, scope: SnapshotScope)
    requires CycleScope(scope) && MatchesScope(s, scope)
    ensures s.scope == scope
  {
  }

  /** Listing only the snapshots before an instant drops the others from the listing. */
  lemma OlderListing(m: map<string, Snapshot>, clock: Time, scope: SnapshotScope, time: Time)
    requires SnapshotsOk(m, clock)
    ensures KeyedSnapshots(Older(m, time)) && Sorted(SnapshotBefore, SnapshotListing(Older(m, time), scope))
    ensures forall x :: x in SnapshotListing(Older(m, time), scope) <==>
      x in SnapshotListing(m, scope) && x.createdAt < time
  {
    hide NormalizeSnapshot, SnapshotListing, Sorted, MatchesScope, HashesItself, LinkOk, GeneratedId;
    var older := Older(m, time);
    ShownOk(m, clock, scope);
    ScopeMembers(older, scope);
    forall x ensures x in SnapshotListing(older, scope) <==> x in SnapshotListing(m, scope) && x.createdAt < time {
      assert Shown(older, scope, x) <==> Shown(m, scope, x) && x.createdAt < time;
    }
  }

  lemma UntiedInStrict(m: map<string, Snapshot>, clock: Time, scope: SnapshotScope, s: Snapshot)
    requires SnapshotsOk(m, clock) && s.scope == scope
    requires s in SnapshotListing(m, scope) && StrictTimes(SnapshotListing(m, scope))
    ensures Untied(m, s)
  {
    var l := SnapshotListing(m, scope);
    ShownOk(m, clock, scope);
    hide NormalizeSnapshot, SnapshotListing, Sorted, MatchesScope, StrictTimes, SnapshotOk, LinkOk;
    forall id | id in m && id != s.id && MatchesScope(m[id], scope) ensures m[id].createdAt != s.createdAt {
      assert Shown(m, scope, m[id]);
      StrictApart(l, m[id], s);
    }
  }

  lemma StrictApart(l: seq<Snapshot>, a: Snapshot, b: Snapshot)
    requires StrictTimes(l) && a in l && b in l && a != b
    ensures a.createdAt != b.createdAt
  {
    var i :| 0 <= i < |l| && l[i] == a;
    var j :| 0 <= j < |l| && l[j] == b;
    assert i < j || j < i;
  }

  lemma PreviousOfPrefix(l: seq<Snapshot>, i: nat)
    requires StrictTimes(l) && i < |l|
    ensures PreviousChecksum(l[..i]) == ChecksumBefore(l, Min(i, MAX_PAGE_SIZE))
  {
    if i > 0 {
      LatestOfStrict(l[..i][..Min(MAX_PAGE_SIZE, i)]);
    }
  }

  /** Entry i points to its predecessor while that one is on the first page, and to the last of the page after that. */
  ghost predicate PageLinked(l: seq<Snapshot>) {
    forall i :: 0 <= i < |l| ==> l[i].previous == ChecksumBefore(l, Min(i, MAX_PAGE_SIZE))
  }

  lemma SnapshotsKeyed(m: map<string, Snapshot>, clock: Time)
    requires SnapshotsOk(m, clock)
    ensures KeyedSnapshots(m)
  {
    hide SnapshotOk, LinkOk;
  }

  lemma LinkAt(m: map<string, Snapshot>, clock: Time, scope: SnapshotScope, l: seq<Snapshot>, i: nat)
    requires KeyedSnapshots(m) && l == SnapshotListing(m, scope) && i < |l| && StrictTimes(l)
    requires SnapshotsOk(m, clock) && CycleScope(scope)
    ensures l[i].previous == ChecksumBefore(l, Min(i, MAX_PAGE_SIZE))
  {
    hide SnapshotListing, SnapshotsOk, KeyedSnapshots, StrictTimes, CycleScope, PreviousChecksum, Earlier, Untied;
    EarlierIsPrefix(m, clock, scope, i);
    StoredLink(m, clock, scope, l[i]);
    PreviousOfPrefix(l, i);
  }

  lemma StoredLink(m: map<string, Snapshot>, clock: Time, scope: SnapshotScope, s: Snapshot)
    requires SnapshotsOk(m, clock) && s in SnapshotListing(m, scope) && Untied(m, s)
    ensures s.previous == PreviousChecksum(Earlier(m, s))
  {
    ShownOk(m, clock, scope);
    hide SnapshotListing, Untied, Earlier, SnapshotOk, MatchesScope, PreviousChecksum, HashesItself, Sorted;
    assert LinkOk(m, m[s.id]);
  }

  lemma CycleLinks(m: map<string, Snapshot>, clock: Time, scope: SnapshotScope, l: seq<Snapshot>)
    requires SnapshotsOk(m, clock) && CycleScope(scope)
    requires l == SnapshotListing(m, scope) && StrictTimes(l)
    ensures PageLinked(l)
  {
    hide SnapshotsOk, KeyedSnapshots, SnapshotListing, StrictTimes, CycleScope;
    SnapshotsKeyed(m, clock);
    forall i | 0 <= i < |l| ensures l[i].previous == ChecksumBefore(l, Min(i, MAX_PAGE_SIZE)) {
      LinkAt(m, clock, scope, l, i);
    }
  }

  /**
    With creation times that strictly increase, the snapshots of a cycle form one linked list exactly as
    long as there are at most 501 of them: the 502nd points back to the 500th.
   */
  lemma CycleChain(m: map<string, Snapshot>, clock: Time, scope: SnapshotScope)
    requires SnapshotsOk(m, clock) && CycleScope(scope)
    requires StrictTimes(SnapshotListing(m, scope))
    ensures Linked(SnapshotListing(m, scope)) <==> |SnapshotListing(m, scope)| <= MAX_PAGE_SIZE + 1
  {
    var l := SnapshotListing(m, scope);
    hide SnapshotsOk, SnapshotListing, StrictTimes, CycleScope, Linked, PageLinked;
    CycleLinks(m, clock, scope, l);
    if |l| > MAX_PAGE_SIZE + 1 {
      NeighboursDiffer(m, clock, scope, MAX_PAGE_SIZE);
    }
    PageLongChain(l);
  }

  lemma NeighboursDiffer(m: map<string, Snapshot>, clock: Time, scope: SnapshotScope, i: nat)
    requires SnapshotsOk(m, clock)
    requires var l := SnapshotListing(m, scope); 0 < i < |l| && StrictTimes(l)
    ensures var l := SnapshotListing(m, scope); l[i - 1].checksum != l[i].checksum
  {
    var l := SnapshotListing(m, scope);
    var a, b := l[i - 1], l[i];
    ShownOk(m, clock, scope);
    hide SnapshotsOk, SnapshotListing, Shown, HashesItself, Sorted;
    assert a in l && b in l && a.createdAt < b.createdAt;
    ChecksumsTellApart(a, b);
  }

  lemma PageLongChain(l: seq<Snapshot>)
    requires PageLinked(l)
    requires |l| > MAX_PAGE_SIZE + 1 ==> l[MAX_PAGE_SIZE - 1].checksum != l[MAX_PAGE_SIZE].checksum
    ensures Linked(l) <==> |l| <= MAX_PAGE_SIZE + 1
  {
    if |l| > MAX_PAGE_SIZE + 1 {
      assert l[MAX_PAGE_SIZE + 1].previous == ChecksumBefore(l, MAX_PAGE_SIZE);
      assert ChecksumBefore(l, MAX_PAGE_SIZE + 1) == l[MAX_PAGE_SIZE].checksum;
    }
  }

  // ----- how a chain grows, ties or not -----

  /** The listing after one more snapshot. */
  lemma ListingOfMore(m: map<string, Snapshot>, clock: Time, s: Snapshot)
    requires SnapshotsOk(m, clock) && s.id !in m && SnapshotOk(s, s.createdAt) && KeyedSnapshots(m[s.id := s])
    ensures var l, more := SnapshotListing(m, s.scope), SnapshotListing(m[s.id := s], s.scope);
      && Sorted(SnapshotBefore, l) && Sorted(SnapshotBefore, more)
      && (forall x :: x in more <==> x in l || x == s) && s !in l
      && (forall x :: x in l ==> x.id != s.id && HashesItself(x))
      && (l == [] || SnapshotBefore(l[|l| - 1], s) ==> more == l + [s])
  {
    hide NormalizeSnapshot, MatchesScope, SnapshotListing, HashesItself, LinkOk, GeneratedId, Shown;
    var n := m[s.id := s];
    var l, more := SnapshotListing(m, s.scope), SnapshotListing(n, s.scope);
    ShownOk(m, clock, s.scope);
    assert forall id :: id in n ==> NormalizeSnapshot(n[id]) == n[id];
    ScopeMembers(n, s.scope);
    forall x ensures x in more <==> x in l || x == s {
      ShownMore(m, s, x);
    }
    assert s !in l;
    if l == [] || SnapshotBefore(l[|l| - 1], s) {
      AppendedIs(l, s, more);
    }
  }

  lemma ShownMore(m: map<string, Snapshot>, s: Snapshot, x: Snapshot)
    requires s.id !in m && NormalizeSnapshot(s) == s
    ensures Shown(m[s.id := s], s.scope, x) <==> Shown(m, s.scope, x) || x == s
  {
    hide NormalizeSnapshot;
  }

  lemma AppendedIs(l: seq<Snapshot>, s: Snapshot, more: seq<Snapshot>)
    requires Sorted(SnapshotBefore, l) && Sorted(SnapshotBefore, more) && (l == [] || SnapshotBefore(l[|l| - 1], s))
    requires (forall x :: x in more <==> x in l || x == s)
    requires forall x, y :: x in more && y in more && x.id == y.id ==> x == y
    ensures more == l + [s]
  {
    hide SnapshotBefore;
    forall i | 0 <= i < |l| ensures SnapshotBefore(l[i], s) {
      BeforeLast(l, s, i);
    }
    assert forall x :: x in Elems(more) <==> x in more;
    SnapshotBeforeTotalOn(Elems(more));
    SortedUnique(SnapshotBefore, more, l + [s]);
  }

  lemma BeforeLast(l: seq<Snapshot>, s: Snapshot, i: nat)
    requires i < |l| && Sorted(SnapshotBefore, l) && SnapshotBefore(l[|l| - 1], s)
    ensures SnapshotBefore(l[i], s)
  {
    var last := l[|l| - 1];
    if i < |l| - 1 {
      assert SnapshotBefore(l[i], last);
      if Before(l[i].id, last.id) && Before(last.id, s.id) {
        BeforeTransitive(l[i].id, last.id, s.id);
      }
    }
  }

  /**
    Whatever the clock does, a snapshot made the way the service makes it extends a linked listing exactly when the
    listing fits in one page, its newest entry is strictly younger than the one before it, and the new snapshot is
    listed after it, which at a tie is up to the ids.
   */
  lemma ChainGrowsExact(m: map<string, Snapshot>, clock: Time, s: Snapshot)
    requires SnapshotsOk(m, clock) && s.id !in m && SnapshotOk(s, s.createdAt) && KeyedSnapshots(m[s.id := s])
    requires s.previous == PreviousChecksum(SnapshotListing(m, s.scope)) && Linked(SnapshotListing(m, s.scope))
    ensures var l := SnapshotListing(m, s.scope);
      Linked(SnapshotListing(m[s.id := s], s.scope)) <==>
        l == [] || (|l| <= MAX_PAGE_SIZE && (|l| == 1 || l[|l| - 2].createdAt < l[|l| - 1].createdAt)
                    && SnapshotBefore(l[|l| - 1], s))
  {
    hide SnapshotsOk, SnapshotOk, SnapshotListing, PreviousChecksum, HashesItself, SnapshotBefore, Sorted, Linked,
      KeyedSnapshots;
    SnapshotsKeyed(m, clock);
    var l, more := SnapshotListing(m, s.scope), SnapshotListing(m[s.id := s], s.scope);
    ListingOfMore(m, clock, s);
    NextLinkExact(m, clock, s.scope);
    if l == [] || SnapshotBefore(l[|l| - 1], s) {
      LinkedMore(l, s);
      NoPrevious(l);
    } else {
      HashesItselfOf(s);
      InsertedBreaks(l, s, more);
    }
  }

  lemma HashesItselfOf(s: Snapshot)
    requires SnapshotOk(s, s.createdAt)
    ensures HashesItself(s)
  {
    hide HashesItself, NormalizeSnapshot, GeneratedId;
  }

  lemma NoPrevious(l: seq<Snapshot>)
    ensures l == [] ==> PreviousChecksum(l) == NoChecksum
  {
  }

  lemma LinkedMore(l: seq<Snapshot>, s: Snapshot)
    requires Linked(l)
    ensures Linked(l + [s]) <==> s.previous == if l == [] then NoChecksum else l[|l| - 1].checksum
  {
    var more := l + [s];
    assert forall i :: 0 <= i < |l| ==> ChecksumBefore(more, i) == ChecksumBefore(l, i);
    assert more[|l|] == s;
    if l != [] {
      assert ChecksumBefore(more, |l|) == l[|l| - 1].checksum;
    }
  }

  /** A snapshot that is not listed last leaves a later one pointing past it. */
  lemma InsertedBreaks(l: seq<Snapshot>, s: Snapshot, more: seq<Snapshot>)
    requires l != [] && Linked(l) && Sorted(SnapshotBefore, more) && (forall x :: x in more <==> x in l || x == s)
    requires HashesItself(s) && (forall x :: x in l ==> x.id != s.id && HashesItself(x))
    requires !SnapshotBefore(l[|l| - 1], s)
    ensures !Linked(more)
  {
    hide HashesItself, SnapshotBefore, Linked;
    assert s in more && l[|l| - 1] in more;
    var q :| 0 <= q < |more| && more[q] == s;
    var p :| 0 <= p < |more| && more[p] == l[|l| - 1];
    assert q < p;
    var next := more[q + 1];
    NotTwice(more, q);
    assert next in more && next in l;
    var k :| 0 <= k < |l| && l[k] == next;
    if Linked(more) {
      PreviousIs(more, q + 1);
      PreviousIs(l, k);
      HasDigest(s);
      if k > 0 {
        assert l[k - 1] in l;
        ChecksumsTellApart(l[k - 1], s);
      }
      assert false;
    }
  }

  lemma NotTwice(more: seq<Snapshot>, q: nat)
    requires q + 1 < |more| && Sorted(SnapshotBefore, more)
    ensures more[q + 1] != more[q]
  {
    assert SnapshotBefore(more[q], more[q + 1]);
    BeforeTotal(more[q].id, more[q].id);
  }

  lemma PreviousIs(l: seq<Snapshot>, i: nat)
    requires Linked(l) && i < |l|
    ensures l[i].previous == if i == 0 then NoChecksum else l[i - 1].checksum
  {
    assert l[i].previous == ChecksumBefore(l, i);
  }

  // ----- what a head checksum vouches for -----

  /** The stored checksum is the hash of the stored snapshot with this page limit in its criteria. */
  ghost predicate HashedWith(s: Snapshot, limit: int) {
    s.checksum == ComputeChecksum(s.(criteria := s.criteria.(limit := limit)))
  }

  /** Everything that is hashed, for two stored snapshots; the limit that was hashed need not be the saved one. */
  ghost predicate SameManifest(a: Snapshot, b: Snapshot) {
    && a.id == b.id && a.scope == b.scope && a.createdBy == b.createdBy && a.createdAt == b.createdAt
    && a.summary == b.summary && a.refs == b.refs && a.criteria.(limit := 0) == b.criteria.(limit := 0)
    && a.manifestRef == b.manifestRef && a.previous == b.previous && a.metadata == b.metadata
    && forall limit :: HashedWith(a, limit) <==> HashedWith(b, limit)
  }

  lemma SortClean(values: seq<string>)
    ensures SortBy(Before, Clean(values)) == Clean(values)
  {
    CleanMeaning(values);
    BeforeTotalOn(Elems(Clean(values)));
    SortByUnique(Before, Clean(values), Clean(values));
  }

  lemma EqualChecksums(a: Snapshot, b: Snapshot)
    requires HashesItself(a) && HashesItself(b) && NormalizeSnapshot(a) == a && NormalizeSnapshot(b) == b
    requires a.checksum == b.checksum
    ensures SameManifest(a, b)
  {
    hide NormalizeQuery, NormalizeScope, Trim, Clean, SortBy;
    SortClean(a.refs);
    SortClean(b.refs);
  }

  /** Two chains, even of two different stores, that end in the same checksum are the same chain. */
  lemma {:induction false} EqualHeadsEqualHistories(a: seq<Snapshot>, b: seq<Snapshot>)
    requires Linked(a) && Linked(b) && a != [] && b != []
    requires forall i :: 0 <= i < |a| ==> HashesItself(a[i]) && NormalizeSnapshot(a[i]) == a[i]
    requires forall i :: 0 <= i < |b| ==> HashesItself(b[i]) && NormalizeSnapshot(b[i]) == b[i]
    requires a[|a| - 1].checksum == b[|b| - 1].checksum
    ensures |a| == |b| && forall i :: 0 <= i < |a| ==> a[i].checksum == b[i].checksum && SameManifest(a[i], b[i])
  {
    hide HashesItself, NormalizeSnapshot, Linked;
    var x, y := a[|a| - 1], b[|b| - 1];
    EqualChecksums(x, y);
    LastLink(a);
    LastLink(b);
    if |a| > 1 {
      HasDigest(a[|a| - 2]);
      assert |b| > 1;
      EqualHeadsEqualHistories(a[..|a| - 1], b[..|b| - 1]);
      assert forall i :: 0 <= i < |a| - 1 ==> a[i] == a[..|a| - 1][i] && b[i] == b[..|b| - 1][i];
    } else if |b| > 1 {
      HasDigest(b[|b| - 2]);
      assert false;
    }
  }

  lemma LastLink(l: seq<Snapshot>)
    requires Linked(l) && l != []
    ensures l[|l| - 1].previous == if |l| == 1 then NoChecksum else l[|l| - 2].checksum
    ensures |l| > 1 ==> Linked(l[..|l| - 1])
  {
    assert l[|l| - 1].previous == ChecksumBefore(l, |l| - 1);
    assert forall i :: 0 <= i < |l| - 1 ==> ChecksumBefore(l[..|l| - 1], i) == ChecksumBefore(l, i);
  }

  lemma HasDigest(s: Snapshot)
    requires HashesItself(s)
    ensures !s.checksum.NoChecksum?
  {
  }

  /** A stored snapshot checks out against its own checksum exactly when the limit that was hashed is the saved one. */
  lemma RecomputeExact(s: Snapshot, hashedLimit: int)
    requires s.checksum == ComputeChecksum(s.(criteria := s.criteria.(limit := hashedLimit)))
    ensures ComputeChecksum(s) == s.checksum <==> hashedLimit == s.criteria.limit
  {
  }
}
