/**
  The two aggregate views over the records that match a query, one summary per namespace and one per clawbot
  (internal/services/ops/service.go).
 */
module Aggregates {
  import opened Wrappers
  import opened Ordering
  import opened Text
  import opened Counting
  import opened MemoryModel

  datatype View = ByNamespace | ByClawbot

  datatype Heading =
    | NamespaceHeading(namespace: string, projectId: string, environment: string, clawbotId: string, sessionId: string)
    | ClawbotHeading(projectId: string, environment: string, clawbotId: string)

  /** What both views say of a group. While records are added, averageStability holds their sum. */
  datatype Counts = Counts(
    totalRecords: nat, recordsByType: map<string, nat>, lastActivityAt: Option<Time>, pinnedCount: nat,
    replayLinkedCount: nat, decayEligible: nat, approximateBytes: int, averageStability: int)

  datatype Summary = Summary(heading: Heading, counts: Counts)

  const NOTHING := Counts(0, map[], None, 0, 0, 0, 0, 0)

  function HeadingOf(view: View, r: MemoryRecord): Heading {
    match view
    case ByNamespace => NamespaceHeading(r.namespace, r.projectId, r.environment, r.clawbotId, r.sessionId)
    case ByClawbot => ClawbotHeading(r.projectId, r.environment, r.clawbotId)
  }

  /** The key of a heading: clawbots are told apart by their slash-joined fields only. */
  function HeadingKey(heading: Heading): string {
    match heading
    case NamespaceHeading(name, _, _, _, _) => name
    case ClawbotHeading(project, environment, clawbot) => Join([project, environment, clawbot], '/')
  }

  function KeyIn(view: View, r: MemoryRecord): string {
    HeadingKey(HeadingOf(view, r))
  }

  predicate ByHeading(a: Summary, b: Summary) {
    Before(HeadingKey(a.heading), HeadingKey(b.heading))
  }

  predicate IsPinned(r: MemoryRecord) {
    r.pinned
  }

  predicate IsReplay(r: MemoryRecord) {
    r.replayLinked || IsReplayCase(r)
  }

  function EligibleAt(now: Time): MemoryRecord -> bool {
    r => IsDecayEligible(r, now)
  }

  function StabilityOf(r: MemoryRecord): int {
    r.stability
  }

  function ToInt(b: bool): nat {
    if b then 1 else 0
  }

  function LaterActivity(last: Option<Time>, r: MemoryRecord): Option<Time> {
    if last.None? || LastActivity(r) > last.value then Some(LastActivity(r)) else last
  }

  /** applyRecordToNamespaceSummary and applyRecordToClawbotSummary; size is the length of the record's JSON text. */
  function Apply(c: Counts, r: MemoryRecord, now: Time, size: MemoryRecord -> int): Counts {
    Counts(c.totalRecords + 1, Increment(c.recordsByType, r.memoryType), LaterActivity(c.lastActivityAt, r),
           c.pinnedCount + ToInt(r.pinned), c.replayLinkedCount + ToInt(IsReplay(r)),
           c.decayEligible + ToInt(IsDecayEligible(r, now)), c.approximateBytes + size(r),
           c.averageStability + r.stability)
  }

  // ----- sums over sets -----

  ghost function Total<T>(s: set<T>, f: T -> int): int {
    if s == {} then 0 else var x :| x in s; f(x) + Total(s - {x}, f)
  }

  /** A sum does not depend on the order of adding up. */
  lemma {:induction false} TotalMore<T>(s: set<T>, f: T -> int, x: T)
    requires x !in s
    ensures Total(s + {x}, f) == Total(s, f) + f(x)
    decreases |s|
  {
    var t := s + {x};
    var y :| y in t && Total(t, f) == f(y) + Total(t - {y}, f);
    if y == x {
      assert t - {x} == s;
    } else {
      var rest := s - {y};
      assert t - {y} == rest + {x} && s == rest + {y};
      TotalMore(rest, f, x);
      TotalMore(rest, f, y);
    }
  }

  lemma {:induction false} TotalJoined<T>(a: set<T>, b: set<T>, f: T -> int)
    requires a !! b
    ensures Total(a + b, f) == Total(a, f) + Total(b, f)
    decreases |b|
  {
    if b == {} {
      assert a + b == a;
    } else {
      var x :| x in b;
      var rest := b - {x};
      hide Total;
      assert b == rest + {x} && a + b == (a + rest) + {x};
      TotalJoined(a, rest, f);
      TotalMore(a + rest, f, x);
      TotalMore(rest, f, x);
    }
  }

  ghost function Having<T>(s: set<T>, p: T -> bool): set<T> {
    set x | x in s && p(x)
  }

  /** How many members pass a test, as a sum. */
  lemma {:induction false} TotalCounts<T>(s: set<T>, p: T -> bool, w: T -> int)
    requires forall x :: x in s ==> w(x) == ToInt(p(x))
    ensures Total(s, w) == |Having(s, p)|
    decreases |s|
  {
    if s == {} {
    } else {
      var x :| x in s;
      var rest := s - {x};
      TotalCounts(rest, p, w);
      TotalMore(rest, w, x);
      assert s == rest + {x};
      assert Having(s, p) == if p(x) then Having(rest, p) + {x} else Having(rest, p);
    }
  }

  /** A sum over everything is the sum over the parts, when each member belongs to exactly one part. */
  lemma {:induction false} TotalOfParts<K, T>(keys: set<K>, all: set<T>, part: K -> set<T>, f: K -> int, w: T -> int)
    requires forall k :: k in keys ==> part(k) <= all && f(k) == Total(part(k), w)
    requires forall r :: r in all ==> exists k :: k in keys && r in part(k)
    requires forall j, k :: j in keys && k in keys && j != k ==> part(j) !! part(k)
    ensures Total(keys, f) == Total(all, w)
    decreases |keys|
  {
    hide Total;
    if keys == {} {
      assert all == {};
      TotalEmpty(f);
      TotalEmpty(w);
    } else {
      var k :| k in keys;
      var others, rest := keys - {k}, all - part(k);
      assert keys == others + {k} && all == rest + part(k);
      TotalOfParts(others, rest, part, f, w);
      TotalMore(others, f, k);
      TotalJoined(rest, part(k), w);
    }
  }

  lemma TotalEmpty<T>(f: T -> int)
    ensures Total({}, f) == 0
  {
  }

  /** The truncated average lies between any bounds of the summands. */
  lemma AverageBetween<T>(s: set<T>, f: T -> int, low: int, high: int)
    requires s != {} && forall x :: x in s ==> low <= f(x) <= high
    ensures low <= Quotient(Total(s, f), |s|) <= high
  {
    TotalBetween(s, f, low, high);
    QuotientBetween(Total(s, f), |s|, low, high);
  }

  lemma {:induction false} TotalBetween<T>(s: set<T>, f: T -> int, low: int, high: int)
    requires forall x :: x in s ==> low <= f(x) <= high
    ensures low * |s| <= Total(s, f) <= high * |s|
    decreases |s|
  {
    if s != {} {
      var x :| x in s && Total(s, f) == f(x) + Total(s - {x}, f);
      TotalBetween(s - {x}, f, low, high);
      TimesStep(low, |s - {x}|);
      TimesStep(high, |s - {x}|);
    }
  }

  lemma TimesStep(a: int, n: nat)
    ensures a * (n + 1) == a * n + a
  {
  }

  lemma QuotientBetween(a: int, n: int, low: int, high: int)
    requires 0 < n && low * n <= a <= high * n
    ensures low <= Quotient(a, n) <= high
  {
    var q := Quotient(a, n);
    if 0 <= a {
      assert q * n <= a < (q + 1) * n;
      TimesOrder(q, high, n, low);
    } else {
      assert (-a / n) * n <= -a < (-a / n + 1) * n;
      TimesOrder(-a / n, -low, n, -high);
    }
  }

  lemma TimesOrder(q: int, high: int, n: int, low: int)
    requires 0 < n && q * n <= high * n && low * n < (q + 1) * n
    ensures low <= q <= high
  {
    if high < q {
      TimesGrows(high + 1, q, n);
    }
    if q < low {
      TimesGrows(q + 1, low, n);
    }
  }

  lemma TimesGrows(a: int, b: int, n: int)
    requires a <= b && 0 < n
    ensures a * n <= b * n
  {
  }

  // ----- what a summary says of its group -----

  ghost predicate LatestIn(t: Option<Time>, g: set<MemoryRecord>) {
    if g == {} then t == None
    else t.Some? && (exists r :: r in g && LastActivity(r) == t.value) && forall r :: r in g ==>
      LastActivity(r) <= t.value
  }

  function OfType(t: string): MemoryRecord -> bool {
    (r: MemoryRecord) => r.memoryType == t
  }

  ghost predicate CountsTypes(counts: map<string, nat>, g: set<MemoryRecord>) {
    && counts.Keys == (set r | r in g :: r.memoryType)
    && forall t :: t in counts ==> counts[t] == |Having(g, OfType(t))|
  }

  /** Every count but the average. */
  ghost predicate Describes(c: Counts, g: set<MemoryRecord>, now: Time, size: MemoryRecord -> int) {
    && c.totalRecords == |g|
    && c.pinnedCount == |Having(g, IsPinned)|
    && c.replayLinkedCount == |Having(g, IsReplay)|
    && c.decayEligible == |Having(g, EligibleAt(now))|
    && c.approximateBytes == Total(g, size)
    && CountsTypes(c.recordsByType, g)
    && LatestIn(c.lastActivityAt, g)
  }

  lemma HavingMore<T>(g: set<T>, p: T -> bool, r: T)
    requires r !in g
    ensures |Having(g + {r}, p)| == |Having(g, p)| + ToInt(p(r))
  {
    if p(r) {
      assert Having(g + {r}, p) == Having(g, p) + {r};
    } else {
      assert Having(g + {r}, p) == Having(g, p);
    }
  }

  lemma TypesMore(counts: map<string, nat>, g: set<MemoryRecord>, r: MemoryRecord)
    requires r !in g && CountsTypes(counts, g)
    ensures CountsTypes(Increment(counts, r.memoryType), g + {r})
  {
    var more := Increment(counts, r.memoryType);
    forall t | t in more ensures more[t] == |Having(g + {r}, OfType(t))| {
      HavingMore(g, OfType(t), r);
      if t !in counts {
        assert Having(g, OfType(t)) == {};
      }
    }
    assert more.Keys == set x | x in g + {r} :: x.memoryType;
  }

  lemma LatestMore(last: Option<Time>, g: set<MemoryRecord>, r: MemoryRecord)
    requires LatestIn(last, g)
    ensures LatestIn(LaterActivity(last, r), g + {r})
  {
    hide LastActivity;
    assert r in g + {r};
    if g != {} && last.value >= LastActivity(r) {
      var x :| x in g && LastActivity(x) == last.value;
      assert x in g + {r};
    }
  }

  lemma DescribesMore(c: Counts, g: set<MemoryRecord>, r: MemoryRecord, now: Time, size: MemoryRecord -> int)
    requires r !in g && Describes(c, g, now, size) && c.averageStability == Total(g, StabilityOf)
    ensures var after := Apply(c, r, now, size);
      Describes(after, g + {r}, now, size) && after.averageStability == Total(g + {r}, StabilityOf)
  {
    hide CountsTypes, LatestIn, LaterActivity, Increment, Having, Total, IsReplay, IsDecayEligible;
    HavingMore(g, IsPinned, r);
    HavingMore(g, IsReplay, r);
    HavingMore(g, EligibleAt(now), r);
    TotalMore(g, size, r);
    TotalMore(g, StabilityOf, r);
    TypesMore(c.recordsByType, g, r);
    LatestMore(c.lastActivityAt, g, r);
  }

  // ----- views -----

  ghost function Group(all: set<MemoryRecord>, view: View, key: string): set<MemoryRecord> {
    set r | r in all && KeyIn(view, r) == key
  }

  /**
    One summary per key, strictly sorted, each saying of the records of its key what Describes says, and their average
    stability.
   */
  ghost predicate Summarized(result: seq<Summary>, all: set<MemoryRecord>, view: View, now: Time,
      size: MemoryRecord -> int) {
    && Sorted(ByHeading, result)
    && (forall r :: r in all ==> exists i :: 0 <= i < |result| && HeadingKey(result[i].heading) == KeyIn(view, r))
    && forall i :: 0 <= i < |result| ==> SummaryOf(result[i], all, view, now, size)
  }

  ghost predicate SummaryOf(s: Summary, all: set<MemoryRecord>, view: View, now: Time, size: MemoryRecord -> int) {
    var g := Group(all, view, HeadingKey(s.heading));
    && (exists r :: r in g && s.heading == HeadingOf(view, r))
    && Describes(s.counts, g, now, size)
    && s.counts.averageStability == Quotient(Total(g, StabilityOf), |g|)
  }

  ghost function Chosen(records: seq<MemoryRecord>, q: MemoryQuery): set<MemoryRecord> {
    set r | r in records && Matches(r, q)
  }

  /** Summarize the records that match the query. */
  method Summarize(records: seq<MemoryRecord>, view: View, query: MemoryQuery, now: Time,
      size: MemoryRecord -> int) returns (result: seq<Summary>)
    requires Distinct(records)
    ensures Summarized(result, Chosen(records, NormalizeQuery(query)), view, now, size)
  {
    hide Matches, NormalizeQuery, KeyIn, HeadingOf, Apply, Gathered, Summarized;
    var q := NormalizeQuery(query);
    var summaries: map<string, Summary> := map[];
    ghost var all: set<MemoryRecord> := {};
    GatheredNone(view, now, size);
    assert records[..0] == [];
    for i := 0 to |records|
      invariant all == Chosen(records[..i], q) && Gathered(summaries, all, view, now, size)
    {
      var record := records[i];
      ChosenMore(records, q, i);
      if !Matches(record, q) {
        continue;
      }
      var key := KeyIn(view, record);
      var summary := if key in summaries then summaries[key] else Summary(HeadingOf(view, record), NOTHING);
      GatherMore(summaries, all, record, view, now, size);
      summaries := summaries[key := summary.(counts := Apply(summary.counts, record, now, size))];
      all := all + {record};
    }
    assert records[..|records|] == records;
    result := SortSummaries(summaries, all, view, now, size);
  }

  /** Turn the sums of stabilities into averages, and sort by key. */
  method SortSummaries(summaries: map<string, Summary>, ghost all: set<MemoryRecord>, ghost view: View,
      ghost now: Time, ghost size: MemoryRecord -> int)
    returns (result: seq<Summary>)
    requires Gathered(summaries, all, view, now, size)
    ensures Summarized(result, all, view, now, size)
  {
    hide Gathered, Summarized, Averaged, ByHeading, SortBy;
    result := [];
    var keys := summaries.Keys;
    ghost var order: seq<string> := [];
    while keys != {}
      invariant keys <= summaries.Keys && Distinct(order)
      invariant forall k :: k in order <==> k in summaries && k !in keys
      invariant |result| == |order|
      invariant forall i :: 0 <= i < |order| ==> order[i] in summaries && result[i] == Averaged(summaries[order[i]])
      decreases keys
    {
      var key :| key in keys;
      keys := keys - {key};
      result := result + [Averaged(summaries[key])];
      order := order + [key];
    }
    SortedView(summaries, order, result, all, view, now, size);
    result := SortBy(ByHeading, result);
  }

  function Averaged(s: Summary): Summary {
    var c := s.counts;
    s.(counts := if c.totalRecords > 0 then c.(averageStability := Quotient(c.averageStability, c.totalRecords)) else c)
  }

  /** The summaries gathered so far: one per key, with the sum of stabilities where the average will be. */
  ghost predicate Gathered(summaries: map<string, Summary>, all: set<MemoryRecord>, view: View, now: Time,
      size: MemoryRecord -> int) {
    && summaries.Keys == (set r | r in all :: KeyIn(view, r))
    && forall k :: k in summaries ==> GatheredAs(summaries[k], k, Group(all, view, k), view, now, size)
  }

  ghost predicate GatheredAs(s: Summary, key: string, g: set<MemoryRecord>, view: View, now: Time,
      size: MemoryRecord -> int) {
    && HeadingKey(s.heading) == key && (exists r :: r in g && s.heading == HeadingOf(view, r))
    && Describes(s.counts, g, now, size) && s.counts.averageStability == Total(g, StabilityOf)
  }

  lemma GatheredNone(view: View, now: Time, size: MemoryRecord -> int)
    ensures Gathered(map[], {}, view, now, size)
  {
    hide KeyIn;
  }

  lemma ChosenMore(records: seq<MemoryRecord>, q: MemoryQuery, i: nat)
    requires Distinct(records) && i < |records|
    ensures var r, before, after := records[i], Chosen(records[..i], q), Chosen(records[..i + 1], q);
      r !in before && after == if Matches(r, q) then before + {r} else before
  {
    hide Matches;
    assert records[..i + 1] == records[..i] + [records[i]];
  }

  lemma GatherMore(summaries: map<string, Summary>, all: set<MemoryRecord>, r: MemoryRecord, view: View, now: Time,
      size: MemoryRecord -> int)
    requires Gathered(summaries, all, view, now, size) && r !in all
    ensures var key := KeyIn(view, r);
      var s := if key in summaries then summaries[key] else Summary(HeadingOf(view, r), NOTHING);
      Gathered(summaries[key := s.(counts := Apply(s.counts, r, now, size))], all + {r}, view, now, size)
  {
    hide Apply, HeadingOf, HeadingKey, GatheredAs, KeyIn;
    var key := KeyIn(view, r);
    var s := if key in summaries then summaries[key] else Summary(HeadingOf(view, r), NOTHING);
    GatherOne(summaries, all, r, s, view, now, size);
    forall k | k in summaries && k != key ensures Group(all + {r}, view, k) == Group(all, view, k) {
    }
    assert (set x | x in all + {r} :: KeyIn(view, x)) == (set x | x in all :: KeyIn(view, x)) + {key};
  }

  lemma GatherOne(summaries: map<string, Summary>, all: set<MemoryRecord>, r: MemoryRecord, s: Summary, view: View,
      now: Time, size: MemoryRecord -> int)
    requires Gathered(summaries, all, view, now, size) && r !in all
    requires var key := KeyIn(view, r);
      s == if key in summaries then summaries[key] else Summary(HeadingOf(view, r), NOTHING)
    ensures var key := KeyIn(view, r);
      GatheredAs(s.(counts := Apply(s.counts, r, now, size)), key, Group(all + {r}, view, key), view, now, size)
  {
    hide Apply, HeadingOf, HeadingKey, Describes, Total;
    var key := KeyIn(view, r);
    var g := Group(all, view, key);
    assert Group(all + {r}, view, key) == g + {r};
    if key !in summaries {
      assert g == {};
      DescribesNone(now, size);
    }
    DescribesMore(s.counts, g, r, now, size);
  }

  lemma DescribesNone(now: Time, size: MemoryRecord -> int)
    ensures Describes(NOTHING, {}, now, size) && Total<MemoryRecord>({}, StabilityOf) == 0
  {
    hide IsReplay, IsDecayEligible;
    assert Having({}, IsPinned) == {} && Having({}, IsReplay) == {} && Having({}, EligibleAt(now)) == {};
  }

  lemma AveragedOne(s: Summary, key: string, all: set<MemoryRecord>, view: View, now: Time, size: MemoryRecord -> int)
    requires GatheredAs(s, key, Group(all, view, key), view, now, size)
    ensures SummaryOf(Averaged(s), all, view, now, size) && HeadingKey(Averaged(s).heading) == key
  {
    hide HeadingOf, HeadingKey, KeyIn, Quotient, CountsTypes, LatestIn, Having, Total;
  }

  lemma SortedView(summaries: map<string, Summary>, order: seq<string>, result: seq<Summary>,
                   all: set<MemoryRecord>, view: View, now: Time, size: MemoryRecord -> int)
    requires Gathered(summaries, all, view, now, size) && Distinct(order) && forall k :: k in order <==> k in summaries
    requires |result| == |order| && forall i :: 0 <= i < |order| ==> result[i] == Averaged(summaries[order[i]])
    ensures Summarized(SortBy(ByHeading, result), all, view, now, size)
  {
    hide SummaryOf, Averaged, GatheredAs, HeadingKey, KeyIn, SortBy, TotalOn, Describes;
    forall i | 0 <= i < |order|
      ensures SummaryOf(result[i], all, view, now, size) && HeadingKey(result[i].heading) == order[i]
    {
      AveragedOne(summaries[order[i]], order[i], all, view, now, size);
    }
    HeadingsOrdered(result);
    SortBySorts(ByHeading, result);
    var sorted := SortBy(ByHeading, result);
    forall r | r in all ensures exists i :: 0 <= i < |sorted| && HeadingKey(sorted[i].heading) == KeyIn(view, r) {
      assert KeyIn(view, r) in order;
      var i :| 0 <= i < |order| && order[i] == KeyIn(view, r);
      assert result[i] in sorted;
    }
    forall i | 0 <= i < |sorted| ensures SummaryOf(sorted[i], all, view, now, size) {
      assert sorted[i] in result;
    }
  }

  lemma HeadingsOrdered(result: seq<Summary>)
    requires forall i, j :: 0 <= i < j < |result| ==> HeadingKey(result[i].heading) != HeadingKey(result[j].heading)
    ensures Distinct(result) && TotalOn(ByHeading, Elems(result))
  {
    hide HeadingKey;
    forall a, b | a in Elems(result) && b in Elems(result)
      ensures !ByHeading(a, a) && (a != b ==> ByHeading(a, b) || ByHeading(b, a))
    {
      BeforeTotal(HeadingKey(a.heading), HeadingKey(b.heading));
      BeforeTotal(HeadingKey(a.heading), HeadingKey(a.heading));
    }
    forall a, b, c | ByHeading(a, b) && ByHeading(b, c) ensures ByHeading(a, c) {
      BeforeTransitive(HeadingKey(a.heading), HeadingKey(b.heading), HeadingKey(c.heading));
    }
  }

  // ----- agreement -----

  /** What a view adds up to over all its summaries. */
  ghost function Overall(result: seq<Summary>, f: Counts -> int): int {
    Total(Elems(result), (s: Summary) => f(s.counts))
  }

  lemma OverallIs(result: seq<Summary>, all: set<MemoryRecord>, view: View, now: Time, size: MemoryRecord -> int,
      f: Counts -> int, w: MemoryRecord -> int)
    requires Summarized(result, all, view, now, size)
    requires forall s :: s in result ==> f(s.counts) == Total(Group(all, view, HeadingKey(s.heading)), w)
    ensures Overall(result, f) == Total(all, w)
  {
    hide HeadingKey, KeyIn, Total, SummaryOf, ByHeading;
    var parts := Elems(result);
    var part := (s: Summary) => Group(all, view, HeadingKey(s.heading));
    forall a, b | a in parts && b in parts && a != b ensures part(a) !! part(b) {
      HeadingsDiffer(result, a, b);
    }
    forall r | r in all ensures exists s :: s in parts && r in part(s) {
      var i :| 0 <= i < |result| && HeadingKey(result[i].heading) == KeyIn(view, r);
      assert result[i] in parts && r in part(result[i]);
    }
    TotalOfParts(parts, all, part, (s: Summary) => f(s.counts), w);
  }

  lemma HeadingsDiffer(result: seq<Summary>, a: Summary, b: Summary)
    requires Sorted(ByHeading, result) && a in result && b in result && a != b
    ensures HeadingKey(a.heading) != HeadingKey(b.heading)
  {
    hide HeadingKey;
    BeforeTotal(HeadingKey(a.heading), HeadingKey(a.heading));
  }

  function Weight(p: MemoryRecord -> bool): MemoryRecord -> int {
    (r: MemoryRecord) => ToInt(p(r))
  }

  lemma WeightCounts(g: set<MemoryRecord>, p: MemoryRecord -> bool)
    ensures |Having(g, p)| == Total(g, Weight(p))
  {
    TotalCounts(g, p, Weight(p));
  }

  function One(r: MemoryRecord): int {
    1
  }

  lemma TotalOne(g: set<MemoryRecord>)
    ensures Total(g, One) == |g|
  {
    var any := (r: MemoryRecord) => true;
    TotalCounts(g, any, One);
    assert Having(g, any) == g;
  }

  function RecordsIn(c: Counts): int {
    c.totalRecords
  }

  function PinnedIn(c: Counts): int {
    c.pinnedCount
  }

  function ReplayLinkedIn(c: Counts): int {
    c.replayLinkedCount
  }

  function EligibleIn(c: Counts): int {
    c.decayEligible
  }

  function BytesIn(c: Counts): int {
    c.approximateBytes
  }

  lemma SummaryAt(result: seq<Summary>, all: set<MemoryRecord>, view: View, now: Time, size: MemoryRecord -> int,
                  s: Summary)
    requires Summarized(result, all, view, now, size) && s in result
    ensures Describes(s.counts, Group(all, view, HeadingKey(s.heading)), now, size)
  {
    hide HeadingKey, KeyIn, Describes, Total, Quotient;
  }

  /**
    Whatever the view, its summaries add up to the records that were summarized: none is missed and none is
    counted twice, even where a joined key merges clawbots.
   */
  lemma ViewTotals(result: seq<Summary>, all: set<MemoryRecord>, view: View, now: Time, size: MemoryRecord -> int)
    requires Summarized(result, all, view, now, size)
    ensures Overall(result, RecordsIn) == |all|
    ensures Overall(result, PinnedIn) == |Having(all, IsPinned)|
    ensures Overall(result, ReplayLinkedIn) == |Having(all, IsReplay)|
    ensures Overall(result, EligibleIn) == |Having(all, EligibleAt(now))|
    ensures Overall(result, BytesIn) == Total(all, size)
  {
    hide HeadingKey, Group, Having, Total, Overall, Summarized, CountsTypes, LatestIn, Weight, IsReplay, EligibleAt;
    forall s | s in result
      ensures var g := Group(all, view, HeadingKey(s.heading));
        && RecordsIn(s.counts) == Total(g, One)
        && PinnedIn(s.counts) == Total(g, Weight(IsPinned))
        && ReplayLinkedIn(s.counts) == Total(g, Weight(IsReplay))
        && EligibleIn(s.counts) == Total(g, Weight(EligibleAt(now)))
        && BytesIn(s.counts) == Total(g, size)
    {
      var g := Group(all, view, HeadingKey(s.heading));
      SummaryAt(result, all, view, now, size, s);
      TotalOne(g);
      WeightCounts(g, IsPinned);
      WeightCounts(g, IsReplay);
      WeightCounts(g, EligibleAt(now));
    }
    OverallIs(result, all, view, now, size, RecordsIn, One);
    OverallIs(result, all, view, now, size, PinnedIn, Weight(IsPinned));
    OverallIs(result, all, view, now, size, ReplayLinkedIn, Weight(IsReplay));
    OverallIs(result, all, view, now, size, EligibleIn, Weight(EligibleAt(now)));
    OverallIs(result, all, view, now, size, BytesIn, size);
    TotalOne(all);
    WeightCounts(all, IsPinned);
    WeightCounts(all, IsReplay);
    WeightCounts(all, EligibleAt(now));
  }

  /** The two views of the same records agree. */
  lemma ViewsAgree(byNamespace: seq<Summary>, byClawbot: seq<Summary>, all: set<MemoryRecord>, earlier: Time,
      now: Time, size: MemoryRecord -> int)
    requires Summarized(byNamespace, all, ByNamespace, earlier, size)
    requires Summarized(byClawbot, all, ByClawbot, now, size)
    ensures Overall(byNamespace, RecordsIn) == Overall(byClawbot, RecordsIn)
    ensures Overall(byNamespace, PinnedIn) == Overall(byClawbot, PinnedIn)
    ensures Overall(byNamespace, ReplayLinkedIn) == Overall(byClawbot, ReplayLinkedIn)
    ensures Overall(byNamespace, BytesIn) == Overall(byClawbot, BytesIn)
    ensures earlier == now ==> Overall(byNamespace, EligibleIn) == Overall(byClawbot, EligibleIn)
  {
    hide Summarized, Overall;
    ViewTotals(byNamespace, all, ByNamespace, earlier, size);
    ViewTotals(byClawbot, all, ByClawbot, now, size);
  }

  // ----- within a summary -----

  function TypeCount(c: Counts): string -> int {
    (t: string) => if t in c.recordsByType then c.recordsByType[t] else 0
  }

  /** The counts per type add up to the total. */
  lemma TypesAddUp(c: Counts, g: set<MemoryRecord>, now: Time, size: MemoryRecord -> int)
    requires Describes(c, g, now, size)
    ensures Total(c.recordsByType.Keys, TypeCount(c)) == c.totalRecords
  {
    hide Total, LatestIn;
    var part := (t: string) => Having(g, OfType(t));
    forall t | t in c.recordsByType ensures TypeCount(c)(t) == Total(part(t), One) {
      TotalOne(part(t));
    }
    forall r | r in g ensures r.memoryType in c.recordsByType.Keys && r in part(r.memoryType) {
    }
    TotalOfParts(c.recordsByType.Keys, g, part, TypeCount(c), One);
    TotalOne(g);
  }

  lemma {:induction false} Extremes(g: set<MemoryRecord>) returns (a: MemoryRecord, b: MemoryRecord)
    requires g != {}
    ensures a in g && b in g && forall r :: r in g ==> a.stability <= r.stability <= b.stability
    decreases |g|
  {
    var x :| x in g;
    if g == {x} {
      a, b := x, x;
    } else {
      assert g - {x} != {};
      a, b := Extremes(g - {x});
      a, b := if x.stability < a.stability then x else a, if x.stability > b.stability then x else b;
    }
  }

  /** No summary is of nothing, and its average lies between the least and the greatest stability of its group. */
  lemma AverageInside(s: Summary, all: set<MemoryRecord>, view: View, now: Time, size: MemoryRecord -> int)
    requires SummaryOf(s, all, view, now, size)
    ensures var g := Group(all, view, HeadingKey(s.heading));
      exists a, b :: a in g && b in g && (forall r :: r in g ==> a.stability <= r.stability <= b.stability)
                     && a.stability <= s.counts.averageStability <= b.stability
  {
    hide HeadingKey, KeyIn, HeadingOf, Describes, Total, Quotient;
    var g := Group(all, view, HeadingKey(s.heading));
    var a, b := Extremes(g);
    AverageBetween(g, StabilityOf, a.stability, b.stability);
  }
}
