/**
  compactTexts: the bounded selection of texts that goes into a cycle's context
  (internal/services/scopedmemory/service.go). Records are ranked by scope, status, recency and id; each
  text is represented by its best-ranked record; the texts of the first few representatives are kept.
 */
module Compaction {
  import opened Ordering
  import opened Text
  import opened ScopedModel

  const DEFAULT_CONTEXT_MAX := 5
  const PRIOR_SUMMARY_MAX := 7

  datatype CompactRule = CompactRule(scope: Namespace, maxItems: int, excludeCurrentCycle: bool, includeResolved: bool)

  function Cap(rule: CompactRule): nat {
    if rule.maxItems <= 0 then DEFAULT_CONTEXT_MAX else rule.maxItems
  }

  predicate Eligible(r: Record, rule: CompactRule) {
    && !r.status.Archived?
    && !(rule.excludeCurrentCycle && rule.scope.cycle != "" && Trim(r.scope.cycle) == Trim(rule.scope.cycle))
    && (rule.includeResolved || r.status.Open?)
  }

  function ScopePriority(r: Record, ns: Namespace): nat {
    var recordCycle, recordAgent, nsCycle, nsAgent
      := Trim(r.scope.cycle), Trim(r.scope.agent), Trim(ns.cycle), Trim(ns.agent);
    if nsCycle != "" && recordCycle == nsCycle && nsAgent != "" && recordAgent == nsAgent then 0
    else if nsCycle != "" && recordCycle == nsCycle then 1
    else if recordCycle == "" then 2
    else 3
  }

  function StatusPriority(s: Status): nat {
    Rank(NormalizeStatus(s))
  }

  /** The comparator: scope, then status, then newest update, then newest creation, then id. */
  predicate RankedBefore(a: Record, b: Record, ns: Namespace) {
    var scopeA, scopeB := ScopePriority(a, ns), ScopePriority(b, ns);
    var statusA, statusB := StatusPriority(a.status), StatusPriority(b.status);
    if scopeA != scopeB then scopeA < scopeB
    else if statusA != statusB then statusA < statusB
    else if a.updatedAt != b.updatedAt then a.updatedAt > b.updatedAt
    else if a.createdAt != b.createdAt then a.createdAt > b.createdAt
    else Before(a.id, b.id)
  }

  function Ranking(ns: Namespace): (Record, Record) -> bool {
    (a, b) => RankedBefore(a, b, ns)
  }

  lemma RankedBeforeTransitive(a: Record, b: Record, c: Record, ns: Namespace)
    requires RankedBefore(a, b, ns) && RankedBefore(b, c, ns)
    ensures RankedBefore(a, c, ns)
  {
    hide ScopePriority, StatusPriority;
    if Before(a.id, b.id) && Before(b.id, c.id) {
      BeforeTransitive(a.id, b.id, c.id);
    }
  }

  /** The comparator is a strict total order on records with distinct ids. */
  lemma RankingTotalOn(s: set<Record>, ns: Namespace)
    requires forall a, b :: a in s && b in s && a.id == b.id ==> a == b
    ensures TotalOn(Ranking(ns), s)
  {
    hide ScopePriority, StatusPriority;
    forall a, b | a in s && b in s ensures !Ranking(ns)(a, a) && (a != b ==> Ranking(ns)(a, b) || Ranking(ns)(b, a)) {
      BeforeTotal(a.id, b.id);
    }
    forall a, b, c | RankedBefore(a, b, ns) && RankedBefore(b, c, ns) ensures RankedBefore(a, c, ns) {
      RankedBeforeTransitive(a, b, c, ns);
    }
  }

  // ----- the declarative meaning -----

  ghost predicate DistinctIds(s: set<Record>) {
    forall a, b :: a in s && b in s && a.id == b.id ==> a == b
  }

  ghost function EligibleSet(records: set<Record>, rule: CompactRule): set<Record> {
    set r | r in records && Eligible(r, rule)
  }

  /** r has a text, and no other record of the set with that text ranks before it. */
  ghost predicate Represents(r: Record, s: set<Record>, ns: Namespace) {
    && r in s && Trim(r.text) != ""
    && forall o :: o in s && Trim(o.text) == Trim(r.text) && o != r ==> RankedBefore(r, o, ns)
  }

  /** The best-ranked record of each text. */
  ghost function Representatives(s: set<Record>, ns: Namespace): set<Record> {
    set r | r in s && Represents(r, s, ns)
  }

  function TextsOf(s: seq<Record>): (texts: seq<string>)
    ensures |texts| == |s| && forall i :: 0 <= i < |s| ==> texts[i] == Trim(s[i].text)
  {
    seq(|s|, i requires 0 <= i < |s| => Trim(s[i].text))
  }

  /** The representatives in rank order. */
  ghost function RankedRepresentatives(records: set<Record>, rule: CompactRule): seq<Record>
    requires DistinctIds(records)
  {
    var reps := Representatives(EligibleSet(records, rule), rule.scope);
    RankingTotalOn(reps, rule.scope);
    SortedSet(Ranking(rule.scope), reps)
  }

  /** What compactTexts returns: it depends on the set of records, not on the order they come in. */
  ghost function Compacted(records: set<Record>, rule: CompactRule): seq<string>
    requires DistinctIds(records)
  {
    var ranked := RankedRepresentatives(records, rule);
    TextsOf(ranked[..Min(Cap(rule), |ranked|)])
  }

  ghost predicate StandsFor(r: Record, text: string, s: set<Record>, ns: Namespace) {
    Represents(r, s, ns) && Trim(r.text) == text
  }

  ghost predicate HasRepresentative(text: string, s: set<Record>, ns: Namespace) {
    exists r :: StandsFor(r, text, s, ns)
  }

  /** The cap is reached, and every kept text outranks this one. */
  ghost predicate CrowdedOut(text: string, kept: seq<string>, s: set<Record>, rule: CompactRule) {
    && |kept| == Cap(rule)
    && var ns := rule.scope;
       forall i, a, b :: 0 <= i < |kept| && StandsFor(a, kept[i], s, ns) && StandsFor(b, text, s, ns) ==>
         RankedBefore(a, b, ns)
  }

  /** Every text of the set has a representative. */
  lemma {:induction false} RepresentativeExists(s: set<Record>, r: Record, ns: Namespace)
    requires DistinctIds(s) && r in s && Trim(r.text) != ""
    ensures exists best :: Represents(best, s, ns) && Trim(best.text) == Trim(r.text)
  {
    RankingTotalOn(s, ns);
    var same := set o | o in s && Trim(o.text) == Trim(r.text);
    var ranked := SortedSet(Ranking(ns), same);
    assert r in Elems(ranked);
    var best := ranked[0];
    assert best in Elems(ranked);
    forall o | o in s && Trim(o.text) == Trim(best.text) && o != best ensures RankedBefore(best, o, ns) {
      assert o in Elems(ranked);
      var j :| 0 <= j < |ranked| && ranked[j] == o;
      assert Ranking(ns)(ranked[0], ranked[j]);
    }
    assert Represents(best, s, ns);
  }

  /**
    The kept texts are distinct and not blank; each stands for its best-ranked eligible record; they come in
    the order of those records; and a text is left out only when the cap is reached and its best record ranks
    after every kept one.
   */
  lemma CompactedMeaning(records: set<Record>, rule: CompactRule)
    requires DistinctIds(records)
    ensures var kept, e, ns := Compacted(records, rule), EligibleSet(records, rule), rule.scope;
      && Distinct(kept) && |kept| <= Cap(rule)
      && (forall i :: 0 <= i < |kept| ==> HasRepresentative(kept[i], e, ns))
      && (forall i, j, a, b :: 0 <= i < j < |kept| && StandsFor(a, kept[i], e, ns) && StandsFor(b, kept[j], e, ns) ==>
            RankedBefore(a, b, ns))
      && (forall r :: r in e && Trim(r.text) != "" && Trim(r.text) !in kept ==> CrowdedOut(Trim(r.text), kept, e, rule))
  {
    var ranked := RankedRepresentatives(records, rule);
    var e, ns := EligibleSet(records, rule), rule.scope;
    var kept := Compacted(records, rule);
    RankedFacts(records, rule);
    hide RankedBefore, Trim, RankedRepresentatives, EligibleSet, StandsFor, Sorted, CrowdedOut, Cap;
    forall i | 0 <= i < |kept| ensures HasRepresentative(kept[i], e, ns) {
      assert StandsFor(ranked[i], kept[i], e, ns);
    }
    forall i, j | 0 <= i < j < |kept| ensures kept[i] != kept[j] {
      RanksApart(ranked, i, j, ns);
    }
    forall i, j, a, b | 0 <= i < j < |kept| && StandsFor(a, kept[i], e, ns) && StandsFor(b, kept[j], e, ns)
      ensures RankedBefore(a, b, ns)
    {
      assert a == ranked[i] && b == ranked[j];
      RanksApart(ranked, i, j, ns);
    }
    forall r | r in e && Trim(r.text) != "" && Trim(r.text) !in kept ensures CrowdedOut(Trim(r.text), kept, e, rule) {
      LeftOut(records, rule, r);
    }
  }

  /** Entry i of the ranked representatives is the one record that stands for its text. */
  lemma RankedFacts(records: set<Record>, rule: CompactRule)
    requires DistinctIds(records)
    ensures var ranked, e, ns := RankedRepresentatives(records, rule), EligibleSet(records, rule), rule.scope;
      && Sorted(Ranking(ns), ranked) && TotalOn(Ranking(ns), Elems(ranked))
      && (forall i :: 0 <= i < |ranked| ==> StandsFor(ranked[i], Trim(ranked[i].text), e, ns))
      && (forall a, i :: 0 <= i < |ranked| && StandsFor(a, Trim(ranked[i].text), e, ns) ==> a == ranked[i])
  {
    var ranked := RankedRepresentatives(records, rule);
    var e, ns := EligibleSet(records, rule), rule.scope;
    RankingTotalOn(Representatives(e, ns), ns);
    assert forall r :: r in Elems(ranked) <==> Represents(r, e, ns);
    hide RankedBefore, Eligible, Trim, RankedRepresentatives, Representatives;
    forall i | 0 <= i < |ranked| ensures StandsFor(ranked[i], Trim(ranked[i].text), e, ns) {
      assert ranked[i] in Elems(ranked);
    }
    forall a, i | 0 <= i < |ranked| && StandsFor(a, Trim(ranked[i].text), e, ns) ensures a == ranked[i] {
      OneRepresentative(a, ranked[i], e, ns);
    }
  }

  lemma LeftOut(records: set<Record>, rule: CompactRule, r: Record)
    requires DistinctIds(records)
    requires r in EligibleSet(records, rule) && Trim(r.text) != "" && Trim(r.text) !in Compacted(records, rule)
    ensures CrowdedOut(Trim(r.text), Compacted(records, rule), EligibleSet(records, rule), rule)
  {
    var ranked := RankedRepresentatives(records, rule);
    var e, ns := EligibleSet(records, rule), rule.scope;
    var kept := Compacted(records, rule);
    var k := RankOf(records, rule, r);
    RankedFacts(records, rule);
    hide RankedBefore, Trim, RankedRepresentatives, EligibleSet, Sorted, TotalOn, StandsFor;
    assert k >= |kept| by {
      assert forall i :: 0 <= i < |kept| ==> kept[i] == Trim(ranked[i].text);
      assert Trim(ranked[k].text) !in kept;
    }
    forall i, a, b | 0 <= i < |kept| && StandsFor(a, kept[i], e, ns) && StandsFor(b, Trim(r.text), e, ns)
      ensures RankedBefore(a, b, ns)
    {
      assert a == ranked[i] && b == ranked[k];
      RanksApart(ranked, i, k, ns);
    }
  }

  /** Where the text of an eligible record is ranked. */
  lemma RankOf(records: set<Record>, rule: CompactRule, r: Record) returns (k: nat)
    requires DistinctIds(records) && r in EligibleSet(records, rule) && Trim(r.text) != ""
    ensures var ranked := RankedRepresentatives(records, rule);
      k < |ranked| && Trim(ranked[k].text) == Trim(r.text)
  {
    hide RankedBefore, Trim, RankedRepresentatives;
    var e := EligibleSet(records, rule);
    RepresentativeExists(e, r, rule.scope);
    var best :| Represents(best, e, rule.scope) && Trim(best.text) == Trim(r.text);
    RankedHolds(records, rule, best);
    k :| 0 <= k < |RankedRepresentatives(records, rule)| && RankedRepresentatives(records, rule)[k] == best;
  }

  lemma RankedHolds(records: set<Record>, rule: CompactRule, best: Record)
    requires DistinctIds(records) && Represents(best, EligibleSet(records, rule), rule.scope)
    ensures best in Elems(RankedRepresentatives(records, rule))
  {
    RankingTotalOn(Representatives(EligibleSet(records, rule), rule.scope), rule.scope);
  }

  lemma RanksApart(ranked: seq<Record>, i: nat, j: nat, ns: Namespace)
    requires i < j < |ranked| && Sorted(Ranking(ns), ranked) && TotalOn(Ranking(ns), Elems(ranked))
    ensures ranked[i] != ranked[j] && RankedBefore(ranked[i], ranked[j], ns)
  {
    hide RankedBefore;
    assert ranked[j] in Elems(ranked) && Ranking(ns)(ranked[i], ranked[j]);
  }

  lemma OneRepresentative(a: Record, b: Record, s: set<Record>, ns: Namespace)
    requires Represents(a, s, ns) && Represents(b, s, ns) && Trim(a.text) == Trim(b.text)
    ensures a == b
  {
    hide ScopePriority, StatusPriority, Trim;
    BeforeTotal(a.id, b.id);
  }

  // ----- the order, by the fields of the records -----

  ghost predicate InCycle(r: Record, ns: Namespace) {
    Trim(ns.cycle) != "" && Trim(r.scope.cycle) == Trim(ns.cycle)
  }

  ghost predicate WithAgent(r: Record, ns: Namespace) {
    InCycle(r, ns) && Trim(ns.agent) != "" && Trim(r.scope.agent) == Trim(ns.agent)
  }

  ghost predicate WithoutCycle(r: Record) {
    Trim(r.scope.cycle) == ""
  }

  /** Open before resolved before superseded before archived. */
  ghost predicate EarlierStatus(a: Status, b: Status) {
    (a.Open? && !b.Open?) || (a.Resolved? && !b.Open? && !b.Resolved?) || (a.Superseded? && b.Archived?)
  }

  /**
    A record of the cycle and agent comes first, then one of the cycle, then one without a cycle, then the others;
    among those the earlier status, then the later update, then the later creation, then the smaller id.
   */
  ghost predicate Preferred(a: Record, b: Record, ns: Namespace) {
    if WithAgent(a, ns) != WithAgent(b, ns) then WithAgent(a, ns)
    else if InCycle(a, ns) != InCycle(b, ns) then InCycle(a, ns)
    else if WithoutCycle(a) != WithoutCycle(b) then WithoutCycle(a)
    else if a.status != b.status then EarlierStatus(a.status, b.status)
    else if a.updatedAt != b.updatedAt then b.updatedAt < a.updatedAt
    else if a.createdAt != b.createdAt then b.createdAt < a.createdAt
    else Before(a.id, b.id)
  }

  lemma RankedIsPreferred(a: Record, b: Record, ns: Namespace)
    requires KnownStatus(a.status) && KnownStatus(b.status)
    ensures RankedBefore(a, b, ns) <==> Preferred(a, b, ns)
  {
    hide Trim, Before;
  }

  ghost predicate AllKnown(s: set<Record>) {
    forall r :: r in s ==> KnownStatus(r.status)
  }

  /** The record has this text, and is preferred to every other record of the set that has it. */
  ghost predicate Best(r: Record, text: string, s: set<Record>, ns: Namespace) {
    && r in s && text != "" && Trim(r.text) == text
    && forall o :: o in s && Trim(o.text) == text && o != r ==> Preferred(r, o, ns)
  }

  lemma StandsForIsBest(r: Record, text: string, s: set<Record>, ns: Namespace)
    requires AllKnown(s)
    ensures StandsFor(r, text, s, ns) <==> Best(r, text, s, ns)
  {
    hide Trim, RankedBefore, Preferred;
    if r in s {
      forall o | o in s ensures RankedBefore(r, o, ns) <==> Preferred(r, o, ns) {
        RankedIsPreferred(r, o, ns);
      }
    }
  }

  /**
    The texts that are kept, of the records of a set: each is the text of some record, the preferred ones come first,
    and one that is missing was crowded out by as many as may be kept, all preferred to it.
   */
  ghost predicate KeptOf(kept: seq<string>, e: set<Record>, ns: Namespace, most: nat) {
    && Distinct(kept) && |kept| <= most
    && (forall i :: 0 <= i < |kept| ==> HasBest(kept[i], e, ns))
    && (forall i, j :: 0 <= i < j < |kept| ==> AllPreferred(kept[i], kept[j], e, ns))
    && (forall text :: HasBest(text, e, ns) && text !in kept ==>
          |kept| == most && forall i :: 0 <= i < |kept| ==> AllPreferred(kept[i], text, e, ns))
  }

  ghost predicate HasBest(text: string, e: set<Record>, ns: Namespace) {
    exists r :: Best(r, text, e, ns)
  }

  /** The record of the one text is preferred to that of the other. */
  ghost predicate AllPreferred(x: string, y: string, e: set<Record>, ns: Namespace) {
    forall a, b :: Best(a, x, e, ns) && Best(b, y, e, ns) ==> Preferred(a, b, ns)
  }

  /** Archived records are never eligible, those of the current cycle and those not open only where the rule says so. */
  lemma EligibleExact(records: set<Record>, rule: CompactRule, r: Record)
    ensures r in EligibleSet(records, rule) <==>
      && r in records && !r.status.Archived? && (r.status.Open? || rule.includeResolved)
      && (rule.excludeCurrentCycle && rule.scope.cycle != "" ==> Trim(r.scope.cycle) != Trim(rule.scope.cycle))
  {
    hide Trim;
  }

  lemma KeptByFields(records: set<Record>, rule: CompactRule)
    requires DistinctIds(records) && AllKnown(records)
    ensures KeptOf(Compacted(records, rule), EligibleSet(records, rule), rule.scope, Cap(rule))
  {
    var kept, e, ns := Compacted(records, rule), EligibleSet(records, rule), rule.scope;
    CompactedMeaning(records, rule);
    assert AllKnown(e);
    hide Compacted, RankedBefore, Trim, StandsFor, Cap, Distinct, EligibleSet, AllKnown, DistinctIds, HasBest,
      AllPreferred, HasRepresentative, CrowdedOut;
    forall i | 0 <= i < |kept| ensures HasBest(kept[i], e, ns) {
      RepresentedHasBest(kept[i], e, ns);
    }
    forall i, j | 0 <= i < j < |kept| ensures AllPreferred(kept[i], kept[j], e, ns) {
      RankedAllPreferred(kept[i], kept[j], e, ns);
    }
    forall text | HasBest(text, e, ns) && text !in kept
      ensures |kept| == Cap(rule) && forall i :: 0 <= i < |kept| ==> AllPreferred(kept[i], text, e, ns)
    {
      var r := BestOf(text, e, ns);
      CrowdedPreferred(text, kept, e, rule);
    }
  }

  lemma RepresentedHasBest(text: string, e: set<Record>, ns: Namespace)
    requires AllKnown(e) && HasRepresentative(text, e, ns)
    ensures HasBest(text, e, ns)
  {
    hide StandsFor, Best;
    var r :| StandsFor(r, text, e, ns);
    StandsForIsBest(r, text, e, ns);
  }

  lemma RankedAllPreferred(x: string, y: string, e: set<Record>, ns: Namespace)
    requires AllKnown(e)
    requires forall a, b :: StandsFor(a, x, e, ns) && StandsFor(b, y, e, ns) ==> RankedBefore(a, b, ns)
    ensures AllPreferred(x, y, e, ns)
  {
    hide StandsFor, Best, RankedBefore, Preferred;
    forall a, b | Best(a, x, e, ns) && Best(b, y, e, ns) ensures Preferred(a, b, ns) {
      BestRanked(a, x, b, y, e, ns);
    }
  }

  lemma BestOf(text: string, e: set<Record>, ns: Namespace) returns (r: Record)
    requires AllKnown(e) && HasBest(text, e, ns)
    ensures r in e && Trim(r.text) == text != ""
  {
    hide Trim, Preferred;
    r :| Best(r, text, e, ns);
  }

  lemma CrowdedPreferred(text: string, kept: seq<string>, e: set<Record>, rule: CompactRule)
    requires AllKnown(e) && CrowdedOut(text, kept, e, rule)
    ensures |kept| == Cap(rule) && forall i :: 0 <= i < |kept| ==> AllPreferred(kept[i], text, e, rule.scope)
  {
    hide StandsFor, RankedBefore, AllPreferred, Cap;
    forall i | 0 <= i < |kept| ensures AllPreferred(kept[i], text, e, rule.scope) {
      RankedAllPreferred(kept[i], text, e, rule.scope);
    }
  }

  lemma BestRanked(a: Record, x: string, b: Record, y: string, s: set<Record>, ns: Namespace)
    requires AllKnown(s) && Best(a, x, s, ns) && Best(b, y, s, ns)
    ensures StandsFor(a, x, s, ns) && StandsFor(b, y, s, ns) && (RankedBefore(a, b, ns) <==> Preferred(a, b, ns))
  {
    hide RankedBefore, Preferred, Best, StandsFor;
    BestKnown(a, x, s, ns);
    BestKnown(b, y, s, ns);
    StandsForIsBest(a, x, s, ns);
    StandsForIsBest(b, y, s, ns);
    RankedIsPreferred(a, b, ns);
  }

  lemma BestKnown(r: Record, text: string, s: set<Record>, ns: Namespace)
    requires AllKnown(s) && Best(r, text, s, ns)
    ensures KnownStatus(r.status) && r in s && Trim(r.text) == text != ""
  {
    hide Trim, Preferred;
  }

  // ----- the loop -----

  /** The entries whose text has not appeared before, in order. */
  function FirstOfText(s: seq<Record>): seq<Record> {
    if s == [] then []
    else
      var rest, last := FirstOfText(s[..|s| - 1]), s[|s| - 1];
      if Trim(last.text) == "" || Trim(last.text) in TextsOf(rest) then rest else rest + [last]
  }

  lemma TextsOfAppend(s: seq<Record>, r: Record)
    ensures TextsOf(s + [r]) == TextsOf(s) + [Trim(r.text)]
  {
    hide Trim;
  }

  lemma {:induction false} FirstOfTextCovers(s: seq<Record>)
    ensures forall x :: x in FirstOfText(s) ==> x in s && Trim(x.text) != ""
    ensures forall x :: x in s && Trim(x.text) != "" ==> Trim(x.text) in TextsOf(FirstOfText(s))
  {
    hide Trim, TextsOf;
    if s != [] {
      var front, last := s[..|s| - 1], s[|s| - 1];
      assert forall x :: x in s <==> x in front || x == last;
      FirstOfTextCovers(front);
      TextsOfAppend(FirstOfText(front), last);
    }
  }

  /** An appended entry has a text that none of the earlier entries has. */
  lemma LastIsNew(front: seq<Record>, last: Record, o: Record)
    requires FirstOfText(front + [last]) != FirstOfText(front)
    ensures o in front ==> Trim(o.text) != Trim(last.text)
  {
    hide Trim, TextsOf;
    assert (front + [last])[..|front|] == front;
    FirstOfTextCovers(front);
  }

  lemma RanksBeforeLast(front: seq<Record>, last: Record, ns: Namespace)
    requires Sorted(Ranking(ns), front + [last])
    ensures Sorted(Ranking(ns), front) && forall x :: x in front ==> RankedBefore(x, last, ns)
  {
    hide RankedBefore;
    var s := front + [last];
    forall i, j | 0 <= i < j < |front| ensures Ranking(ns)(front[i], front[j]) {
      assert Ranking(ns)(s[i], s[j]);
    }
    forall x | x in front ensures RankedBefore(x, last, ns) {
      var i :| 0 <= i < |front| && front[i] == x;
      assert Ranking(ns)(s[i], s[|front|]);
    }
  }

  lemma {:induction false} FirstOfTextSorted(s: seq<Record>, ns: Namespace)
    requires Sorted(Ranking(ns), s)
    ensures Sorted(Ranking(ns), FirstOfText(s))
  {
    hide RankedBefore, Trim, TextsOf, Sorted, Ranking;
    if s != [] {
      var front, last := s[..|s| - 1], s[|s| - 1];
      assert front + [last] == s;
      RanksBeforeLast(front, last, ns);
      FirstOfTextSorted(front, ns);
      FirstOfTextCovers(front);
      AppendSorted(FirstOfText(front), last, ns);
    } else {
      EmptySorted(ns);
    }
  }

  lemma EmptySorted(ns: Namespace)
    ensures Sorted(Ranking(ns), [])
  {
  }

  /** Of the entries with one text, the kept one ranks before the others. */
  lemma {:induction false} FirstOfTextBest(s: seq<Record>, ns: Namespace, x: Record, o: Record)
    requires Sorted(Ranking(ns), s) && x in FirstOfText(s) && o in s && o != x && Trim(o.text) == Trim(x.text)
    ensures RankedBefore(x, o, ns)
  {
    hide RankedBefore, Trim, TextsOf, Sorted, Ranking;
    var front, last := s[..|s| - 1], s[|s| - 1];
    assert forall y :: y in s <==> y in front || y == last;
    assert front + [last] == s;
    RanksBeforeLast(front, last, ns);
    FirstOfTextCovers(front);
    if x in FirstOfText(front) {
      if o in front {
        FirstOfTextBest(front, ns, x, o);
      }
    } else {
      LastIsNew(front, last, o);
    }
  }

  lemma AppendSorted(s: seq<Record>, last: Record, ns: Namespace)
    requires Sorted(Ranking(ns), s) && forall x :: x in s ==> RankedBefore(x, last, ns)
    ensures Sorted(Ranking(ns), s + [last])
  {
    hide RankedBefore;
  }

  /** On a ranked list of eligible records, the first entries of each text are the representatives. */
  lemma FirstOfTextRepresents(e: set<Record>, ns: Namespace, sorted: seq<Record>, x: Record)
    requires Sorted(Ranking(ns), sorted) && Elems(sorted) == e
    ensures x in FirstOfText(sorted) <==> Represents(x, e, ns)
  {
    var first := FirstOfText(sorted);
    FirstOfTextCovers(sorted);
    hide RankedBefore, Trim, Ranking, Sorted, FirstOfText;
    if x in first {
      FirstRepresents(e, ns, sorted, x);
    }
    if Represents(x, e, ns) {
      assert x in sorted;
      var k :| 0 <= k < |first| && TextsOf(first)[k] == Trim(x.text);
      FirstRepresents(e, ns, sorted, first[k]);
      OneRepresentative(x, first[k], e, ns);
    }
  }

  lemma FirstRepresents(e: set<Record>, ns: Namespace, sorted: seq<Record>, x: Record)
    requires Sorted(Ranking(ns), sorted) && Elems(sorted) == e && x in FirstOfText(sorted)
    ensures Represents(x, e, ns)
  {
    FirstOfTextCovers(sorted);
    hide RankedBefore, Trim, Ranking, Sorted, FirstOfText;
    forall o | o in e && Trim(o.text) == Trim(x.text) && o != x ensures RankedBefore(x, o, ns) {
      assert o in sorted;
      FirstOfTextBest(sorted, ns, x, o);
    }
  }

  lemma FirstOfTextIsRanked(records: set<Record>, rule: CompactRule, sorted: seq<Record>)
    requires DistinctIds(records) && Sorted(Ranking(rule.scope), sorted)
    requires Elems(sorted) == EligibleSet(records, rule)
    ensures FirstOfText(sorted) == RankedRepresentatives(records, rule)
  {
    var e, ns := EligibleSet(records, rule), rule.scope;
    var first, ranked := FirstOfText(sorted), RankedRepresentatives(records, rule);
    FirstOfTextSorted(sorted, ns);
    RankingTotalOn(Representatives(e, ns), ns);
    assert Lists(Ranking(ns), Representatives(e, ns), ranked);
    hide RankedBefore, Eligible, FirstOfText, Represents, Sorted, TotalOn, RankedRepresentatives, Ranking;
    forall x ensures x in first <==> x in ranked {
      FirstOfTextRepresents(e, ns, sorted, x);
      assert x in ranked <==> x in Elems(ranked);
    }
    assert Elems(first) == Elems(ranked);
    SortedUnique(Ranking(ns), first, ranked);
  }

  method CompactTexts(records: seq<Record>, rule: CompactRule) returns (unique: seq<string>)
    requires Distinct(records) && DistinctIds(Elems(records))
    ensures unique == Compacted(Elems(records), rule)
  {
    hide RankedBefore, Trim, TotalOn;
    var maxItems := if rule.maxItems <= 0 then DEFAULT_CONTEXT_MAX else rule.maxItems;
    var filtered: seq<Record> := [];
    for i := 0 to |records|
      invariant Distinct(filtered)
      invariant forall r :: r in filtered <==> r in records[..i] && Eligible(r, rule)
    {
      var record := records[i];
      assert records[..i + 1] == records[..i] + [record];
      if !Eligible(record, rule) {
        continue;
      }
      filtered := filtered + [record];
    }
    assert records[..|records|] == records;
    assert Elems(filtered) == EligibleSet(Elems(records), rule);
    RankingTotalOn(Elems(filtered), rule.scope);
    SortBySorts(Ranking(rule.scope), filtered);
    filtered := SortBy(Ranking(rule.scope), filtered);
    FirstOfTextIsRanked(Elems(records), rule, filtered);
    unique := TakeFirstTexts(filtered, maxItems);
  }

  /** The distinct texts of a list of records, in order of first appearance. */
  function FirstTexts(s: seq<Record>): seq<string> {
    TextsOf(FirstOfText(s))
  }

  /** The second loop of compactTexts: walk the ranked records until enough distinct texts are found. */
  method TakeFirstTexts(ranked: seq<Record>, maxItems: int) returns (unique: seq<string>)
    requires 0 < maxItems
    ensures unique == FirstTexts(ranked)[..Min(maxItems, |FirstTexts(ranked)|)]
  {
    unique := [];
    var seen: set<string> := {};
    var i := 0;
    assert FirstTexts(ranked[..0]) == [];
    hide Trim, FirstTexts, Elems;
    ElemsEmpty<string>();
    while i < |ranked|
      invariant 0 <= i <= |ranked|
      invariant unique == FirstTexts(ranked[..i]) && seen == Elems(unique)
      invariant |unique| < maxItems
    {
      var text := Trim(ranked[i].text);
      FirstTextsStep(ranked, i);
      ElemsMore(unique, text);
      i := i + 1;
      if text == "" || text in seen {
        continue;
      }
      seen := seen + {text};
      unique := unique + [text];
      if |unique| >= maxItems {
        break;
      }
    }
    CutTexts(ranked, i, unique, maxItems);
  }

  lemma CutTexts(ranked: seq<Record>, i: nat, unique: seq<string>, maxItems: int)
    requires i <= |ranked| && unique == FirstTexts(ranked[..i])
    requires |unique| == maxItems || (|unique| < maxItems && i == |ranked|)
    ensures unique == FirstTexts(ranked)[..Min(maxItems, |FirstTexts(ranked)|)]
  {
    hide FirstTexts;
    FirstTextsGrow(ranked, i);
    assert ranked[..|ranked|] == ranked;
  }

  lemma FirstTextsStep(s: seq<Record>, i: nat)
    requires i < |s|
    ensures var text, front := Trim(s[i].text), FirstTexts(s[..i]);
      FirstTexts(s[..i + 1]) == if text == "" || text in front then front else front + [text]
  {
    hide Trim, TextsOf;
    assert s[..i + 1][..i] == s[..i];
    TextsOfAppend(FirstOfText(s[..i]), s[i]);
  }

  lemma {:induction false} FirstTextsGrow(s: seq<Record>, i: nat)
    requires i <= |s|
    ensures |FirstTexts(s[..i])| <= |FirstTexts(s)| && FirstTexts(s)[..|FirstTexts(s[..i])|] == FirstTexts(s[..i])
    decreases |s| - i
  {
    hide Trim, FirstTexts;
    if i == |s| {
      assert s[..i] == s;
    } else {
      FirstTextsStep(s, i);
      FirstTextsGrow(s, i + 1);
    }
  }
}
