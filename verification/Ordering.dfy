/**
  Sorting by a comparator. The program sorts slices that were filled from a directory listing or from a
  map, in no particular order, with comparators that never call two entries equal. Under such a
  comparator there is only one sorted order, so nothing depends on the order of arrival nor on the
  sorting algorithm.
 */
module Ordering {

  ghost function Elems<T>(s: seq<T>): set<T> {
    set x | x in s
  }

  lemma ElemsEmpty<T>()
    ensures Elems<T>([]) == {}
  {
  }

  lemma ElemsMore<T>(s: seq<T>, x: T)
    ensures Elems(s + [x]) == Elems(s) + {x}
    ensures forall y :: y in s <==> y in Elems(s)
  {
  }

  lemma ElemsBoth<T>(a: seq<T>, b: seq<T>)
    ensures Elems(a + b) == Elems(a) + Elems(b)
  {
  }

  ghost predicate Distinct<T>(s: seq<T>) {
    forall i, j :: 0 <= i < j < |s| ==> s[i] != s[j]
  }

  ghost predicate Sorted<T>(less: (T, T) -> bool, s: seq<T>) {
    forall i, j :: 0 <= i < j < |s| ==> less(s[i], s[j])
  }

  /** The comparator is a strict total order on the members of s. */
  ghost predicate TotalOn<T>(less: (T, T) -> bool, s: set<T>) {
    && (forall a :: a in s ==> !less(a, a))
    && (forall a, b :: a in s && b in s && a != b ==> less(a, b) || less(b, a))
    && (forall a, b, c :: a in s && b in s && c in s && less(a, b) && less(b, c) ==> less(a, c))
  }

  function Insert<T>(less: (T, T) -> bool, x: T, s: seq<T>): seq<T> {
    if s == [] || less(x, s[0]) then [x] + s else [s[0]] + Insert(less, x, s[1..])
  }

  function SortBy<T>(less: (T, T) -> bool, s: seq<T>): seq<T> {
    if s == [] then [] else Insert(less, s[0], SortBy(less, s[1..]))
  }

  lemma {:induction false} InsertKeeps<T>(less: (T, T) -> bool, x: T, s: seq<T>)
    ensures multiset(Insert(less, x, s)) == multiset{x} + multiset(s)
  {
    if s == [] || less(x, s[0]) {
    } else {
      InsertKeeps(less, x, s[1..]);
      assert s == [s[0]] + s[1..];
    }
  }

  lemma InsertMembers<T>(less: (T, T) -> bool, x: T, s: seq<T>)
    ensures forall y :: y in Insert(less, x, s) <==> y == x || y in s
  {
    hide Insert;
    InsertKeeps(less, x, s);
    assert forall y :: y in Insert(less, x, s) <==> y in multiset(Insert(less, x, s));
  }

  lemma {:induction false} InsertSorts<T>(less: (T, T) -> bool, x: T, s: seq<T>)
    requires TotalOn(less, {x} + Elems(s)) && x !in s && Sorted(less, s)
    ensures Sorted(less, Insert(less, x, s))
  {
    if s == [] {
    } else if less(x, s[0]) {
      assert forall i :: 0 <= i < |s| ==> s[i] in Elems(s);
    } else {
      var rest := s[1..];
      assert forall y :: y in rest ==> y in s;
      InsertSorts(less, x, rest);
      InsertMembers(less, x, rest);
      FrontOf(less, s, x, Insert(less, x, rest));
    }
  }

  /** The first entry of a sorted sequence is before everything that is to follow it. */
  lemma FrontOf<T>(less: (T, T) -> bool, s: seq<T>, x: T, r: seq<T>)
    requires s != [] && Sorted(less, s) && less(s[0], x) && Sorted(less, r)
    requires forall y :: y in r <==> y == x || y in s[1..]
    ensures Sorted(less, [s[0]] + r)
  {
    forall i | 0 <= i < |r| ensures less(s[0], r[i]) {
      assert r[i] in r;
    }
  }

  lemma {:induction false} SortByKeeps<T>(less: (T, T) -> bool, s: seq<T>)
    ensures multiset(SortBy(less, s)) == multiset(s)
  {
    if s != [] {
      SortByKeeps(less, s[1..]);
      InsertKeeps(less, s[0], SortBy(less, s[1..]));
      assert s == [s[0]] + s[1..];
    }
  }

  lemma SameMembers<T>(a: seq<T>, b: seq<T>)
    requires multiset(a) == multiset(b)
    ensures |a| == |b| && Elems(a) == Elems(b) && forall x :: x in a <==> x in b
  {
    assert |a| == |multiset(a)| == |multiset(b)| == |b|;
    assert forall x :: (x in a <==> x in multiset(a)) && (x in b <==> x in multiset(b));
  }

  lemma {:induction false} SortByOrders<T>(less: (T, T) -> bool, s: seq<T>)
    requires TotalOn(less, Elems(s)) && Distinct(s)
    ensures Sorted(less, SortBy(less, s))
  {
    if s != [] {
      var rest := s[1..];
      assert forall y :: y in rest ==> y in s;
      SortByOrders(less, rest);
      SortByKeeps(less, rest);
      SameMembers(SortBy(less, rest), rest);
      assert {s[0]} + Elems(rest) == Elems(s);
      InsertSorts(less, s[0], SortBy(less, rest));
    }
  }

  /** Sorting rearranges the entries, and puts them in order when the comparator is total on them. */
  lemma SortBySorts<T>(less: (T, T) -> bool, s: seq<T>)
    ensures |SortBy(less, s)| == |s| && forall x :: x in SortBy(less, s) <==> x in s
    ensures TotalOn(less, Elems(s)) && Distinct(s) ==> Sorted(less, SortBy(less, s))
  {
    SortByKeeps(less, s);
    SameMembers(SortBy(less, s), s);
    if TotalOn(less, Elems(s)) && Distinct(s) {
      SortByOrders(less, s);
    }
  }

  /** Like Sorted, but entries may repeat. */
  ghost predicate InOrder<T>(less: (T, T) -> bool, s: seq<T>) {
    forall i, j :: 0 <= i < j < |s| ==> !less(s[j], s[i])
  }

  lemma {:induction false} InsertInOrder<T>(less: (T, T) -> bool, x: T, s: seq<T>)
    requires TotalOn(less, {x} + Elems(s)) && InOrder(less, s)
    ensures InOrder(less, Insert(less, x, s))
  {
    if s == [] {
    } else if less(x, s[0]) {
      assert forall i :: 0 <= i < |s| ==> s[i] in Elems(s);
    } else {
      var rest := s[1..];
      assert forall y :: y in rest ==> y in s;
      InsertInOrder(less, x, rest);
      InsertMembers(less, x, rest);
      FrontInOrder(less, s, x, Insert(less, x, rest));
    }
  }

  lemma FrontInOrder<T>(less: (T, T) -> bool, s: seq<T>, x: T, r: seq<T>)
    requires s != [] && InOrder(less, s) && !less(x, s[0]) && InOrder(less, r)
    requires forall y :: y in r <==> y == x || y in s[1..]
    ensures InOrder(less, [s[0]] + r)
  {
    forall i | 0 <= i < |r| ensures !less(r[i], s[0]) {
      assert r[i] in r;
    }
  }

  /** Sorting with repeats. */
  lemma {:induction false} SortByInOrder<T>(less: (T, T) -> bool, s: seq<T>)
    requires TotalOn(less, Elems(s))
    ensures InOrder(less, SortBy(less, s)) && multiset(SortBy(less, s)) == multiset(s)
  {
    SortByKeeps(less, s);
    if s != [] {
      var rest := s[1..];
      assert forall y :: y in rest ==> y in s;
      SortByInOrder(less, rest);
      SameMembers(SortBy(less, rest), rest);
      assert {s[0]} + Elems(rest) == Elems(s);
      InsertInOrder(less, s[0], SortBy(less, rest));
    }
  }

  /** Two sorted sequences with the same members are the same sequence. */
  lemma {:induction false} SortedUnique<T>(less: (T, T) -> bool, a: seq<T>, b: seq<T>)
    requires Sorted(less, a) && Sorted(less, b) && TotalOn(less, Elems(a))
    requires forall x :: x in a <==> x in b
    ensures a == b
  {
    assert b == [] || b[0] in a;
    if a != [] {
      assert a[0] in a && a[0] in b;
      HeadsAgree(less, a, b);
      TailsAgree(less, a, b);
      assert TotalOn(less, Elems(a[1..]));
      hide TotalOn, Sorted;
      SortedUnique(less, a[1..], b[1..]);
      assert a == [a[0]] + a[1..] && b == [b[0]] + b[1..];
    }
  }

  lemma TailsAgree<T>(less: (T, T) -> bool, a: seq<T>, b: seq<T>)
    requires Sorted(less, a) && Sorted(less, b) && TotalOn(less, Elems(a))
    requires a != [] && b != [] && a[0] == b[0] && forall x :: x in a <==> x in b
    ensures Sorted(less, a[1..]) && Sorted(less, b[1..])
    ensures forall x :: x in a[1..] <==> x in b[1..]
  {
    assert a[0] in Elems(a);
    forall x ensures x in a[1..] <==> x in b[1..] {
      TailMembers(less, a, x);
      TailMembers(less, b, x);
    }
  }

  lemma HeadsAgree<T>(less: (T, T) -> bool, a: seq<T>, b: seq<T>)
    requires Sorted(less, a) && Sorted(less, b) && TotalOn(less, Elems(a))
    requires a != [] && b != [] && forall x :: x in a <==> x in b
    ensures a[0] == b[0]
  {
    assert b[0] in b && a[0] in a;
    var i :| 0 <= i < |a| && a[i] == b[0];
    var j :| 0 <= j < |b| && b[j] == a[0];
    assert a[0] in Elems(a) && b[0] in Elems(a);
  }

  lemma TailMembers<T>(less: (T, T) -> bool, a: seq<T>, x: T)
    requires a != [] && Sorted(less, a) && !less(a[0], a[0])
    ensures x in a[1..] <==> x in a && x != a[0]
  {
    if x in a && x != a[0] {
      var i :| 0 <= i < |a| && a[i] == x;
      assert a[1..][i - 1] == x;
    }
  }

  /** Sorting gives the one sorted sequence, whatever order the entries came in. */
  lemma SortByUnique<T>(less: (T, T) -> bool, s: seq<T>, r: seq<T>)
    requires TotalOn(less, Elems(s)) && Distinct(s)
    requires Sorted(less, r) && forall x :: x in r <==> x in s
    ensures SortBy(less, s) == r
  {
    SortBySorts(less, s);
    assert Elems(r) == Elems(s);
    SortedUnique(less, r, SortBy(less, s));
  }

  /** A finite set can be written down as a sequence. */
  lemma {:induction false} EnumerationExists<T>(s: set<T>) returns (e: seq<T>)
    ensures Distinct(e) && |e| == |s| && forall x :: x in e <==> x in s
  {
    if s == {} {
      e := [];
    } else {
      var x :| x in s;
      e := EnumerationExists(s - {x});
      e := e + [x];
    }
  }

  /** r lists the members of s, each once and in order. */
  ghost predicate Lists<T>(less: (T, T) -> bool, s: set<T>, r: seq<T>) {
    Sorted(less, r) && |r| == |s| && Elems(r) == s
  }

  lemma SortedSetExists<T>(less: (T, T) -> bool, s: set<T>)
    requires TotalOn(less, s)
    ensures exists r :: Lists(less, s, r)
  {
    var e := EnumerationExists(s);
    assert Elems(e) == s;
    SortBySorts(less, e);
    assert Lists(less, s, SortBy(less, e));
  }

  /** The one sorted sequence with the members of s. */
  ghost function SortedSet<T>(less: (T, T) -> bool, s: set<T>): (r: seq<T>)
    requires TotalOn(less, s)
    ensures Lists(less, s, r)
  {
    SortedSetExists(less, s);
    var r :| Lists(less, s, r);
    r
  }

  /** However the members of s are collected, sorting them gives SortedSet. */
  lemma SortCollected<T>(less: (T, T) -> bool, collected: seq<T>, s: set<T>)
    requires TotalOn(less, s) && Distinct(collected)
    requires forall x :: x in collected <==> x in s
    ensures SortBy(less, collected) == SortedSet(less, s)
  {
    assert Elems(collected) == s;
    SortByUnique(less, collected, SortedSet(less, s));
  }
}
