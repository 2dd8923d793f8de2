/** Counting how often values occur. */
module Counting {

  /** The table counts each value of the sequence as often as it occurs, and nothing else. */
  ghost predicate Tallies<T(!new)>(counts: map<T, nat>, values: seq<T>) {
    && (forall v :: v in counts <==> v in values)
    && (forall v :: v in counts ==> counts[v] == multiset(values)[v])
  }

  function Increment<T>(counts: map<T, nat>, v: T): map<T, nat> {
    counts[v := (if v in counts then counts[v] else 0) + 1]
  }

  lemma TalliesNone<T(!new)>()
    ensures Tallies<T>(map[], [])
  {
  }

  lemma TallyMore<T(!new)>(counts: map<T, nat>, values: seq<T>, v: T)
    requires Tallies(counts, values)
    ensures Tallies(Increment(counts, v), values + [v])
  {
    var more := values + [v];
    assert multiset(more) == multiset(values) + multiset{v};
    assert forall w :: w in more <==> w in values || w == v;
    if v !in counts {
      assert v !in multiset(values);
    }
  }

  lemma {:induction false} ImageNotLarger<A, B>(s: set<A>, f: A -> B, image: set<B>)
    requires image == set a | a in s :: f(a)
    ensures |image| <= |s|
  {
    if s != {} {
      var a :| a in s;
      var rest := s - {a};
      var smaller := set x | x in rest :: f(x);
      ImageNotLarger(rest, f, smaller);
      assert image == smaller + {f(a)};
    }
  }

  lemma {:induction false} InjectiveImage<A, B>(s: set<A>, f: A -> B, image: set<B>)
    requires image == set a | a in s :: f(a)
    requires forall a, b :: a in s && b in s && f(a) == f(b) ==> a == b
    ensures |image| == |s|
  {
    if s != {} {
      var a :| a in s;
      var rest := s - {a};
      var smaller := set x | x in rest :: f(x);
      InjectiveImage(rest, f, smaller);
      assert image == smaller + {f(a)};
      assert f(a) !in smaller;
    }
  }

  // ----- a loop's share of a set -----

  lemma Skip<T>(due: set<T>, seen: set<T>, x: T)
    requires x !in due
    ensures due * (seen + {x}) == due * seen
  {
  }

  lemma Take<T>(due: set<T>, seen: set<T>, x: T)
    requires x in due && x !in seen
    ensures due * (seen + {x}) == due * seen + {x} && x !in due * seen && |due * seen + {x}| == |due * seen| + 1
  {
  }

  lemma TakeAll<T>(due: set<T>, seen: set<T>)
    requires due <= seen
    ensures due * seen == due
  {
  }

  lemma RemoveMore<K, V>(m: map<K, V>, gone: set<K>, more: set<K>)
    ensures (m - gone) - more == m - (gone + more)
  {
  }

  lemma RemoveNone<K, V>(m: map<K, V>)
    ensures m - {} == m
  {
  }
}
