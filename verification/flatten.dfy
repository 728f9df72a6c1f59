/**
 Flattening an accumulator: every (key, item) pair it records, each passed
 through a caller-supplied combiner. The order in which keys and items are
 visited is not specified; what is specified is that every recorded pair is
 visited exactly once.
 */
module Flattening {
  import opened PerProjects

  /** All (key, item) pairs an accumulator records. */
  ghost function Pairs<K, T>(p: PerProject<K, T>): set<(K, T)>
  {
    set k, t | k in p.items && t in p.items[k] :: (k, t)
  }

  /** No element of `s` occurs twice. */
  ghost predicate Distinct<X>(s: seq<X>)
  {
    forall i, j :: 0 <= i < j < |s| ==> s[i] != s[j]
  }

  /** `es` lists every pair `p` records, each exactly once, in some order. */
  ghost predicate Enumerates<K(!new), T(!new)>(p: PerProject<K, T>, es: seq<(K, T)>)
  {
    && Distinct(es)
    && forall k, t :: (k, t) in es <==> t in ForGroupAndName(p, k)
  }

  /** `out` is `es` with the combiner applied to each pair, position by position. */
  ghost predicate Combines<K, T, R>(f: (K, T) -> R, es: seq<(K, T)>, out: seq<R>)
  {
    && |out| == |es|
    && forall i :: 0 <= i < |es| ==> out[i] == f(es[i].0, es[i].1)
  }

  /** A sequence without repetitions has as many elements as its element set. */
  lemma {:induction false} DistinctLength<X>(s: seq<X>)
    requires Distinct(s)
    ensures |set x | x in s| == |s|
  {
    if s != [] {
      var init := s[..|s| - 1];
      var last := s[|s| - 1];
      assert Distinct(init);
      DistinctLength(init);
      assert last !in init;
      assert (set x | x in s) == (set x | x in init) + {last} by {
        assert s == init + [last];
      }
    }
  }

  /** An enumeration is as long as the number of recorded pairs. */
  lemma EnumerationLength<K(!new), T(!new)>(p: PerProject<K, T>, es: seq<(K, T)>)
    requires Enumerates(p, es)
    ensures |es| == |Pairs(p)|
  {
    DistinctLength(es);
    assert (set x | x in es) == Pairs(p) by {
      forall x | x in es
        ensures x in Pairs(p)
      {
        assert x == (x.0, x.1);
        assert x.1 in ForGroupAndName(p, x.0);
      }
      forall x | x in Pairs(p)
        ensures x in es
      {
        var k, t :| k in p.items && t in p.items[k] && x == (k, t);
        assert t in ForGroupAndName(p, k);
      }
    }
  }

  /** An enumeration is empty exactly when no key records any item; in
      particular the enumeration of the empty accumulator is empty. */
  lemma EnumerationEmpty<K(!new), T(!new)>(p: PerProject<K, T>, es: seq<(K, T)>)
    requires Enumerates(p, es)
    ensures es == [] <==> forall k :: ForGroupAndName(p, k) == {}
    ensures p.items == map[] ==> es == []
  {
    if es != [] {
      var k, t := es[0].0, es[0].1;
      assert (k, t) in es;
      assert t in ForGroupAndName(p, k);
    }
  }

  /** Lists every recorded (key, item) pair once, visiting keys and the items
      under each key in an unspecified order. */
  method Entries<K(==,!new), T(==,!new)>(p: PerProject<K, T>) returns (es: seq<(K, T)>)
    ensures Enumerates(p, es)
  {
    es := [];
    var keys := p.items.Keys;
    while keys != {}
      invariant keys <= p.items.Keys
      invariant Distinct(es)
      invariant forall k, t :: (k, t) in es <==> k in p.items && k !in keys && t in p.items[k]
      decreases keys
    {
      var k :| k in keys;
      var rest := p.items[k];
      while rest != {}
        invariant rest <= p.items[k]
        invariant Distinct(es)
        invariant forall k', t :: (k', t) in es <==>
          (k' in p.items && k' !in keys && t in p.items[k']) || (k' == k && t in p.items[k] && t !in rest)
        decreases rest
      {
        var t :| t in rest;
        assert (k, t) !in es;
        es := es + [(k, t)];
        rest := rest - {t};
      }
      keys := keys - {k};
    }
  }

  /** The combiner applied to every recorded (key, item) pair, each pair
      contributing exactly one element; zero elements when nothing is recorded. */
  method Flatten<K(==,!new), T(==,!new), R>(p: PerProject<K, T>, f: (K, T) -> R) returns (out: seq<R>)
    ensures exists es :: Enumerates(p, es) && Combines(f, es, out)
    ensures |out| == |Pairs(p)|
    ensures forall k, t :: t in ForGroupAndName(p, k) ==> f(k, t) in out
    ensures forall r :: r in out ==> exists k, t :: t in ForGroupAndName(p, k) && r == f(k, t)
    ensures |out| == 0 <==> forall k :: ForGroupAndName(p, k) == {}
  {
    var es := Entries(p);
    out := seq(|es|, i requires 0 <= i < |es| => f(es[i].0, es[i].1));
    assert Combines(f, es, out);
    EnumerationLength(p, es);
    EnumerationEmpty(p, es);
    forall k, t | t in ForGroupAndName(p, k)
      ensures f(k, t) in out
    {
      assert (k, t) in es;
      var i :| 0 <= i < |es| && es[i] == (k, t);
      assert out[i] == f(k, t);
    }
    forall r | r in out
      ensures exists k, t :: t in ForGroupAndName(p, k) && r == f(k, t)
    {
      var i :| 0 <= i < |out| && out[i] == r;
      assert es[i] in es;
      assert es[i].1 in ForGroupAndName(p, es[i].0);
    }
  }

  /** After a merge, the recorded pairs are the old ones plus one pair for each
      merged item under the merged key. */
  lemma PairsAfterMerge<K(!new), T(!new)>(p: PerProject<K, T>, k: K, newItems: set<T>)
    ensures Pairs(Merge(p, k, newItems)) == Pairs(p) + set t | t in newItems :: (k, t)
  {
    var r := Merge(p, k, newItems);
    forall x | x in Pairs(r)
      ensures x in Pairs(p) + set t | t in newItems :: (k, t)
    {
      var k2, t :| k2 in r.items && t in r.items[k2] && x == (k2, t);
      assert t in ForGroupAndName(r, k2);
      if t !in newItems || k2 != k {
        assert t in ForGroupAndName(p, k2);
      }
    }
    forall x | x in Pairs(p) + set t | t in newItems :: (k, t)
      ensures x in Pairs(r)
    {
      if x in Pairs(p) {
        var k2, t :| k2 in p.items && t in p.items[k2] && x == (k2, t);
        assert t in ForGroupAndName(p, k2);
        assert t in ForGroupAndName(r, k2);
      } else {
        var t :| t in newItems && x == (k, t);
        assert t in ForGroupAndName(r, k);
      }
    }
  }
}
