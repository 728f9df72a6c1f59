/**
 The immutable per-project accumulator of gradle-revapi's configuration: a map
 from a "group and name" key to the set of items recorded for it, with a
 defaulting lookup, a union-based merge that yields a new value, and the
 canonical empty value.

 The key type is left opaque (any type with equality); so is the item type.
 */
module PerProjects {

  /** An accumulator value. The datatype constructor plays the role of the
      generated builder: it builds an accumulator from a complete map. */
  datatype PerProject<K(==), T(==)> = PerProject(items: map<K, set<T>>)

  /** The canonical accumulator with no keys. */
  function Empty<K(==,!new), T(==,!new)>(): (r: PerProject<K, T>)
    ensures r.items.Keys == {}
    ensures forall k :: ForGroupAndName(r, k) == {}
  {
    PerProject(map[])
  }

  /** The items recorded for `k`; a key never recorded reads as the empty set. */
  function ForGroupAndName<K(==,!new), T(==,!new)>(p: PerProject<K, T>, k: K): (s: set<T>)
    ensures forall t :: t in s <==> k in p.items && t in p.items[k]
    ensures k !in p.items ==> s == {}
  {
    if k in p.items then p.items[k] else {}
  }

  /** A new accumulator in which `k` holds the union of `newItems` with what `k`
      held before, and every other key holds exactly what it held before. */
  function Merge<K(==,!new), T(==,!new)>(p: PerProject<K, T>, k: K, newItems: set<T>): (r: PerProject<K, T>)
    ensures r.items.Keys == p.items.Keys + {k}
    ensures ForGroupAndName(r, k) == newItems + ForGroupAndName(p, k)
    ensures forall k2 :: k2 != k ==> ForGroupAndName(r, k2) == ForGroupAndName(p, k2)
    ensures forall k2 :: k2 != k && k2 in p.items ==> r.items[k2] == p.items[k2]
  {
    PerProject(p.items[k := newItems + ForGroupAndName(p, k)])
  }

  /** Two accumulators are observably the same when every lookup agrees; a key
      mapped to the empty set and an absent key are indistinguishable. */
  ghost predicate SameContent<K(!new), T(!new)>(a: PerProject<K, T>, b: PerProject<K, T>)
  {
    forall k :: ForGroupAndName(a, k) == ForGroupAndName(b, k)
  }

  /** Every item `a` records for a key, `b` records for that key too. */
  ghost predicate Includes<K(!new), T(!new)>(a: PerProject<K, T>, b: PerProject<K, T>)
  {
    forall k :: ForGroupAndName(a, k) <= ForGroupAndName(b, k)
  }

  /** For a stored key, lookup returns exactly the stored set. */
  lemma LookupPresent<K(!new), T(!new)>(p: PerProject<K, T>, k: K)
    requires k in p.items
    ensures ForGroupAndName(p, k) == p.items[k]
  {
  }

  /** Merge never loses an item, under any key. */
  lemma MergeIsMonotone<K(!new), T(!new)>(p: PerProject<K, T>, k: K, newItems: set<T>)
    ensures Includes(p, Merge(p, k, newItems))
    ensures newItems <= ForGroupAndName(Merge(p, k, newItems), k)
  {
  }

  /** Merge is the least accumulator that includes `p` and records `newItems`
      under `k`: any other such accumulator includes the merge result. */
  lemma MergeIsLeast<K(!new), T(!new)>(p: PerProject<K, T>, k: K, newItems: set<T>, b: PerProject<K, T>)
    requires Includes(p, b)
    requires newItems <= ForGroupAndName(b, k)
    ensures Includes(Merge(p, k, newItems), b)
  {
    // Follows from Merge's contract: each key holds its old items, plus newItems at k.
  }

  /** Merging the same items into the same key a second time changes nothing,
      not even the underlying map. */
  lemma MergeIdempotent<K(!new), T(!new)>(p: PerProject<K, T>, k: K, newItems: set<T>)
    ensures Merge(Merge(p, k, newItems), k, newItems).items == Merge(p, k, newItems).items
  {
    // Follows from Merge's contract: newItems + (newItems + old) == newItems + old.
  }

  /** Merging the empty set leaves every lookup as it was. */
  lemma MergeEmptyKeepsContent<K(!new), T(!new)>(p: PerProject<K, T>, k: K)
    ensures SameContent(Merge(p, k, {}), p)
  {
  }

  /** The map stored after merging the empty set: for a key that is already
      present it is the receiver's own map, so the result equals the receiver;
      for an absent key it is the receiver's map with that key added, mapped to
      the empty set. */
  lemma MergeEmptyStoredMap<K(!new), T(!new)>(p: PerProject<K, T>, k: K)
    ensures k in p.items ==> Merge(p, k, {}) == p
    ensures k !in p.items ==> Merge(p, k, {}).items == p.items[k := {}]
  {
    if k in p.items {
      var r := Merge(p, k, {});
      assert r.items.Keys == p.items.Keys;
      forall k2 | k2 in r.items
        ensures r.items[k2] == p.items[k2]
      {
        if k2 == k {
          assert r.items[k] == ForGroupAndName(r, k);
        }
      }
      assert r.items == p.items;
    } else {
      var r := Merge(p, k, {});
      assert r.items[k] == ForGroupAndName(r, k) == {};
      assert r.items == p.items[k := {}];
    }
  }

  /** Two successive merges into one key amount to one merge of their union. */
  lemma MergeTwiceIsMergeOfUnion<K(!new), T(!new)>(p: PerProject<K, T>, k: K, s1: set<T>, s2: set<T>)
    ensures Merge(Merge(p, k, s1), k, s2) == Merge(p, k, s1 + s2)
  {
    var lhs := Merge(Merge(p, k, s1), k, s2);
    var rhs := Merge(p, k, s1 + s2);
    assert lhs.items.Keys == rhs.items.Keys;
    forall k2 | k2 in lhs.items
      ensures lhs.items[k2] == rhs.items[k2]
    {
      if k2 == k {
        assert lhs.items[k] == ForGroupAndName(lhs, k);
        assert rhs.items[k] == ForGroupAndName(rhs, k);
      }
    }
    assert lhs.items == rhs.items;
  }

  /** The order in which two merges are applied does not matter, whether they
      target the same key or different keys. */
  lemma MergeCommutes<K(!new), T(!new)>(p: PerProject<K, T>, k1: K, s1: set<T>, k2: K, s2: set<T>)
    ensures Merge(Merge(p, k1, s1), k2, s2) == Merge(Merge(p, k2, s2), k1, s1)
  {
    var lhs := Merge(Merge(p, k1, s1), k2, s2);
    var rhs := Merge(Merge(p, k2, s2), k1, s1);
    assert lhs.items.Keys == rhs.items.Keys;
    forall k | k in lhs.items
      ensures lhs.items[k] == rhs.items[k]
    {
      assert lhs.items[k] == ForGroupAndName(lhs, k);
      assert rhs.items[k] == ForGroupAndName(rhs, k);
    }
    assert lhs.items == rhs.items;
  }
}
