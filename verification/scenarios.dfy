/**
 Concrete scenarios for the accumulator: the merge walk-through for a single
 project coordinate, and a flattening of a two-key accumulator.
 */
module Scenarios {
  import opened PerProjects
  import opened Flattening

  /** Starting from the empty accumulator, merging {X1, X2} and then {X2, X3}
      into the coordinate (com.acme, lib) records {X1, X2, X3} there and nothing
      anywhere else. */
  lemma AcceptedBreaksAccumulate(other: (string, string))
    requires other != ("com.acme", "lib")
    ensures ForGroupAndName(Merge(Empty(), ("com.acme", "lib"), {"X1", "X2"}), ("com.acme", "lib")) == {"X1", "X2"}
    ensures ForGroupAndName(
              Merge(Merge(Empty(), ("com.acme", "lib"), {"X1", "X2"}), ("com.acme", "lib"), {"X2", "X3"}),
              ("com.acme", "lib")) == {"X1", "X2", "X3"}
    ensures ForGroupAndName(
              Merge(Merge(Empty(), ("com.acme", "lib"), {"X1", "X2"}), ("com.acme", "lib"), {"X2", "X3"}),
              other) == {}
  {
    // Follows from the contracts of Empty and Merge.
  }

  /** Flattening {1: {a, b}, 2: {c}} visits exactly three pairs. */
  lemma TwoKeyPairs()
    ensures Pairs(PerProject(map[1 := {'a', 'b'}, 2 := {'c'}])) == {(1, 'a'), (1, 'b'), (2, 'c')}
    ensures |Pairs(PerProject(map[1 := {'a', 'b'}, 2 := {'c'}]))| == 3
  {
    // Follows from the definition of Pairs on a two-key map display.
  }

  /** Any output Flatten may produce for {1: {a, b}, 2: {c}} with the pairing
      combiner has exactly three elements, namely (1,a), (1,b) and (2,c), with
      no duplicates and no omissions. */
  lemma TwoKeyFlatten(out: seq<(int, char)>)
    requires exists es :: Enumerates(PerProject(map[1 := {'a', 'b'}, 2 := {'c'}]), es)
                          && Combines((k: int, t: char) => (k, t), es, out)
    ensures |out| == 3
    ensures forall x :: x in out <==> x in {(1, 'a'), (1, 'b'), (2, 'c')}
  {
    var p := PerProject(map[1 := {'a', 'b'}, 2 := {'c'}]);
    var es :| Enumerates(p, es) && Combines((k: int, t: char) => (k, t), es, out);
    EnumerationLength(p, es);
    TwoKeyPairs();
    assert out == es;
    assert (1, 'a') in es;
    assert (1, 'b') in es;
    assert (2, 'c') in es;
  }
}
