# PerProject accumulator (gradle-revapi configuration)

This project models `PerProject<T>` in Dafny. It is the immutable value that
gradle-revapi's configuration uses to collect items per project. Each item
set is keyed by a `GroupAndName` (a project's group and name coordinate). A
typical use is the accepted API breaks recorded for each project.

The value is a map from key to a set of items. It has four operations:

- `forGroupAndName`: a lookup that reads an absent key as the empty set;
- `merge`: adds a set of items to one key by set union and returns a new value;
- `flatten`: lists every (key, item) pair, each passed through a combiner;
- `empty()`: the value with no keys.

The Dafny model:

- `per_project.dfy` (module `PerProjects`) holds the datatype
  `PerProject<K, T>`, wrapping `items: map<K, set<T>>`. The key type `K` stays
  opaque. Its only requirement is equality. The datatype constructor plays
  the role of the generated builder, which builds a value from a whole map.
  The module also holds `Empty`, `ForGroupAndName` and `Merge`, plus lemmas
  about merge: monotonicity, least upper bound, idempotence, union of two
  merges, commutativity, and merging the empty set.
- `flatten.dfy` (module `Flattening`) models the stream that `flatten`
  returns as a `seq`. The Java stream's order is unspecified. So the model
  promises only this: there is a duplicate-free enumeration of the recorded
  pairs, and the output is that enumeration with the combiner applied
  position by position. The output's length is the number of recorded pairs.
  The file also relates the recorded pairs before and after a merge.
- `scenarios.dfy` (module `Scenarios`) holds two concrete walk-throughs. The
  first merges X1, X2 and then X2, X3 into one coordinate. The second
  flattens a two-key value into exactly three pairs, both as recorded pairs
  and as any output `Flatten`'s contract allows.

Two behaviours of the code worth noting:

- The code does not normalise a key mapped to the empty set. Merging an empty
  set into an absent key inserts that key, mapped to `{}`. `MergeEmptyStoredMap`
  states this. The lookup is unchanged either way (`MergeEmptyKeepsContent`).
- `merge` fills the generated builder with `putAllAcceptedBreaks`, although the
  attribute is called `items`. The generated builder is not part of this
  model. The model builds the new value straight from the updated map.

## Model

| member | source | states |
|---|---|---|
| PerProjects.Empty | src/main/java/com/palantir/gradle/revapi/config/PerProject.java:65-67 | the canonical value has no keys, and every lookup on it returns the empty set |
| PerProjects.ForGroupAndName | src/main/java/com/palantir/gradle/revapi/config/PerProject.java:38-40 | an item is in the result exactly when the key is present and its stored set contains the item; an absent key yields the empty set |
| PerProjects.LookupPresent | src/main/java/com/palantir/gradle/revapi/config/PerProject.java:39 | for a present key, lookup returns exactly the stored set |
| PerProjects.Merge | src/main/java/com/palantir/gradle/revapi/config/PerProject.java:42-51 | the result's keys are the old keys plus the merged key; that key now holds the new items united with its old lookup; every other key's lookup and stored set are unchanged |
| PerProjects.MergeIsMonotone | src/main/java/com/palantir/gradle/revapi/config/PerProject.java:44-46 | merge never removes an item under any key, and every merged item is recorded under the merged key |
| PerProjects.MergeIsLeast | src/main/java/com/palantir/gradle/revapi/config/PerProject.java:44-46 | merge adds nothing beyond the union: any value that includes the receiver and records the new items under the key also includes the merge result |
| PerProjects.MergeIdempotent | src/main/java/com/palantir/gradle/revapi/config/PerProject.java:44-46 | merging the same items into the same key twice gives the same items map as merging them once |
| PerProjects.MergeEmptyKeepsContent | src/main/java/com/palantir/gradle/revapi/config/PerProject.java:43-46 | merging the empty set leaves every key's lookup unchanged |
| PerProjects.MergeEmptyStoredMap | src/main/java/com/palantir/gradle/revapi/config/PerProject.java:43-46 | merging the empty set into a present key returns a value equal to the receiver; into an absent key it adds that key, mapped to the empty set |
| PerProjects.MergeTwiceIsMergeOfUnion | src/main/java/com/palantir/gradle/revapi/config/PerProject.java:42-50 | two successive merges into one key equal one merge of the union of their item sets |
| PerProjects.MergeCommutes | src/main/java/com/palantir/gradle/revapi/config/PerProject.java:42-50 | two merges give the same value in either order, for equal or different keys |
| Flattening.Entries | src/main/java/com/palantir/gradle/revapi/config/PerProject.java:54-56 | lists each recorded (key, item) pair exactly once: no repetitions, and a pair is listed exactly when lookup of its key contains its item |
| Flattening.Flatten | src/main/java/com/palantir/gradle/revapi/config/PerProject.java:53-57 | the output is some duplicate-free enumeration of the recorded pairs with the combiner applied to each; its length is the number of recorded pairs; every recorded pair contributes its image; every output element is the image of a recorded pair; it is empty exactly when no key records an item |
| Flattening.EnumerationLength | src/main/java/com/palantir/gradle/revapi/config/PerProject.java:53-57 | any exact enumeration has as many elements as there are recorded (key, item) pairs |
| Flattening.EnumerationEmpty | src/main/java/com/palantir/gradle/revapi/config/PerProject.java:53-57 | an exact enumeration is empty exactly when every lookup is empty; that of a value with no keys, such as `empty()`, is empty |
| Flattening.PairsAfterMerge | src/main/java/com/palantir/gradle/revapi/config/PerProject.java:42-57 | the pairs recorded after a merge are the old pairs plus one pair for each merged item under the merged key |
| Scenarios.AcceptedBreaksAccumulate | src/main/java/com/palantir/gradle/revapi/config/PerProject.java:38-50 | from the empty value, merging {X1, X2} and then {X2, X3} into (com.acme, lib) records {X1, X2, X3} there and nothing under any other key |
| Scenarios.TwoKeyPairs | src/main/java/com/palantir/gradle/revapi/config/PerProject.java:53-57 | the value {1: {a, b}, 2: {c}} records exactly the three pairs (1,a), (1,b), (2,c) |
| Scenarios.TwoKeyFlatten | src/main/java/com/palantir/gradle/revapi/config/PerProject.java:53-57 | any output flatten may produce for {1: {a, b}, 2: {c}} with the pairing combiner has exactly three elements, namely (1,a), (1,b) and (2,c) |

## Left out

- Jackson annotations (`@JsonValue`, `@JsonDeserialize`, lines 33 and 35): serialisation belongs to a collaborator outside this model. The datatype's one field is the map, so its whole state is that single value.
- The generated builder (`ImmutablePerProject.Builder`, lines 32, 48-50, 59-63) is not part of this model. Construction is the datatype constructor applied to a complete map. The builder's null rejection is not modelled, because Dafny values cannot be null.
- `GroupAndName` is not part of this model. It is the type parameter `K`, with equality only.
- `Sets.union` returns a live view in the source. The model uses a value-level set union, which has the same elements.
- The laziness and visiting order of the `Stream` that `flatten` returns are not modelled. The model chooses an order nondeterministically and promises nothing about it.
- Flattening.Flatten: the combiner is a total Dafny function, so a Java `BiFunction` that throws or has side effects is not modelled.
- Thread safety is not modelled, because Dafny datatype values are immutable.
