# WeightedList: construction of a weighted random-selection structure

This project models, in Dafny, how the Bingo library builds its
`WeightedList<T>`: a structure that draws elements at random with probability
proportional to their weights. A list holds an array of `WeightedElement`s
(value, weight) and a parallel array `cumulativeWeights` of running sums of
those weights. The model covers the construction side:

- the constructor's running-sum loop;
- `size` and `forEach`;
- the factories `of(Map)` and `of(Collection)`, which reject empty input, copy
  the input into a new array, sort it ascending by weight and choose the
  binary-search variant above 300 elements and the linear-search variant
  otherwise;
- the `Builder` accumulator with `reset`, both `add`s and `build`.

Two modules:

- `WeightSums` (`weight_sums.dfy`) holds the value-level vocabulary. It has the
  `WeightedElement` datatype and `TotalWeight`, the left-to-right sum of
  weights. It has `CumulativeWeights`, the sequence whose entry `i` is the sum
  of weights `0..i` inclusive. It also has `SortedByWeight` and `VisitAll`,
  which is what a consumer sees when it is handed the elements in order. The
  lemmas about these live here.
- `WeightedLists` (`weighted_list.dfy`) holds the imperative part. The class
  `WeightedList` keeps the two arrays as `const` fields, like the Java `final`
  fields, and carries a `Variant` tag (`LinearSearch` or `BinarySearch`) that
  stands for the concrete subclass. The module also has the in-place sort, the
  two factories and the class `Builder`, whose pending list is a `seq` field.

Modelling choices:

- Weights are exact `real`s instead of IEEE doubles.
- Java's `IllegalArgumentException` is the `Err(IllegalArgument(message))` case
  of a `Result`, with the source's messages "empty map" and "empty collection".
- The `Consumer` passed to `forEach` is a state transformer `(S, element) -> S`.
  Its effect on the caller's world is threaded through as `S`.
- A `Map<T, Double>` is a Dafny `map<T, real>`. Its entries are taken in an
  unspecified order (`k :| k in rest`), as a `HashMap` gives them.
- `Arrays.sort` is modelled by an in-place insertion sort. It is specified only
  as "sorted ascending by weight and a permutation of the input".

Two points about what the code checks and what it does not:

- Only the factories sort. The constructor accepts an array in any order
  (`src/test/java/net/smoofyuniverse/bingo/Test.java:109-114` builds lists from
  arrays in descending weight order). So sortedness is part of `BuiltFrom`, the
  factories' promise, and not of `Valid()`, and the constructor has no
  sortedness precondition.
- The code rejects only empty input and never checks weights. Facts that need
  non-negative or positive weights take that as a hypothesis:
  `TotalWeightPrefixMonotone`, `CumulativeWeightsNonDecreasing`,
  `TotalWeightPositive`, `PermutationKeepsNonNegative` and `BuiltTotals`.

## Model

| member | source | states |
|---|---|---|
| `WeightSums.TotalWeightSnoc` | src/main/java/net/smoofyuniverse/bingo/WeightedList.java:37-39 | the unfolding step the constructor's loop invariant uses: the total of the prefix `0..i` is the total of `0..i-1` plus the weight of element `i`, which is what `sum += elements[i].weight` adds |
| `WeightSums.CumulativeWeightsStep` | src/main/java/net/smoofyuniverse/bingo/WeightedList.java:36-40 | the running sums can be undone: entry 0 is the first weight, and each later entry is the previous entry plus its own element's weight |
| `WeightSums.CumulativeWeightsLast` | src/main/java/net/smoofyuniverse/bingo/WeightedList.java:36-40 | the last cumulative weight equals the total weight of all elements |
| `WeightSums.TotalWeightPrefixMonotone` | src/main/java/net/smoofyuniverse/bingo/WeightedList.java:36-40 | with non-negative weights, the sum over a shorter prefix is at most the sum over a longer one |
| `WeightSums.CumulativeWeightsNonDecreasing` | src/main/java/net/smoofyuniverse/bingo/WeightedList.java:36-40 | with non-negative weights, the cumulative weights are non-decreasing |
| `WeightSums.TotalWeightPositive` | src/main/java/net/smoofyuniverse/bingo/WeightedList.java:36-40 | non-negative weights with at least one positive weight give a strictly positive total; `BuiltTotals` uses it for the last running sum of a built list |
| `WeightSums.TotalWeightAppend` | src/main/java/net/smoofyuniverse/bingo/WeightedList.java:36-40 | the total weight of a concatenation is the sum of the two totals |
| `WeightSums.TotalWeightPermutation` | src/main/java/net/smoofyuniverse/bingo/WeightedList.java:69-70 | copying and sorting the input (any rearrangement with the same multiset) does not change the total weight |
| `WeightSums.PermutationKeepsNonNegative` | src/main/java/net/smoofyuniverse/bingo/WeightedList.java:69-70 | if no input weight is negative, no weight of a rearrangement is negative |
| `WeightSums.VisitAllRecords` | src/main/java/net/smoofyuniverse/bingo/WeightedList.java:47-50 | a consumer that records what it is given ends with exactly the visited sequence appended to its trace: each element once, in order |
| `WeightedLists.WeightedList.constructor` | src/main/java/net/smoofyuniverse/bingo/WeightedList.java:32-41 | keeps the given array, unchanged, as `elements`; `cumulativeWeights` is a fresh array of the same length whose entry `i` is the sum of weights `0..i` inclusive (the loop invariant is the prefix sum so far) |
| `WeightedLists.WeightedList.Size` | src/main/java/net/smoofyuniverse/bingo/WeightedList.java:43-45 | size is the number of elements, and in a valid list also the number of cumulative weights |
| `WeightedLists.WeightedList.ForEach` | src/main/java/net/smoofyuniverse/bingo/WeightedList.java:47-50 | the consumer's final state is that of handing it every element of `elements` once, in array order |
| `WeightedLists.WeightedList.BuiltTotals` | src/main/java/net/smoofyuniverse/bingo/WeightedList.java:65-76 | a factory-built list's last cumulative weight is the total weight of the input collection; with non-negative input weights its cumulative weights are non-decreasing, and if some input weight is also positive its total is strictly positive |
| `WeightedLists.SwapAdjacent` | src/main/java/net/smoofyuniverse/bingo/WeightedList.java:70 | one step of the sort: exchanges two adjacent elements and changes nothing else, so the array stays a permutation of itself |
| `WeightedLists.InsertIntoSorted` | src/main/java/net/smoofyuniverse/bingo/WeightedList.java:70 | one insertion step: the sorted prefix grows by one element, the array stays a permutation of itself and the elements after the prefix are untouched |
| `WeightedLists.SortByWeight` | src/main/java/net/smoofyuniverse/bingo/WeightedList.java:70 | sorts the array in place ascending by weight; the result is a permutation of the original contents |
| `WeightedLists.Of` | src/main/java/net/smoofyuniverse/bingo/WeightedList.java:65-76 | fails with "empty collection" exactly when the collection is empty; otherwise returns a fresh valid list whose elements are a permutation of the input, sorted by weight, with matching running sums, of the binary-search variant iff there are more than 300 elements |
| `WeightedLists.OfMap` | src/main/java/net/smoofyuniverse/bingo/WeightedList.java:54-63 | fails with "empty map" exactly when the map is empty; otherwise the list has one element per entry: every entry's key and weight is an element, every element is an entry, the element count is the entry count; sorted, valid, and the variant follows the 300 rule |
| `WeightedLists.Builder.constructor` | src/main/java/net/smoofyuniverse/bingo/WeightedList.java:79-81 | a new builder has no pending elements |
| `WeightedLists.Builder.Reset` | src/main/java/net/smoofyuniverse/bingo/WeightedList.java:83-86 | the pending list becomes empty and the builder itself is returned |
| `WeightedLists.Builder.Add` | src/main/java/net/smoofyuniverse/bingo/WeightedList.java:88-91 | appends exactly one element with the given value and weight, at the end, nothing else changed; returns the builder |
| `WeightedLists.Builder.AddElement` | src/main/java/net/smoofyuniverse/bingo/WeightedList.java:93-96 | appends exactly the given element at the end, nothing else changed; returns the builder |
| `WeightedLists.Builder.Build` | src/main/java/net/smoofyuniverse/bingo/WeightedList.java:98-100 | behaves as the collection factory on the pending list: fails with "empty collection" exactly when nothing is pending, otherwise builds a list from exactly the pending elements |

## Left out

- `get(Random)` is not modelled at all, not even as a declaration. `LinearSearch` and `BinarySearch` appear only as the `Variant` tag, and no selection behaviour is stated; their code is not part of this model.
- `WeightedElement`'s code is not part of this model. The model assumes it is an immutable (value, weight) pair whose `compareTo` orders by weight ascending; the sort in `Of` (`WeightedList.java:70`) depends on that assumption.
- IEEE double arithmetic: the running sum is exact over `real`, and NaN and infinities are not modelled.
- SortByWeight: `Arrays.sort` on objects is stable, but the model states only sorted-and-permutation. The relative order of equal-weight elements is left unspecified.
- OfMap: the model does not fix the order in which `HashMap` hands out its entries. Only the relative order of equal-weight elements can depend on it.
- WeightedList.constructor: the constructor stores the caller's array, as the source does. The model does not follow later writes to that array by the caller. `Valid()` holds right after construction, and factory-built lists own a fresh array.
- Java's `int` bound on array lengths is not modelled: lengths are unbounded `nat`s.
- The `Builder` constructor is private in the source, and no way to obtain a builder appears in `WeightedList.java`. The model gives it an ordinary constructor.
- The benchmark driver `src/test/java/net/smoofyuniverse/bingo/Test.java` is left out. It does wall-clock timing, CSV output and console printing, and asserts nothing.
