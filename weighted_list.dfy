/**
 * The weighted random-selection structure and its construction API: the
 * list object with its element array and the parallel array of cumulative
 * weights, the factories from a map and from a collection, and the builder.
 */
module WeightedLists {
  import opened WeightSums

  /** Which concrete search strategy a list was built as. */
  datatype Variant = LinearSearch | BinarySearch

  /** Above this many elements the factories choose the binary-search variant. */
  const BinarySearchThreshold: nat := 300

  datatype Error = IllegalArgument(message: string)

  datatype Result<R> = Ok(value: R) | Err(error: Error)

  class WeightedList<T(==)> {
    const variant: Variant
    const elements: array<WeightedElement<T>>
    const cumulativeWeights: array<real>

    /** The two arrays are parallel and the second holds the running sums of the first. */
    ghost predicate Valid()
      reads this, elements, cumulativeWeights
    {
      cumulativeWeights[..] == CumulativeWeights(elements[..])
    }

    /**
     * What a factory promises about a list built from `col`: it holds exactly
     * the elements of `col`, ascending by weight, with their running sums, and
     * it is the binary-search variant exactly when there are more than 300.
     */
    ghost predicate BuiltFrom(col: seq<WeightedElement<T>>)
      reads this, elements, cumulativeWeights
    {
      Valid()
      && elements.Length == |col|
      && multiset(elements[..]) == multiset(col)
      && SortedByWeight(elements[..])
      && (variant == BinarySearch <==> |col| > BinarySearchThreshold)
    }

    /**
     * A list built from `col` ends its running sums at the total weight of
     * `col`, and when no weight of `col` is negative its running sums never
     * decrease, whatever order `col` was in; if moreover some weight is
     * positive, the total it draws below is positive.
     */
    lemma BuiltTotals(col: seq<WeightedElement<T>>)
      requires BuiltFrom(col)
      ensures |col| > 0 ==> cumulativeWeights[|col| - 1] == TotalWeight(col)
      ensures NonNegativeWeights(col) ==>
        forall i, j :: 0 <= i <= j < cumulativeWeights.Length ==> cumulativeWeights[i] <= cumulativeWeights[j]
      ensures NonNegativeWeights(col) && (exists k :: 0 <= k < |col| && col[k].weight > 0.0) ==>
        cumulativeWeights[|col| - 1] > 0.0
    {
      if |col| > 0 {
        CumulativeWeightsLast(elements[..]);
        TotalWeightPermutation(elements[..], col);
      }
      if NonNegativeWeights(col) {
        PermutationKeepsNonNegative(elements[..], col);
        CumulativeWeightsNonDecreasing(elements[..]);
        if k :| 0 <= k < |col| && col[k].weight > 0.0 {
          TotalWeightPositive(col, k);
        }
      }
    }

    /** Keeps the given array and fills a fresh array with the running sums of its weights. */
    constructor (elements: array<WeightedElement<T>>, variant: Variant)
      ensures this.elements == elements && this.variant == variant
      ensures elements[..] == old(elements[..])
      ensures fresh(cumulativeWeights)
      ensures cumulativeWeights.Length == elements.Length
      ensures Valid()
    {
      this.elements := elements;
      this.variant := variant;
      this.cumulativeWeights := new real[elements.Length];
      new;
      var sum := 0.0;
      for i := 0 to elements.Length
        invariant sum == TotalWeight(elements[..i])
        invariant forall k :: 0 <= k < i ==> cumulativeWeights[k] == TotalWeight(elements[..k + 1])
      {
        TotalWeightSnoc(elements[..], i);
        assert elements[..][..i] == elements[..i] && elements[..][..i + 1] == elements[..i + 1];
        sum := sum + elements[i].weight;
        cumulativeWeights[i] := sum;
      }
    }

    /** The number of elements; a valid list holds exactly as many running sums. */
    function Size(): (n: nat)
      reads this, elements, cumulativeWeights
      ensures n == elements.Length
      ensures Valid() ==> n == cumulativeWeights.Length
    {
      elements.Length
    }

    /**
     * Hands every element to the consumer `accept`, once each and in array
     * order; the consumer's effect is threaded through as the state `s`.
     */
    method ForEach<S>(accept: (S, WeightedElement<T>) -> S, s0: S) returns (s: S)
      ensures s == VisitAll(accept, s0, elements[..])
    {
      s := s0;
      for i := 0 to elements.Length
        invariant s == VisitAll(accept, s0, elements[..i])
      {
        assert elements[..i + 1][..i] == elements[..i];
        s := accept(s, elements[i]);
      }
      assert elements[..elements.Length] == elements[..];
    }
  }

  /** Exchanges `a[j - 1]` and `a[j]`, leaving the rest of `a` alone. */
  method SwapAdjacent<T>(a: array<WeightedElement<T>>, j: nat)
    requires 0 < j < a.Length
    modifies a
    ensures a[..] == old(a[..])[j - 1 := old(a[j])][j := old(a[j - 1])]
    ensures multiset(a[..]) == old(multiset(a[..]))
  {
    a[j - 1], a[j] := a[j], a[j - 1];
  }

  /** Moves the last element of the sorted prefix `a[..i]` + `[a[i]]` left to its place. */
  method InsertIntoSorted<T>(a: array<WeightedElement<T>>, i: nat)
    requires i < a.Length
    requires SortedByWeight(a[..i])
    modifies a
    ensures SortedByWeight(a[..i + 1])
    ensures multiset(a[..]) == old(multiset(a[..]))
    ensures forall k :: i < k < a.Length ==> a[k] == old(a[k])
  {
    var j := i;
    while j > 0 && a[j - 1].weight > a[j].weight
      invariant 0 <= j <= i
      invariant multiset(a[..]) == old(multiset(a[..]))
      invariant forall k :: i < k < a.Length ==> a[k] == old(a[k])
      invariant forall p, q :: 0 <= p < q <= i && q != j ==> a[p].weight <= a[q].weight
      invariant forall q :: j < q <= i ==> a[j].weight < a[q].weight
    {
      SwapAdjacent(a, j);
      j := j - 1;
    }
    assert forall p, q :: 0 <= p < q <= i ==> a[p].weight <= a[q].weight;
  }

  /** Sorts `a` in place, ascending by weight. */
  method SortByWeight<T>(a: array<WeightedElement<T>>)
    modifies a
    ensures SortedByWeight(a[..])
    ensures multiset(a[..]) == old(multiset(a[..]))
  {
    for i := 0 to a.Length
      invariant SortedByWeight(a[..i])
      invariant multiset(a[..]) == old(multiset(a[..]))
    {
      InsertIntoSorted(a, i);
    }
    assert a[..a.Length] == a[..];
  }

  /**
   * Builds a list from a collection: fails on an empty one, otherwise copies
   * it into a new array, sorts that ascending by weight and picks the
   * variant by size.
   */
  method Of<T(==)>(col: seq<WeightedElement<T>>) returns (r: Result<WeightedList<T>>)
    ensures r.Err? <==> |col| == 0
    ensures r.Err? ==> r.error == IllegalArgument("empty collection")
    ensures r.Ok? ==> fresh(r.value) && fresh(r.value.elements) && fresh(r.value.cumulativeWeights)
    ensures r.Ok? ==> r.value.BuiltFrom(col)
  {
    if |col| == 0 {
      return Err(IllegalArgument("empty collection"));
    }
    var elements := new WeightedElement<T>[|col|](i requires 0 <= i < |col| => col[i]);
    assert elements[..] == col;
    SortByWeight(elements);
    var list: WeightedList<T>;
    if elements.Length > BinarySearchThreshold {
      list := new WeightedList(elements, BinarySearch);
    } else {
      list := new WeightedList(elements, LinearSearch);
    }
    return Ok(list);
  }

  /**
   * Builds a list from a map of values to weights: fails on an empty map,
   * otherwise turns each entry into one element and builds from those.
   */
  method OfMap<T(==)>(m: map<T, real>) returns (r: Result<WeightedList<T>>)
    ensures r.Err? <==> |m| == 0
    ensures r.Err? ==> r.error == IllegalArgument("empty map")
    ensures r.Ok? ==> fresh(r.value) && fresh(r.value.elements) && fresh(r.value.cumulativeWeights)
    ensures r.Ok? ==> r.value.Valid() && SortedByWeight(r.value.elements[..])
    ensures r.Ok? ==> r.value.elements.Length == |m|
    ensures r.Ok? ==> forall i :: 0 <= i < r.value.elements.Length ==>
      r.value.elements[i].value in m && m[r.value.elements[i].value] == r.value.elements[i].weight
    ensures r.Ok? ==> forall k :: k in m ==> WeightedElement(k, m[k]) in r.value.elements[..]
    ensures r.Ok? ==> (r.value.variant == BinarySearch <==> |m| > BinarySearchThreshold)
  {
    if |m| == 0 {
      return Err(IllegalArgument("empty map"));
    }
    var list: seq<WeightedElement<T>> := [];
    var rest := m.Keys;
    while rest != {}
      invariant rest <= m.Keys
      invariant |list| + |rest| == |m|
      invariant forall e :: e in list ==> e.value in m && e.value !in rest && m[e.value] == e.weight
      invariant forall k :: k in m && k !in rest ==> WeightedElement(k, m[k]) in list
    {
      var k :| k in rest;
      list := list + [WeightedElement(k, m[k])];
      rest := rest - {k};
    }
    r := Of(list);
    if r.Ok? {
      forall i | 0 <= i < r.value.elements.Length
        ensures r.value.elements[i].value in m && m[r.value.elements[i].value] == r.value.elements[i].weight
      {
        assert r.value.elements[i] in multiset(list);
      }
      forall k | k in m
        ensures WeightedElement(k, m[k]) in r.value.elements[..]
      {
        assert WeightedElement(k, m[k]) in multiset(r.value.elements[..]);
      }
    }
  }

  /** A mutable accumulator of elements, finalised through the collection factory. */
  class Builder<T(==)> {
    var list: seq<WeightedElement<T>>

    constructor ()
      ensures list == []
    {
      list := [];
    }

    /** Empties the pending list; returns the builder itself for chaining. */
    method Reset() returns (self: Builder<T>)
      modifies this
      ensures list == [] && self == this
    {
      list := [];
      return this;
    }

    /** Appends a new element with the given value and weight; returns the builder itself. */
    method Add(value: T, weight: real) returns (self: Builder<T>)
      modifies this
      ensures list == old(list) + [WeightedElement(value, weight)] && self == this
    {
      list := list + [WeightedElement(value, weight)];
      return this;
    }

    /** Appends the given element; returns the builder itself. */
    method AddElement(element: WeightedElement<T>) returns (self: Builder<T>)
      modifies this
      ensures list == old(list) + [element] && self == this
    {
      list := list + [element];
      return this;
    }

    /** Builds a list from the pending elements, exactly as the collection factory does. */
    method Build() returns (r: Result<WeightedList<T>>)
      ensures r.Err? <==> list == []
      ensures r.Err? ==> r.error == IllegalArgument("empty collection")
      ensures r.Ok? ==> fresh(r.value) && fresh(r.value.elements) && fresh(r.value.cumulativeWeights)
      ensures r.Ok? ==> r.value.BuiltFrom(list)
    {
      r := Of(list);
    }
  }
}
