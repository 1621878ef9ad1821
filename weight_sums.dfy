/**
 * The value-level vocabulary of a weighted list: the (value, weight) pair,
 * the running sum of weights that a list precomputes, the ascending order
 * the factories sort into, and the visit order of `forEach`.
 *
 * Weights are exact reals; the double-precision rounding of the running sum
 * is not modelled.
 */
module WeightSums {

  /** An immutable payload together with its selection weight. */
  datatype WeightedElement<T> = WeightedElement(value: T, weight: real)

  /** Sum of the weights of `es`, added left to right as the running sum does. */
  function TotalWeight<T>(es: seq<WeightedElement<T>>): (r: real)
  {
    if es == [] then 0.0 else TotalWeight(es[..|es| - 1]) + es[|es| - 1].weight
  }

  /** Entry `i` is the sum of the weights of `es[0..i]`, both ends included. */
  function CumulativeWeights<T>(es: seq<WeightedElement<T>>): (r: seq<real>)
    ensures |r| == |es|
  {
    seq(|es|, i requires 0 <= i < |es| => TotalWeight(es[..i + 1]))
  }

  ghost predicate NonNegativeWeights<T>(es: seq<WeightedElement<T>>)
  {
    forall i :: 0 <= i < |es| ==> es[i].weight >= 0.0
  }

  /** Elements are arranged ascending by weight. */
  ghost predicate SortedByWeight<T>(es: seq<WeightedElement<T>>)
  {
    forall i, j :: 0 <= i < j < |es| ==> es[i].weight <= es[j].weight
  }

  /** The effect of handing the elements of `es`, in order, to `accept`, starting from `s`. */
  function VisitAll<S, T>(accept: (S, WeightedElement<T>) -> S, s: S, es: seq<WeightedElement<T>>): (r: S)
  {
    if es == [] then s else accept(VisitAll(accept, s, es[..|es| - 1]), es[|es| - 1])
  }

  /** A consumer that only records what it is given. */
  function Record<T>(trace: seq<WeightedElement<T>>, e: WeightedElement<T>): (r: seq<WeightedElement<T>>)
  {
    trace + [e]
  }

  /** Adding one more element to the running sum adds exactly its weight. */
  lemma TotalWeightSnoc<T>(es: seq<WeightedElement<T>>, i: nat)
    requires i < |es|
    ensures TotalWeight(es[..i + 1]) == TotalWeight(es[..i]) + es[i].weight
  {
    assert es[..i + 1][..i] == es[..i];
  }

  /** The running sum can be undone: consecutive entries differ by one weight. */
  lemma CumulativeWeightsStep<T>(es: seq<WeightedElement<T>>, i: nat)
    requires i < |es|
    ensures CumulativeWeights(es)[i] == (if i == 0 then 0.0 else CumulativeWeights(es)[i - 1]) + es[i].weight
  {
    TotalWeightSnoc(es, i);
    if i == 0 {
      assert es[..0] == [];
    }
  }

  /** The last cumulative weight is the total weight. */
  lemma CumulativeWeightsLast<T>(es: seq<WeightedElement<T>>)
    requires |es| > 0
    ensures CumulativeWeights(es)[|es| - 1] == TotalWeight(es)
  {
    var c := CumulativeWeights(es);
    assert c[|es| - 1] == TotalWeight(es[..|es|]);
    assert es[..|es|] == es;
  }

  /** With non-negative weights the running sum never decreases along prefixes. */
  lemma {:induction false} TotalWeightPrefixMonotone<T>(es: seq<WeightedElement<T>>, i: nat, j: nat)
    requires NonNegativeWeights(es)
    requires i <= j <= |es|
    ensures TotalWeight(es[..i]) <= TotalWeight(es[..j])
    decreases j
  {
    if i < j {
      TotalWeightPrefixMonotone(es, i, j - 1);
      TotalWeightSnoc(es, j - 1);
    }
  }

  /** With non-negative weights the cumulative weights are non-decreasing. */
  lemma CumulativeWeightsNonDecreasing<T>(es: seq<WeightedElement<T>>)
    requires NonNegativeWeights(es)
    ensures forall i, j :: 0 <= i <= j < |es| ==> CumulativeWeights(es)[i] <= CumulativeWeights(es)[j]
  {
    forall i, j | 0 <= i <= j < |es|
      ensures CumulativeWeights(es)[i] <= CumulativeWeights(es)[j]
    {
      TotalWeightPrefixMonotone(es, i + 1, j + 1);
    }
  }

  /** Non-negative weights with one positive weight give a positive total. */
  lemma {:induction false} TotalWeightPositive<T>(es: seq<WeightedElement<T>>, k: nat)
    requires NonNegativeWeights(es)
    requires k < |es| && es[k].weight > 0.0
    ensures TotalWeight(es) > 0.0
  {
    TotalWeightPrefixMonotone(es, 0, k);
    TotalWeightSnoc(es, k);
    TotalWeightPrefixMonotone(es, k + 1, |es|);
    assert es[..0] == [];
    assert es[..|es|] == es;
  }

  lemma {:induction false} TotalWeightAppend<T>(s: seq<WeightedElement<T>>, t: seq<WeightedElement<T>>)
    ensures TotalWeight(s + t) == TotalWeight(s) + TotalWeight(t)
    decreases |t|
  {
    if t == [] {
      assert s + t == s;
    } else {
      var t' := t[..|t| - 1];
      assert (s + t)[..|s + t| - 1] == s + t';
      TotalWeightAppend(s, t');
    }
  }

  /** Rearranging the elements leaves the total weight unchanged. */
  lemma {:induction false} TotalWeightPermutation<T>(s: seq<WeightedElement<T>>, t: seq<WeightedElement<T>>)
    requires multiset(s) == multiset(t)
    ensures TotalWeight(s) == TotalWeight(t)
    decreases |s|
  {
    if s != [] {
      var x := s[|s| - 1];
      var s' := s[..|s| - 1];
      assert s == s' + [x];
      assert x in multiset(t);
      var j :| 0 <= j < |t| && t[j] == x;
      var t' := t[..j] + t[j + 1..];
      assert t == t[..j] + [x] + t[j + 1..];
      assert multiset(t) == multiset(t[..j]) + multiset([x]) + multiset(t[j + 1..]);
      assert multiset(s) == multiset(s') + multiset([x]);
      assert multiset(t') == multiset(t[..j]) + multiset(t[j + 1..]);
      assert multiset(s') == multiset(s) - multiset([x]);
      assert multiset(t') == multiset(t) - multiset([x]);
      TotalWeightPermutation(s', t');
      TotalWeightAppend(t[..j], [x]);
      TotalWeightAppend(t[..j] + [x], t[j + 1..]);
      TotalWeightAppend(t[..j], t[j + 1..]);
      assert TotalWeight([x]) == x.weight by {
        assert [x][..0] == [];
      }
    } else {
      assert |t| == |multiset(t)|;
    }
  }

  /** Rearranging the elements keeps every weight non-negative. */
  lemma PermutationKeepsNonNegative<T>(s: seq<WeightedElement<T>>, t: seq<WeightedElement<T>>)
    requires multiset(s) == multiset(t)
    requires NonNegativeWeights(t)
    ensures NonNegativeWeights(s)
  {
    forall i | 0 <= i < |s|
      ensures s[i].weight >= 0.0
    {
      assert s[i] in multiset(t);
      var j :| 0 <= j < |t| && t[j] == s[i];
    }
  }

  /** A recording consumer sees the elements exactly once each, in order. */
  lemma {:induction false} VisitAllRecords<T>(trace: seq<WeightedElement<T>>, es: seq<WeightedElement<T>>)
    ensures VisitAll(Record, trace, es) == trace + es
  {
    if es != [] {
      var es' := es[..|es| - 1];
      VisitAllRecords(trace, es');
      assert trace + es == (trace + es') + [es[|es| - 1]];
    }
  }
}
