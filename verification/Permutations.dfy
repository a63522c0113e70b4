/**
 * Reorderings of the places 0, 1, .., n - 1: a list of distinct places that is as long as there are places misses none of them.
 * Used where the order of a list must not matter, for the rooms of an amendment and for the columns of a pasted statement; the
 * shuffled list takes its elements in the order given.
 */
module Permutations {
  import opened Common

  /** A reordering of `n` places. */
  predicate Permutation(order: seq<nat>, n: nat) {
    |order| == n && (forall i | 0 <= i < n :: order[i] < n) && Distinct(order)
  }

  function Range(n: nat): (r: set<nat>)
    ensures forall k: nat :: k in r <==> k < n
    ensures |r| == n
  {
    if n == 0 then {} else Range(n - 1) + {n - 1}
  }

  function Elements(order: seq<nat>): (r: set<nat>)
    ensures forall k :: k in r <==> k in order
  {
    if order == [] then {} else {order[0]} + Elements(order[1..])
  }

  lemma {:induction false} DistinctSize(order: seq<nat>)
    requires Distinct(order)
    ensures |Elements(order)| == |order|
  {
    if order != [] {
      DistinctSize(order[1..]);
    }
  }

  lemma SubsetOfSameSize(a: set<nat>, b: set<nat>)
    requires a <= b && |a| == |b|
    ensures a == b
  {
    assert b == a + (b - a);
    assert |b| == |a| + |b - a|;
  }

  /** A reordering misses no place. */
  lemma PermutationCovers(order: seq<nat>, n: nat, k: nat)
    requires Permutation(order, n) && k < n
    ensures k in order
  {
    DistinctSize(order);
    SubsetOfSameSize(Elements(order), Range(n));
    assert k in Range(n);
  }

  /** The elements taken in the given order. */
  function Shuffled<T>(s: seq<T>, order: seq<nat>): (r: seq<T>)
    requires Permutation(order, |s|)
    ensures |r| == |s| && forall k | 0 <= k < |r| :: r[k] == s[order[k]]
  {
    seq(|order|, k requires 0 <= k < |order| => s[order[k]])
  }
}
