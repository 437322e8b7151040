/** The order in which the workers of a parallel variant finish and merge their
    partial sums. The runtime fixes no order, so the model takes any of them. */
module Schedule {

  /** order runs every worker id 0 .. T-1 exactly once; such an order has
      exactly T entries. */
  predicate IsRunOrder(order: seq<nat>, T: nat)
    ensures IsRunOrder(order, T) ==> |order| == T
  {
    if (forall k :: 0 <= k < |order| ==> order[k] < T) &&
       (forall t: nat :: t < T ==> t in order) &&
       (forall a, b :: 0 <= a < b < |order| ==> order[a] != order[b])
    then
      RunOrderLength(order, T);
      true
    else
      false
  }

  /** A duplicate-free order of the ids 0 .. T-1 that misses none has length T. */
  lemma RunOrderLength(order: seq<nat>, T: nat)
    requires forall k :: 0 <= k < |order| ==> order[k] < T
    requires forall t: nat :: t < T ==> t in order
    requires forall a, b :: 0 <= a < b < |order| ==> order[a] != order[b]
    ensures |order| == T
  {
    DistinctIdsCount(order);
    assert IdsOf(order) == IdsBelow(T);
  }

  /** The ids that occur in s. */
  function IdsOf(s: seq<nat>): (ids: set<nat>)
    ensures forall x :: x in ids <==> x in s
  {
    if |s| == 0 then {} else IdsOf(s[..|s| - 1]) + {s[|s| - 1]}
  }

  /** A duplicate-free sequence holds as many distinct ids as it has entries. */
  lemma {:induction false} DistinctIdsCount(s: seq<nat>)
    requires forall a, b :: 0 <= a < b < |s| ==> s[a] != s[b]
    ensures |IdsOf(s)| == |s|
  {
    if |s| > 0 {
      var init, last := s[..|s| - 1], s[|s| - 1];
      DistinctIdsCount(init);
      assert last !in init by {
        forall a | 0 <= a < |init|
          ensures init[a] != last
        {
          assert init[a] == s[a];
        }
      }
    }
  }

  /** The ids 0 .. T-1. */
  function IdsBelow(T: nat): (ids: set<nat>)
    ensures forall t: nat :: t in ids <==> t < T
    ensures |ids| == T
  {
    if T == 0 then {} else IdsBelow(T - 1) + {T - 1}
  }

  /** The workers merged after k + 1 steps are those merged after k steps and
      worker order[k], which had not merged before. */
  lemma NextInOrder(order: seq<nat>, T: nat, k: nat)
    requires IsRunOrder(order, T) && k < |order|
    ensures order[..k + 1] == order[..k] + [order[k]]
    ensures order[k] !in order[..k]
  {
  }
}
