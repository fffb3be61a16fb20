/**
 Sorting the per-user view counts of `getTopViewers` by descending count. The sort is not
 stable over a dictionary, so equal counts may come out in any order; this is one way to
 produce such an order, and it shows that one always exists.
 */
module Ranking {
  import opened Visits
  import opened TopViewers
  import opened Maxima

  /**
   `viewsPerUser.sorted { $0.value > $1.value }.map { $0.key }`: repeatedly take a user
   with the largest remaining count; ties are settled by an unspecified choice.
   */
  method RankUserIds(counts: map<int, nat>) returns (order: seq<int>)
    ensures IsCountOrder(order, counts)
  {
    order := [];
    var remaining := counts.Keys;
    while remaining != {}
      invariant Ranked(order, remaining, counts)
      decreases |remaining|
    {
      ghost var largest := MaxCountKey(remaining, counts);
      var best :| best in remaining && forall id :: id in remaining ==> counts[id] <= counts[best];
      TakeBest(order, remaining, counts, best);
      order := order + [best];
      remaining := remaining - {best};
    }
  }

  /**
   The loop's state: `order` is ranked, holds no id still `remaining`, and nothing left
   outranks what is already placed.
   */
  predicate Ranked(order: seq<int>, remaining: set<int>, counts: map<int, nat>) {
    && remaining <= counts.Keys
    && (forall i :: 0 <= i < |order| ==> order[i] in counts && order[i] !in remaining)
    && (forall id :: id in counts ==> id in order || id in remaining)
    && Distinct(order)
    && SortedByCount(order, counts)
    && (forall i, id :: 0 <= i < |order| && id in remaining ==> counts[order[i]] >= counts[id])
  }

  /** Placing a remaining id of the largest count keeps the state ranked. */
  lemma TakeBest(order: seq<int>, remaining: set<int>, counts: map<int, nat>, best: int)
    requires Ranked(order, remaining, counts)
    requires best in remaining && forall id :: id in remaining ==> counts[id] <= counts[best]
    ensures Ranked(order + [best], remaining - {best}, counts)
  {
  }
}
