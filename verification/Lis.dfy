/**
 `lis_pairs` of tools/re/match_rotwk.py: patience sorting with parent links, proved to return a
 longest subsequence whose targets strictly increase.
 */
module Lis {
  import opened Bisect

  type Pair = (int, int)

  /** Increasing positions of pairs at which the targets increase too. */
  ghost predicate IsChain(pairs: seq<Pair>, at: seq<int>) {
    && (forall k :: 0 <= k < |at| ==> 0 <= at[k] < |pairs|)
    && (forall k, l :: 0 <= k < l < |at| ==> at[k] < at[l] && pairs[at[k]].1 < pairs[at[l]].1)
  }

  /** out holds the pairs at the given positions, in that order. */
  ghost predicate IsPicked(pairs: seq<Pair>, at: seq<int>, out: seq<Pair>) {
    && |out| == |at|
    && forall k :: 0 <= k < |at| ==> 0 <= at[k] < |pairs| && out[k] == pairs[at[k]]
  }

  /** out is a chain of pairs, and no chain is longer. */
  ghost predicate IsLongestChain(pairs: seq<Pair>, out: seq<Pair>) {
    && (exists at: seq<int> :: IsChain(pairs, at) && IsPicked(pairs, at, out))
    && (forall at: seq<int> :: IsChain(pairs, at) ==> |at| <= |out|)
  }

  /** What the piles know: rank[k] bounds every chain that ends at k. */
  ghost predicate RanksGrow(pairs: seq<Pair>, rank: seq<int>) {
    && |rank| <= |pairs|
    && forall k, l :: 0 <= k < l < |rank| && pairs[k].1 < pairs[l].1 ==> rank[k] < rank[l]
  }

  lemma {:induction false} ChainWithinRank(pairs: seq<Pair>, rank: seq<int>, at: seq<int>)
    requires RanksGrow(pairs, rank) && |rank| == |pairs|
    requires forall k :: 0 <= k < |rank| ==> rank[k] >= 1
    requires IsChain(pairs, at) && at != []
    ensures |at| <= rank[at[|at| - 1]]
  {
    var n := |at| - 1;
    if n > 0 {
      ChainWithinRank(pairs, rank, at[..n]);
      assert at[n - 1] < at[n];
    }
  }

  function Reverse<T>(s: seq<T>): (r: seq<T>)
    ensures |r| == |s| && forall k :: 0 <= k < |s| ==> r[k] == s[|s| - 1 - k]
  {
    if s == [] then [] else Reverse(s[1..]) + [s[0]]
  }

  /** Pile j shows the target of a pair of rank j + 1. */
  ghost predicate IsTop(pairs: seq<Pair>, tails: seq<int>, tailsIdx: seq<int>, rank: seq<int>, j: nat)
    requires j < |tails| == |tailsIdx| && |rank| <= |pairs|
  {
    0 <= tailsIdx[j] < |rank| && tails[j] == pairs[tailsIdx[j]].1 && rank[tailsIdx[j]] == j + 1
  }

  /** The pile of k's rank shows no larger target than k's. */
  ghost predicate IsRanked(pairs: seq<Pair>, tails: seq<int>, rank: seq<int>, k: nat)
    requires k < |rank| <= |pairs|
  {
    1 <= rank[k] <= |tails| && tails[rank[k] - 1] <= pairs[k].1
  }

  ghost predicate Increasing(s: seq<int>) {
    forall j, l :: 0 <= j < l < |s| ==> s[j] < s[l]
  }

  ghost predicate Tops(pairs: seq<Pair>, tails: seq<int>, tailsIdx: seq<int>, rank: seq<int>) {
    && |rank| <= |pairs| && |tails| == |tailsIdx|
    && Increasing(tails)
    && (forall j :: 0 <= j < |tails| ==> IsTop(pairs, tails, tailsIdx, rank, j))
    && (forall k :: 0 <= k < |rank| ==> IsRanked(pairs, tails, rank, k))
  }

  /** -1 stands for no parent. */
  ghost predicate IsParent(pairs: seq<Pair>, prev: seq<int>, rank: seq<int>, k: nat)
    requires k < |prev| == |rank| <= |pairs|
  {
    if prev[k] == -1 then rank[k] == 1
    else 0 <= prev[k] < k && pairs[prev[k]].1 < pairs[k].1 && rank[k] == rank[prev[k]] + 1
  }

  ghost predicate Parents(pairs: seq<Pair>, prev: seq<int>, rank: seq<int>) {
    && |prev| == |rank| <= |pairs|
    && forall k :: 0 <= k < |rank| ==> IsParent(pairs, prev, rank, k)
  }

  /** j is where the next target belongs among the pile tops. */
  ghost predicate Belongs(pairs: seq<Pair>, tails: seq<int>, rank: seq<int>, j: nat) {
    && |rank| < |pairs| && j <= |tails|
    && (forall k :: 0 <= k < j ==> tails[k] < pairs[|rank|].1)
    && (forall k :: j <= k < |tails| ==> pairs[|rank|].1 <= tails[k])
  }

  function Place<T>(s: seq<T>, j: nat, x: T): seq<T>
    requires j <= |s|
  {
    if j == |s| then s + [x] else s[j := x]
  }

  lemma PlaceKeepsIncreasing(s: seq<int>, j: nat, x: int)
    requires Increasing(s) && j <= |s|
    requires (forall k :: 0 <= k < j ==> s[k] < x) && (forall k :: j <= k < |s| ==> x <= s[k])
    ensures Increasing(Place(s, j, x))
  {
  }

  lemma PlaceKeepsTops(pairs: seq<Pair>, tails: seq<int>, tailsIdx: seq<int>, rank: seq<int>, j: nat)
    requires Tops(pairs, tails, tailsIdx, rank) && Belongs(pairs, tails, rank, j)
    ensures Tops(pairs, Place(tails, j, pairs[|rank|].1), Place(tailsIdx, j, |rank|), rank + [j + 1])
  {
    PlaceKeepsIncreasing(tails, j, pairs[|rank|].1);
    var tails', tailsIdx', rank' := Place(tails, j, pairs[|rank|].1), Place(tailsIdx, j, |rank|), rank + [j + 1];
    forall l | 0 <= l < |tails'| ensures IsTop(pairs, tails', tailsIdx', rank', l) {
      assert l < |tails| ==> IsTop(pairs, tails, tailsIdx, rank, l);
    }
    forall k | 0 <= k < |rank'| ensures IsRanked(pairs, tails', rank', k) {
      assert k < |rank| ==> IsRanked(pairs, tails, rank, k);
    }
  }

  lemma PlaceKeepsRanks(pairs: seq<Pair>, tails: seq<int>, tailsIdx: seq<int>, rank: seq<int>, j: nat)
    requires RanksGrow(pairs, rank)
    requires Tops(pairs, tails, tailsIdx, rank) && Belongs(pairs, tails, rank, j)
    ensures RanksGrow(pairs, rank + [j + 1])
  {
    forall k | 0 <= k < |rank| && pairs[k].1 < pairs[|rank|].1 ensures rank[k] < j + 1 {
      assert IsRanked(pairs, tails, rank, k);
    }
  }

  lemma PlaceKeepsParents(pairs: seq<Pair>, tails: seq<int>, tailsIdx: seq<int>, prev: seq<int>, rank: seq<int>,
                          j: nat, parent: int)
    requires Parents(pairs, prev, rank)
    requires Tops(pairs, tails, tailsIdx, rank) && Belongs(pairs, tails, rank, j)
    requires parent == if j > 0 then tailsIdx[j - 1] else -1
    ensures Parents(pairs, prev + [parent], rank + [j + 1])
  {
    var prev', rank' := prev + [parent], rank + [j + 1];
    assert j > 0 ==> IsTop(pairs, tails, tailsIdx, rank, j - 1);
    forall k | 0 <= k < |rank'| ensures IsParent(pairs, prev', rank', k) {
      assert k < |rank| ==> IsParent(pairs, prev, rank, k);
    }
  }

  /** First half of the function: deal the pairs onto piles. */
  method Deal(pairs: seq<Pair>) returns (tails: seq<int>, tailsIdx: seq<int>, prev: seq<int>, ghost rank: seq<int>)
    ensures |rank| == |pairs| && RanksGrow(pairs, rank)
    ensures Tops(pairs, tails, tailsIdx, rank) && Parents(pairs, prev, rank)
  {
    tails, tailsIdx, prev, rank := [], [], [], [];
    for i := 0 to |pairs|
      invariant |rank| == i && RanksGrow(pairs, rank)
      invariant Tops(pairs, tails, tailsIdx, rank) && Parents(pairs, prev, rank)
    {
      var t := pairs[i].1;
      var j := BisectLeft(tails, t);
      var parent: int := if j > 0 then tailsIdx[j - 1] else -1;
      PlaceKeepsTops(pairs, tails, tailsIdx, rank, j);
      PlaceKeepsRanks(pairs, tails, tailsIdx, rank, j);
      PlaceKeepsParents(pairs, tails, tailsIdx, prev, rank, j, parent);
      if j == |tails| {
        tails, tailsIdx := tails + [t], tailsIdx + [i];
      } else {
        tails, tailsIdx := tails[j := t], tailsIdx[j := i];
      }
      prev, rank := prev + [parent], rank + [j + 1];
    }
  }

  /** A chain as the parent links give it: last position first. */
  ghost predicate IsTrail(pairs: seq<Pair>, trail: seq<int>) {
    && (forall k :: 0 <= k < |trail| ==> 0 <= trail[k] < |pairs|)
    && (forall k, l :: 0 <= k < l < |trail| ==> trail[l] < trail[k] && pairs[trail[l]].1 < pairs[trail[k]].1)
  }

  lemma ParentExtendsTrail(pairs: seq<Pair>, trail: seq<int>, k: int, parent: int)
    requires IsTrail(pairs, trail + [k]) && 0 <= k < |pairs|
    ensures 0 <= parent < k && pairs[parent].1 < pairs[k].1 ==> IsTrail(pairs, trail + [k] + [parent])
  {
    var longer := trail + [k];
    assert longer[|trail|] == k;
    forall l | 0 <= l < |longer| ensures k <= longer[l] && pairs[k].1 <= pairs[longer[l]].1 {
      assert l < |trail| ==> longer[|trail|] < longer[l];
    }
  }

  lemma ReversedTrail(pairs: seq<Pair>, trail: seq<int>, back: seq<Pair>)
    requires IsTrail(pairs, trail) && IsPicked(pairs, trail, back)
    ensures IsChain(pairs, Reverse(trail)) && IsPicked(pairs, Reverse(trail), Reverse(back))
  {
    var at := Reverse(trail);
    forall k, l | 0 <= k < l < |at| ensures at[k] < at[l] && pairs[at[k]].1 < pairs[at[l]].1 {
      assert at[k] == trail[|trail| - 1 - k] && at[l] == trail[|trail| - 1 - l];
    }
  }

  lemma NoLongerChain(pairs: seq<Pair>, tails: seq<int>, tailsIdx: seq<int>, rank: seq<int>)
    requires |rank| == |pairs| && RanksGrow(pairs, rank) && Tops(pairs, tails, tailsIdx, rank)
    ensures forall at: seq<int> :: IsChain(pairs, at) ==> |at| <= |tails|
  {
    forall k | 0 <= k < |rank| ensures 1 <= rank[k] <= |tails| {
      assert IsRanked(pairs, tails, rank, k);
    }
    forall at: seq<int> | IsChain(pairs, at) ensures |at| <= |tails| {
      if at != [] {
        ChainWithinRank(pairs, rank, at);
      }
    }
  }

  method LisPairs(pairs: seq<Pair>) returns (out: seq<Pair>)
    ensures IsLongestChain(pairs, out)
  {
    var tails, tailsIdx, prev, rank := Deal(pairs);
    NoLongerChain(pairs, tails, tailsIdx, rank);
    assert tails != [] ==> IsTop(pairs, tails, tailsIdx, rank, |tails| - 1);
    var k: int := if tailsIdx == [] then -1 else tailsIdx[|tailsIdx| - 1];
    var back: seq<Pair> := [];
    ghost var trail: seq<int> := [];
    while k != -1
      invariant -1 <= k < |pairs|
      invariant IsTrail(pairs, trail) && IsPicked(pairs, trail, back)
      invariant k != -1 ==> IsTrail(pairs, trail + [k])
      invariant |back| + (if k == -1 then 0 else rank[k]) == |tails|
      decreases k
    {
      assert IsParent(pairs, prev, rank, k);
      ParentExtendsTrail(pairs, trail, k, prev[k]);
      trail := trail + [k];
      back := back + [pairs[k]];
      k := prev[k];
    }
    out := Reverse(back);
    ReversedTrail(pairs, trail, back);
  }
}
