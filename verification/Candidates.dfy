/**
 What the matcher of tools/re/match_rotwk.py looks for, as functions and predicates of a snapshot of
 its state: link-order predictions, candidate pairs, their scores, and the orders they are tried in.
 */
module Candidates {
  import opened Bisect
  import opened Lcs
  import opened Lis
  import opened Matching
  import opened Options
  import opened PyInt
  import opened Sorting

  // ----- anchors and predictions

  function Rvas(F: seq<Feature>): (rvas: seq<int>)
    ensures |rvas| == |F| && forall i :: 0 <= i < |F| ==> rvas[i] == F[i].rva
  {
    if F == [] then [] else Rvas(F[..|F| - 1]) + [F[|F| - 1].rva]
  }

  predicate IsAnchorMatch(R: seq<Feature>, T: seq<Feature>, matches: map<nat, Match>, r: nat)
    requires r < |R|
  {
    r in matches && matches[r].t < |T| && R[r].blk >= 16 && Firm(matches[r])
  }

  /** The address pairs of the firm matches of functions of 16 bytes and more. */
  function AnchorPairs(R: seq<Feature>, T: seq<Feature>, matches: map<nat, Match>, n: nat): seq<Pair>
    requires n <= |R|
  {
    if n == 0 then []
    else if !IsAnchorMatch(R, T, matches, n - 1) then AnchorPairs(R, T, matches, n - 1)
    else AnchorPairs(R, T, matches, n - 1) + [(R[n - 1].rva, T[matches[n - 1].t].rva)]
  }

  predicate PairLeq(p: Pair, q: Pair) {
    p.0 < q.0 || (p.0 == q.0 && p.1 <= q.1)
  }

  function Firsts(ps: seq<Pair>): (s: seq<int>)
    ensures |s| == |ps| && forall i :: 0 <= i < |ps| ==> s[i] == ps[i].0
  {
    if ps == [] then [] else Firsts(ps[..|ps| - 1]) + [ps[|ps| - 1].0]
  }

  function Seconds(ps: seq<Pair>): (s: seq<int>)
    ensures |s| == |ps| && forall i :: 0 <= i < |ps| ==> s[i] == ps[i].1
  {
    if ps == [] then [] else Seconds(ps[..|ps| - 1]) + [ps[|ps| - 1].1]
  }

  /** The two anchor lists are a longest chain of the sorted address pairs. */
  ghost predicate AreAnchors(R: seq<Feature>, T: seq<Feature>, matches: map<nat, Match>, anchorR: seq<int>,
                             anchorT: seq<int>)
  {
    exists chain :: IsLongestChain(Sort(AnchorPairs(R, T, matches, |R|), PairLeq), chain)
                    && anchorR == Firsts(chain) && anchorT == Seconds(chain)
  }

  lemma {:induction false} AnchorPairsFirm(R: seq<Feature>, T: seq<Feature>, matches: map<nat, Match>, n: nat)
    requires n <= |R|
    ensures forall p :: p in AnchorPairs(R, T, matches, n) ==>
              exists r :: 0 <= r < n && IsAnchorMatch(R, T, matches, r) && p == (R[r].rva, T[matches[r].t].rva)
    ensures forall r :: 0 <= r < n && IsAnchorMatch(R, T, matches, r) ==>
              (R[r].rva, T[matches[r].t].rva) in AnchorPairs(R, T, matches, n)
  {
    if n > 0 {
      AnchorPairsFirm(R, T, matches, n - 1);
      var front := AnchorPairs(R, T, matches, n - 1);
      assert forall p :: p in front ==> p in AnchorPairs(R, T, matches, n);
      if IsAnchorMatch(R, T, matches, n - 1) {
        assert AnchorPairs(R, T, matches, n) == front + [(R[n - 1].rva, T[matches[n - 1].t].rva)];
      }
    }
  }

  /** Anchors run upwards in both binaries, and each is the address pair of a firm match. */
  lemma AnchorsAscend(R: seq<Feature>, T: seq<Feature>, matches: map<nat, Match>, anchorR: seq<int>, anchorT: seq<int>)
    requires AreAnchors(R, T, matches, anchorR, anchorT)
    ensures |anchorR| == |anchorT|
    ensures forall i, j :: 0 <= i < j < |anchorR| ==> anchorR[i] <= anchorR[j] && anchorT[i] < anchorT[j]
    ensures forall i :: 0 <= i < |anchorR| ==>
              exists r :: 0 <= r < |R| && IsAnchorMatch(R, T, matches, r)
                          && R[r].blk >= 16 && !matches[r].note.Ambiguous?
                          && anchorR[i] == R[r].rva && anchorT[i] == T[matches[r].t].rva
  {
    var chain := AnchorChain(R, T, matches, anchorR, anchorT);
    forall i | 0 <= i < |anchorR|
      ensures exists r :: 0 <= r < |R| && IsAnchorMatch(R, T, matches, r)
                          && anchorR[i] == R[r].rva && anchorT[i] == T[matches[r].t].rva
    {
      var r := MatchOfPair(R, T, matches, chain[i]);
    }
  }

  /** The chain that the anchors were read off. */
  lemma AnchorChain(R: seq<Feature>, T: seq<Feature>, matches: map<nat, Match>, anchorR: seq<int>, anchorT: seq<int>)
    returns (chain: seq<Pair>)
    requires AreAnchors(R, T, matches, anchorR, anchorT)
    ensures |chain| == |anchorR| == |anchorT|
    ensures forall i :: 0 <= i < |chain| ==>
              chain[i] in AnchorPairs(R, T, matches, |R|) && chain[i] == (anchorR[i], anchorT[i])
    ensures forall i, j :: 0 <= i < j < |chain| ==> chain[i].0 <= chain[j].0 && chain[i].1 < chain[j].1
  {
    var pairs := AnchorPairs(R, T, matches, |R|);
    var sorted := Sort(pairs, PairLeq);
    SortSorts(pairs, PairLeq);
    SortKeepsElements(pairs, PairLeq);
    chain :| IsLongestChain(sorted, chain) && anchorR == Firsts(chain) && anchorT == Seconds(chain);
    ChainAscends(sorted, chain);
  }

  lemma MatchOfPair(R: seq<Feature>, T: seq<Feature>, matches: map<nat, Match>, p: Pair) returns (r: nat)
    requires p in AnchorPairs(R, T, matches, |R|)
    ensures r < |R| && IsAnchorMatch(R, T, matches, r) && p == (R[r].rva, T[matches[r].t].rva)
  {
    AnchorPairsFirm(R, T, matches, |R|);
    var k :| 0 <= k < |R| && IsAnchorMatch(R, T, matches, k) && p == (R[k].rva, T[matches[k].t].rva);
    r := k;
  }

  lemma ChainAscends(sorted: seq<Pair>, chain: seq<Pair>)
    requires SortedBy(sorted, PairLeq) && IsLongestChain(sorted, chain)
    ensures forall i :: 0 <= i < |chain| ==> chain[i] in sorted
    ensures forall i, j :: 0 <= i < j < |chain| ==> chain[i].0 <= chain[j].0 && chain[i].1 < chain[j].1
  {
    var at :| IsChain(sorted, at) && IsPicked(sorted, at, chain);
    forall i, j | 0 <= i < j < |chain| ensures chain[i].0 <= chain[j].0 && chain[i].1 < chain[j].1 {
      assert PairLeq(sorted[at[i]], sorted[at[j]]);
    }
  }

  /** Functions of 16 bytes and more, firmly matched, of which neither side runs downwards. */
  ghost predicate Ascend(R: seq<Feature>, T: seq<Feature>, matches: map<nat, Match>, rs: seq<nat>) {
    && (forall k :: 0 <= k < |rs| ==>
          rs[k] < |R| && rs[k] in matches && matches[rs[k]].t < |T|
          && R[rs[k]].blk >= 16 && !matches[rs[k]].note.Ambiguous?)
    && (forall k, l :: 0 <= k < l < |rs| ==>
          R[rs[k]].rva <= R[rs[l]].rva && T[matches[rs[k]].t].rva < T[matches[rs[l]].t].rva)
  }

  /** No such functions are more than the anchors. */
  lemma AnchorsAreLongest(R: seq<Feature>, T: seq<Feature>, matches: map<nat, Match>, anchorR: seq<int>,
                          anchorT: seq<int>, rs: seq<nat>)
    requires AreAnchors(R, T, matches, anchorR, anchorT) && Ascend(R, T, matches, rs)
    ensures |rs| <= |anchorR|
  {
    var pairs := AnchorPairs(R, T, matches, |R|);
    var sorted := Sort(pairs, PairLeq);
    SortSorts(pairs, PairLeq);
    SortKeepsElements(pairs, PairLeq);
    AnchorPairsFirm(R, T, matches, |R|);
    var at := PlacesOf(R, T, matches, sorted, rs);
    var chain :| IsLongestChain(sorted, chain) && anchorR == Firsts(chain) && anchorT == Seconds(chain);
    assert IsChain(sorted, at);
  }

  function PairOf(R: seq<Feature>, T: seq<Feature>, matches: map<nat, Match>, r: nat): Pair
    requires r < |R| && r in matches && matches[r].t < |T|
  {
    (R[r].rva, T[matches[r].t].rva)
  }

  /** Where the pairs of the functions stand in the sorted list. */
  lemma {:induction false} PlacesOf(R: seq<Feature>, T: seq<Feature>, matches: map<nat, Match>, sorted: seq<Pair>,
                                    rs: seq<nat>) returns (at: seq<int>)
    requires SortedBy(sorted, PairLeq) && Ascend(R, T, matches, rs)
    requires forall k :: 0 <= k < |rs| ==> PairOf(R, T, matches, rs[k]) in sorted
    ensures |at| == |rs| && IsChain(sorted, at)
    ensures forall k :: 0 <= k < |rs| ==> 0 <= at[k] < |sorted| && sorted[at[k]] == PairOf(R, T, matches, rs[k])
  {
    if rs == [] {
      at := [];
    } else {
      var n := |rs| - 1;
      var front := PlacesOf(R, T, matches, sorted, rs[..n]);
      var p := PairOf(R, T, matches, rs[n]);
      var i :| 0 <= i < |sorted| && sorted[i] == p;
      at := front + [i];
      forall k | 0 <= k < n ensures at[k] < i && sorted[at[k]].1 < sorted[i].1 {
        assert !PairLeq(p, PairOf(R, T, matches, rs[k]));
      }
    }
  }

  datatype Guess = Guess(pred: int, lo: Option<int>, hi: Option<int>)

  /** Where link order puts the counterpart, and the targets of the anchors around it. */
  function Predict(anchorR: seq<int>, anchorT: seq<int>, rva: int): Guess
    requires |anchorR| == |anchorT|
  {
    var i := BisectRight(anchorR, rva) as int - 1;
    if i < 0 then
      Guess(if anchorR != [] then anchorT[0] - (anchorR[0] - rva) else rva, None, Some(0))
    else
      Guess(anchorT[i] + (rva - anchorR[i]), Some(anchorT[i]),
            if i + 1 < |anchorT| then Some(anchorT[i + 1]) else None)
  }

  function Abs(x: int): nat {
    if x < 0 then -x else x
  }

  function Dist(anchorR: seq<int>, anchorT: seq<int>, f: Feature, g: Feature): nat
    requires |anchorR| == |anchorT|
  {
    Abs(g.rva - Predict(anchorR, anchorT, f.rva).pred)
  }

  /** The distance of a target from the prediction, before it or behind it. */
  lemma DistIs(anchorR: seq<int>, anchorT: seq<int>, f: Feature, g: Feature)
    requires |anchorR| == |anchorT|
    ensures var pred, d := Predict(anchorR, anchorT, f.rva).pred, Dist(anchorR, anchorT, f, g);
            if g.rva >= pred then pred + d == g.rva else g.rva + d == pred
  {
  }

  // ----- index tables

  /** The last function at an address, as a dictionary built in order finds it. */
  function IndexOf(F: seq<Feature>, rva: int): (i: Option<nat>)
    ensures i.Some? ==> i.value < |F| && F[i.value].rva == rva
  {
    if F == [] then None
    else if F[|F| - 1].rva == rva then Some(|F| - 1)
    else IndexOf(F[..|F| - 1], rva)
  }

  /** i is the last function at the address. */
  predicate IsLastAt(F: seq<Feature>, rva: int, i: nat) {
    i < |F| && F[i].rva == rva && forall j :: i < j < |F| ==> F[j].rva != rva
  }

  lemma {:induction false} IndexOfIsLast(F: seq<Feature>, rva: int)
    ensures forall i: nat :: IndexOf(F, rva) == Some(i) <==> IsLastAt(F, rva, i)
    ensures IndexOf(F, rva) == None <==> forall i :: 0 <= i < |F| ==> F[i].rva != rva
  {
    if F != [] {
      var n := |F| - 1;
      IndexOfIsLast(F[..n], rva);
      if F[n].rva != rva {
        forall i: nat ensures IsLastAt(F[..n], rva, i) <==> IsLastAt(F, rva, i) {
          assert i < n ==> F[..n][i] == F[i];
        }
      }
    }
  }

  /** The functions at two addresses, the last of each, are matched to one another. */
  predicate AreMatchedAt(v: View, x: int, y: int) {
    exists q: nat, u: nat :: IsLastAt(v.R, x, q) && IsLastAt(v.T, y, u) && q in v.s.matches && v.s.matches[q].t == u
  }

  /** Callees are paired when the blocks have one size and call as many functions, all matched pairwise. */
  lemma CalleesPairedIff(v: View, r: nat, t: nat)
    requires r < |v.R| && t < |v.T|
    ensures var cr, ct := v.R[r].callees, v.T[t].callees;
            CalleesPaired(v, r, t) <==> v.R[r].blk == v.T[t].blk && |cr| == |ct| >= 1
                                        && forall k: nat :: k < |cr| ==> AreMatchedAt(v, cr[k], ct[k])
  {
    var cr, ct := v.R[r].callees, v.T[t].callees;
    forall k: nat | k < |cr| && k < |ct|
      ensures var ri, ti := IndexOf(v.R, cr[k]), IndexOf(v.T, ct[k]);
              (ri.Some? && ti.Some? && ri.value in v.s.matches && v.s.matches[ri.value].t == ti.value)
              <==> AreMatchedAt(v, cr[k], ct[k])
    {
      IndexOfIsLast(v.R, cr[k]);
      IndexOfIsLast(v.T, ct[k]);
    }
  }

  ghost predicate Indexes(F: seq<Feature>, index: map<int, nat>) {
    forall rva :: Get(index, rva) == IndexOf(F, rva)
  }

  predicate AreIndices(s: seq<nat>, n: nat) {
    forall k :: 0 <= k < |s| ==> s[k] < n
  }

  /** The chosen indices whose hash is h, in order. */
  function Having(chosen: seq<nat>, hashes: seq<string>, h: string): (s: seq<nat>)
    requires AreIndices(chosen, |hashes|)
    ensures AreIndices(s, |hashes|)
  {
    if chosen == [] then []
    else
      var n := |chosen| - 1;
      if hashes[chosen[n]] == h then Having(chosen[..n], hashes, h) + [chosen[n]] else Having(chosen[..n], hashes, h)
  }

  lemma {:induction false} HavingElements(chosen: seq<nat>, hashes: seq<string>, h: string)
    requires AreIndices(chosen, |hashes|)
    ensures forall i: nat :: i in Having(chosen, hashes, h) <==> i in chosen && i < |hashes| && hashes[i] == h
  {
    if chosen != [] {
      var n := |chosen| - 1;
      HavingElements(chosen[..n], hashes, h);
      assert chosen == chosen[..n] + [chosen[n]];
    }
  }

  lemma {:induction false} HavingDistinct(chosen: seq<nat>, hashes: seq<string>, h: string)
    requires AreIndices(chosen, |hashes|) && Distinct(chosen)
    ensures Distinct(Having(chosen, hashes, h))
  {
    if chosen != [] {
      var n := |chosen| - 1;
      HavingDistinct(chosen[..n], hashes, h);
      HavingElements(chosen[..n], hashes, h);
      assert chosen[n] !in chosen[..n];
    }
  }

  // ----- the candidates of a tier B or D round

  /** What a round can see: both binaries, the dictionaries and the anchors when it starts. */
  datatype View = View(R: seq<Feature>, T: seq<Feature>, s: State, anchorR: seq<int>, anchorT: seq<int>)

  predicate Unmatched(v: View, r: nat) {
    r < |v.R| && r !in v.s.matches
  }

  predicate Free(v: View, t: nat) {
    t < |v.T| && t !in v.s.taken
  }

  /** Between two neighbouring anchors the prediction keeps the distance to the lower one. */
  lemma PredictBetween(anchorR: seq<int>, anchorT: seq<int>, rva: int, i: nat)
    requires |anchorR| == |anchorT| && Sorted(anchorR) && i < |anchorR|
    requires anchorR[i] <= rva && (i + 1 < |anchorR| ==> rva < anchorR[i + 1])
    ensures var g := Predict(anchorR, anchorT, rva);
            && g.pred - anchorT[i] == rva - anchorR[i] && g.lo == Some(anchorT[i])
            && g.hi == (if i + 1 < |anchorT| then Some(anchorT[i + 1]) else None)
  {
    var at := BisectRight(anchorR, rva);
    assert SplitsAbove(anchorR, rva, at);
    assert at == i + 1;
  }

  /**
   A gap of few targets offers exactly the targets strictly between the anchors, so a match there keeps
   link order.
   */
  lemma GapKeepsLinkOrder(v: View, r: nat, window: nat, nearest: nat, i: nat)
    requires r < |v.R| && |v.anchorR| == |v.anchorT| && Sorted(v.anchorR) && Sorted(Rvas(v.T)) && i + 1 < |v.anchorR|
    requires v.anchorR[i] <= v.R[r].rva < v.anchorR[i + 1]
    requires 0 <= BisectLeft(Rvas(v.T), v.anchorT[i + 1]) - BisectRight(Rvas(v.T), v.anchorT[i]) <= window
    ensures var range := TargetRange(v, r, window, nearest);
            forall t: nat :: t < |v.T| ==> (range.0 <= t < range.1 <==> v.anchorT[i] < v.T[t].rva < v.anchorT[i + 1])
  {
    PredictBetween(v.anchorR, v.anchorT, v.R[r].rva, i);
    var rvas := Rvas(v.T);
    var a, b := BisectRight(rvas, v.anchorT[i]), BisectLeft(rvas, v.anchorT[i + 1]);
    assert SplitsAbove(rvas, v.anchorT[i], a) && SplitsBelow(rvas, v.anchorT[i + 1], b);
    forall t: nat | t < |v.T| ensures a <= t < b <==> v.anchorT[i] < v.T[t].rva < v.anchorT[i + 1] {
      assert rvas[t] == v.T[t].rva;
    }
  }

  /** The targets tried for r: the gap between its anchors when that is narrow, else around the prediction. */
  function TargetRange(v: View, r: nat, window: nat, nearest: nat): (range: (nat, nat))
    requires r < |v.R| && |v.anchorR| == |v.anchorT|
    ensures range.1 <= |v.T|
  {
    var g := Predict(v.anchorR, v.anchorT, v.R[r].rva);
    var a := if g.lo.Some? then BisectRight(Rvas(v.T), g.lo.value) else 0;
    var b := if g.hi.Some? then BisectLeft(Rvas(v.T), g.hi.value) else 0;
    if g.lo.Some? && g.hi.Some? && 0 <= b - a <= window then (a, b)
    else
      var k := BisectLeft(Rvas(v.T), g.pred);
      (if k < nearest then 0 else k - nearest, Min(|v.T|, k + nearest))
  }

  /** Before the first anchor the prediction keeps the distance to it; without anchors it is the address itself. */
  lemma PredictBefore(anchorR: seq<int>, anchorT: seq<int>, rva: int)
    requires |anchorR| == |anchorT| && Sorted(anchorR) && (anchorR != [] ==> rva < anchorR[0])
    ensures var g := Predict(anchorR, anchorT, rva);
            g.lo == None && if anchorR == [] then g.pred == rva else g.pred - anchorT[0] == rva - anchorR[0]
  {
    assert SplitsAbove(anchorR, rva, BisectRight(anchorR, rva));
  }

  /** The targets below the prediction that come after t, and those from it on that come before t. */
  ghost function NearerBelow(v: View, pred: int, t: nat): set<nat> {
    set j: nat | t < j < |v.T| && v.T[j].rva < pred
  }

  ghost function NearerAbove(v: View, pred: int, t: nat): set<nat> {
    set j: nat | j < t && j < |v.T| && v.T[j].rva >= pred
  }

  ghost function Between(a: nat, b: nat): (s: set<nat>)
    requires a <= b
    ensures |s| == b - a && forall j :: j in s <==> a <= j < b
  {
    if a == b then {} else Between(a, b - 1) + {b - 1}
  }

  /** Without a narrow gap the range holds the given number of nearest targets on either side of the prediction. */
  lemma WideRangeIsNearest(v: View, r: nat, window: nat, nearest: nat, t: nat)
    requires r < |v.R| && |v.anchorR| == |v.anchorT| && Sorted(Rvas(v.T)) && t < |v.T|
    requires var g := Predict(v.anchorR, v.anchorT, v.R[r].rva);
             g.lo == None || g.hi == None
             || !(0 <= BisectLeft(Rvas(v.T), g.hi.value) - BisectRight(Rvas(v.T), g.lo.value) <= window)
    ensures var range, pred := TargetRange(v, r, window, nearest), Predict(v.anchorR, v.anchorT, v.R[r].rva).pred;
            range.0 <= t < range.1
            <==> |if v.T[t].rva < pred then NearerBelow(v, pred, t) else NearerAbove(v, pred, t)| < nearest
  {
    var pred := Predict(v.anchorR, v.anchorT, v.R[r].rva).pred;
    var rvas := Rvas(v.T);
    var k := BisectLeft(rvas, pred);
    assert SplitsBelow(rvas, pred, k);
    assert forall j :: 0 <= j < |v.T| ==> rvas[j] == v.T[j].rva;
    if t < k {
      assert NearerBelow(v, pred, t) == Between(t + 1, k);
    } else {
      assert NearerAbove(v, pred, t) == Between(k, t);
    }
  }

  ghost predicate IsGapCandidate(v: View, window: nat, nearest: nat, r: nat, t: nat)
    requires |v.anchorR| == |v.anchorT|
  {
    Unmatched(v, r) && Free(v, t) && TargetRange(v, r, window, nearest).0 <= t < TargetRange(v, r, window, nearest).1
  }

  /** The k-th callees of a matched caller and of its target. */
  ghost predicate AreCallees(v: View, caller: nat, k: nat, r: nat, t: nat) {
    && caller in v.s.matches && caller < |v.R| && v.s.matches[caller].t < |v.T|
    && |v.R[caller].callees| == |v.T[v.s.matches[caller].t].callees|
    && k < |v.R[caller].callees|
    && IndexOf(v.R, v.R[caller].callees[k]) == Some(r)
    && IndexOf(v.T, v.T[v.s.matches[caller].t].callees[k]) == Some(t)
  }

  ghost predicate IsCalleeCandidate(v: View, r: nat, t: nat) {
    Unmatched(v, r) && Free(v, t) && exists caller, k :: AreCallees(v, caller, k, r, t)
  }

  /** r is the only unmatched function, and t the only free one, with their shape hash. */
  ghost predicate IsShapeCandidate(v: View, r: nat, t: nat) {
    && Unmatched(v, r) && Free(v, t) && v.R[r].shash == v.T[t].shash && |v.R[r].shape| >= 8
    && (forall r': nat :: Unmatched(v, r') && v.R[r'].shash == v.R[r].shash ==> r' == r)
    && (forall t': nat :: Free(v, t') && v.T[t'].shash == v.T[t].shash ==> t' == t)
  }

  ghost predicate IsCandidate(v: View, window: nat, nearest: nat, shapeHash: bool, r: nat, t: nat)
    requires |v.anchorR| == |v.anchorT|
  {
    IsGapCandidate(v, window, nearest, r, t) || IsCalleeCandidate(v, r, t) || (shapeHash && IsShapeCandidate(v, r, t))
  }

  // ----- scores and proposals

  /** Shapes of very different length score 0 without a comparison. */
  ghost function Score(f: Feature, g: Feature): real {
    if f.shape == [] || g.shape == []
       || Min(|f.shape|, |g.shape|) as real / Max(|f.shape|, |g.shape|) as real < 0.8 then 0.0
    else Similarity(f.shape, g.shape)
  }

  /** Shapes of which neither is more than a quarter longer are compared, others score 0. */
  lemma ScoreIs(f: Feature, g: Feature)
    ensures var m, n := |f.shape|, |g.shape|;
            Score(f, g) == if m > 0 && n > 0 && 4 * m <= 5 * n && 4 * n <= 5 * m
                           then Similarity(f.shape, g.shape) else 0.0
  {
    var small, large := Min(|f.shape|, |g.shape|), Max(|f.shape|, |g.shape|);
    if small > 0 {
      ShareBelow(small as real, large as real);
    }
  }

  lemma ShareBelow(x: real, y: real)
    requires x > 0.0 && y > 0.0
    ensures x / y < 0.8 <==> 5.0 * x < 4.0 * y
  {
    var q := x / y;
    assert q * y == x;
    if q < 0.8 {
      LessTimes(q, 0.8, y);
    } else if q > 0.8 {
      LessTimes(0.8, q, y);
    }
  }

  lemma LessTimes(x: real, y: real, z: real)
    requires x < y && z > 0.0
    ensures x * z < y * z
  {
  }

  /** Equal block sizes, and callees that are matched to one another pairwise. */
  predicate CalleesPaired(v: View, r: nat, t: nat)
    requires r < |v.R| && t < |v.T|
  {
    var cr, ct := v.R[r].callees, v.T[t].callees;
    && v.R[r].blk == v.T[t].blk && cr != [] && |cr| == |ct|
    && forall k :: 0 <= k < |cr| ==>
         var ri, ti := IndexOf(v.R, cr[k]), IndexOf(v.T, ct[k]);
         ri.Some? && ti.Some? && ri.value in v.s.matches && v.s.matches[ri.value].t == ti.value
  }

  /** The proposal a candidate pair makes, if its score or its callees are good enough. */
  ghost function Propose(v: View, tier: Tier, sim: real, r: nat, t: nat): Option<Proposal>
    requires r < |v.R| && t < |v.T| && |v.anchorR| == |v.anchorT|
  {
    var score := Score(v.R[r], v.T[t]);
    var paired := CalleesPaired(v, r, t);
    var dist := Dist(v.anchorR, v.anchorT, v.R[r], v.T[t]);
    if score >= sim then Some(Proposal(r, t, score, Similar, !paired, dist))
    else if tier == B && paired then
      Some(Proposal(r, t, if score > 0.0 then score else 0.0, CalleePattern, false, dist))
    else None
  }

  ghost predicate IsProposed(v: View, window: nat, nearest: nat, tier: Tier, sim: real, shapeHash: bool, p: Proposal)
    requires |v.anchorR| == |v.anchorT|
  {
    && IsCandidate(v, window, nearest, shapeHash, p.r, p.t)
    && Propose(v, tier, sim, p.r, p.t) == Some(p)
  }

  /** Best score first; then paired callees, the smaller distance, the smaller index. */
  predicate RoundOrder(p: Proposal, q: Proposal) {
    if p.score != q.score then p.score > q.score
    else if p.late != q.late then !p.late
    else if p.distance != q.distance then p.distance < q.distance
    else p.r <= q.r
  }

  /** Nearest pair first; ties by address and index. */
  predicate NearestOrder(R: seq<Feature>, p: Proposal, q: Proposal) {
    var a, b := if p.r < |R| then R[p.r].rva else 0, if q.r < |R| then R[q.r].rva else 0;
    if p.distance != q.distance then p.distance < q.distance
    else if a != b then a < b
    else if p.r != q.r then p.r < q.r
    else p.t <= q.t
  }

  function CountOf(p: Proposal): int {
    if p.note.Strings? then p.note.n else 0
  }

  predicate MostStringsFirst(p: Proposal, q: Proposal) {
    CountOf(p) >= CountOf(q)
  }

  /** Equal counts in the order of the functions. */
  predicate MostStringsThenIndex(p: Proposal, q: Proposal) {
    CountOf(p) > CountOf(q) || (CountOf(p) == CountOf(q) && p.r < q.r)
  }

  // ----- tier C

  ghost function Owners(F: seq<Feature>, str: string): set<nat> {
    set i | 0 <= i < |F| && str in F[i].strs
  }

  /** Strings of four characters and more that only r and only t refer to. */
  ghost function SharedStrings(R: seq<Feature>, T: seq<Feature>, r: nat, t: nat): set<string>
    requires r < |R|
  {
    set str | str in R[r].strs && |str| >= 4 && Owners(R, str) == {r} && Owners(T, str) == {t}
  }

  /** r proposes the target with which it shares the most private strings. */
  ghost predicate IsStringProposal(v: View, p: Proposal) {
    && Unmatched(v, p.r) && p.t < |v.T| && !p.late && p.distance == 0
    && p.score == Score(v.R[p.r], v.T[p.t])
    && p.note == Strings(|SharedStrings(v.R, v.T, p.r, p.t)|) && p.note.n > 0
    && forall t :: 0 <= t < |v.T| ==> |SharedStrings(v.R, v.T, p.r, t)| <= p.note.n
  }

  // ----- groups of identical functions

  datatype Group = Group(rs: seq<nat>, ts: seq<nat>)

  function AllIndices(n: nat): (s: seq<nat>)
    ensures |s| == n && AreIndices(s, n) && Distinct(s)
    ensures forall i :: 0 <= i < n ==> s[i] == i
  {
    if n == 0 then [] else AllIndices(n - 1) + [n - 1]
  }

  function Hashes(F: seq<Feature>): (s: seq<string>)
    ensures |s| == |F| && forall i :: 0 <= i < |F| ==> s[i] == F[i].mhash
  {
    if F == [] then [] else Hashes(F[..|F| - 1]) + [F[|F| - 1].mhash]
  }

  function WithHash(F: seq<Feature>, h: string): seq<nat> {
    Having(AllIndices(|F|), Hashes(F), h)
  }

  /** All the functions with one hash, when the hash is in both binaries but not just once in each. */
  ghost predicate IsGroupOf(R: seq<Feature>, T: seq<Feature>, g: Group, h: string) {
    && g.rs == WithHash(R, h) && g.ts == WithHash(T, h)
    && g.rs != [] && g.ts != [] && !(|g.rs| == 1 && |g.ts| == 1)
  }

  function ByRva(T: seq<Feature>): (nat, nat) -> bool {
    (i: nat, j: nat) => (if i < |T| then T[i].rva else 0) <= (if j < |T| then T[j].rva else 0)
  }

  /** The 16 targets of the group nearest the prediction, as a range of its address order. */
  function NearRange(v: View, ts: seq<nat>, r: nat): (range: (nat, nat))
    requires r < |v.R| && |v.anchorR| == |v.anchorT| && AreIndices(ts, |v.T|)
    ensures range.1 <= |ts|
  {
    var k := BisectLeft(RvasAt(v.T, ts), Predict(v.anchorR, v.anchorT, v.R[r].rva).pred);
    (if k < 8 then 0 else k - 8, Min(|ts|, k + 8))
  }

  function RvasAt(T: seq<Feature>, ts: seq<nat>): (s: seq<int>)
    requires AreIndices(ts, |T|)
    ensures |s| == |ts| && forall i :: 0 <= i < |ts| ==> s[i] == T[ts[i]].rva
  {
    if ts == [] then [] else RvasAt(T, ts[..|ts| - 1]) + [T[ts[|ts| - 1]].rva]
  }

  function GroupNote(g: Group, shared: bool, far: bool): Note {
    Ambiguous(|g.rs|, |g.ts|, shared, far)
  }

  /** ts is the group's target list in address order. */
  ghost predicate IsNearProposal(v: View, g: Group, ts: seq<nat>, far: nat, p: Proposal)
    requires |v.anchorR| == |v.anchorT| && AreIndices(ts, |v.T|)
  {
    && p.r in g.rs && p.r < |v.R|
    && (exists j :: NearRange(v, ts, p.r).0 <= j < NearRange(v, ts, p.r).1 && p.t == ts[j])
    && p.t < |v.T|
    && p == Proposal(p.r, p.t, 1.0, GroupNote(g, false, p.distance > far), false,
                     Dist(v.anchorR, v.anchorT, v.R[p.r], v.T[p.t]))
  }

  /** r shares the nearest target of its group, the first one in address order if two are equally near. */
  ghost predicate SharesNearest(v: View, g: Group, ts: seq<nat>, far: nat, r: nat, matches: map<nat, Match>)
    requires r < |v.R| && |v.anchorR| == |v.anchorT| && AreIndices(ts, |v.T|)
  {
    && r in matches
    && exists j :: 0 <= j < |ts|
         && matches[r] == Match(ts[j], A, 1.0, GroupNote(g, true, Dist(v.anchorR, v.anchorT, v.R[r], v.T[ts[j]]) > far))
         && IsNearest(v, ts, r, j)
  }

  ghost predicate IsNearest(v: View, ts: seq<nat>, r: nat, j: nat)
    requires r < |v.R| && |v.anchorR| == |v.anchorT| && AreIndices(ts, |v.T|) && j < |ts|
  {
    forall l :: 0 <= l < |ts| ==>
      var here, there := Dist(v.anchorR, v.anchorT, v.R[r], v.T[ts[j]]), Dist(v.anchorR, v.anchorT, v.R[r], v.T[ts[l]]);
      here <= there && (l < j ==> here < there)
  }

  /** ps lists what the group's functions propose, nearest first. */
  ghost predicate AreNearProposals(v: View, g: Group, ts: seq<nat>, far: nat, ps: seq<Proposal>)
    requires |v.anchorR| == |v.anchorT| && AreIndices(ts, |v.T|)
  {
    && SortedBy(ps, (p, q) => NearestOrder(v.R, p, q))
    && forall p :: p in ps <==> IsNearProposal(v, g, ts, far, p)
  }

  /** The matches that a list of winners puts over what was there. */
  ghost predicate Overlaid(base: map<nat, Match>, won: seq<Proposal>, matches: map<nat, Match>) {
    && matches.Keys == base.Keys + RsOf(won)
    && (forall p :: p in won ==> p.r in matches && matches[p.r] == ToMatch(p, A))
    && (forall r :: r in base && r !in RsOf(won) ==> r in matches && matches[r] == base[r])
  }

  /** Winners get their targets, the others share. */
  ghost predicate IsAssigned(v: View, g: Group, ts: seq<nat>, far: nat, won: seq<Proposal>, matches: map<nat, Match>)
    requires |v.anchorR| == |v.anchorT| && AreIndices(ts, |v.T|)
  {
    && (forall p :: p in won ==> p.r in matches && matches[p.r] == ToMatch(p, A))
    && (forall r :: r in g.rs && r !in RsOf(won) ==> r < |v.R| && SharesNearest(v, g, ts, far, r, matches))
  }

  /** How a group of identical functions is assigned: greedily, nearest first, and the rest share. */
  ghost predicate IsResolved(v: View, g: Group, far: nat, matches: map<nat, Match>) {
    var ts := Sort(g.ts, ByRva(v.T));
    && |v.anchorR| == |v.anchorT| && AreIndices(ts, |v.T|)
    && exists ps :: AreNearProposals(v, g, ts, far, ps) && IsAssigned(v, g, ts, far, Winners(ps, {}, {}), matches)
  }
}
