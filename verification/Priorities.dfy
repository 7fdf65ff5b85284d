/**
 Which pairs come first in the matcher of tools/re/match_rotwk.py, said of distances and of shared strings
 instead of sort orders: in the groups of identical functions the nearest, in tier C those with most strings.
 */
module Priorities {
  import opened Bisect
  import opened Candidates
  import opened Matching
  import opened MatcherSteps
  import opened Schedule
  import opened Sorting

  // ----- groups of identical functions

  /** The group's targets below the prediction that come after t in address order, or from it on and before t. */
  ghost function Nearer(T: seq<Feature>, ts: seq<nat>, pred: int, j: nat): set<nat>
    requires AreIndices(ts, |T|) && j < |ts|
  {
    if T[ts[j]].rva < pred then set i: nat | j < i < |ts| && T[ts[i]].rva < pred
    else set i: nat | i < j && T[ts[i]].rva >= pred
  }

  /** A function of the group tries the eight nearest targets of the group on either side of its prediction. */
  lemma NearRangeIsNearest(v: View, ts: seq<nat>, r: nat, j: nat)
    requires r < |v.R| && |v.anchorR| == |v.anchorT| && AreIndices(ts, |v.T|) && j < |ts|
    requires forall i, k :: 0 <= i < k < |ts| ==> v.T[ts[i]].rva <= v.T[ts[k]].rva
    ensures var range, pred := NearRange(v, ts, r), Predict(v.anchorR, v.anchorT, v.R[r].rva).pred;
            range.0 <= j < range.1 <==> |Nearer(v.T, ts, pred, j)| < 8
  {
    var pred := Predict(v.anchorR, v.anchorT, v.R[r].rva).pred;
    var rvas := RvasAt(v.T, ts);
    var k := BisectLeft(rvas, pred);
    assert SplitsBelow(rvas, pred, k);
    assert forall i :: 0 <= i < |ts| ==> rvas[i] == v.T[ts[i]].rva;
    if j < k {
      assert Nearer(v.T, ts, pred, j) == Between(j + 1, k);
    } else {
      assert Nearer(v.T, ts, pred, j) == Between(k, j);
    }
  }

  /** The pair q, u comes no later than r, t: nearer, or as near and first by address and indices. */
  predicate NoFurther(v: View, q: nat, u: nat, r: nat, t: nat)
    requires q < |v.R| && u < |v.T| && r < |v.R| && t < |v.T| && |v.anchorR| == |v.anchorT|
  {
    var m, n := Dist(v.anchorR, v.anchorT, v.R[q], v.T[u]), Dist(v.anchorR, v.anchorT, v.R[r], v.T[t]);
    || m < n
    || (m == n && (v.R[q].rva < v.R[r].rva || (v.R[q].rva == v.R[r].rva && (q < r || (q == r && u <= t)))))
  }

  /** q has u of its group to itself. */
  predicate HasToItself(g: Group, matches: map<nat, Match>, q: nat, u: nat) {
    q in g.rs && q in matches && matches[q].t == u && matches[q].note.Ambiguous? && !matches[q].note.shared
  }

  /** The j-th target of the group in address order is among those that r tries. */
  ghost predicate Tries(v: View, g: Group, r: nat, t: nat)
    requires r < |v.R| && |v.anchorR| == |v.anchorT|
  {
    var ts := Sort(g.ts, ByRva(v.T));
    AreIndices(ts, |v.T|) && exists j :: NearRange(v, ts, r).0 <= j < NearRange(v, ts, r).1 && t == ts[j]
  }

  /** Every pair that a group tries is assigned, or one of its ends is, in a pair that comes no later. */
  lemma GroupTakesNearest(v: View, g: Group, far: nat, matches: map<nat, Match>, r: nat, t: nat)
    requires IsResolved(v, g, far, matches) && r in g.rs && r < |v.R| && t < |v.T| && Tries(v, g, r, t)
    ensures exists q: nat, u: nat :: HasToItself(g, matches, q, u) && (q == r || u == t) && q < |v.R| && u < |v.T|
                           && NoFurther(v, q, u, r, t)
  {
    var ts := Sort(g.ts, ByRva(v.T));
    var ps :| AreNearProposals(v, g, ts, far, ps) && IsAssigned(v, g, ts, far, Winners(ps, {}, {}), matches);
    var d := Dist(v.anchorR, v.anchorT, v.R[r], v.T[t]);
    var p := Proposal(r, t, 1.0, GroupNote(g, false, d > far), false, d);
    assert IsNearProposal(v, g, ts, far, p);
    var q := NearWinner(v, ps, p);
    WinnersMatch(ps, {}, {});
    assert IsNearProposal(v, g, ts, far, q);
    assert HasToItself(g, matches, q.r, q.t);
  }

  /** What a function of a resolved group is matched to, and the note that it gets. */
  predicate IsNoted(v: View, g: Group, far: nat, matches: map<nat, Match>, r: nat)
    requires |v.anchorR| == |v.anchorT| && r < |v.R| && r in matches && matches[r].t < |v.T|
  {
    var d := Dist(v.anchorR, v.anchorT, v.R[r], v.T[matches[r].t]);
    matches[r].tier == A && matches[r].score == 1.0 && matches[r].note.Ambiguous?
    && matches[r].note == Ambiguous(|g.rs|, |g.ts|, matches[r].note.shared, d > far)
  }

  /** A function that shares gets a nearest target of the group, the first in address order of equally near ones. */
  lemma SharersTakeNearest(v: View, g: Group, far: nat, matches: map<nat, Match>, r: nat)
    requires IsResolved(v, g, far, matches) && r in g.rs && r < |v.R| && forall t :: t in g.ts ==> t < |v.T|
    ensures r in matches && matches[r].t in g.ts && IsNoted(v, g, far, matches, r)
    ensures matches[r].note.shared ==> forall t :: t in g.ts ==>
              var m := Dist(v.anchorR, v.anchorT, v.R[r], v.T[matches[r].t]);
              var n := Dist(v.anchorR, v.anchorT, v.R[r], v.T[t]);
              m < n || (m == n && v.T[matches[r].t].rva <= v.T[t].rva)
  {
    var ts := Sort(g.ts, ByRva(v.T));
    SortKeepsElements(g.ts, ByRva(v.T));
    SortSorts(g.ts, ByRva(v.T));
    var ps :| AreNearProposals(v, g, ts, far, ps) && IsAssigned(v, g, ts, far, Winners(ps, {}, {}), matches);
    WinnersMatch(ps, {}, {});
    if r in RsOf(Winners(ps, {}, {})) {
      var p :| p in Winners(ps, {}, {}) && p.r == r;
      assert IsNearProposal(v, g, ts, far, p);
    } else {
      assert SharesNearest(v, g, ts, far, r, matches);
      SharedNearest(v, g, ts, far, r, matches);
    }
  }

  lemma SharedNearest(v: View, g: Group, ts: seq<nat>, far: nat, r: nat, matches: map<nat, Match>)
    requires r < |v.R| && |v.anchorR| == |v.anchorT| && AreIndices(ts, |v.T|)
    requires SharesNearest(v, g, ts, far, r, matches) && SortedBy(ts, ByRva(v.T))
    ensures r in matches && matches[r].t in ts && IsNoted(v, g, far, matches, r) && matches[r].note.shared
    ensures forall t :: t in ts ==>
              var m := Dist(v.anchorR, v.anchorT, v.R[r], v.T[matches[r].t]);
              var n := Dist(v.anchorR, v.anchorT, v.R[r], v.T[t]);
              m < n || (m == n && v.T[matches[r].t].rva <= v.T[t].rva)
  {
    var j :| 0 <= j < |ts| && IsNearest(v, ts, r, j) && matches[r].t == ts[j];
    forall t | t in ts
      ensures var m := Dist(v.anchorR, v.anchorT, v.R[r], v.T[ts[j]]);
              var n := Dist(v.anchorR, v.anchorT, v.R[r], v.T[t]);
              m < n || (m == n && v.T[ts[j]].rva <= v.T[t].rva)
    {
      var l :| 0 <= l < |ts| && ts[l] == t;
    }
  }

  lemma NearWinner(v: View, ps: seq<Proposal>, p: Proposal) returns (q: Proposal)
    requires SortedBy(ps, (p, q) => NearestOrder(v.R, p, q)) && p in ps
    ensures q in Winners(ps, {}, {}) && (q == p || (NearestOrder(v.R, q, p) && (q.r == p.r || q.t == p.t)))
  {
    var k :| 0 <= k < |ps| && ps[k] == p;
    LosersAreBlocked(ps, k, {}, {});
    if p in Winners(ps, {}, {}) {
      q := p;
    } else {
      var l :| 0 <= l < k && ps[l] in Winners(ps, {}, {}) && (ps[l].r == ps[k].r || ps[l].t == ps[k].t);
      q := ps[l];
    }
  }

  // ----- tier C

  /** r shares strings with b, and with no target more. */
  ghost predicate IsBestTarget(v: View, r: nat, b: nat)
    requires r < |v.R|
  {
    && SharedStrings(v.R, v.T, r, b) != {}
    && forall t :: 0 <= t < |v.T| ==> |SharedStrings(v.R, v.T, r, t)| <= |SharedStrings(v.R, v.T, r, b)|
  }

  /** q shares more strings with b than r does, or as many and comes no later. */
  ghost predicate NoFewer(v: View, q: nat, r: nat, b: nat)
    requires q < |v.R| && r < |v.R|
  {
    var m, n := |SharedStrings(v.R, v.T, q, b)|, |SharedStrings(v.R, v.T, r, b)|;
    m > n || (m == n && q <= r)
  }

  /**
   Tier C: for every unmatched function with private strings a target with which it shares most was reserved
   before, or is matched now, to this function or to one that shares no fewer with it.
   */
  lemma StringsTakeMost(v: View, w: View, r: nat, t: nat)
    requires IsStringRound(v, w) && Unmatched(v, r) && SharedStrings(v.R, v.T, r, t) != {}
    ensures exists b :: IsBestTarget(v, r, b)
                        && (b in v.s.taken || exists q :: NewlyMatched(v, w, q, b) && NoFewer(v, q, r, b))
  {
    hide SharedStrings, Winners, AreStringsSorted, IsAccepted, IsStringProposal, MostStringsThenIndex;
    hide IsBestTarget, NoFewer;
    var ps, added :| AreStringsSorted(v, ps) && IsAccepted(v, w, ps, C, added);
    var p := ProposalOf(v, ps, r, t);
    StringsInOrder(v, ps);
    var q := StringWinner(v, ps, p);
    AllStringProposals(v, ps);
    BestOfProposal(v, p);
    if p.t !in v.s.taken {
      WinnerIsMatched(v, w, ps, C, added, q);
      BestOfProposal(v, q);
      FirstHasMost(v, q, p);
      assert NewlyMatched(v, w, q.r, q.t);
    }
  }

  lemma BestOfProposal(v: View, p: Proposal)
    requires IsStringProposal(v, p)
    ensures p.r < |v.R| && p.t < |v.T| && Unmatched(v, p.r) && IsBestTarget(v, p.r, p.t)
  {
  }

  lemma FirstHasMost(v: View, q: Proposal, p: Proposal)
    requires IsStringProposal(v, q) && IsStringProposal(v, p)
    requires q == p || (MostStringsThenIndex(q, p) && (q.r == p.r || q.t == p.t))
    ensures NoFewer(v, q.r, p.r, q.t)
  {
  }

  lemma AllStringProposals(v: View, ps: seq<Proposal>)
    requires AreStringsSorted(v, ps)
    ensures forall p :: p in ps ==> IsStringProposal(v, p)
  {
    var unsorted :| AreStringProposals(v, unsorted, |v.R|) && ps == Sort(unsorted, MostStringsFirst);
    SortKeepsElements(unsorted, MostStringsFirst);
  }

  lemma ProposalOf(v: View, ps: seq<Proposal>, r: nat, t: nat) returns (p: Proposal)
    requires AreStringsSorted(v, ps) && Unmatched(v, r) && SharedStrings(v.R, v.T, r, t) != {}
    ensures p in ps && p.r == r
  {
    var unsorted :| AreStringProposals(v, unsorted, |v.R|) && ps == Sort(unsorted, MostStringsFirst);
    SortKeepsElements(unsorted, MostStringsFirst);
    assert r in RsOf(unsorted);
    p :| p in unsorted && p.r == r;
  }

  lemma StringWinner(v: View, ps: seq<Proposal>, p: Proposal) returns (q: Proposal)
    requires SortedBy(ps, MostStringsThenIndex) && p in ps && Unmatched(v, p.r)
    ensures p.t in v.s.taken
         || (q in Winners(ps, v.s.matches.Keys, v.s.taken.Keys)
             && (q == p || (MostStringsThenIndex(q, p) && (q.r == p.r || q.t == p.t))))
  {
    var k :| 0 <= k < |ps| && ps[k] == p;
    LosersAreBlocked(ps, k, v.s.matches.Keys, v.s.taken.Keys);
    var won := Winners(ps, v.s.matches.Keys, v.s.taken.Keys);
    q := p;
    if p !in won && p.t !in v.s.taken {
      var l :| 0 <= l < k && ps[l] in won && (ps[l].r == ps[k].r || ps[l].t == ps[k].t);
      q := ps[l];
    }
  }
}
