/** What the rounds of a run of the matcher are, as steps from view to view. */
module Schedule {
  import opened Matching
  import opened Options
  import opened Candidates
  import opened Lcs
  import opened MatcherSteps
  import opened Sorting

  const WINDOW: nat := 40
  const NEAREST: nat := 6
  const ROUNDS: nat := 6

  /** The proposals of a round, best first. */
  ghost predicate AreRoundProposals(v: View, tier: Tier, floor: real, shapeHash: bool, ps: seq<Proposal>) {
    && |v.anchorR| == |v.anchorT|
    && SortedBy(ps, RoundOrder)
    && (forall p :: p in ps <==> IsProposed(v, WINDOW, NEAREST, tier, floor, shapeHash, p))
  }

  /** The proposals that win are accepted, and the anchors rebuilt. */
  ghost predicate IsAccepted(v: View, w: View, ps: seq<Proposal>, tier: Tier, added: nat) {
    var won := Winners(ps, v.s.matches.Keys, v.s.taken.Keys);
    && w.R == v.R && w.T == v.T
    && w.s == AcceptAll(v.s, won, tier) && added == |won|
    && AreAnchors(w.R, w.T, w.s.matches, w.anchorR, w.anchorT)
  }

  /** One round of tier B or D takes v to w. */
  ghost predicate IsRound(v: View, w: View, tier: Tier, floor: real, shapeHash: bool, added: nat) {
    exists ps :: AreRoundProposals(v, tier, floor, shapeHash, ps) && IsAccepted(v, w, ps, tier, added)
  }

  /**
   The pair of q and u is no worse than that of r and t: a higher score; at equal scores paired callees;
   failing that a target no further from the prediction; and at the same distance no later function.
   */
  ghost predicate NoWorse(v: View, q: nat, u: nat, r: nat, t: nat)
    requires q < |v.R| && u < |v.T| && r < |v.R| && t < |v.T| && |v.anchorR| == |v.anchorT|
  {
    var s, z := Score(v.R[q], v.T[u]), Score(v.R[r], v.T[t]);
    var c, d := CalleesPaired(v, q, u), CalleesPaired(v, r, t);
    var m, n := Dist(v.anchorR, v.anchorT, v.R[q], v.T[u]), Dist(v.anchorR, v.anchorT, v.R[r], v.T[t]);
    s > z || (s == z && ((c && !d) || (c == d && (m < n || (m == n && q <= r)))))
  }

  /** Good enough for a round: by its score, or in tier B by its callees. */
  ghost predicate IsGood(v: View, tier: Tier, floor: real, r: nat, t: nat)
    requires r < |v.R| && t < |v.T|
  {
    Score(v.R[r], v.T[t]) >= floor || (tier == B && CalleesPaired(v, r, t))
  }

  /** The round that takes v to w has matched q to u. */
  predicate NewlyMatched(v: View, w: View, q: nat, u: nat) {
    q < |v.R| && u < |v.T| && q !in v.s.matches && q in w.s.matches && w.s.matches[q].t == u
  }

  /** Every good candidate pair is matched by the round, or one of its ends is, in a pair no worse. */
  lemma RoundTakesBest(v: View, w: View, tier: Tier, floor: real, shapeHash: bool, added: nat, r: nat, t: nat)
    requires tier != A && IsRound(v, w, tier, floor, shapeHash, added) && |v.anchorR| == |v.anchorT|
    requires IsCandidate(v, WINDOW, NEAREST, shapeHash, r, t) && r < |v.R| && t < |v.T| && IsGood(v, tier, floor, r, t)
    ensures exists q, u :: NewlyMatched(v, w, q, u) && (q == r || u == t) && NoWorse(v, q, u, r, t)
  {
    hide IsProposed, Propose, IsCandidate, IsGood, NoWorse, RoundOrder, Winners, AcceptAll, Score, Dist, CalleesPaired;
    var ps :| AreRoundProposals(v, tier, floor, shapeHash, ps) && IsAccepted(v, w, ps, tier, added);
    var p := GoodIsProposed(v, tier, floor, shapeHash, r, t);
    var q := WinnerBeside(v, ps, p);
    WinnerIsMatched(v, w, ps, tier, added, q);
    ProposedPair(v, tier, floor, shapeHash, q);
    FirstIsNoWorse(v, tier, floor, q, p);
    assert NewlyMatched(v, w, q.r, q.t);
  }

  lemma ProposedPair(v: View, tier: Tier, floor: real, shapeHash: bool, q: Proposal)
    requires |v.anchorR| == |v.anchorT| && IsProposed(v, WINDOW, NEAREST, tier, floor, shapeHash, q)
    ensures q.r < |v.R| && q.t < |v.T| && Propose(v, tier, floor, q.r, q.t) == Some(q)
  {
  }

  lemma WinnerBeside(v: View, ps: seq<Proposal>, p: Proposal) returns (q: Proposal)
    requires SortedBy(ps, RoundOrder) && p in ps && Unmatched(v, p.r) && Free(v, p.t)
    ensures q in Winners(ps, v.s.matches.Keys, v.s.taken.Keys)
    ensures q == p || (RoundOrder(q, p) && (q.r == p.r || q.t == p.t))
  {
    RoundIsGreedy(v, ps, p);
    var won := Winners(ps, v.s.matches.Keys, v.s.taken.Keys);
    if p in won {
      q := p;
    } else {
      q :| q in won && RoundOrder(q, p) && (q.r == p.r || q.t == p.t);
    }
  }

  lemma GoodIsProposed(v: View, tier: Tier, floor: real, shapeHash: bool, r: nat, t: nat) returns (p: Proposal)
    requires |v.anchorR| == |v.anchorT| && r < |v.R| && t < |v.T|
    requires IsCandidate(v, WINDOW, NEAREST, shapeHash, r, t) && IsGood(v, tier, floor, r, t)
    ensures IsProposed(v, WINDOW, NEAREST, tier, floor, shapeHash, p) && p.r == r && p.t == t
    ensures Unmatched(v, r) && Free(v, t)
  {
    p := Propose(v, tier, floor, r, t).value;
  }

  lemma WinnerIsMatched(v: View, w: View, ps: seq<Proposal>, tier: Tier, added: nat, q: Proposal)
    requires tier != A && IsAccepted(v, w, ps, tier, added)
    requires q in Winners(ps, v.s.matches.Keys, v.s.taken.Keys)
    ensures q in ps && q.r !in v.s.matches && q.r in w.s.matches && w.s.matches[q.r].t == q.t
    ensures w.R == v.R && w.T == v.T
  {
    var won := Winners(ps, v.s.matches.Keys, v.s.taken.Keys);
    WinnersMatch(ps, v.s.matches.Keys, v.s.taken.Keys);
    AcceptAllEntries(v.s, won, tier);
  }

  lemma FirstIsNoWorse(v: View, tier: Tier, floor: real, q: Proposal, p: Proposal)
    requires q.r < |v.R| && q.t < |v.T| && p.r < |v.R| && p.t < |v.T| && |v.anchorR| == |v.anchorT|
    requires Propose(v, tier, floor, q.r, q.t) == Some(q) && Propose(v, tier, floor, p.r, p.t) == Some(p)
    requires q == p || RoundOrder(q, p)
    ensures NoWorse(v, q.r, q.t, p.r, p.t)
  {
    ProposalKeys(v, tier, floor, q);
    ProposalKeys(v, tier, floor, p);
  }

  /** A proposal carries the keys of its pair. */
  lemma ProposalKeys(v: View, tier: Tier, floor: real, p: Proposal)
    requires p.r < |v.R| && p.t < |v.T| && |v.anchorR| == |v.anchorT|
    requires Propose(v, tier, floor, p.r, p.t) == Some(p)
    ensures p.score == Score(v.R[p.r], v.T[p.t]) && p.late == !CalleesPaired(v, p.r, p.t)
    ensures p.distance == Dist(v.anchorR, v.anchorT, v.R[p.r], v.T[p.t])
  {
    SimilarityIsAScore(v.R[p.r].shape, v.T[p.t].shape);
  }

  /** A kind of round: from one view to the next, with the number of matches that it adds. */
  type Step = (View, View, nat) -> bool

  ghost function RoundOf(tier: Tier, floor: real, shapeHash: bool): Step {
    (v: View, w: View, added: nat) => IsRound(v, w, tier, floor, shapeHash, added)
  }

  ghost predicate Adds(step: Step, v: View, w: View) {
    exists added: nat :: added > 0 && step(v, w, added)
  }

  ghost predicate AllAdd(step: Step, vs: seq<View>) {
    forall k :: 0 < k < |vs| ==> Adds(step, vs[k - 1], vs[k])
  }

  /** Rounds until one adds nothing, six at most. */
  ghost predicate IsPhase(step: Step, vs: seq<View>) {
    vs != [] && var n := |vs| - 1;
    || (n == ROUNDS && AllAdd(step, vs))
    || (1 <= n <= ROUNDS && AllAdd(step, vs[..n]) && step(vs[n - 1], vs[n], 0))
  }

  /** The proposals of tier C, most strings first. */
  ghost predicate AreStringsSorted(v: View, ps: seq<Proposal>) {
    exists unsorted :: AreStringProposals(v, unsorted, |v.R|) && ps == Sort(unsorted, MostStringsFirst)
  }

  /** The sort is stable, so equal counts come in the order of the functions. */
  lemma StringsInOrder(v: View, ps: seq<Proposal>)
    requires AreStringsSorted(v, ps)
    ensures SortedBy(ps, MostStringsThenIndex)
  {
    var unsorted :| AreStringProposals(v, unsorted, |v.R|) && ps == Sort(unsorted, MostStringsFirst);
    SortSorts(unsorted, MostStringsFirst);
    SortIsStable(unsorted, MostStringsFirst, (p: Proposal, q: Proposal) => p.r < q.r);
  }

  ghost predicate IsStringRound(v: View, w: View) {
    exists ps, added :: AreStringsSorted(v, ps) && IsAccepted(v, w, ps, C, added)
  }

  /** The views of a run between its two resolutions of the groups: first and last, and those of the phases. */
  datatype Phases = Phases(first: View, b1: seq<View>, c: View, b2: seq<View>, d: seq<View>, last: View)

  /** Rounds of tier B, then tier C. */
  ghost predicate IsEarly(first: View, b1: seq<View>, c: View, sim: real) {
    && b1 != [] && b1[0] == first && IsPhase(RoundOf(B, sim, true), b1)
    && IsStringRound(b1[|b1| - 1], c)
  }

  /** Rounds of tier B again, then of tier D. */
  ghost predicate IsLate(c: View, b2: seq<View>, d: seq<View>, last: View, sim: real, diverged: real) {
    && b2 != [] && b2[0] == c && IsPhase(RoundOf(B, sim, true), b2)
    && d != [] && d[0] == b2[|b2| - 1] && IsPhase(RoundOf(D, diverged, false), d) && d[|d| - 1] == last
  }

  /** All phases, each from where the one before ended. */
  ghost predicate IsSchedule(p: Phases, sim: real, diverged: real) {
    IsEarly(p.first, p.b1, p.c, sim) && IsLate(p.c, p.b2, p.d, p.last, sim, diverged)
  }

  lemma RoundTaken(v: View, w: View, tier: Tier, floor: real, shapeHash: bool, ps: seq<Proposal>, added: nat)
    requires AreRoundProposals(v, tier, floor, shapeHash, ps) && IsAccepted(v, w, ps, tier, added)
    ensures RoundOf(tier, floor, shapeHash)(v, w, added)
  {
    assert IsRound(v, w, tier, floor, shapeHash, added);
  }

  lemma PhaseGrows(step: Step, vs: seq<View>, w: View, added: nat)
    requires 1 <= |vs| <= ROUNDS && AllAdd(step, vs) && step(vs[|vs| - 1], w, added)
    ensures added == 0 ==> IsPhase(step, vs + [w])
    ensures added > 0 ==> AllAdd(step, vs + [w])
  {
    var more := vs + [w];
    assert more[..|vs|] == vs;
    if added > 0 {
      assert Adds(step, vs[|vs| - 1], w);
      forall k | 0 < k < |more| ensures Adds(step, more[k - 1], more[k]) {
        assert k < |vs| ==> more[k - 1] == vs[k - 1] && more[k] == vs[k];
      }
    }
  }

  /** The part of a view that the groups are resolved by. */
  ghost function LinksOf(v: View): View {
    v.(s := State(map[], map[]))
  }

  // ----- the dictionaries along a run

  function StatesOf(vs: seq<View>): (ss: seq<State>)
    ensures |ss| == |vs| && forall k :: 0 <= k < |vs| ==> ss[k] == vs[k].s
  {
    if vs == [] then [] else StatesOf(vs[..|vs| - 1]) + [vs[|vs| - 1].s]
  }

  /** The dictionaries of a phase, behind those of its start. */
  function Later(vs: seq<View>): seq<State>
    requires vs != []
  {
    StatesOf(vs[1..])
  }

  lemma LaterGrows(before: seq<State>, vs: seq<View>, w: View)
    requires vs != []
    ensures before + Later(vs + [w]) == (before + Later(vs)) + [w.s]
  {
    assert (vs + [w])[1..] == vs[1..] + [w];
  }

  /** The empty dictionaries, those after tier A, and those after every round. */
  ghost function TraceOf(p: Phases): seq<State>
    requires p.b1 != [] && p.b2 != [] && p.d != []
  {
    [State(map[], map[]), p.first.s] + Later(p.b1) + [p.c.s] + Later(p.b2) + Later(p.d)
  }

  lemma TraceJoins(p: Phases)
    requires p.b1 != [] && p.b2 != [] && p.d != []
    ensures (([State(map[], map[]), p.first.s] + Later(p.b1) + [p.c.s]) + Later(p.b2)) + Later(p.d) == TraceOf(p)
  {
  }

  ghost predicate AreConsistent(R: seq<Feature>, T: seq<Feature>, vs: seq<View>) {
    forall k :: 0 <= k < |vs| ==> Consistent(R, T, vs[k].s)
  }

  ghost predicate AllConsistent(R: seq<Feature>, T: seq<Feature>, trace: seq<State>) {
    forall s :: s in trace ==> Consistent(R, T, s)
  }

  lemma RunIsConsistent(R: seq<Feature>, T: seq<Feature>, trace: seq<State>)
    requires IsRun(R, T, trace)
    ensures AllConsistent(R, T, trace)
  {
    forall s | s in trace ensures Consistent(R, T, s) {
      var i :| 0 <= i < |trace| && trace[i] == s;
      RunExtends(R, T, trace, i, i);
    }
  }

  lemma PhaseIsConsistent(R: seq<Feature>, T: seq<Feature>, vs: seq<View>, trace: seq<State>)
    requires AllConsistent(R, T, trace) && vs != [] && vs[0].s in trace
    requires forall s :: s in Later(vs) ==> s in trace
    ensures AreConsistent(R, T, vs)
  {
    forall k | 0 <= k < |vs| ensures vs[k].s in trace {
      if k > 0 {
        assert Later(vs)[k - 1] == vs[1..][k - 1].s;
        assert Later(vs)[k - 1] in Later(vs);
      }
    }
  }

  lemma TraceHolds(p: Phases)
    requires p.b1 != [] && p.b2 != [] && p.d != []
    ensures p.first.s in TraceOf(p) && p.c.s in TraceOf(p)
    ensures forall s :: s in Later(p.b1) || s in Later(p.b2) || s in Later(p.d) ==> s in TraceOf(p)
    ensures |p.b2| > 1 ==> p.b2[|p.b2| - 1].s in TraceOf(p)
  {
    assert [State(map[], map[]), p.first.s][1] == p.first.s;
    if |p.b2| > 1 {
      assert Later(p.b2)[|p.b2| - 2] == p.b2[|p.b2| - 1].s;
      assert Later(p.b2)[|p.b2| - 2] in Later(p.b2);
    }
  }

  /** Every view of a run's phases is consistent. */
  lemma ViewsAreConsistent(R: seq<Feature>, T: seq<Feature>, p: Phases, trace: seq<State>, s: State)
    requires p.b1 != [] && p.b2 != [] && p.d != [] && p.b1[0] == p.first && p.b2[0] == p.c && p.d[0] == p.b2[|p.b2| - 1]
    requires IsRun(R, T, trace) && trace == TraceOf(p) + [s]
    ensures Consistent(R, T, s) && AreConsistent(R, T, p.b1) && AreConsistent(R, T, p.b2) && AreConsistent(R, T, p.d)
  {
    RunIsConsistent(R, T, trace);
    TraceHolds(p);
    assert s in trace;
    PhaseIsConsistent(R, T, p.b1, trace);
    PhaseIsConsistent(R, T, p.b2, trace);
    PhaseIsConsistent(R, T, p.d, trace);
  }
}
