/**
 The stateful matcher of tools/re/match_rotwk.py: tiers A to D over two binaries. Every method is
 proved against the snapshot predicates of Candidates, and keeps the dictionaries consistent.
 */
module BinaryMatcher {
  import opened Lcs
  import opened Lis
  import opened Matching
  import opened Options
  import opened Candidates
  import opened MatcherSteps
  import opened PyInt
  import opened Schedule
  import opened Sorting
  import opened StringVotes

  class Matcher {
    const R: seq<Feature>
    const T: seq<Feature>
    const sim: real
    const rIndex: map<int, nat>
    const tIndex: map<int, nat>
    var matches: map<nat, Match>
    var taken: map<nat, nat>
    var anchorR: seq<int>
    var anchorT: seq<int>
    var groups: seq<Group>

    constructor (R: seq<Feature>, T: seq<Feature>, sim: real)
      ensures Valid() && this.R == R && this.T == T && this.sim == sim
      ensures matches == map[] && taken == map[] && groups == []
    {
      var rIndex := BuildIndex(R);
      var tIndex := BuildIndex(T);
      this.R, this.T, this.sim, this.rIndex, this.tIndex := R, T, sim, rIndex, tIndex;
      matches, taken, anchorR, anchorT, groups := map[], map[], [], [], [];
    }

    ghost function Dicts(): State
      reads this
    {
      State(matches, taken)
    }

    ghost function Snapshot(): View
      reads this
    {
      View(R, T, Dicts(), anchorR, anchorT)
    }

    /** The part of the snapshot that the groups are resolved by: the anchors, not the dictionaries. */
    ghost function Links(): View
      reads this
    {
      View(R, T, State(map[], map[]), anchorR, anchorT)
    }

    ghost predicate Valid()
      reads this
    {
      && Indexes(R, rIndex) && Indexes(T, tIndex)
      && Consistent(R, T, Dicts())
      && |anchorR| == |anchorT|
    }

    method SetAccept(r: nat, m: Match)
      modifies `matches, `taken
      ensures Dicts() == Accept(old(Dicts()), r, m)
    {
      matches := matches[r := m];
      if !(m.tier == A && !Firm(m)) && m.t !in taken {
        taken := taken[m.t := r];
      }
    }

    method RebuildAnchors()
      requires Valid()
      modifies `anchorR, `anchorT
      ensures Valid() && AreAnchors(R, T, matches, anchorR, anchorT)
    {
      var pairs: seq<Pair> := [];
      for r := 0 to |R|
        invariant pairs == AnchorPairs(R, T, matches, r)
      {
        if r in matches && R[r].blk >= 16 && Firm(matches[r]) {
          pairs := pairs + [(R[r].rva, T[matches[r].t].rva)];
        }
      }
      var chain := LisPairs(Sort(pairs, PairLeq));
      anchorR, anchorT := Firsts(chain), Seconds(chain);
    }

    method ComputeScore(r: nat, t: nat) returns (score: real)
      requires r < |R| && t < |T|
      ensures score == Score(R[r], T[t])
    {
      var a, b := R[r].shape, T[t].shape;
      if |a| == 0 || |b| == 0 || Min(|a|, |b|) as real / Max(|a|, |b|) as real < 0.8 {
        return 0.0;
      }
      score := ComputeSimilarity(a, b);
    }

    // ----- tiers B and D

    method UnmatchedList() returns (s: seq<nat>)
      ensures AreIndices(s, |R|) && Distinct(s)
      ensures forall r: nat :: r in s <==> Unmatched(Snapshot(), r)
    {
      s := [];
      for r := 0 to |R|
        invariant AreIndices(s, r) && Distinct(s)
        invariant forall q: nat :: q in s <==> q < r && q !in matches
      {
        if r !in matches {
          s := s + [r];
        }
      }
    }

    method FreeList() returns (s: seq<nat>)
      ensures AreIndices(s, |T|) && Distinct(s)
      ensures forall t: nat :: t in s <==> Free(Snapshot(), t)
    {
      s := [];
      for t := 0 to |T|
        invariant AreIndices(s, t) && Distinct(s)
        invariant forall q: nat :: q in s <==> q < t && q !in taken
      {
        if t !in taken {
          s := s + [t];
        }
      }
    }

    method GapCandidates(unmatched: seq<nat>, window: nat, nearest: nat) returns (cands: set<(nat, nat)>)
      requires Valid() && AreIndices(unmatched, |R|)
      requires forall r: nat :: r in unmatched <==> Unmatched(Snapshot(), r)
      ensures forall r: nat, t: nat :: (r, t) in cands <==> IsGapCandidate(Snapshot(), window, nearest, r, t)
    {
      cands := {};
      for k := 0 to |unmatched|
        invariant forall r: nat, t: nat ::
                    (r, t) in cands <==> r in unmatched[..k] && IsGapCandidate(Snapshot(), window, nearest, r, t)
      {
        var r := unmatched[k];
        var range := TargetRange(View(R, T, State(matches, taken), anchorR, anchorT), r, window, nearest);
        ghost var before := cands;
        var t := range.0;
        while t < range.1
          invariant range.0 <= t <= range.1 || range.1 < range.0 == t
          invariant forall q: nat, u: nat ::
                      (q, u) in cands <==> (q, u) in before || (q == r && range.0 <= u < t && u !in taken)
          decreases range.1 - t
        {
          if t !in taken {
            cands := cands + {(r, t)};
          }
          t := t + 1;
        }
        assert unmatched[..k + 1] == unmatched[..k] + [r];
      }
      assert unmatched[..|unmatched|] == unmatched;
    }

    /** Callees at the same call index of matched functions. */
    method CalleeCandidates() returns (cands: set<(nat, nat)>)
      requires Valid()
      ensures forall r: nat, t: nat :: (r, t) in cands <==> IsCalleeCandidate(Snapshot(), r, t)
    {
      cands := {};
      for caller := 0 to |R|
        invariant forall r: nat, t: nat :: (r, t) in cands <==>
                    Unmatched(Snapshot(), r) && Free(Snapshot(), t)
                    && exists c: nat, k: nat :: c < caller && AreCallees(Snapshot(), c, k, r, t)
      {
        ghost var before := cands;
        if caller in matches {
          var more := CalleesOf(caller);
          cands := cands + more;
        }
      }
      assert forall c: nat, k: nat, r: nat, t: nat :: AreCallees(Snapshot(), c, k, r, t) ==> c < |R|;
    }

    method CalleesOf(caller: nat) returns (cands: set<(nat, nat)>)
      requires Valid() && caller in matches
      ensures forall r: nat, t: nat :: (r, t) in cands <==>
                Unmatched(Snapshot(), r) && Free(Snapshot(), t)
                  && exists k: nat :: AreCallees(Snapshot(), caller, k, r, t)
    {
      var cr, ct := R[caller].callees, T[matches[caller].t].callees;
      cands := {};
      if |cr| == |ct| {
        for k := 0 to |cr|
          invariant forall r: nat, t: nat :: (r, t) in cands <==>
                      Unmatched(Snapshot(), r) && Free(Snapshot(), t)
                      && exists l: nat :: l < k && AreCallees(Snapshot(), caller, l, r, t)
        {
          var ri, ti := Get(rIndex, cr[k]), Get(tIndex, ct[k]);
          assert forall r: nat, t: nat :: AreCallees(Snapshot(), caller, k, r, t) <==> ri == Some(r) && ti == Some(t);
          if ri.Some? && ti.Some? && ri.value !in matches && ti.value !in taken {
            cands := cands + {(ri.value, ti.value)};
          }
        }
      }
    }

    /** Pairs whose shape hash is unique among what is left on both sides. */
    method ShapeCandidates(unmatched: seq<nat>) returns (cands: set<(nat, nat)>)
      requires Valid() && AreIndices(unmatched, |R|) && Distinct(unmatched)
      requires forall r: nat :: r in unmatched <==> Unmatched(Snapshot(), r)
      ensures forall r: nat, t: nat :: (r, t) in cands <==> IsShapeCandidate(Snapshot(), r, t)
    {
      var free := FreeList();
      var sbT := GroupBy(free, Shashes(T));
      var sbR := GroupBy(unmatched, Shashes(R));
      cands := {};
      var hashes := sbR.Keys;
      while hashes != {}
        invariant hashes <= sbR.Keys && ShapesDone(Snapshot(), cands, sbR.Keys - hashes)
        decreases hashes
      {
        var h :| h in hashes;
        ShapesNext(Snapshot(), unmatched, free, cands, sbR.Keys - hashes, h);
        assert sbR.Keys - (hashes - {h}) == sbR.Keys - hashes + {h};
        hashes := hashes - {h};
        var rs, ts := sbR[h], if h in sbT then sbT[h] else [];
        if |rs| == 1 && |ts| == 1 && |R[rs[0]].shape| >= 8 {
          cands := cands + {(rs[0], ts[0])};
        }
      }
      forall r: nat, t: nat | IsShapeCandidate(Snapshot(), r, t) ensures R[r].shash in sbR.Keys {
        HavingElements(unmatched, Shashes(R), R[r].shash);
      }
    }

    /** Collect the candidates of a round. */
    method RoundCandidates(window: nat, nearest: nat, shapeHash: bool) returns (cands: set<(nat, nat)>)
      requires Valid()
      ensures forall r: nat, t: nat :: (r, t) in cands <==> IsCandidate(Snapshot(), window, nearest, shapeHash, r, t)
    {
      var unmatched := UnmatchedList();
      cands := GapCandidates(unmatched, window, nearest);
      var called := CalleeCandidates();
      cands := cands + called;
      if shapeHash {
        var shaped := ShapeCandidates(unmatched);
        cands := cands + shaped;
      }
    }

    /** Score the candidates, in whatever order the set yields them. */
    method ScoreCandidates(cands: set<(nat, nat)>, tier: Tier, floor: real) returns (ps: seq<Proposal>)
      requires Valid()
      requires forall c :: c in cands ==> c.0 < |R| && c.1 < |T|
      ensures forall p :: p in ps <==> (p.r, p.t) in cands && Propose(Snapshot(), tier, floor, p.r, p.t) == Some(p)
    {
      ps := [];
      var rest := cands;
      while rest != {}
        invariant rest <= cands
        invariant forall p :: p in ps <==>
                    (p.r, p.t) in cands - rest && Propose(Snapshot(), tier, floor, p.r, p.t) == Some(p)
        decreases rest
      {
        var c :| c in rest;
        rest := rest - {c};
        var (r, t) := c;
        var v := View(R, T, State(matches, taken), anchorR, anchorT);
        var score := ComputeScore(r, t);
        var paired := CalleesPaired(v, r, t);
        var dist := Dist(anchorR, anchorT, R[r], T[t]);
        if score >= floor {
          ps := ps + [Proposal(r, t, score, Similar, !paired, dist)];
        } else if tier == B && paired {
          ps := ps + [Proposal(r, t, if score > 0.0 then score else 0.0, CalleePattern, false, dist)];
        }
      }
    }

    /** The loop that accepts sorted proposals whose ends are both still free. */
    method AcceptInOrder(ps: seq<Proposal>, tier: Tier) returns (added: nat)
      requires Valid() && Proposable(R, T, ps) && tier != A
      modifies `matches, `taken
      ensures Valid()
      ensures var won := Winners(ps, old(matches.Keys), old(taken.Keys));
              Dicts() == AcceptAll(old(Dicts()), won, tier) && added == |won|
      ensures Extends(old(Dicts()), Dicts())
      ensures TierAStands(R, T, old(matches), groups) ==> TierAStands(R, T, matches, groups)
    {
      added := 0;
      ghost var usedR, usedT, start := matches.Keys, taken.Keys, Dicts();
      for k := 0 to |ps|
        invariant var won := Winners(ps[..k], usedR, usedT); Dicts() == AcceptAll(start, won, tier) && added == |won|
      {
        var p := ps[k];
        ghost var won := Winners(ps[..k], usedR, usedT);
        assert ps[..k + 1][..k] == ps[..k];
        WinnersMatch(ps[..k], usedR, usedT);
        AcceptAllEntries(start, won, tier);
        if p.r in matches || p.t in taken {
          continue;
        }
        assert (won + [p])[..|won|] == won;
        SetAccept(p.r, Match(p.t, tier, Thousandths(p.score), p.note));
        added := added + 1;
      }
      assert ps[..|ps|] == ps;
      WinnersMatch(ps, usedR, usedT);
      AcceptAllConsistent(R, T, start, Winners(ps, usedR, usedT), tier);
      if TierAStands(R, T, start.matches, groups) {
        TierAStaysAfter(R, T, start, groups, Winners(ps, usedR, usedT), tier);
      }
    }

    method RoundProposals(window: nat, nearest: nat, tier: Tier, floor: real, shapeHash: bool)
      returns (ps: seq<Proposal>)
      requires Valid()
      ensures SortedBy(ps, RoundOrder)
      ensures forall p :: p in ps <==> IsProposed(Snapshot(), window, nearest, tier, floor, shapeHash, p)
    {
      var cands := RoundCandidates(window, nearest, shapeHash);
      var scored := ScoreCandidates(cands, tier, floor);
      RoundOrderIsOrder();
      SortSorts(scored, RoundOrder);
      SortKeepsElements(scored, RoundOrder);
      ps := Sort(scored, RoundOrder);
    }

    method TierBRound(window: nat, nearest: nat, tier: Tier, floor: real, shapeHash: bool)
      returns (added: nat, ghost ps: seq<Proposal>)
      requires Valid() && tier != A
      modifies `matches, `taken, `anchorR, `anchorT
      ensures Valid() && AreAnchors(R, T, matches, anchorR, anchorT)
      ensures SortedBy(ps, RoundOrder)
      ensures forall p :: p in ps <==> IsProposed(old(Snapshot()), window, nearest, tier, floor, shapeHash, p)
      ensures var won := Winners(ps, old(matches.Keys), old(taken.Keys));
              Dicts() == AcceptAll(old(Dicts()), won, tier) && added == |won|
      ensures Extends(old(Dicts()), Dicts())
      ensures TierAStands(R, T, old(matches), groups) ==> TierAStands(R, T, matches, groups)
    {
      var sorted := RoundProposals(window, nearest, tier, floor, shapeHash);
      ps := sorted;
      added := AcceptInOrder(sorted, tier);
      RebuildAnchors();
    }


    // ----- tier C

    method StringProposal(r: nat, rs: map<string, set<nat>>, ts: map<string, set<nat>>) returns (p: Option<Proposal>)
      requires Valid() && Unmatched(Snapshot(), r)
      requires forall str :: OwnersIn(rs, str) == Owners(R, str)
      requires forall str :: OwnersIn(ts, str) == Owners(T, str)
      ensures p.Some? ==> p.value.r == r && IsStringProposal(Snapshot(), p.value)
      ensures p.None? ==> forall t: nat :: SharedStrings(R, T, r, t) == {}
    {
      var votes := CountVotes(R, T, r, rs, ts);
      if votes == map[] {
        return None;
      }
      var t := BestVote(votes);
      assert VotesFor(votes, t) == |SharedStrings(R, T, r, t)|;
      SharedTargetsExist(R, T, r, t);
      var score := ComputeScore(r, t);
      p := Some(Proposal(r, t, score, Strings(votes[t]), false, 0));
      BestIsProposal(Snapshot(), votes, p.value);
    }

    /** Every unmatched function with a vote proposes once, to a target with the most votes. */
    method StringProposals() returns (ps: seq<Proposal>)
      requires Valid()
      ensures AreStringProposals(Snapshot(), ps, |R|)
    {
      var rs := GatherOwners(R);
      var ts := GatherOwners(T);
      ps := [];
      for r := 0 to |R|
        invariant AreStringProposals(Snapshot(), ps, r)
      {
        var p: Option<Proposal> := None;
        if r !in matches {
          p := StringProposal(r, rs, ts);
        }
        StringProposalsNext(Snapshot(), ps, r, p);
        if p.Some? {
          ps := ps + [p.value];
        }
      }
    }

    /** Most strings first; the sort is stable. */
    method SortedStrings() returns (ps: seq<Proposal>)
      requires Valid()
      ensures AreStringsSorted(Snapshot(), ps) && SortedBy(ps, MostStringsThenIndex)
      ensures Proposable(R, T, ps)
    {
      var proposals := StringProposals();
      ps := Sort(proposals, MostStringsFirst);
      StringsInOrder(Snapshot(), ps);
      SortKeepsElements(proposals, MostStringsFirst);
    }

    method TierC() returns (added: nat, ghost ps: seq<Proposal>)
      requires Valid()
      modifies `matches, `taken, `anchorR, `anchorT
      ensures Valid() && AreAnchors(R, T, matches, anchorR, anchorT)
      ensures AreStringsSorted(old(Snapshot()), ps) && SortedBy(ps, MostStringsThenIndex)
      ensures var won := Winners(ps, old(matches.Keys), old(taken.Keys));
              Dicts() == AcceptAll(old(Dicts()), won, C) && added == |won|
      ensures Extends(old(Dicts()), Dicts())
      ensures TierAStands(R, T, old(matches), groups) ==> TierAStands(R, T, matches, groups)
    {
      hide AreStringsSorted, TierAStands;
      var sorted := SortedStrings();
      ps := sorted;
      added := AcceptInOrder(sorted, C);
      RebuildAnchors();
    }

    // ----- groups of identical functions

    method DropAmbiguous(rs: seq<nat>)
      requires Valid()
      requires forall r :: r in rs && r in matches ==> !Firm(matches[r])
      modifies `matches
      ensures Valid() && matches == old(matches) - (set r | r in rs)
    {
      for k := 0 to |rs|
        invariant matches == old(matches) - (set r | r in rs[..k])
      {
        assert rs[..k + 1] == rs[..k] + [rs[k]];
        if rs[k] in matches && !Firm(matches[rs[k]]) {
          matches := matches - {rs[k]};
        }
      }
      assert rs[..|rs|] == rs;
      DropAmbiguousKeeps(R, T, old(Dicts()), set r | r in rs);
    }

    method NearOf(g: Group, ts: seq<nat>, far: nat, r: nat) returns (ps: seq<Proposal>)
      requires Valid() && AreIndices(ts, |T|) && r in g.rs && r < |R|
      ensures forall p :: p in ps <==> p.r == r && IsNearProposal(Links(), g, ts, far, p)
    {
      var range := NearRange(View(R, T, State(map[], map[]), anchorR, anchorT), ts, r);
      ps := [];
      var j := range.0;
      while j < range.1
        invariant range.0 <= j
        invariant forall p :: p in ps <==> p.r == r && IsNearProposal(Links(), g, ts, far, p)
                                           && exists i :: range.0 <= i < j && i < range.1 && p.t == ts[i]
        decreases range.1 - j
      {
        var d := Dist(anchorR, anchorT, R[r], T[ts[j]]);
        ps := ps + [Proposal(r, ts[j], 1.0, GroupNote(g, false, d > far), false, d)];
        j := j + 1;
      }
    }

    method NearProposals(g: Group, ts: seq<nat>, far: nat) returns (ps: seq<Proposal>)
      requires Valid() && AreIndices(ts, |T|) && AreIndices(g.rs, |R|)
      ensures AreNearProposals(Links(), g, ts, far, ps)
    {
      var all: seq<Proposal> := [];
      for k := 0 to |g.rs|
        invariant forall p :: p in all <==> p.r in g.rs[..k] && IsNearProposal(Links(), g, ts, far, p)
      {
        assert g.rs[..k + 1] == g.rs[..k] + [g.rs[k]];
        var more := NearOf(g, ts, far, g.rs[k]);
        all := all + more;
      }
      assert g.rs[..|g.rs|] == g.rs;
      var leq := (p, q) => NearestOrder(R, p, q);
      NearestOrderIsOrder(R);
      SortSorts(all, leq);
      SortKeepsElements(all, leq);
      ps := Sort(all, leq);
    }

    /** Nearest first, while both ends are unused in this group. */
    method AssignNearest(ps: seq<Proposal>) returns (usedR: set<nat>)
      requires Valid()
      requires forall p :: p in ps ==> p.r < |R| && p.t < |T| && p.note.Ambiguous? && T[p.t].mhash == R[p.r].mhash
      requires forall p :: p in ps ==> p.r !in matches
      modifies `matches, `taken
      ensures Valid() && taken == old(taken)
      ensures usedR == RsOf(Winners(ps, {}, {})) && Overlaid(old(matches), Winners(ps, {}, {}), matches)
    {
      usedR := {};
      var usedT: set<nat> := {};
      for k := 0 to |ps|
        invariant Valid() && taken == old(taken)
        invariant var won := Winners(ps[..k], {}, {});
                  usedR == RsOf(won) && usedT == TsOf(won) && Overlaid(old(matches), won, matches)
      {
        var p := ps[k];
        ghost var won := Winners(ps[..k], {}, {});
        assert ps[..k + 1][..k] == ps[..k];
        assert {} + RsOf(won) == RsOf(won) && {} + TsOf(won) == TsOf(won);
        if p.r in usedR || p.t in usedT {
          continue;
        }
        EndsAppend(won, p);
        OverlayNext(old(matches), won, matches, p);
        AcceptAmbiguous(R, T, Dicts(), p.r, ToMatch(p, A));
        usedR, usedT := usedR + {p.r}, usedT + {p.t};
        SetAccept(p.r, Match(p.t, A, p.score, p.note));
      }
      assert ps[..|ps|] == ps;
    }

    method FindNearest(ts: seq<nat>, r: nat) returns (j: nat)
      requires Valid() && r < |R| && AreIndices(ts, |T|) && ts != []
      ensures j < |ts| && IsNearest(Links(), ts, r, j)
    {
      j := 0;
      for l := 1 to |ts|
        invariant j < l <= |ts|
        invariant forall i :: 0 <= i < l ==>
                    var here, there := Dist(anchorR, anchorT, R[r], T[ts[j]]), Dist(anchorR, anchorT, R[r], T[ts[i]]);
                    here <= there && (i < j ==> here < there)
      {
        if Dist(anchorR, anchorT, R[r], T[ts[l]]) < Dist(anchorR, anchorT, R[r], T[ts[j]]) {
          j := l;
        }
      }
    }

    /** The functions that found no target of their own share the nearest. */
    method ShareRest(g: Group, ts: seq<nat>, far: nat, used: set<nat>)
      requires Valid() && AreIndices(g.rs, |R|) && AreIndices(ts, |T|) && ts != []
      requires forall r, t :: r in g.rs && t in ts ==> r < |R| && t < |T| && T[t].mhash == R[r].mhash
      requires forall r :: r in g.rs && r in matches ==> !Firm(matches[r])
      modifies `matches, `taken
      ensures Valid() && taken == old(taken)
      ensures RestShares(Links(), g, ts, far, g.rs, used, old(matches), matches)
    {
      hide RestShares;
      RestSharesNone(Links(), g, ts, far, used, matches);
      for k := 0 to |g.rs|
        invariant Valid() && taken == old(taken)
        invariant forall r :: r in g.rs && r in matches ==> !Firm(matches[r])
        invariant RestShares(Links(), g, ts, far, g.rs[..k], used, old(matches), matches)
      {
        var r := g.rs[k];
        assert g.rs[..k + 1] == g.rs[..k] + [r];
        if r !in used {
          ShareOne(g, ts, far, g.rs[..k], used, r, old(matches));
        } else {
          RestSharesSkip(Links(), g, ts, far, g.rs[..k], used, old(matches), matches, r);
        }
      }
      assert g.rs[..|g.rs|] == g.rs;
    }

    method ShareOne(g: Group, ts: seq<nat>, far: nat, ghost rs: seq<nat>, ghost used: set<nat>, r: nat,
                    ghost before: map<nat, Match>)
      requires Valid() && AreIndices(rs, |R|) && AreIndices(ts, |T|) && ts != [] && r < |R|
      requires forall t :: t in ts ==> t < |T| && T[t].mhash == R[r].mhash
      requires r !in used && (r in matches ==> !Firm(matches[r]))
      requires RestShares(Links(), g, ts, far, rs, used, before, matches)
      modifies `matches, `taken
      ensures Valid() && taken == old(taken)
      ensures RestShares(Links(), g, ts, far, rs + [r], used, before, matches)
      ensures exists m :: matches == old(matches)[r := m] && !Firm(m)
    {
      var j := FindNearest(ts, r);
      assert IsNearest(Links(), ts, r, j);
      var d := Dist(anchorR, anchorT, R[r], T[ts[j]]);
      var m := Match(ts[j], A, 1.0, GroupNote(g, true, d > far));
      AcceptAmbiguous(R, T, Dicts(), r, m);
      assert SharesNearest(Links(), g, ts, far, r, matches[r := m]);
      RestSharesNext(Links(), g, ts, far, rs, used, before, matches, r, m);
      SetAccept(r, m);
    }

    method ResolveGroup(g: Group, far: nat, ghost h: string)
      requires Valid() && IsGroupOf(R, T, g, h)
      requires forall r :: r in g.rs && r in matches ==> !Firm(matches[r])
      modifies `matches, `taken
      ensures Valid() && taken == old(taken)
      ensures IsResolved(Links(), g, far, matches)
      ensures forall r :: r !in g.rs ==> Get(matches, r) == Get(old(matches), r)
    {
      hide RestShares, IsResolved;
      var ts := Sort(g.ts, ByRva(T));
      TargetsInOrder(R, T, g, h, ts);
      DropAmbiguous(g.rs);
      ghost var base := matches;
      var ps := NearProposals(g, ts, far);
      NearInGroup(Links(), g, ts, far, ps);
      var used := AssignNearest(ps);
      ghost var mid := matches;
      WinnersInside(ps, g);
      ShareRest(g, ts, far, used);
      GroupAssembled(Links(), g, ts, far, ps, base, mid, matches);
    }

    /** One turn of the loop over the groups. */
    method ResolveNext(i: nat, far: nat, ghost start: map<nat, Match>)
      requires Valid() && GroupsListed(R, T, groups) && i < |groups| && GroupsOpen(groups, matches)
      requires ResolvedUpTo(Links(), groups, i, far, start, matches)
      modifies `matches, `taken
      ensures Valid() && taken == old(taken) && GroupsOpen(groups, matches)
      ensures ResolvedUpTo(Links(), groups, i + 1, far, start, matches)
    {
      ghost var before := matches;
      ResolveGroup(groups[i], far, R[groups[i].rs[0]].mhash);
      ResolvedNext(Links(), groups, i, far, start, before, matches);
      GroupsStayOpen(Links(), groups, i, far, before, matches);
    }

    method ResolveAmbiguous(far: nat)
      requires Valid() && GroupsListed(R, T, groups) && GroupsOpen(groups, matches)
      modifies `matches, `taken, `anchorR, `anchorT
      ensures Valid() && taken == old(taken) && GroupsOpen(groups, matches)
      ensures ResolvedUpTo(old(Links()), groups, |groups|, far, old(matches), matches)
      ensures AreAnchors(R, T, matches, anchorR, anchorT)
    {
      for i := 0 to |groups|
        invariant Valid() && taken == old(taken) && Links() == old(Links()) && GroupsOpen(groups, matches)
        invariant ResolvedUpTo(Links(), groups, i, far, old(matches), matches)
      {
        ResolveNext(i, far, old(matches));
      }
      RebuildAnchors();
    }

    // ----- tier A

    /** The grouping half of tier A. */
    method MatchHashes() returns (ghost done: set<string>)
      requires Valid() && matches == map[] && taken == map[]
      modifies this
      ensures Valid() && HashesDone(R, T, Dicts(), groups, done)
      ensures forall r :: 0 <= r < |R| ==> R[r].mhash in done
    {
      var tb := GroupBy(AllIndices(|T|), Hashes(T));
      var rb := GroupBy(AllIndices(|R|), Hashes(R));
      groups := [];
      done := {};
      var hashes := rb.Keys;
      while hashes != {}
        invariant Valid() && hashes !! done && hashes + done == rb.Keys
        invariant HashesDone(R, T, Dicts(), groups, done)
        decreases hashes
      {
        var h :| h in hashes;
        MatchHash(h, rb[h], if h in tb then tb[h] else [], done);
        hashes, done := hashes - {h}, done + {h};
      }
      forall r | 0 <= r < |R| ensures R[r].mhash in done {
        HasOwnHash(R, r);
      }
    }

    method MatchHash(h: string, rs: seq<nat>, ts: seq<nat>, ghost done: set<string>)
      requires Valid() && HashesDone(R, T, Dicts(), groups, done) && h !in done
      requires rs == WithHash(R, h) && ts == WithHash(T, h) && rs != []
      modifies `matches, `taken, `groups
      ensures Valid() && HashesDone(R, T, Dicts(), groups, done + {h})
    {
      if ts == [] {
        HashesDoneOther(R, T, Dicts(), groups, done, h);
      } else if |rs| == 1 && |ts| == 1 {
        HashesDoneUnique(R, T, Dicts(), groups, done, h, rs[0], ts[0]);
        SetAccept(rs[0], Match(ts[0], A, 1.0, Unique));
      } else {
        HashesDoneOther(R, T, Dicts(), groups, done, h);
        groups := groups + [Group(rs, ts)];
      }
    }

    method TierA(far: nat)
      requires Valid() && matches == map[] && taken == map[]
      modifies this
      ensures Valid() && AreAnchors(R, T, matches, anchorR, anchorT)
      ensures TierAStands(R, T, matches, groups)
    {
      var done := MatchHashes();
      ghost var s := Dicts();
      RebuildAnchors();
      HashesDoneOpen(R, T, s, groups, done);
      ghost var v := Links();
      ResolveAmbiguous(far);
      forall r: nat | r < |R| ensures Fate(R, T, matches, groups, r) {
        FateSettled(v, s, groups, done, far, matches, r);
      }
    }

    // ----- the run

    /** One round of a phase, with the snapshots before and after. */
    method Round(tier: Tier, floor: real, shapeHash: bool) returns (added: nat)
      requires Valid() && tier != A && TierAStands(R, T, matches, groups)
      modifies `matches, `taken, `anchorR, `anchorT
      ensures Valid() && TierAStands(R, T, matches, groups) && Extends(old(Dicts()), Dicts())
      ensures RoundOf(tier, floor, shapeHash)(old(Snapshot()), Snapshot(), added)
    {
      ghost var v := Snapshot();
      ghost var ps: seq<Proposal>;
      added, ps := TierBRound(WINDOW, NEAREST, tier, floor, shapeHash);
      RoundTaken(v, Snapshot(), tier, floor, shapeHash, ps, added);
    }

    /** Up to six rounds of one phase, until a round adds nothing. */
    method Phase(tier: Tier, floor: real, shapeHash: bool, ghost before: seq<State>)
      returns (ghost trace: seq<State>, ghost views: seq<View>)
      requires Valid() && tier != A && TierAStands(R, T, matches, groups)
      requires IsRun(R, T, before) && before[|before| - 1] == Dicts()
      modifies `matches, `taken, `anchorR, `anchorT
      ensures Valid() && TierAStands(R, T, matches, groups)
      ensures IsRun(R, T, trace) && trace[|trace| - 1] == Dicts()
      ensures IsPhase(RoundOf(tier, floor, shapeHash), views)
      ensures views[0] == old(Snapshot()) && views[|views| - 1] == Snapshot()
      ensures trace == before + Later(views)
    {
      assert before != [];
      hide IsRun, TierAStands, IsPhase, AllAdd, Later, Valid;
      trace, views := before, [Snapshot()];
      for round := 0 to 6
        invariant Valid() && TierAStands(R, T, matches, groups)
        invariant trace != [] && IsRun(R, T, trace) && trace[|trace| - 1] == Dicts()
        invariant |views| == round + 1 && views[0] == old(Snapshot()) && views[round] == Snapshot()
        invariant AllAdd(RoundOf(tier, floor, shapeHash), views) && trace == before + Later(views)
      {
        var added := Round(tier, floor, shapeHash);
        PhaseGrows(RoundOf(tier, floor, shapeHash), views, Snapshot(), added);
        LaterGrows(before, views, Snapshot());
        RunGrows(R, T, trace, Dicts());
        trace, views := trace + [Dicts()], views + [Snapshot()];
        if added == 0 {
          break;
        }
      }
    }

    method StringPhase(ghost before: seq<State>) returns (ghost trace: seq<State>)
      requires Valid() && TierAStands(R, T, matches, groups)
      requires IsRun(R, T, before) && before[|before| - 1] == Dicts()
      modifies `matches, `taken, `anchorR, `anchorT
      ensures Valid() && TierAStands(R, T, matches, groups)
      ensures IsRun(R, T, trace) && trace[|trace| - 1] == Dicts()
      ensures IsStringRound(old(Snapshot()), Snapshot()) && trace == before + [Dicts()]
    {
      ghost var v := Snapshot();
      var added, ps := TierC();
      assert IsAccepted(v, Snapshot(), ps, C, added);
      RunGrows(R, T, before, Dicts());
      trace := before + [Dicts()];
    }

    /** The groups again, with the anchors that every tier added. */
    method LastPhase(far: nat, ghost before: seq<State>) returns (ghost trace: seq<State>)
      requires Valid() && TierAStands(R, T, matches, groups)
      requires IsRun(R, T, before) && before[|before| - 1] == Dicts()
      modifies `matches, `taken, `anchorR, `anchorT
      ensures Valid() && TierAStands(R, T, matches, groups)
      ensures IsRun(R, T, trace) && trace[|trace| - 1] == Dicts()
      ensures AreAnchors(R, T, matches, anchorR, anchorT)
      ensures ResolvedUpTo(old(Links()), groups, |groups|, far, old(matches), matches) && taken == old(taken)
      ensures trace == before + [Dicts()]
    {
      ghost var s := Dicts();
      StandingGroupsAreOpen(R, T, matches, groups);
      ResolveAmbiguous(far);
      TierAStaysResolved(old(Links()), s.matches, groups, far, matches);
      ResolvedExtends(old(Links()), s, groups, far, matches);
      RunGrows(R, T, before, Dicts());
      trace := before + [Dicts()];
    }

    /** Tier A on the freshly built matcher. */
    method Opening(far: nat) returns (ghost trace: seq<State>)
      requires Valid() && matches == map[] && taken == map[]
      modifies this
      ensures Valid() && TierAStands(R, T, matches, groups) && AreAnchors(R, T, matches, anchorR, anchorT)
      ensures IsRun(R, T, trace) && trace == [State(map[], map[]), Dicts()]
    {
      trace := [Dicts()];
      TierA(far);
      RunGrows(R, T, trace, Dicts());
      trace := trace + [Dicts()];
    }

    method Early(ghost before: seq<State>) returns (ghost trace: seq<State>, ghost b1: seq<View>)
      requires Valid() && TierAStands(R, T, matches, groups)
      requires IsRun(R, T, before) && before[|before| - 1] == Dicts()
      modifies `matches, `taken, `anchorR, `anchorT
      ensures Valid() && TierAStands(R, T, matches, groups)
      ensures IsRun(R, T, trace) && trace[|trace| - 1] == Dicts()
      ensures IsEarly(old(Snapshot()), b1, Snapshot(), sim) && trace == before + Later(b1) + [Dicts()]
    {
      trace, b1 := Phase(B, sim, true, before);
      trace := StringPhase(trace);
    }

    method Late(diverged: real, ghost before: seq<State>)
      returns (ghost trace: seq<State>, ghost b2: seq<View>, ghost d: seq<View>)
      requires Valid() && TierAStands(R, T, matches, groups)
      requires IsRun(R, T, before) && before[|before| - 1] == Dicts()
      modifies `matches, `taken, `anchorR, `anchorT
      ensures Valid() && TierAStands(R, T, matches, groups)
      ensures IsRun(R, T, trace) && trace[|trace| - 1] == Dicts()
      ensures IsLate(old(Snapshot()), b2, d, Snapshot(), sim, diverged) && trace == before + Later(b2) + Later(d)
    {
      trace, b2 := Phase(B, sim, true, before);
      trace, d := Phase(D, diverged, false, trace);
    }

    /** The phases between the two resolutions of the groups. */
    method Middle(diverged: real, ghost before: seq<State>) returns (ghost trace: seq<State>, ghost phases: Phases)
      requires Valid() && TierAStands(R, T, matches, groups)
      requires IsRun(R, T, before) && before == [State(map[], map[]), Dicts()]
      modifies `matches, `taken, `anchorR, `anchorT
      ensures Valid() && TierAStands(R, T, matches, groups)
      ensures IsRun(R, T, trace) && trace[|trace| - 1] == Dicts()
      ensures IsSchedule(phases, sim, diverged) && phases.first == old(Snapshot()) && phases.last == Snapshot()
      ensures trace == TraceOf(phases)
    {
      ghost var first := Snapshot();
      ghost var b1, b2, d: seq<View>;
      trace, b1 := Early(before);
      ghost var c := Snapshot();
      trace, b2, d := Late(diverged, trace);
      phases := Phases(first, b1, c, b2, d, Snapshot());
      TraceJoins(phases);
    }

    /**
     A whole run, from the freshly built matcher to the final dictionaries: tier A, the phases of the
     schedule, and the groups resolved once more with the anchors that these left behind.
     */
    method Run(diverged: real) returns (ghost trace: seq<State>, ghost phases: Phases)
      requires Valid() && matches == map[] && taken == map[]
      modifies this
      ensures Valid() && IsRun(R, T, trace)
      ensures phases.first.R == R && phases.first.T == T && TierAStands(R, T, phases.first.s.matches, groups)
      ensures AreAnchors(R, T, phases.first.s.matches, phases.first.anchorR, phases.first.anchorT)
      ensures IsSchedule(phases, sim, diverged) && trace == TraceOf(phases) + [Dicts()]
      ensures TierAStands(R, T, matches, groups) && AreAnchors(R, T, matches, anchorR, anchorT)
      ensures taken == phases.last.s.taken
      ensures ResolvedUpTo(LinksOf(phases.last), groups, |groups|, 0x4000, phases.last.s.matches, matches)
    {
      hide IsRun, TierAStands, AreAnchors, IsSchedule, ResolvedUpTo, TraceOf, Valid;
      trace := Opening(0x4000);
      trace, phases := Middle(diverged, trace);
      trace := LastPhase(0x4000, trace);
    }
  }
}
