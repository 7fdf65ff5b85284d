/**
 The steps of the binary matcher (tools/re/match_rotwk.py) that need no object: building its index
 tables, and the lemmas that carry the snapshot predicates over one step.
 */
module MatcherSteps {
  import opened Matching
  import opened Options
  import opened Candidates
  import opened Sorting
  import opened StringVotes

  method BuildIndex(F: seq<Feature>) returns (index: map<int, nat>)
    ensures Indexes(F, index)
  {
    index := map[];
    for i := 0 to |F|
      invariant Indexes(F[..i], index)
    {
      assert F[..i + 1][..i] == F[..i];
      index := index[F[i].rva := i];
    }
    assert F[..|F|] == F;
  }

  /** The dictionary of lists that the tool builds to group functions by a hash. */
  method GroupBy(chosen: seq<nat>, hashes: seq<string>) returns (groups: map<string, seq<nat>>)
    requires AreIndices(chosen, |hashes|)
    ensures forall h :: (if h in groups then groups[h] else []) == Having(chosen, hashes, h)
    ensures forall h :: h in groups ==> groups[h] != []
  {
    groups := map[];
    for k := 0 to |chosen|
      invariant forall h :: (if h in groups then groups[h] else []) == Having(chosen[..k], hashes, h)
      invariant forall h :: h in groups ==> groups[h] != []
    {
      assert chosen[..k + 1][..k] == chosen[..k];
      var h := hashes[chosen[k]];
      groups := groups[h := (if h in groups then groups[h] else []) + [chosen[k]]];
    }
    assert chosen[..|chosen|] == chosen;
  }

  function Shashes(F: seq<Feature>): (s: seq<string>)
    ensures |s| == |F| && forall i :: 0 <= i < |F| ==> s[i] == F[i].shash
  {
    if F == [] then [] else Shashes(F[..|F| - 1]) + [F[|F| - 1].shash]
  }

  lemma OnlyElement(s: seq<nat>, i: nat)
    requires Distinct(s) && i in s && forall k :: 0 <= k < |s| ==> s[k] == i
    ensures s == [i]
  {
    assert s[0] == s[|s| - 1];
  }

  /** Two lists of length one are the shape candidates with hash h. */
  lemma OnlyOnes(v: View, unmatched: seq<nat>, free: seq<nat>, h: string, r: nat, t: nat)
    requires AreIndices(unmatched, |v.R|) && Distinct(unmatched) && AreIndices(free, |v.T|) && Distinct(free)
    requires forall r: nat :: r in unmatched <==> Unmatched(v, r)
    requires forall t: nat :: t in free <==> Free(v, t)
    ensures var rs, ts := Having(unmatched, Shashes(v.R), h), Having(free, Shashes(v.T), h);
            IsShapeCandidate(v, r, t) && v.R[r].shash == h <==>
              rs == [r] && ts == [t] && r < |v.R| && |v.R[r].shape| >= 8
  {
    var rs, ts := Having(unmatched, Shashes(v.R), h), Having(free, Shashes(v.T), h);
    HavingElements(unmatched, Shashes(v.R), h);
    HavingElements(free, Shashes(v.T), h);
    if IsShapeCandidate(v, r, t) && v.R[r].shash == h {
      HavingDistinct(unmatched, Shashes(v.R), h);
      HavingDistinct(free, Shashes(v.T), h);
      forall k | 0 <= k < |rs| ensures rs[k] == r {
        assert rs[k] in rs;
      }
      forall k | 0 <= k < |ts| ensures ts[k] == t {
        assert ts[k] in ts;
      }
      OnlyElement(rs, r);
      OnlyElement(ts, t);
    }
    if rs == [r] && ts == [t] && r < |v.R| && |v.R[r].shape| >= 8 {
      assert r in rs && t in ts;
      assert forall r': nat :: Unmatched(v, r') && v.R[r'].shash == h ==> r' in rs;
      assert forall t': nat :: Free(v, t') && v.T[t'].shash == h ==> t' in ts;
    }
  }

  /** One proposal for every unmatched function below n that shares a private string, in their order. */
  ghost predicate AreStringProposals(v: View, ps: seq<Proposal>, n: nat) {
    ProposedBelow(v, ps, n) && AllProposed(v, ps, n) && Ascending(ps)
  }

  ghost predicate ProposedBelow(v: View, ps: seq<Proposal>, n: nat) {
    forall p :: p in ps ==> p.r < n && IsStringProposal(v, p)
  }

  ghost predicate AllProposed(v: View, ps: seq<Proposal>, n: nat) {
    forall r: nat, t: nat :: r < n && Unmatched(v, r) && SharedStrings(v.R, v.T, r, t) != {} ==> r in RsOf(ps)
  }

  ghost predicate Ascending(ps: seq<Proposal>) {
    forall i, j :: 0 <= i < j < |ps| ==> ps[i].r < ps[j].r
  }

  lemma StringProposalsNext(v: View, ps: seq<Proposal>, r: nat, p: Option<Proposal>)
    requires AreStringProposals(v, ps, r)
    requires p.Some? ==> p.value.r == r && IsStringProposal(v, p.value)
    requires p.None? && Unmatched(v, r) ==> forall t: nat :: SharedStrings(v.R, v.T, r, t) == {}
    ensures AreStringProposals(v, if p.Some? then ps + [p.value] else ps, r + 1)
  {
    if p.Some? {
      StringProposalAdded(v, ps, r, p.value);
    }
  }

  lemma StringProposalAdded(v: View, ps: seq<Proposal>, r: nat, p: Proposal)
    requires AreStringProposals(v, ps, r) && p.r == r && IsStringProposal(v, p)
    ensures AreStringProposals(v, ps + [p], r + 1)
  {
    ProposedBelowNext(v, ps, r, p);
    AllProposedNext(v, ps, r, p);
    AscendingNext(v, ps, r, p);
  }

  lemma ProposedBelowNext(v: View, ps: seq<Proposal>, r: nat, p: Proposal)
    requires ProposedBelow(v, ps, r) && p.r == r && IsStringProposal(v, p)
    ensures ProposedBelow(v, ps + [p], r + 1)
  {
    forall q | q in ps + [p] ensures q.r < r + 1 && IsStringProposal(v, q) {
      if q != p {
        assert q in ps;
      }
    }
  }

  lemma AllProposedNext(v: View, ps: seq<Proposal>, r: nat, p: Proposal)
    requires AllProposed(v, ps, r) && p.r == r
    ensures AllProposed(v, ps + [p], r + 1)
  {
    EndsAppend(ps, p);
  }

  /** A proposal for a later function goes to the end. */
  lemma AscendingNext(v: View, ps: seq<Proposal>, r: nat, p: Proposal)
    requires ProposedBelow(v, ps, r) && Ascending(ps) && p.r == r
    ensures Ascending(ps + [p])
  {
    forall i | 0 <= i < |ps| ensures ps[i].r < r {
      assert ps[i] in ps;
    }
  }

  // ----- lemmas for the groups

  lemma DropAmbiguousKeeps(R: seq<Feature>, T: seq<Feature>, s: State, rs: set<nat>)
    requires Consistent(R, T, s)
    requires forall r :: r in rs && r in s.matches ==> !Firm(s.matches[r])
    ensures Consistent(R, T, State(s.matches - rs, s.taken))
  {
  }

  /** A proposal that wins in a group, put over the matches that were there. */
  lemma OverlayNext(base: map<nat, Match>, won: seq<Proposal>, matches: map<nat, Match>, p: Proposal)
    requires Overlaid(base, won, matches) && p.r !in RsOf(won)
    ensures Overlaid(base, won + [p], matches[p.r := ToMatch(p, A)])
  {
    EndsAppend(won, p);
    forall q | q in won + [p]
      ensures q.r in matches[p.r := ToMatch(p, A)] && matches[p.r := ToMatch(p, A)][q.r] == ToMatch(q, A)
    {
      assert q in won ==> q.r in RsOf(won);
    }
  }

  /** Equal hashes of the two ends of a group. */
  lemma GroupHashes(R: seq<Feature>, T: seq<Feature>, g: Group, h: string)
    requires IsGroupOf(R, T, g, h)
    ensures AreIndices(g.rs, |R|) && AreIndices(g.ts, |T|)
    ensures forall r: nat :: r in g.rs ==> r < |R| && R[r].mhash == h
    ensures forall t: nat :: t in g.ts ==> t < |T| && T[t].mhash == h
  {
    HavingElements(AllIndices(|R|), Hashes(R), h);
    HavingElements(AllIndices(|T|), Hashes(T), h);
  }

  /** The targets of a group in address order. */
  lemma TargetsInOrder(R: seq<Feature>, T: seq<Feature>, g: Group, h: string, ts: seq<nat>)
    requires IsGroupOf(R, T, g, h) && ts == Sort(g.ts, ByRva(T))
    ensures ts != [] && AreIndices(g.rs, |R|) && AreIndices(ts, |T|) && forall k :: 0 <= k < |ts| ==> ts[k] in g.ts
    ensures forall r, t :: r in g.rs && t in ts ==> r < |R| && t < |T| && T[t].mhash == R[r].mhash
    ensures forall r, t :: r in g.rs && t in g.ts ==> r < |R| && t < |T| && T[t].mhash == R[r].mhash
  {
    GroupHashes(R, T, g, h);
    SortKeepsElements(g.ts, ByRva(T));
    SameMembers(ts, g.ts, |T|);
  }

  lemma SameMembers(ts: seq<nat>, all: seq<nat>, n: nat)
    requires |ts| == |all| && (forall t :: t in ts <==> t in all) && forall t: nat :: t in all ==> t < n
    ensures AreIndices(ts, n) && forall k :: 0 <= k < |ts| ==> ts[k] in all
  {
    forall k | 0 <= k < |ts| ensures ts[k] in all && ts[k] < n {
      assert ts[k] in ts;
    }
  }

  /** Every function of the group ends up with an ambiguous match. */
  lemma ResolvedIsAmbiguous(v: View, g: Group, far: nat, matches: map<nat, Match>, r: nat)
    requires IsResolved(v, g, far, matches) && r in g.rs
    ensures r in matches && !Firm(matches[r]) && matches[r].tier == A
  {
    var ts := Sort(g.ts, ByRva(v.T));
    var ps :| AreNearProposals(v, g, ts, far, ps) && IsAssigned(v, g, ts, far, Winners(ps, {}, {}), matches);
    WinnersMatch(ps, {}, {});
    if r in RsOf(Winners(ps, {}, {})) {
      var p :| p in Winners(ps, {}, {}) && p.r == r;
      assert IsNearProposal(v, g, ts, far, p);
    } else {
      assert SharesNearest(v, g, ts, far, r, matches);
    }
  }

  /** What was resolved stays so while the matches of the group's functions stay. */
  lemma ResolvedFrame(v: View, g: Group, far: nat, matches: map<nat, Match>, matches': map<nat, Match>)
    requires IsResolved(v, g, far, matches)
    requires forall r :: r in g.rs && r in matches ==> r in matches' && matches'[r] == matches[r]
    ensures IsResolved(v, g, far, matches')
  {
    var ts := Sort(g.ts, ByRva(v.T));
    var ps :| AreNearProposals(v, g, ts, far, ps) && IsAssigned(v, g, ts, far, Winners(ps, {}, {}), matches);
    WinnersMatch(ps, {}, {});
    AssignedFrame(v, g, ts, far, Winners(ps, {}, {}), matches, matches');
  }

  lemma AssignedFrame(v: View, g: Group, ts: seq<nat>, far: nat, won: seq<Proposal>,
                      matches: map<nat, Match>, matches': map<nat, Match>)
    requires |v.anchorR| == |v.anchorT| && AreIndices(ts, |v.T|)
    requires IsAssigned(v, g, ts, far, won, matches)
    requires forall p :: p in won ==> p.r in g.rs
    requires forall r :: r in g.rs && r in matches ==> r in matches' && matches'[r] == matches[r]
    ensures IsAssigned(v, g, ts, far, won, matches')
  {
    forall r | r in g.rs && r !in RsOf(won) ensures r < |v.R| && SharesNearest(v, g, ts, far, r, matches') {
      assert SharesNearest(v, g, ts, far, r, matches);
    }
  }

  /** The functions of rs outside used share their nearest targets, and nothing else moved. */
  ghost predicate RestShares(v: View, g: Group, ts: seq<nat>, far: nat, rs: seq<nat>, used: set<nat>,
                             before: map<nat, Match>, matches: map<nat, Match>)
    requires |v.anchorR| == |v.anchorT| && AreIndices(ts, |v.T|) && AreIndices(rs, |v.R|)
  {
    && OnlyRestMoved(rs, used, before, matches)
    && AllShare(v, g, ts, far, rs, used, matches)
  }

  ghost predicate OnlyRestMoved(rs: seq<nat>, used: set<nat>, before: map<nat, Match>, matches: map<nat, Match>) {
    && matches.Keys == before.Keys + (set r | r in rs && r !in used)
    && (forall r :: r in before && (r !in rs || r in used) ==> matches[r] == before[r])
  }

  ghost predicate AllShare(v: View, g: Group, ts: seq<nat>, far: nat, rs: seq<nat>, used: set<nat>,
                           matches: map<nat, Match>)
    requires |v.anchorR| == |v.anchorT| && AreIndices(ts, |v.T|)
  {
    forall r :: r in rs && r !in used ==> r < |v.R| && SharesNearest(v, g, ts, far, r, matches)
  }

  lemma RestAppend(rs: seq<nat>, used: set<nat>, r: nat)
    ensures (set q | q in rs + [r] && q !in used) == (set q | q in rs && q !in used) + (if r in used then {} else {r})
  {
    assert forall q :: q in rs + [r] <==> q in rs || q == r;
  }

  lemma RestSharesNone(v: View, g: Group, ts: seq<nat>, far: nat, used: set<nat>, matches: map<nat, Match>)
    requires |v.anchorR| == |v.anchorT| && AreIndices(ts, |v.T|)
    ensures RestShares(v, g, ts, far, [], used, matches, matches)
  {
  }

  lemma RestSharesSkip(v: View, g: Group, ts: seq<nat>, far: nat, rs: seq<nat>, used: set<nat>,
                       before: map<nat, Match>, matches: map<nat, Match>, r: nat)
    requires |v.anchorR| == |v.anchorT| && AreIndices(ts, |v.T|) && AreIndices(rs, |v.R|) && r < |v.R|
    requires RestShares(v, g, ts, far, rs, used, before, matches) && r in used
    ensures RestShares(v, g, ts, far, rs + [r], used, before, matches)
  {
    RestAppend(rs, used, r);
    assert forall q :: q in rs + [r] <==> q in rs || q == r;
  }

  lemma SharesNearestFrame(v: View, g: Group, ts: seq<nat>, far: nat, r: nat,
                           matches: map<nat, Match>, matches': map<nat, Match>)
    requires r < |v.R| && |v.anchorR| == |v.anchorT| && AreIndices(ts, |v.T|)
    requires SharesNearest(v, g, ts, far, r, matches) && r in matches' && matches'[r] == matches[r]
    ensures SharesNearest(v, g, ts, far, r, matches')
  {
  }

  lemma RestSharesNext(v: View, g: Group, ts: seq<nat>, far: nat, rs: seq<nat>, used: set<nat>,
                       before: map<nat, Match>, matches: map<nat, Match>, r: nat, m: Match)
    requires |v.anchorR| == |v.anchorT| && AreIndices(ts, |v.T|) && AreIndices(rs, |v.R|) && r < |v.R|
    requires RestShares(v, g, ts, far, rs, used, before, matches) && r !in used
    requires SharesNearest(v, g, ts, far, r, matches[r := m])
    ensures RestShares(v, g, ts, far, rs + [r], used, before, matches[r := m])
  {
    RestMovedNext(rs, used, before, matches, r, m);
    var more := matches[r := m];
    var rs' := rs + [r];
    forall q | q in rs' && q !in used ensures q < |v.R| && SharesNearest(v, g, ts, far, q, more) {
      assert q in rs || q == r;
      if q != r {
        SharesNearestFrame(v, g, ts, far, q, matches, more);
      }
    }
  }

  lemma RestMovedNext(rs: seq<nat>, used: set<nat>, before: map<nat, Match>, matches: map<nat, Match>, r: nat, m: Match)
    requires OnlyRestMoved(rs, used, before, matches) && r !in used
    ensures OnlyRestMoved(rs + [r], used, before, matches[r := m])
  {
    RestAppend(rs, used, r);
    assert forall q :: q in rs + [r] <==> q in rs || q == r;
  }

  /** Near proposals stay inside their group. */
  lemma NearInGroup(v: View, g: Group, ts: seq<nat>, far: nat, ps: seq<Proposal>)
    requires |v.anchorR| == |v.anchorT| && AreIndices(ts, |v.T|) && AreIndices(g.rs, |v.R|)
    requires AreNearProposals(v, g, ts, far, ps) && forall k :: 0 <= k < |ts| ==> ts[k] in g.ts
    ensures forall p :: p in ps ==> p.r in g.rs && p.t in g.ts && p.note.Ambiguous?
  {
    forall p | p in ps ensures p.r in g.rs && p.t in g.ts && p.note.Ambiguous? {
      assert IsNearProposal(v, g, ts, far, p);
    }
  }

  lemma WinnersInside(ps: seq<Proposal>, g: Group)
    requires forall p :: p in ps ==> p.r in g.rs && p.note.Ambiguous?
    ensures forall p :: p in Winners(ps, {}, {}) ==> p.r in g.rs && p.note.Ambiguous?
  {
    WinnersMatch(ps, {}, {});
  }

  /** The three steps of a group, put together. */
  lemma GroupAssembled(v: View, g: Group, ts: seq<nat>, far: nat, ps: seq<Proposal>,
                       base: map<nat, Match>, mid: map<nat, Match>, matches: map<nat, Match>)
    requires |v.anchorR| == |v.anchorT| && AreIndices(ts, |v.T|) && AreIndices(g.rs, |v.R|)
    requires ts == Sort(g.ts, ByRva(v.T)) && AreNearProposals(v, g, ts, far, ps)
    requires Overlaid(base, Winners(ps, {}, {}), mid)
    requires RestShares(v, g, ts, far, g.rs, RsOf(Winners(ps, {}, {})), mid, matches)
    requires forall r :: r in g.rs ==> r !in base
    ensures IsResolved(v, g, far, matches)
    ensures forall r :: r !in g.rs ==> Get(matches, r) == Get(base, r)
  {
    var won := Winners(ps, {}, {});
    WinnersMatch(ps, {}, {});
    forall p | p in won ensures p.r in matches && matches[p.r] == ToMatch(p, A) {
      assert p.r in RsOf(won);
    }
    assert IsAssigned(v, g, ts, far, won, matches);
    forall r | r !in g.rs ensures Get(matches, r) == Get(base, r) {
      assert r !in RsOf(won);
    }
  }

  /** A group is known by the hash of its functions. */
  ghost predicate IsGroup(R: seq<Feature>, T: seq<Feature>, g: Group) {
    g.rs != [] && g.rs[0] < |R| && IsGroupOf(R, T, g, R[g.rs[0]].mhash)
  }

  ghost predicate GroupsListed(R: seq<Feature>, T: seq<Feature>, groups: seq<Group>) {
    && (forall i :: 0 <= i < |groups| ==> IsGroup(R, T, groups[i]))
    && (forall i, j :: 0 <= i < j < |groups| ==> R[groups[i].rs[0]].mhash != R[groups[j].rs[0]].mhash)
  }

  lemma GroupsApart(R: seq<Feature>, T: seq<Feature>, groups: seq<Group>, i: nat, j: nat, r: nat)
    requires GroupsListed(R, T, groups) && i < |groups| && j < |groups| && i != j
    requires r in groups[i].rs
    ensures r !in groups[j].rs
  {
    GroupHashes(R, T, groups[i], R[groups[i].rs[0]].mhash);
    GroupHashes(R, T, groups[j], R[groups[j].rs[0]].mhash);
  }

  /** The functions of the first n groups. */
  ghost predicate InGroups(groups: seq<Group>, n: nat, r: nat)
    requires n <= |groups|
  {
    exists i :: 0 <= i < n && r in groups[i].rs
  }

  ghost predicate GroupsOpen(groups: seq<Group>, matches: map<nat, Match>) {
    forall i, r :: 0 <= i < |groups| && r in groups[i].rs && r in matches ==> !Firm(matches[r])
  }

  /** Resolving one group leaves ambiguous matches there, and the others as they were. */
  lemma GroupsStayOpen(v: View, groups: seq<Group>, i: nat, far: nat, before: map<nat, Match>, after: map<nat, Match>)
    requires GroupsOpen(groups, before) && i < |groups| && IsResolved(v, groups[i], far, after)
    requires forall r :: r !in groups[i].rs ==> Get(after, r) == Get(before, r)
    ensures GroupsOpen(groups, after)
  {
    forall j, r: nat | 0 <= j < |groups| && r in groups[j].rs && r in after ensures !Firm(after[r]) {
      if r in groups[i].rs {
        ResolvedIsAmbiguous(v, groups[i], far, after, r);
      } else {
        assert Get(after, r) == Get(before, r);
      }
    }
  }

  /** How far the resolution of the groups has come. */
  ghost predicate ResolvedUpTo(v: View, groups: seq<Group>, n: nat, far: nat,
                               before: map<nat, Match>, matches: map<nat, Match>)
    requires n <= |groups|
  {
    && (forall i :: 0 <= i < n ==> IsResolved(v, groups[i], far, matches))
    && (forall r: nat :: !InGroups(groups, n, r) ==> Get(matches, r) == Get(before, r))
  }

  lemma ResolvedNext(v: View, groups: seq<Group>, n: nat, far: nat,
                     before: map<nat, Match>, matches: map<nat, Match>, matches': map<nat, Match>)
    requires n < |groups| && GroupsListed(v.R, v.T, groups)
    requires ResolvedUpTo(v, groups, n, far, before, matches)
    requires IsResolved(v, groups[n], far, matches')
    requires forall r :: r !in groups[n].rs ==> Get(matches', r) == Get(matches, r)
    ensures ResolvedUpTo(v, groups, n + 1, far, before, matches')
  {
    forall i | 0 <= i < n ensures IsResolved(v, groups[i], far, matches') {
      forall r | r in groups[i].rs && r in matches ensures r in matches' && matches'[r] == matches[r] {
        GroupsApart(v.R, v.T, groups, i, n, r);
        assert Get(matches', r) == Get(matches, r);
      }
      ResolvedFrame(v, groups[i], far, matches, matches');
    }
    forall r: nat | !InGroups(groups, n + 1, r) ensures Get(matches', r) == Get(before, r) {
      assert r !in groups[n].rs && !InGroups(groups, n, r);
    }
  }

  // ----- lemmas for tier A

  /** The one function of each binary with hash h. */
  ghost predicate UniquePair(R: seq<Feature>, T: seq<Feature>, h: string, r: nat, t: nat) {
    WithHash(R, h) == [r] && WithHash(T, h) == [t]
  }

  /** Tier A after looking at the hashes in done: unique pairs are matched, other shared hashes are groups. */
  ghost predicate HashesDone(R: seq<Feature>, T: seq<Feature>, s: State, groups: seq<Group>, done: set<string>) {
    && (forall h, r: nat, t: nat :: h in done && UniquePair(R, T, h, r, t) ==>
          Get(s.matches, r) == Some(Match(t, A, 1.0, Unique)))
    && (forall r :: r in s.matches ==>
          r < |R| && R[r].mhash in done && UniquePair(R, T, R[r].mhash, r, s.matches[r].t)
          && s.matches[r] == Match(s.matches[r].t, A, 1.0, Unique))
    && GroupsListed(R, T, groups)
    && (forall g :: g in groups ==> g.rs != [] && g.rs[0] < |R| && R[g.rs[0]].mhash in done)
    && (forall h :: h in done && IsGroupOf(R, T, Group(WithHash(R, h), WithHash(T, h)), h) ==>
          Group(WithHash(R, h), WithHash(T, h)) in groups)
  }

  lemma UniquePairHashes(R: seq<Feature>, T: seq<Feature>, h: string, r: nat, t: nat)
    requires UniquePair(R, T, h, r, t)
    ensures r < |R| && t < |T| && R[r].mhash == h && T[t].mhash == h
  {
    HavingElements(AllIndices(|R|), Hashes(R), h);
    HavingElements(AllIndices(|T|), Hashes(T), h);
    assert r in WithHash(R, h) && t in WithHash(T, h);
  }

  /** A unique pair is matched: both its ends are free. */
  lemma HashesDoneUnique(R: seq<Feature>, T: seq<Feature>, s: State, groups: seq<Group>, done: set<string>,
                         h: string, r: nat, t: nat)
    requires Consistent(R, T, s) && HashesDone(R, T, s, groups, done) && h !in done && UniquePair(R, T, h, r, t)
    ensures var s' := Accept(s, r, Match(t, A, 1.0, Unique));
            Consistent(R, T, s') && HashesDone(R, T, s', groups, done + {h})
  {
    UniquePairHashes(R, T, h, r, t);
    if t in s.taken {
      UniquePairHashes(R, T, R[s.taken[t]].mhash, s.taken[t], t);
    }
    AcceptFree(R, T, s, r, Match(t, A, 1.0, Unique));
    var s' := Accept(s, r, Match(t, A, 1.0, Unique));
    UniqueAccepted(R, T, s, s', groups, done, h, r, t);
    forall h' | h' in done + {h} && IsGroupOf(R, T, Group(WithHash(R, h'), WithHash(T, h')), h')
      ensures Group(WithHash(R, h'), WithHash(T, h')) in groups
    {
      assert h' != h;
    }
  }

  lemma UniqueAccepted(R: seq<Feature>, T: seq<Feature>, s: State, s': State, groups: seq<Group>, done: set<string>,
                       h: string, r: nat, t: nat)
    requires HashesDone(R, T, s, groups, done) && h !in done && UniquePair(R, T, h, r, t)
    requires s' == Accept(s, r, Match(t, A, 1.0, Unique)) && r < |R| && R[r].mhash == h
    ensures forall h', r': nat, t': nat :: h' in done + {h} && UniquePair(R, T, h', r', t') ==>
              Get(s'.matches, r') == Some(Match(t', A, 1.0, Unique))
  {
    forall h', r': nat, t': nat | h' in done + {h} && UniquePair(R, T, h', r', t')
      ensures Get(s'.matches, r') == Some(Match(t', A, 1.0, Unique))
    {
      UniquePairHashes(R, T, h', r', t');
    }
  }

  /** Any other hash: a group when both binaries have it, nothing otherwise. */
  lemma HashesDoneOther(R: seq<Feature>, T: seq<Feature>, s: State, groups: seq<Group>, done: set<string>, h: string)
    requires HashesDone(R, T, s, groups, done) && h !in done
    requires WithHash(R, h) != [] && !(|WithHash(R, h)| == 1 && |WithHash(T, h)| == 1)
    ensures HashesDone(R, T, s,
                       if WithHash(T, h) == [] then groups else groups + [Group(WithHash(R, h), WithHash(T, h))],
                       done + {h})
  {
    if WithHash(T, h) != [] {
      GroupAdded(R, T, s, groups, done, h, Group(WithHash(R, h), WithHash(T, h)));
    }
  }

  lemma GroupAdded(R: seq<Feature>, T: seq<Feature>, s: State, groups: seq<Group>, done: set<string>, h: string,
                   g: Group)
    requires HashesDone(R, T, s, groups, done) && h !in done && IsGroupOf(R, T, g, h)
    ensures HashesDone(R, T, s, groups + [g], done + {h})
  {
    HavingElements(AllIndices(|R|), Hashes(R), h);
    assert g.rs[0] in g.rs;
    assert IsGroup(R, T, g);
    ListedWith(R, T, groups, g, h, done);
    forall f | f in groups + [g] ensures f.rs != [] && f.rs[0] < |R| && R[f.rs[0]].mhash in done + {h} {
      assert f in groups || f == g;
    }
    forall h' | h' in done + {h} && IsGroupOf(R, T, Group(WithHash(R, h'), WithHash(T, h')), h')
      ensures Group(WithHash(R, h'), WithHash(T, h')) in groups + [g]
    {
      if h' == h {
        assert g == Group(WithHash(R, h), WithHash(T, h)) && g in groups + [g];
      }
    }
  }

  lemma ListedWith(R: seq<Feature>, T: seq<Feature>, groups: seq<Group>, g: Group, h: string, done: set<string>)
    requires GroupsListed(R, T, groups) && IsGroup(R, T, g) && R[g.rs[0]].mhash == h && h !in done
    requires forall f :: f in groups ==> f.rs != [] && f.rs[0] < |R| && R[f.rs[0]].mhash in done
    ensures GroupsListed(R, T, groups + [g])
  {
    forall i | 0 <= i < |groups| ensures R[groups[i].rs[0]].mhash != h {
      assert groups[i] in groups;
    }
  }

  /** No function of a group is matched before the groups are resolved. */
  lemma HashesDoneOpen(R: seq<Feature>, T: seq<Feature>, s: State, groups: seq<Group>, done: set<string>)
    requires HashesDone(R, T, s, groups, done)
    ensures GroupsOpen(groups, s.matches)
  {
    forall i, r: nat | 0 <= i < |groups| && r in groups[i].rs ensures r !in s.matches {
      GroupOfMember(R, T, groups, i, r);
    }
  }

  /** The group that a listed function is in is the one of its hash. */
  lemma GroupOfMember(R: seq<Feature>, T: seq<Feature>, groups: seq<Group>, i: nat, r: nat)
    requires GroupsListed(R, T, groups) && i < |groups| && r in groups[i].rs
    ensures r < |R| && IsGroupOf(R, T, groups[i], R[r].mhash)
  {
    GroupHashes(R, T, groups[i], R[groups[i].rs[0]].mhash);
  }

  lemma HasOwnHash(R: seq<Feature>, r: nat)
    requires r < |R|
    ensures r in WithHash(R, R[r].mhash)
  {
    HavingElements(AllIndices(|R|), Hashes(R), R[r].mhash);
    assert AllIndices(|R|)[r] == r;
  }

  predicate InTierA(matches: map<nat, Match>, r: nat) {
    r in matches && matches[r].tier == A
  }

  /**
   What tier A means for one function: without an equal hash in the target binary it is not on
   tier A; with one on either side it has that target; else it is in a group, matched ambiguously.
   */
  ghost predicate Fate(R: seq<Feature>, T: seq<Feature>, matches: map<nat, Match>, groups: seq<Group>, r: nat)
    requires r < |R|
  {
    var rs, ts := WithHash(R, R[r].mhash), WithHash(T, R[r].mhash);
    if ts == [] then !InTierA(matches, r)
    else if |rs| == 1 && |ts| == 1 then Get(matches, r) == Some(Match(ts[0], A, 1.0, Unique))
    else InGroups(groups, |groups|, r) && InTierA(matches, r) && !Firm(matches[r])
  }

  /** What tier A leaves behind for good. */
  ghost predicate TierAStands(R: seq<Feature>, T: seq<Feature>, matches: map<nat, Match>, groups: seq<Group>) {
    && GroupsListed(R, T, groups)
    && (forall r: nat :: r < |R| ==> Fate(R, T, matches, groups, r))
  }

  lemma StandingGroupsAreOpen(R: seq<Feature>, T: seq<Feature>, matches: map<nat, Match>, groups: seq<Group>)
    requires TierAStands(R, T, matches, groups)
    ensures GroupsOpen(groups, matches)
  {
    forall i, r: nat | 0 <= i < |groups| && r in groups[i].rs ensures r in matches && !Firm(matches[r]) {
      GroupOfMember(R, T, groups, i, r);
      assert Fate(R, T, matches, groups, r);
    }
  }

  /** The fate of one function once all hashes are done and the groups are resolved. */
  lemma FateSettled(v: View, s: State, groups: seq<Group>, done: set<string>, far: nat, matches: map<nat, Match>,
                    r: nat)
    requires HashesDone(v.R, v.T, s, groups, done) && r < |v.R| && v.R[r].mhash in done
    requires ResolvedUpTo(v, groups, |groups|, far, s.matches, matches)
    ensures Fate(v.R, v.T, matches, groups, r)
  {
    var h := v.R[r].mhash;
    var g := Group(WithHash(v.R, h), WithHash(v.T, h));
    HasOwnHash(v.R, r);
    if IsGroupOf(v.R, v.T, g, h) {
      var i :| 0 <= i < |groups| && groups[i] == g;
      ResolvedIsAmbiguous(v, g, far, matches, r);
    } else {
      forall i | 0 <= i < |groups| ensures r !in groups[i].rs {
        if r in groups[i].rs {
          GroupOfMember(v.R, v.T, groups, i, r);
        }
      }
      assert Get(matches, r) == Get(s.matches, r);
      if g.ts != [] {
        assert UniquePair(v.R, v.T, h, r, g.ts[0]);
      }
    }
  }

  /** Accepting further tiers leaves tier A alone. */
  lemma FateStays(R: seq<Feature>, T: seq<Feature>, s: State, groups: seq<Group>, won: seq<Proposal>, tier: Tier,
                  r: nat)
    requires r < |R| && Fate(R, T, s.matches, groups, r) && tier != A
    requires IsMatching(won, s.matches.Keys, s.taken.Keys)
    ensures Fate(R, T, AcceptAll(s, won, tier).matches, groups, r)
  {
    AcceptAllEntries(s, won, tier);
    var matches := AcceptAll(s, won, tier).matches;
    if r in matches && r !in s.matches {
      var p :| p in won && p.r == r;
      assert matches[r] == ToMatch(p, tier);
    }
  }

  lemma TierAStaysAfter(R: seq<Feature>, T: seq<Feature>, s: State, groups: seq<Group>, won: seq<Proposal>, tier: Tier)
    requires TierAStands(R, T, s.matches, groups) && tier != A
    requires IsMatching(won, s.matches.Keys, s.taken.Keys)
    ensures TierAStands(R, T, AcceptAll(s, won, tier).matches, groups)
  {
    forall r: nat | r < |R| ensures Fate(R, T, AcceptAll(s, won, tier).matches, groups, r) {
      FateStays(R, T, s, groups, won, tier, r);
    }
  }

  /** Resolving the groups again leaves the rest of tier A alone. */
  lemma TierAStaysResolved(v: View, before: map<nat, Match>, groups: seq<Group>, far: nat, matches: map<nat, Match>)
    requires TierAStands(v.R, v.T, before, groups)
    requires ResolvedUpTo(v, groups, |groups|, far, before, matches)
    ensures TierAStands(v.R, v.T, matches, groups)
  {
    forall r: nat | r < |v.R| ensures Fate(v.R, v.T, matches, groups, r) {
      assert Fate(v.R, v.T, before, groups, r);
      if InGroups(groups, |groups|, r) {
        var i :| 0 <= i < |groups| && r in groups[i].rs;
        GroupOfMember(v.R, v.T, groups, i, r);
        ResolvedIsAmbiguous(v, groups[i], far, matches, r);
      } else {
        assert Get(matches, r) == Get(before, r);
      }
    }
  }

  /** Resolving groups again loses no match and changes no firm one. */
  lemma ResolvedExtends(v: View, s: State, groups: seq<Group>, far: nat, matches: map<nat, Match>)
    requires TierAStands(v.R, v.T, s.matches, groups)
    requires ResolvedUpTo(v, groups, |groups|, far, s.matches, matches)
    ensures Extends(s, State(matches, s.taken))
  {
    StandingGroupsAreOpen(v.R, v.T, s.matches, groups);
    forall r: nat | r in s.matches
      ensures r in matches
      ensures if Firm(s.matches[r]) then matches[r] == s.matches[r] else !Firm(matches[r])
    {
      if InGroups(groups, |groups|, r) {
        var i :| 0 <= i < |groups| && r in groups[i].rs;
        ResolvedIsAmbiguous(v, groups[i], far, matches, r);
      } else {
        assert Get(matches, r) == Get(s.matches, r);
      }
    }
  }

  // ----- whole runs

  /** The states that a run passes through: all consistent, and from each to the next nothing firm changes. */
  ghost predicate IsRun(R: seq<Feature>, T: seq<Feature>, trace: seq<State>) {
    var n := |trace| - 1;
    && n >= 0 && Consistent(R, T, trace[n])
    && (if n == 0 then trace[n] == State(map[], map[])
        else IsRun(R, T, trace[..n]) && Extends(trace[n - 1], trace[n]))
  }

  lemma RunGrows(R: seq<Feature>, T: seq<Feature>, trace: seq<State>, s: State)
    requires IsRun(R, T, trace) && Consistent(R, T, s) && Extends(trace[|trace| - 1], s)
    ensures IsRun(R, T, trace + [s])
  {
    var more := trace + [s];
    assert more[..|trace|] == trace;
    RunUnfolds(R, T, trace, s, more);
  }

  lemma RunUnfolds(R: seq<Feature>, T: seq<Feature>, trace: seq<State>, s: State, more: seq<State>)
    requires trace != [] && IsRun(R, T, trace) && Consistent(R, T, s) && Extends(trace[|trace| - 1], s)
    requires |more| == |trace| + 1 && more[..|trace|] == trace
    requires more[|trace|] == s && more[|trace| - 1] == trace[|trace| - 1]
    ensures IsRun(R, T, more)
  {
  }

  /** Over any part of a run a firm match stays what it is, and a matched function stays matched. */
  lemma {:induction false} RunExtends(R: seq<Feature>, T: seq<Feature>, trace: seq<State>, i: nat, j: nat)
    requires IsRun(R, T, trace) && i <= j < |trace|
    ensures Consistent(R, T, trace[j]) && Extends(trace[i], trace[j])
    decreases |trace|
  {
    var n := |trace| - 1;
    var front := trace[..n];
    if j < n {
      RunExtends(R, T, front, i, j);
    } else if i < n {
      RunExtends(R, T, front, i, n - 1);
      ExtendsTransitive(front[i], front[n - 1], trace[n]);
    }
  }

  lemma NearestOrderIsOrder(R: seq<Feature>)
    ensures IsOrder((p, q) => NearestOrder(R, p, q))
  {
    assert forall p, q :: NearestOrder(R, p, q) || NearestOrder(R, q, p);
    assert forall p, q, r :: NearestOrder(R, p, q) && NearestOrder(R, q, r) ==> NearestOrder(R, p, r);
  }

  lemma BestIsProposal(v: View, votes: map<nat, nat>, p: Proposal)
    requires Unmatched(v, p.r) && p.t < |v.T| && !p.late && p.distance == 0
    requires p.score == Score(v.R[p.r], v.T[p.t])
    requires forall t: nat :: VotesFor(votes, t) == |SharedStrings(v.R, v.T, p.r, t)|
    requires p.t in votes && votes[p.t] > 0 && p.note == Strings(votes[p.t])
    requires forall u :: u in votes ==> votes[u] <= votes[p.t]
    ensures IsStringProposal(v, p)
  {
    assert VotesFor(votes, p.t) == |SharedStrings(v.R, v.T, p.r, p.t)|;
    forall t | 0 <= t < |v.T| ensures |SharedStrings(v.R, v.T, p.r, t)| <= p.note.n {
      assert VotesFor(votes, t) == |SharedStrings(v.R, v.T, p.r, t)|;
    }
  }

  lemma RoundOrderIsOrder()
    ensures IsOrder(RoundOrder)
  {
    assert forall p, q :: RoundOrder(p, q) || RoundOrder(q, p);
    assert forall p, q, r :: RoundOrder(p, q) && RoundOrder(q, r) ==> RoundOrder(p, r);
  }

  /** cands holds the shape candidates whose hash has been looked at. */
  ghost predicate ShapesDone(v: View, cands: set<(nat, nat)>, done: set<string>) {
    forall r: nat, t: nat :: (r, t) in cands <==> IsShapeCandidate(v, r, t) && v.R[r].shash in done
  }

  lemma ShapesNext(v: View, unmatched: seq<nat>, free: seq<nat>, cands: set<(nat, nat)>, done: set<string>, h: string)
    requires AreIndices(unmatched, |v.R|) && Distinct(unmatched) && AreIndices(free, |v.T|) && Distinct(free)
    requires forall r: nat :: r in unmatched <==> Unmatched(v, r)
    requires forall t: nat :: t in free <==> Free(v, t)
    requires ShapesDone(v, cands, done)
    ensures var rs, ts := Having(unmatched, Shashes(v.R), h), Having(free, Shashes(v.T), h);
            ShapesDone(v, cands + (if |rs| == 1 && |ts| == 1 && |v.R[rs[0]].shape| >= 8 then {(rs[0], ts[0])} else {}),
                       done + {h})
  {
    var rs, ts := Having(unmatched, Shashes(v.R), h), Having(free, Shashes(v.T), h);
    var more := cands + (if |rs| == 1 && |ts| == 1 && |v.R[rs[0]].shape| >= 8 then {(rs[0], ts[0])} else {});
    forall r: nat, t: nat ensures (r, t) in more <==> IsShapeCandidate(v, r, t) && v.R[r].shash in done + {h} {
      OnlyOnes(v, unmatched, free, h, r, t);
    }
  }

  /**
   A round is greedy in its sort order: a proposal that does not win shares an end with a winner
   that sorts no later. Every proposal starts with both ends free.
   */
  lemma RoundIsGreedy(v: View, ps: seq<Proposal>, p: Proposal)
    requires SortedBy(ps, RoundOrder) && p in ps && Unmatched(v, p.r) && Free(v, p.t)
    ensures var won := Winners(ps, v.s.matches.Keys, v.s.taken.Keys);
            p in won || exists q :: q in won && RoundOrder(q, p) && (q.r == p.r || q.t == p.t)
  {
    var k :| 0 <= k < |ps| && ps[k] == p;
    LosersAreBlocked(ps, k, v.s.matches.Keys, v.s.taken.Keys);
  }
}
