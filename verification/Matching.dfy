/**
 The data of the binary matcher (tools/re/match_rotwk.py) and the facts about it that need no
 object state: what a consistent set of matches is, and what accepting proposals in order does to it.
 */
module Matching {
  import opened Rounding

  /** One function of a binary; only the features that the matcher reads. */
  datatype Feature = Feature(rva: int, blk: nat, mhash: string, shash: string,
                             shape: seq<string>, callees: seq<int>, strs: seq<string>)

  datatype Tier = A | B | C | D

  /** The note of a match. The notes that start with "amb" are the Ambiguous ones. */
  datatype Note = Unique | Ambiguous(rs: nat, ts: nat, shared: bool, far: bool)
                | Similar | CalleePattern | Strings(n: nat)

  datatype Match = Match(t: nat, tier: Tier, score: real, note: Note)

  /** The matcher's two dictionaries. */
  datatype State = State(matches: map<nat, Match>, taken: map<nat, nat>)

  predicate Firm(m: Match) {
    !m.note.Ambiguous?
  }

  /** `accept`: a firm match also reserves its target, unless that is reserved already. */
  function Accept(s: State, r: nat, m: Match): State {
    State(s.matches[r := m],
          if m.tier == A && !Firm(m) then s.taken
          else if m.t in s.taken then s.taken
          else s.taken[m.t := r])
  }

  // ----- what stays true of the dictionaries

  /** The firm matches and the reservations are one another's inverse. */
  ghost predicate Inverse(s: State) {
    && (forall r :: r in s.matches && Firm(s.matches[r]) ==> s.matches[r].t in s.taken && s.taken[s.matches[r].t] == r)
    && (forall t :: t in s.taken ==>
          s.taken[t] in s.matches && Firm(s.matches[s.taken[t]]) && s.matches[s.taken[t]].t == t)
  }

  ghost predicate InRange(R: seq<Feature>, T: seq<Feature>, s: State) {
    forall r :: r in s.matches ==> r < |R| && s.matches[r].t < |T|
  }

  /** Tier A means equal hashes, and only tier A is ever ambiguous. */
  ghost predicate HashesAgree(R: seq<Feature>, T: seq<Feature>, s: State)
    requires InRange(R, T, s)
  {
    && (forall r :: r in s.matches && s.matches[r].tier == A ==> T[s.matches[r].t].mhash == R[r].mhash)
    && (forall r :: r in s.matches && !Firm(s.matches[r]) ==> s.matches[r].tier == A)
  }

  ghost predicate Consistent(R: seq<Feature>, T: seq<Feature>, s: State) {
    Inverse(s) && InRange(R, T, s) && HashesAgree(R, T, s)
  }

  /** From s to s' nothing matched is lost, and no firm match changes. */
  ghost predicate Extends(s: State, s': State) {
    && (forall r :: r in s.matches ==> r in s'.matches)
    && (forall r :: r in s.matches && Firm(s.matches[r]) ==> s'.matches[r] == s.matches[r])
    && (forall r :: r in s.matches && !Firm(s.matches[r]) ==> !Firm(s'.matches[r]))
  }

  lemma FirmMatchesAreInjective(s: State, r: nat, r': nat)
    requires Inverse(s)
    requires r in s.matches && Firm(s.matches[r]) && r' in s.matches && Firm(s.matches[r'])
    requires s.matches[r].t == s.matches[r'].t
    ensures r == r'
  {
    assert s.taken[s.matches[r].t] == r;
  }

  lemma ExtendsTransitive(s: State, s': State, s'': State)
    requires Extends(s, s') && Extends(s', s'')
    ensures Extends(s, s'')
  {
  }

  /** Accepting a pair with both ends free. */
  lemma AcceptFree(R: seq<Feature>, T: seq<Feature>, s: State, r: nat, m: Match)
    requires Consistent(R, T, s) && r < |R| && m.t < |T|
    requires Firm(m) && r !in s.matches && m.t !in s.taken
    requires m.tier == A ==> T[m.t].mhash == R[r].mhash
    ensures Consistent(R, T, Accept(s, r, m)) && Extends(s, Accept(s, r, m))
  {
  }

  /** Accepting an ambiguous pair over nothing, or over an ambiguous pair. */
  lemma AcceptAmbiguous(R: seq<Feature>, T: seq<Feature>, s: State, r: nat, m: Match)
    requires Consistent(R, T, s) && r < |R| && m.t < |T|
    requires !Firm(m) && m.tier == A && T[m.t].mhash == R[r].mhash
    requires r in s.matches ==> !Firm(s.matches[r])
    ensures Consistent(R, T, Accept(s, r, m)) && Extends(s, Accept(s, r, m))
  {
  }

  // ----- accepting proposals in order

  /** late and distance are the sort keys of a tier B round; the other users leave them at rest. */
  datatype Proposal = Proposal(r: nat, t: nat, score: real, note: Note, late: bool, distance: int)

  predicate Blocked(p: Proposal, usedR: set<nat>, usedT: set<nat>) {
    p.r in usedR || p.t in usedT
  }

  function RsOf(ps: seq<Proposal>): set<nat> {
    set p | p in ps :: p.r
  }

  function TsOf(ps: seq<Proposal>): set<nat> {
    set p | p in ps :: p.t
  }

  /** The proposals that win when the list is worked off in order and every winner uses up both its ends. */
  ghost function Winners(ps: seq<Proposal>, usedR: set<nat>, usedT: set<nat>): seq<Proposal> {
    if ps == [] then []
    else
      var w := Winners(ps[..|ps| - 1], usedR, usedT);
      var p := ps[|ps| - 1];
      if Blocked(p, usedR + RsOf(w), usedT + TsOf(w)) then w else w + [p]
  }

  /** No two proposals share an end, and none uses an end that was used before. */
  ghost predicate IsMatching(ps: seq<Proposal>, usedR: set<nat>, usedT: set<nat>) {
    && (forall p :: p in ps ==> !Blocked(p, usedR, usedT))
    && (forall i, j :: 0 <= i < j < |ps| ==> ps[i].r != ps[j].r && ps[i].t != ps[j].t)
  }

  lemma {:induction false} WinnersMatch(ps: seq<Proposal>, usedR: set<nat>, usedT: set<nat>)
    ensures IsMatching(Winners(ps, usedR, usedT), usedR, usedT)
    ensures forall p :: p in Winners(ps, usedR, usedT) ==> p in ps
  {
    if ps != [] {
      var front, p := ps[..|ps| - 1], ps[|ps| - 1];
      WinnersMatch(front, usedR, usedT);
      var w := Winners(front, usedR, usedT);
      if !Blocked(p, usedR + RsOf(w), usedT + TsOf(w)) {
        OneMoreMatches(w, p, usedR, usedT);
      }
    }
  }

  lemma OneMoreMatches(w: seq<Proposal>, p: Proposal, usedR: set<nat>, usedT: set<nat>)
    requires IsMatching(w, usedR, usedT) && !Blocked(p, usedR + RsOf(w), usedT + TsOf(w))
    ensures IsMatching(w + [p], usedR, usedT)
  {
    forall i | 0 <= i < |w| ensures w[i].r != p.r && w[i].t != p.t {
      assert w[i].r in RsOf(w) && w[i].t in TsOf(w);
    }
  }

  lemma {:induction false} WinnersGrow(ps: seq<Proposal>, k: nat, usedR: set<nat>, usedT: set<nat>)
    requires k <= |ps|
    ensures forall p :: p in Winners(ps[..k], usedR, usedT) ==> p in Winners(ps, usedR, usedT)
    decreases |ps| - k
  {
    if k < |ps| {
      assert ps[..k + 1][..k] == ps[..k];
      WinnersGrow(ps, k + 1, usedR, usedT);
    } else {
      assert ps[..k] == ps;
    }
  }

  /** Why the k-th proposal lost: an end was used before the list, or by a winner earlier in it. */
  ghost predicate LostToEarlier(ps: seq<Proposal>, k: nat, usedR: set<nat>, usedT: set<nat>)
    requires k < |ps|
  {
    || Blocked(ps[k], usedR, usedT)
    || exists l :: 0 <= l < k && ps[l] in Winners(ps, usedR, usedT) && (ps[l].r == ps[k].r || ps[l].t == ps[k].t)
  }

  lemma LosersAreBlocked(ps: seq<Proposal>, k: nat, usedR: set<nat>, usedT: set<nat>)
    requires k < |ps|
    ensures ps[k] in Winners(ps, usedR, usedT) || LostToEarlier(ps, k, usedR, usedT)
  {
    var w := Winners(ps[..k], usedR, usedT);
    assert ps[..k + 1][..k] == ps[..k];
    WinnersGrow(ps, k + 1, usedR, usedT);
    WinnersGrow(ps, k, usedR, usedT);
    WinnersMatch(ps[..k], usedR, usedT);
    if Blocked(ps[k], usedR + RsOf(w), usedT + TsOf(w)) && !Blocked(ps[k], usedR, usedT) {
      var p :| p in w && (p.r == ps[k].r || p.t == ps[k].t);
      assert p in ps[..k];
      var l :| 0 <= l < k && ps[l] == p;
    } else if !Blocked(ps[k], usedR, usedT) {
      assert ps[k] in Winners(ps[..k + 1], usedR, usedT);
    }
  }

  /** `round(x, 3)`, halves to the even neighbour. */
  function Thousandths(x: real): real {
    RoundHalfEven(x * 1000.0) as real / 1000.0
  }

  /** What is recorded: tiers B to D round the score. */
  function ToMatch(p: Proposal, tier: Tier): Match {
    Match(p.t, tier, if tier == A then p.score else Thousandths(p.score), p.note)
  }

  /** A recorded score is a score, within half a thousandth of the proposed one. */
  lemma RecordedScore(x: real)
    requires 0.0 <= x <= 1.0
    ensures 0.0 <= Thousandths(x) <= 1.0 && -0.0005 <= Thousandths(x) - x <= 0.0005
  {
    var q := x * 1000.0;
    RoundHalfEvenNear(q, 0);
    assert 0 <= q.Floor <= 1000;
    assert RoundHalfEven(q) <= 1000;
  }

  /** Accept all of ps, in order. */
  ghost function AcceptAll(s: State, ps: seq<Proposal>, tier: Tier): State {
    if ps == [] then s
    else
      var p := ps[|ps| - 1];
      Accept(AcceptAll(s, ps[..|ps| - 1], tier), p.r, ToMatch(p, tier))
  }

  /** Proposals inside both binaries with firm notes. */
  ghost predicate Proposable(R: seq<Feature>, T: seq<Feature>, ps: seq<Proposal>) {
    forall p :: p in ps ==> p.r < |R| && p.t < |T| && !p.note.Ambiguous?
  }

  lemma EndsAppend(ps: seq<Proposal>, p: Proposal)
    ensures RsOf(ps + [p]) == RsOf(ps) + {p.r}
    ensures TsOf(ps + [p]) == TsOf(ps) + {p.t}
  {
    assert p in ps + [p];
    assert forall q :: q in ps + [p] <==> q in ps || q == p;
    forall r | r in RsOf(ps) ensures r in RsOf(ps + [p]) {
      var q :| q in ps && q.r == r;
      assert q in ps + [p];
    }
    forall t | t in TsOf(ps) ensures t in TsOf(ps + [p]) {
      var q :| q in ps && q.t == t;
      assert q in ps + [p];
    }
  }

  /** The proposals are in, and nothing else has changed. */
  ghost predicate HasEntries(s: State, s': State, ps: seq<Proposal>, tier: Tier) {
    && s'.matches.Keys == s.matches.Keys + RsOf(ps)
    && s'.taken.Keys == s.taken.Keys + TsOf(ps)
    && (forall p :: p in ps ==> p.r in s'.matches && s'.matches[p.r] == ToMatch(p, tier))
    && (forall r :: r in s.matches ==> r in s'.matches && s'.matches[r] == s.matches[r])
  }

  lemma EntriesNext(s: State, mid: State, front: seq<Proposal>, p: Proposal, tier: Tier)
    requires tier != A && HasEntries(s, mid, front, tier)
    requires p.r !in s.matches && p.r !in RsOf(front) && p.t !in s.taken && p.t !in TsOf(front)
    ensures HasEntries(s, Accept(mid, p.r, ToMatch(p, tier)), front + [p], tier)
  {
    EndsAppend(front, p);
    var s' := Accept(mid, p.r, ToMatch(p, tier));
    forall q | q in front + [p] ensures q.r in s'.matches && s'.matches[q.r] == ToMatch(q, tier) {
      if q != p {
        assert q in front && q.r in RsOf(front);
      }
    }
  }

  lemma NewInMatching(ps: seq<Proposal>, usedR: set<nat>, usedT: set<nat>)
    requires IsMatching(ps, usedR, usedT) && ps != []
    ensures var front, p := ps[..|ps| - 1], ps[|ps| - 1];
            && IsMatching(front, usedR, usedT) && ps == front + [p]
            && p.r !in usedR && p.r !in RsOf(front) && p.t !in usedT && p.t !in TsOf(front)
  {
    assert ps[|ps| - 1] in ps;
    forall q | q in ps[..|ps| - 1] ensures q.r != ps[|ps| - 1].r && q.t != ps[|ps| - 1].t && q in ps {
    }
  }

  /** Which entries a list of free proposals adds. */
  lemma {:induction false} AcceptAllEntries(s: State, ps: seq<Proposal>, tier: Tier)
    requires tier != A && IsMatching(ps, s.matches.Keys, s.taken.Keys)
    ensures HasEntries(s, AcceptAll(s, ps, tier), ps, tier)
  {
    if ps != [] {
      NewInMatching(ps, s.matches.Keys, s.taken.Keys);
      var front, p := ps[..|ps| - 1], ps[|ps| - 1];
      AcceptAllEntries(s, front, tier);
      EntriesNext(s, AcceptAll(s, front, tier), front, p, tier);
    }
  }

  lemma {:induction false} AcceptAllConsistent(R: seq<Feature>, T: seq<Feature>, s: State, ps: seq<Proposal>,
                                               tier: Tier)
    requires Consistent(R, T, s) && Proposable(R, T, ps) && tier != A
    requires IsMatching(ps, s.matches.Keys, s.taken.Keys)
    ensures Consistent(R, T, AcceptAll(s, ps, tier)) && Extends(s, AcceptAll(s, ps, tier))
  {
    if ps != [] {
      var n := |ps| - 1;
      var front, p := ps[..n], ps[n];
      AcceptAllConsistent(R, T, s, front, tier);
      AcceptAllEntries(s, front, tier);
      var mid := AcceptAll(s, front, tier);
      assert p.r !in RsOf(front) && p.t !in TsOf(front) && p in ps;
      AcceptFree(R, T, mid, p.r, ToMatch(p, tier));
      ExtendsTransitive(s, mid, Accept(mid, p.r, ToMatch(p, tier)));
    }
  }
}
