/**
 Tier C of tools/re/match_rotwk.py: string literals that only one function of each binary refers to,
 counted as votes for a target.
 */
module StringVotes {
  import opened Matching
  import opened Candidates

  function OwnersIn(owners: map<string, set<nat>>, str: string): set<nat> {
    if str in owners then owners[str] else {}
  }

  method AddOwner(owners: map<string, set<nat>>, strs: seq<string>, i: nat) returns (more: map<string, set<nat>>)
    ensures forall str :: OwnersIn(more, str) == OwnersIn(owners, str) + (if str in strs then {i} else {})
  {
    more := owners;
    for k := 0 to |strs|
      invariant forall str :: OwnersIn(more, str) == OwnersIn(owners, str) + (if str in strs[..k] then {i} else {})
    {
      assert strs[..k + 1] == strs[..k] + [strs[k]];
      more := more[strs[k] := OwnersIn(more, strs[k]) + {i}];
    }
    assert strs[..|strs|] == strs;
  }

  method GatherOwners(F: seq<Feature>) returns (owners: map<string, set<nat>>)
    ensures forall str :: OwnersIn(owners, str) == Owners(F, str)
  {
    owners := map[];
    for i := 0 to |F|
      invariant forall str :: OwnersIn(owners, str) == Owners(F[..i], str)
    {
      ghost var before := owners;
      owners := AddOwner(owners, F[i].strs, i);
      forall str ensures OwnersIn(owners, str) == Owners(F[..i + 1], str) {
        assert OwnersIn(before, str) == Owners(F[..i], str);
      }
    }
    assert F[..|F|] == F;
  }

  lemma SingleOwner(owners: set<nat>, i: nat)
    requires |owners| == 1 && i in owners
    ensures owners == {i}
  {
    assert |owners - {i}| == 0;
  }

  function VotesFor(votes: map<nat, nat>, t: nat): nat {
    if t in votes then votes[t] else 0
  }

  /** The votes count the shared private strings that are no longer in rest. */
  ghost predicate Counted(R: seq<Feature>, T: seq<Feature>, r: nat, rest: set<string>, votes: map<nat, nat>)
    requires r < |R|
  {
    && (forall t: nat :: VotesFor(votes, t) == |SharedStrings(R, T, r, t) - rest|)
    && (forall t :: t in votes ==> votes[t] > 0)
  }

  lemma CountedNone(R: seq<Feature>, T: seq<Feature>, r: nat, all: set<string>)
    requires r < |R| && all == set str | str in R[r].strs
    ensures Counted(R, T, r, all, map[])
  {
    forall t: nat ensures VotesFor(map[], t) == |SharedStrings(R, T, r, t) - all| {
      assert SharedStrings(R, T, r, t) - all == {};
    }
  }

  lemma CountedAll(R: seq<Feature>, T: seq<Feature>, r: nat, votes: map<nat, nat>)
    requires r < |R| && Counted(R, T, r, {}, votes)
    ensures forall t: nat :: VotesFor(votes, t) == |SharedStrings(R, T, r, t)|
  {
    forall t: nat ensures VotesFor(votes, t) == |SharedStrings(R, T, r, t)| {
      assert SharedStrings(R, T, r, t) - {} == SharedStrings(R, T, r, t);
    }
  }

  lemma CountedPrivate(R: seq<Feature>, T: seq<Feature>, r: nat, rest: set<string>, str: string, votes: map<nat, nat>,
                       t: nat)
    requires r < |R| && Counted(R, T, r, rest, votes) && str in rest && str in SharedStrings(R, T, r, t)
    ensures Counted(R, T, r, rest - {str}, votes[t := VotesFor(votes, t) + 1])
  {
    var more := votes[t := VotesFor(votes, t) + 1];
    forall u: nat ensures VotesFor(more, u) == |SharedStrings(R, T, r, u) - (rest - {str})| {
      assert VotesFor(votes, u) == |SharedStrings(R, T, r, u) - rest|;
      OnePrivateTarget(R, T, r, str, t, u);
      WithoutNext(SharedStrings(R, T, r, u), rest, str);
    }
  }

  lemma WithoutNext(shared: set<string>, rest: set<string>, str: string)
    requires str in rest
    ensures |shared - (rest - {str})| == |shared - rest| + (if str in shared then 1 else 0)
  {
    if str in shared {
      assert shared - (rest - {str}) == shared - rest + {str};
    } else {
      assert shared - (rest - {str}) == shared - rest;
    }
  }

  lemma OnePrivateTarget(R: seq<Feature>, T: seq<Feature>, r: nat, str: string, t: nat, u: nat)
    requires r < |R| && str in SharedStrings(R, T, r, t)
    ensures str in SharedStrings(R, T, r, u) <==> u == t
  {
    assert t in Owners(T, str);
  }

  lemma CountedOther(R: seq<Feature>, T: seq<Feature>, r: nat, rest: set<string>, str: string, votes: map<nat, nat>)
    requires r < |R| && Counted(R, T, r, rest, votes)
    requires str in rest && (|str| < 4 || |Owners(R, str)| != 1 || |Owners(T, str)| != 1)
    ensures Counted(R, T, r, rest - {str}, votes)
  {
    forall u: nat ensures VotesFor(votes, u) == |SharedStrings(R, T, r, u) - (rest - {str})| {
      assert VotesFor(votes, u) == |SharedStrings(R, T, r, u) - rest|;
      WithoutNext(SharedStrings(R, T, r, u), rest, str);
    }
  }

  method CountVotes(R: seq<Feature>, T: seq<Feature>, r: nat, rs: map<string, set<nat>>, ts: map<string, set<nat>>)
    returns (votes: map<nat, nat>)
    requires r < |R|
    requires (forall str :: OwnersIn(rs, str) == Owners(R, str)) && (forall str :: OwnersIn(ts, str) == Owners(T, str))
    ensures forall t: nat :: VotesFor(votes, t) == |SharedStrings(R, T, r, t)|
    ensures forall t :: t in votes ==> votes[t] > 0
  {
    votes := map[];
    var rest := set str | str in R[r].strs;
    CountedNone(R, T, r, rest);
    while rest != {}
      invariant forall str :: str in rest ==> str in R[r].strs
      invariant Counted(R, T, r, rest, votes)
      decreases rest
    {
      var str :| str in rest;
      if |str| >= 4 && |OwnersIn(rs, str)| == 1 && |OwnersIn(ts, str)| == 1 {
        assert OwnersIn(rs, str) == Owners(R, str) && OwnersIn(ts, str) == Owners(T, str);
        SingleOwner(Owners(R, str), r);
        var t :| t in OwnersIn(ts, str);
        SingleOwner(Owners(T, str), t);
        CountedPrivate(R, T, r, rest, str, votes, t);
        votes := votes[t := VotesFor(votes, t) + 1];
      } else {
        CountedOther(R, T, r, rest, str, votes);
      }
      rest := rest - {str};
    }
    CountedAll(R, T, r, votes);
  }

  /** `most_common(1)`: a target with the most votes, whichever of the equals. */
  method BestVote(votes: map<nat, nat>) returns (t: nat)
    requires votes != map[]
    ensures t in votes && forall u :: u in votes ==> votes[u] <= votes[t]
  {
    t :| t in votes;
    var rest := votes.Keys - {t};
    while rest != {}
      invariant rest <= votes.Keys && t in votes
      invariant forall u :: u in votes && u !in rest ==> votes[u] <= votes[t]
      decreases rest
    {
      var u :| u in rest;
      rest := rest - {u};
      if votes[u] > votes[t] {
        t := u;
      }
    }
  }

  lemma SharedTargetsExist(R: seq<Feature>, T: seq<Feature>, r: nat, t: nat)
    requires r < |R| && SharedStrings(R, T, r, t) != {}
    ensures t < |T|
  {
    var str :| str in SharedStrings(R, T, r, t);
    assert t in Owners(T, str);
  }
}
