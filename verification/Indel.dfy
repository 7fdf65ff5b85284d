/**
 What `similarity` of tools/re/match_rotwk.py measures: the least number of tokens to insert or delete
 on the way from one sequence to the other.
 */
module Indel {
  import opened Lcs

  ghost function Without<T>(s: seq<T>, i: nat): seq<T>
    requires i < |s|
  {
    s[..i] + s[i + 1..]
  }

  /** t is s with the token at i deleted. */
  ghost predicate IsDeletion<T>(s: seq<T>, t: seq<T>, i: nat) {
    i < |s| && t == Without(s, i)
  }

  /** One token deleted, or one inserted. */
  ghost predicate IsEdit<T>(s: seq<T>, t: seq<T>) {
    exists i: nat :: IsDeletion(s, t, i) || IsDeletion(t, s, i)
  }

  /** n edits lead from a to b. */
  ghost predicate Reaches<T(!new)>(a: seq<T>, b: seq<T>, n: nat)
    decreases n
  {
    if n == 0 then a == b else exists m: seq<T> :: IsEdit(a, m) && Reaches(m, b, n - 1)
  }

  // ----- no shorter way

  lemma EmbedsWithout<T>(c: seq<T>, s: seq<T>, at: seq<nat>, cut: nat)
    requires Embeds(c, s, at) && cut < |c|
    ensures IsSubsequence(Without(c, cut), s)
  {
    EmbeddingIsSubsequence(Without(c, cut), s, Without(at, cut));
  }

  /** What does not use the deleted token is embedded in the rest. */
  lemma EmbedsBeside<T>(c: seq<T>, s: seq<T>, i: nat, at: seq<nat>)
    requires Embeds(c, s, at) && i < |s| && forall k :: 0 <= k < |at| ==> at[k] != i
    ensures IsSubsequence(c, Without(s, i))
  {
    var to := seq(|c|, j requires 0 <= j < |c| => if at[j] < i then at[j] else (at[j] - 1) as nat);
    EmbeddingIsSubsequence(c, Without(s, i), to);
  }

  lemma EmbedsBefore<T>(c: seq<T>, s: seq<T>, i: nat, at: seq<nat>)
    requires i < |s| && Embeds(c, Without(s, i), at)
    ensures IsSubsequence(c, s)
  {
    var to := seq(|c|, j requires 0 <= j < |c| => if at[j] < i then at[j] else at[j] + 1);
    EmbeddingIsSubsequence(c, s, to);
  }

  /** A common subsequence loses one token at most. */
  lemma CommonWithout<T>(c: seq<T>, s: seq<T>, b: seq<T>, i: nat) returns (d: seq<T>)
    requires IsCommon(c, s, b) && i < |s|
    ensures IsCommon(d, Without(s, i), b) && |d| >= |c| - 1
  {
    d := c;
    var at := SubsequenceEmbeds(c, s);
    var to := SubsequenceEmbeds(c, b);
    if k: nat :| k < |at| && at[k] == i {
      d := Without(c, k);
      EmbedsWithout(c, b, to, k);
      assert Embeds(d, s, Without(at, k));
      EmbedsBeside(d, s, i, Without(at, k));
    } else {
      EmbedsBeside(c, s, i, at);
    }
  }

  lemma LcsOfDeletion<T(!new)>(s: seq<T>, i: nat, b: seq<T>)
    requires i < |s|
    ensures Lcs.Lcs(Without(s, i), b) <= Lcs.Lcs(s, b) <= Lcs.Lcs(Without(s, i), b) + 1
  {
    var t := Without(s, i);
    LcsIsLongestCommon(s, b);
    LcsIsLongestCommon(t, b);
    var c: seq<T> :| IsCommon(c, s, b) && |c| == Lcs.Lcs(s, b);
    var d := CommonWithout(c, s, b, i);
    var e: seq<T> :| IsCommon(e, t, b) && |e| == Lcs.Lcs(t, b);
    var at := SubsequenceEmbeds(e, t);
    EmbedsBefore(e, s, i, at);
    assert IsCommon(e, s, b);
  }

  /** What is left to insert and delete once the longest common subsequence is kept. */
  ghost function Distance<T>(a: seq<T>, b: seq<T>): int {
    |a| + |b| - 2 * Lcs.Lcs(a, b)
  }

  lemma {:induction false} NoShorterWay<T(!new)>(a: seq<T>, b: seq<T>, n: nat)
    requires Reaches(a, b, n)
    ensures n >= Distance(a, b)
    decreases n
  {
    if n == 0 {
      SimilarityIsAScore(a, b);
    } else {
      var m: seq<T> :| IsEdit(a, m) && Reaches(m, b, n - 1);
      NoShorterWay(m, b, n - 1);
      var i: nat :| IsDeletion(a, m, i) || IsDeletion(m, a, i);
      if IsDeletion(a, m, i) {
        LcsOfDeletion(a, i, b);
      } else {
        LcsOfDeletion(m, i, b);
      }
    }
  }

  // ----- a way of that length

  lemma {:induction false} Joins<T(!new)>(a: seq<T>, m: seq<T>, b: seq<T>, i: nat, j: nat)
    requires Reaches(a, m, i) && Reaches(m, b, j)
    ensures Reaches(a, b, i + j)
    decreases i
  {
    if i > 0 {
      var next: seq<T> :| IsEdit(a, next) && Reaches(next, m, i - 1);
      Joins(next, m, b, i - 1, j);
    }
  }

  lemma OneEdit<T(!new)>(a: seq<T>, b: seq<T>)
    requires IsEdit(a, b)
    ensures Reaches(a, b, 1) && Reaches(b, a, 1)
  {
    assert Reaches(b, b, 0) && Reaches(a, a, 0) && IsEdit(b, a);
  }

  /** The same edits in front of one more token. */
  lemma {:induction false} ReachesInFront<T(!new)>(a: seq<T>, b: seq<T>, n: nat, x: T)
    requires Reaches(a, b, n)
    ensures Reaches(a + [x], b + [x], n)
    decreases n
  {
    if n > 0 {
      var m: seq<T> :| IsEdit(a, m) && Reaches(m, b, n - 1);
      ReachesInFront(m, b, n - 1, x);
      EditInFront(a, m, x);
    }
  }

  lemma DeletionInFront<T>(s: seq<T>, t: seq<T>, i: nat, x: T)
    requires IsDeletion(s, t, i)
    ensures IsDeletion(s + [x], t + [x], i)
  {
    assert (s + [x])[..i] == s[..i] && (s + [x])[i + 1..] == s[i + 1..] + [x];
    assert s[..i] + (s[i + 1..] + [x]) == (s[..i] + s[i + 1..]) + [x];
  }

  lemma EditInFront<T>(a: seq<T>, m: seq<T>, x: T)
    requires IsEdit(a, m)
    ensures IsEdit(a + [x], m + [x])
  {
    var i: nat :| IsDeletion(a, m, i) || IsDeletion(m, a, i);
    hide IsDeletion;
    if IsDeletion(a, m, i) {
      DeletionInFront(a, m, i, x);
    } else {
      DeletionInFront(m, a, i, x);
    }
  }

  lemma SubsequenceOfFront<T>(c: seq<T>, front: seq<T>, x: T)
    requires IsSubsequence(c, front + [x])
    ensures if c != [] && c[|c| - 1] == x then IsSubsequence(c[..|c| - 1], front) else IsSubsequence(c, front)
  {
    assert (front + [x])[..|front|] == front;
  }

  lemma EmptyReached<T(!new)>(c: seq<T>)
    requires IsSubsequence(c, [])
    ensures c == [] && Reaches([], c, 0) && Reaches(c, [], 0)
  {
  }

  /** A subsequence is reached by deletions, and leads back by insertions. */
  lemma {:induction false} SubsequenceReached<T(!new)>(s: seq<T>, c: seq<T>)
    requires IsSubsequence(c, s)
    ensures |c| <= |s| && Reaches(s, c, |s| - |c|) && Reaches(c, s, |s| - |c|)
    decreases |s|
  {
    hide Reaches, IsSubsequence;
    if s == [] {
      EmptyReached(c);
    } else {
      var n := |s| - 1;
      var front := s[..n];
      assert s == front + [s[n]];
      SubsequenceOfFront(c, front, s[n]);
      if c != [] && c[|c| - 1] == s[n] {
        var z := |c| - 1;
        SubsequenceReached(front, c[..z]);
        KeptLast(front, c[..z], n - z, s[n]);
        assert c == c[..z] + [s[n]];
      } else {
        SubsequenceReached(front, c);
        DroppedLast(front, c, n - |c|, s[n]);
      }
    }
  }

  lemma KeptLast<T(!new)>(front: seq<T>, c: seq<T>, n: nat, x: T)
    requires Reaches(front, c, n) && Reaches(c, front, n)
    ensures Reaches(front + [x], c + [x], n) && Reaches(c + [x], front + [x], n)
  {
    ReachesInFront(front, c, n, x);
    ReachesInFront(c, front, n, x);
  }

  lemma DroppedLast<T(!new)>(front: seq<T>, c: seq<T>, n: nat, x: T)
    requires Reaches(front, c, n) && Reaches(c, front, n)
    ensures Reaches(front + [x], c, n + 1) && Reaches(c, front + [x], n + 1)
  {
    var s := front + [x];
    assert front == Without(s, |front|);
    assert IsDeletion(s, front, |front|);
    OneEdit(s, front);
    Joins(s, front, c, 1, n);
    Joins(c, front, s, n, 1);
  }

  /** The distance is the least number of edits. */
  lemma DistanceIsLeast<T(!new)>(a: seq<T>, b: seq<T>)
    ensures Distance(a, b) >= 0 && Reaches(a, b, Distance(a, b))
    ensures forall n: nat :: Reaches(a, b, n) ==> n >= Distance(a, b)
  {
    hide Reaches;
    LcsIsLongestCommon(a, b);
    var c: seq<T> :| IsCommon(c, a, b) && |c| == Lcs.Lcs(a, b);
    SubsequenceReached(a, c);
    SubsequenceReached(b, c);
    Joins(a, c, b, |a| - |c|, |b| - |c|);
    forall n: nat | Reaches(a, b, n) ensures n >= Distance(a, b) {
      NoShorterWay(a, b, n);
    }
  }

  /** What similarity leaves to 1, of both lengths, is the least number of insertions and deletions. */
  lemma SimilarityIsIndel<T(!new)>(a: seq<T>, b: seq<T>) returns (least: nat)
    ensures Reaches(a, b, least) && forall n: nat :: Reaches(a, b, n) ==> n >= least
    ensures (1.0 - Similarity(a, b)) * (|a| + |b|) as real == least as real
  {
    hide Reaches;
    DistanceIsLeast(a, b);
    least := Distance(a, b);
    if |a| + |b| > 0 {
      LeftOfQuotient(2.0 * Lcs.Lcs(a, b) as real, (|a| + |b|) as real);
    }
  }

  lemma LeftOfQuotient(x: real, total: real)
    requires total > 0.0
    ensures (1.0 - x / total) * total == total - x
  {
    var q := x / total;
    assert q * total == x;
    assert (1.0 - q) * total == total - q * total;
  }
}
