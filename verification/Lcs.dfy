/**
 The bit-parallel longest common subsequence of tools/re/match_rotwk.py (`lcs_len`, `similarity`),
 proved against the textbook recurrence, and the recurrence against the longest subsequence that
 both token sequences really share.
 */
module Lcs {
  import opened PyInt

  // ----- the textbook table

  /** Table entry (i, j): the length for the first i tokens of a and the first j tokens of b. */
  ghost function Table<T>(a: seq<T>, b: seq<T>, i: nat, j: nat): nat
    requires i <= |a| && j <= |b|
  {
    if i == 0 || j == 0 then 0
    else if a[i - 1] == b[j - 1] then Table(a, b, i - 1, j - 1) + 1
    else Max(Table(a, b, i - 1, j), Table(a, b, i, j - 1))
  }

  ghost function Lcs<T>(a: seq<T>, b: seq<T>): nat {
    Table(a, b, |a|, |b|)
  }

  /** Neighbouring table entries differ by 0 or 1 in both directions. */
  lemma {:induction false} TableSteps<T>(a: seq<T>, b: seq<T>, i: nat, j: nat)
    requires i <= |a| && j <= |b|
    ensures i < |a| ==> Table(a, b, i, j) <= Table(a, b, i + 1, j) <= Table(a, b, i, j) + 1
    ensures j < |b| ==> Table(a, b, i, j) <= Table(a, b, i, j + 1) <= Table(a, b, i, j) + 1
    decreases i + j
  {
    if i > 0 { TableSteps(a, b, i - 1, j); }
    if j > 0 { TableSteps(a, b, i, j - 1); }
    if i > 0 && j > 0 { TableSteps(a, b, i - 1, j - 1); }
  }

  // ----- what the table means

  /** c can be read off s by dropping tokens. */
  ghost predicate IsSubsequence<T>(c: seq<T>, s: seq<T>)
    decreases |s|
  {
    if c == [] then true
    else if s == [] then false
    else if c[|c| - 1] == s[|s| - 1] then IsSubsequence(c[..|c| - 1], s[..|s| - 1])
    else IsSubsequence(c, s[..|s| - 1])
  }

  /** The index form of the same relation: c's tokens sit at increasing positions of s. */
  ghost predicate Embeds<T>(c: seq<T>, s: seq<T>, at: seq<nat>) {
    && |at| == |c|
    && (forall k :: 0 <= k < |c| ==> at[k] < |s| && s[at[k]] == c[k])
    && (forall k, l :: 0 <= k < l < |at| ==> at[k] < at[l])
  }

  lemma {:induction false} EmbeddingIsSubsequence<T>(c: seq<T>, s: seq<T>, at: seq<nat>)
    requires Embeds(c, s, at)
    ensures IsSubsequence(c, s)
    decreases |s|
  {
    if c != [] {
      var n := |c| - 1;
      assert at[n] < |s|;
      if c[n] == s[|s| - 1] {
        assert forall k :: 0 <= k < n ==> at[k] < at[n] <= |s| - 1;
        EmbeddingIsSubsequence(c[..n], s[..|s| - 1], at[..n]);
      } else {
        assert forall k :: 0 <= k < |c| ==> at[k] <= at[n] && at[k] != |s| - 1;
        EmbeddingIsSubsequence(c, s[..|s| - 1], at);
      }
    }
  }

  lemma {:induction false} SubsequenceEmbeds<T>(c: seq<T>, s: seq<T>) returns (at: seq<nat>)
    requires IsSubsequence(c, s)
    ensures Embeds(c, s, at)
    decreases |s|
  {
    at := [];
    if c != [] {
      var m := |s| - 1;
      if c[|c| - 1] == s[m] {
        var shorter := SubsequenceEmbeds(c[..|c| - 1], s[..m]);
        at := shorter + [m];
      } else {
        at := SubsequenceEmbeds(c, s[..m]);
      }
    }
  }

  lemma {:induction false} SubsequenceWeaken<T>(c: seq<T>, s: seq<T>)
    requires IsSubsequence(c, s)
    ensures c != [] ==> IsSubsequence(c[..|c| - 1], s)
    ensures forall x :: IsSubsequence(c, s + [x])
  {
    var at := SubsequenceEmbeds(c, s);
    if c != [] {
      EmbeddingIsSubsequence(c[..|c| - 1], s, at[..|c| - 1]);
    }
    forall x ensures IsSubsequence(c, s + [x]) {
      EmbeddingIsSubsequence(c, s + [x], at);
    }
  }

  /** No common subsequence is longer than the table says. */
  lemma {:induction false} TableIsUpperBound<T>(a: seq<T>, b: seq<T>, i: nat, j: nat, c: seq<T>)
    requires i <= |a| && j <= |b|
    requires IsSubsequence(c, a[..i]) && IsSubsequence(c, b[..j])
    ensures |c| <= Table(a, b, i, j)
    decreases i + j
  {
    if c != [] {
      var front := c[..|c| - 1];
      assert i > 0 ==> a[..i][..i - 1] == a[..i - 1];
      assert j > 0 ==> b[..j][..j - 1] == b[..j - 1];
      if a[i - 1] == b[j - 1] {
        if c[|c| - 1] != a[i - 1] {
          SubsequenceWeaken(c, a[..i - 1]);
          SubsequenceWeaken(c, b[..j - 1]);
        }
        TableIsUpperBound(a, b, i - 1, j - 1, front);
      } else if c[|c| - 1] != a[i - 1] {
        TableIsUpperBound(a, b, i - 1, j, c);
      } else {
        TableIsUpperBound(a, b, i, j - 1, c);
      }
    }
  }

  /** Some common subsequence has the table's length. */
  lemma {:induction false} TableIsReached<T>(a: seq<T>, b: seq<T>, i: nat, j: nat) returns (c: seq<T>)
    requires i <= |a| && j <= |b|
    ensures |c| == Table(a, b, i, j)
    ensures IsSubsequence(c, a[..i]) && IsSubsequence(c, b[..j])
    decreases i + j
  {
    c := [];
    if i > 0 && j > 0 {
      assert a[..i] == a[..i - 1] + [a[i - 1]] && b[..j] == b[..j - 1] + [b[j - 1]];
      if a[i - 1] == b[j - 1] {
        var front := TableIsReached(a, b, i - 1, j - 1);
        c := front + [a[i - 1]];
        assert c[..|c| - 1] == front && a[..i][..i - 1] == a[..i - 1] && b[..j][..j - 1] == b[..j - 1];
      } else if Table(a, b, i - 1, j) >= Table(a, b, i, j - 1) {
        c := TableIsReached(a, b, i - 1, j);
        SubsequenceWeaken(c, a[..i - 1]);
      } else {
        c := TableIsReached(a, b, i, j - 1);
        SubsequenceWeaken(c, b[..j - 1]);
      }
    }
  }

  ghost predicate IsCommon<T>(c: seq<T>, a: seq<T>, b: seq<T>) {
    IsSubsequence(c, a) && IsSubsequence(c, b)
  }

  /** Lcs is the greatest length of a common subsequence. */
  lemma LcsIsLongestCommon<T(!new)>(a: seq<T>, b: seq<T>)
    ensures exists c: seq<T> :: IsCommon(c, a, b) && |c| == Lcs(a, b)
    ensures forall c: seq<T> :: IsCommon(c, a, b) ==> |c| <= Lcs(a, b)
  {
    assert a[..|a|] == a && b[..|b|] == b;
    var c := TableIsReached(a, b, |a|, |b|);
    assert IsCommon(c, a, b);
    forall d: seq<T> | IsCommon(d, a, b) ensures |d| <= Lcs(a, b) {
      TableIsUpperBound(a, b, |a|, |b|, d);
    }
  }

  lemma {:induction false} TableSymmetric<T>(a: seq<T>, b: seq<T>, i: nat, j: nat)
    requires i <= |a| && j <= |b|
    ensures Table(a, b, i, j) == Table(b, a, j, i)
    decreases i + j
  {
    if i > 0 && j > 0 {
      TableSymmetric(a, b, i - 1, j - 1);
      TableSymmetric(a, b, i - 1, j);
      TableSymmetric(a, b, i, j - 1);
    }
  }

  lemma {:induction false} SubsequenceLength<T>(c: seq<T>, s: seq<T>)
    requires IsSubsequence(c, s)
    ensures |c| <= |s|
    ensures |c| == |s| ==> c == s
    decreases |s|
  {
    if c != [] {
      var n := |s| - 1;
      if c[|c| - 1] == s[n] {
        SubsequenceLength(c[..|c| - 1], s[..n]);
        assert c == c[..|c| - 1] + [c[|c| - 1]] && s == s[..n] + [s[n]];
      } else {
        SubsequenceLength(c, s[..n]);
      }
    }
  }

  lemma {:induction false} SubsequenceOfSelf<T>(s: seq<T>)
    ensures IsSubsequence(s, s)
  {
    EmbeddingIsSubsequence(s, s, seq(|s|, k requires 0 <= k => k));
  }

  // ----- the bit rows

  /** Bit i of the row after j tokens of b: the table step from i to i + 1 in column j. */
  ghost function StepBit<T>(a: seq<T>, b: seq<T>, i: nat, j: nat): int
    requires i < |a| && j <= |b|
  {
    Table(a, b, i + 1, j) - Table(a, b, i, j)
  }

  /** The row word of column j, from bit i up. */
  ghost function Row<T>(a: seq<T>, b: seq<T>, i: nat, j: nat): int
    requires i <= |a| && j <= |b|
    decreases |a| - i
  {
    if i == |a| then 0 else StepBit(a, b, i, j) + 2 * Row(a, b, i + 1, j)
  }

  /** The positions of tok in s, as a word. */
  ghost function Mask<T>(s: seq<T>, tok: T): nat {
    if s == [] then 0 else (if s[0] == tok then 1 else 0) + 2 * Mask(s[1..], tok)
  }

  lemma {:induction false} MaskAppend<T>(s: seq<T>, x: T, tok: T)
    ensures Mask(s + [x], tok) == if x == tok then Bitwise(Or, Mask(s, tok), Pow2(|s|)) else Mask(s, tok)
  {
    if s == [] {
      OrZero(1);
      assert Mask([], tok) == 0;
    } else {
      assert (s + [x])[1..] == s[1..] + [x];
      MaskAppend(s[1..], x, tok);
      BitwiseCons(Or, if s[0] == tok then 1 else 0, Mask(s[1..], tok), 0, Pow2(|s| - 1));
    }
  }

  /** The word operation that the loop applies, with the borrow made explicit. */
  function NextBits(x: int, y: int, borrow: int): int {
    Bitwise(And, x, Bitwise(Xor, x - y - borrow, x))
  }

  function Owed(p: int, q: int, borrow: int): (owed: int)
    ensures owed == 0 || owed == 1
  {
    if p < q + borrow then 1 else 0
  }

  /** One bit of the subtraction, and the borrow it hands on. */
  lemma SubtractBit(p: int, x: int, q: int, y: int, borrow: int)
    requires 0 <= p < 2 && 0 <= q < 2 && 0 <= borrow < 2
    ensures p + 2 * x - (q + 2 * y) - borrow
              == LowBit(Xor, p, LowBit(Xor, q, borrow)) + 2 * (x - y - Owed(p, q, borrow))
  {
  }

  lemma NextBitsCons(p: int, x: int, q: int, y: int, borrow: int)
    requires 0 <= p < 2 && 0 <= q < 2 && 0 <= borrow < 2
    ensures NextBits(p + 2 * x, q + 2 * y, borrow) ==
            LowBit(And, p, LowBit(Xor, q, borrow)) + 2 * NextBits(x, y, Owed(p, q, borrow))
  {
    var low := LowBit(Xor, p, LowBit(Xor, q, borrow));
    var d := x - y - Owed(p, q, borrow);
    SubtractBit(p, x, q, y, borrow);
    BitwiseCons(Xor, low, d, p, x);
    var changed := Bitwise(Xor, d, x);
    BitwiseCons(And, p, x, LowBit(Xor, low, p), changed);
  }

  /** Table step to the right at height i. */
  ghost function RightStep<T>(a: seq<T>, b: seq<T>, i: nat, j: nat): int
    requires i <= |a| && j < |b|
  {
    Table(a, b, i, j + 1) - Table(a, b, i, j)
  }

  /** The recurrence, told in steps: how the two steps out of a cell follow from the two steps into it. */
  lemma StepRule<T>(a: seq<T>, b: seq<T>, i: nat, j: nat)
    requires i < |a| && j < |b|
    ensures var hit := a[i] == b[j]; var v := StepBit(a, b, i, j); var h := RightStep(a, b, i, j);
            && 0 <= v <= 1 && 0 <= h <= 1
            && StepBit(a, b, i, j + 1) == (if (hit || v == 1) && h == 0 then 1 else 0)
            && RightStep(a, b, i + 1, j) == (if (hit || h == 1) && v == 0 then 1 else 0)
  {
    TableSteps(a, b, i, j);
    TableSteps(a, b, i + 1, j);
    TableSteps(a, b, i, j + 1);
  }

  /** The next row, with the bit shifted in from below and the borrow as parameters. */
  ghost function NextRow(mask: int, row: int, below: int, borrow: int): int {
    NextBits(Bitwise(Or, mask, row), below + 2 * row, borrow)
  }

  /** One bit of the word operation on a word split into its low bit and its rest. */
  lemma AdvanceBit(hit: int, mask: int, v: int, row: int, below: int, borrow: int, h: int)
    requires 0 <= hit < 2 && 0 <= v < 2 && 0 <= below < 2 && 0 <= borrow < 2
    requires below + borrow == 1 - h && 0 <= h
    ensures var p := LowBit(Or, hit, v);
            && NextRow(hit + 2 * mask, v + 2 * row, below, borrow)
               == (if p == 1 && h == 0 then 1 else 0) + 2 * NextRow(mask, row, v, Owed(p, below, borrow))
            && v + Owed(p, below, borrow) == 1 - (if (hit == 1 || h == 1) && v == 0 then 1 else 0)
  {
    BitwiseCons(Or, hit, mask, v, row);
    var x := Bitwise(Or, mask, row);
    NextBitsCons(LowBit(Or, hit, v), x, below, v + 2 * row, borrow);
  }

  lemma NoBits(below: int, borrow: int)
    ensures NextRow(0, 0, below, borrow) == 0
  {
    OrZero(0);
    AndZero(Bitwise(Xor, 0 - below - borrow, 0));
  }

  /**
   The heart of the algorithm: from bit i up, the word operation turns column j into column j + 1.
   A table step to the right at height i shows as equality of the shifted row bit and the borrow,
   and then both are 0.
   */
  lemma {:induction false} RowAdvances<T>(a: seq<T>, b: seq<T>, i: nat, j: nat, below: int, borrow: int)
    requires i <= |a| && j < |b|
    requires 0 <= below < 2 && 0 <= borrow < 2
    requires below + borrow == 1 - RightStep(a, b, i, j)
    ensures NextRow(Mask(a[i..], b[j]), Row(a, b, i, j), below, borrow) == Row(a, b, i, j + 1)
    decreases |a| - i
  {
    if i == |a| {
      NoBits(below, borrow);
    } else {
      var hit := if a[i] == b[j] then 1 else 0;
      var v := StepBit(a, b, i, j);
      MaskSplits(a, i, b[j]);
      OwedStep(a, b, i, j, hit, v, below, borrow);
      RowAdvances(a, b, i + 1, j, v, Owed(LowBit(Or, hit, v), below, borrow));
      RowStep(a, b, i, j, hit, v, Mask(a[i + 1..], b[j]), Row(a, b, i + 1, j), below, borrow,
              Mask(a[i..], b[j]), Row(a, b, i, j), Row(a, b, i + 1, j + 1));
    }
  }

  /** The borrow handed on goes with the table step one cell higher. */
  lemma OwedStep<T>(a: seq<T>, b: seq<T>, i: nat, j: nat, hit: int, v: int, below: int, borrow: int)
    requires i < |a| && j < |b| && hit == (if a[i] == b[j] then 1 else 0) && v == StepBit(a, b, i, j)
    requires 0 <= below < 2 && 0 <= borrow < 2 && below + borrow == 1 - RightStep(a, b, i, j)
    ensures 0 <= v < 2 && v + Owed(LowBit(Or, hit, v), below, borrow) == 1 - RightStep(a, b, i + 1, j)
  {
    StepRule(a, b, i, j);
  }

  lemma RowStep<T>(a: seq<T>, b: seq<T>, i: nat, j: nat, hit: int, v: int, mask: int, row: int, below: int, borrow: int,
                   word: int, bits: int, next: int)
    requires i < |a| && j < |b| && hit == (if a[i] == b[j] then 1 else 0) && v == StepBit(a, b, i, j)
    requires 0 <= below < 2 && 0 <= borrow < 2 && below + borrow == 1 - RightStep(a, b, i, j)
    requires word == hit + 2 * mask && bits == v + 2 * row
    requires NextRow(mask, row, v, Owed(LowBit(Or, hit, v), below, borrow)) == next
    ensures NextRow(word, bits, below, borrow) == StepBit(a, b, i, j + 1) + 2 * next
  {
    StepRule(a, b, i, j);
    AdvanceBit(hit, mask, v, row, below, borrow, RightStep(a, b, i, j));
  }

  lemma MaskSplits<T>(a: seq<T>, i: nat, tok: T)
    requires i < |a|
    ensures Mask(a[i..], tok) == (if a[i] == tok then 1 else 0) + 2 * Mask(a[i + 1..], tok)
  {
    assert a[i..][1..] == a[i + 1..];
  }

  lemma {:induction false} RowCounts<T>(a: seq<T>, b: seq<T>, i: nat, j: nat)
    requires i <= |a| && j <= |b|
    ensures Row(a, b, i, j) >= 0
    ensures BitCount(Row(a, b, i, j)) == Table(a, b, |a|, j) - Table(a, b, i, j)
    decreases |a| - i
  {
    if i < |a| {
      TableSteps(a, b, i, j);
      RowCounts(a, b, i + 1, j);
      CountLowBit(StepBit(a, b, i, j), Row(a, b, i + 1, j), Row(a, b, i, j));
    }
  }

  lemma CountLowBit(bit: int, rest: nat, word: int)
    requires 0 <= bit <= 1 && word == bit + 2 * rest
    ensures word >= 0 && BitCount(word) == bit + BitCount(rest)
  {
    assert word % 2 == bit && word / 2 == rest;
  }

  lemma {:induction false} FirstRowIsZero<T>(a: seq<T>, b: seq<T>, i: nat)
    requires i <= |a|
    ensures Row(a, b, i, 0) == 0
    decreases |a| - i
  {
    if i < |a| {
      FirstRowIsZero(a, b, i + 1);
    }
  }

  // ----- the algorithm

  function MaskOf<T(==)>(masks: map<T, int>, tok: T): int {
    if tok in masks then masks[tok] else 0
  }

  method BuildMasks<T(==)>(a: seq<T>) returns (masks: map<T, int>)
    ensures forall tok :: MaskOf(masks, tok) == Mask(a, tok)
  {
    masks := map[];
    for i := 0 to |a|
      invariant forall tok :: MaskOf(masks, tok) == Mask(a[..i], tok)
    {
      ghost var before := masks;
      masks := masks[a[i] := Bitwise(Or, MaskOf(masks, a[i]), Pow2(i))];
      assert a[..i + 1] == a[..i] + [a[i]];
      forall tok ensures MaskOf(masks, tok) == Mask(a[..i + 1], tok) {
        assert MaskOf(before, tok) == Mask(a[..i], tok);
        MaskAppend(a[..i], a[i], tok);
      }
    }
    assert a[..|a|] == a;
  }

  method LcsLen<T(==)>(a0: seq<T>, b0: seq<T>) returns (n: nat)
    ensures n == Lcs(a0, b0)
  {
    var a, b := a0, b0;
    if |a| < |b| {
      a, b := b, a;
    }
    var masks := BuildMasks(a);
    var row := 0;
    FirstRowIsZero(a, b, 0);
    for j := 0 to |b|
      invariant row == Row(a, b, 0, j)
    {
      NextRowIs(a, b, j, row, MaskOf(masks, b[j]));
      var x := Bitwise(Or, MaskOf(masks, b[j]), row);
      row := Bitwise(And, x, Bitwise(Xor, x - Bitwise(Or, 2 * row, 1), x));
    }
    RowCounts(a, b, 0, |b|);
    TableSymmetric(a, b, |a|, |b|);
    n := BitCount(row);
  }

  /** One token of b takes the row of a column to the row of the next. */
  lemma NextRowIs<T>(a: seq<T>, b: seq<T>, j: nat, row: int, mask: int)
    requires j < |b| && row == Row(a, b, 0, j) && mask == Mask(a, b[j])
    ensures var x := Bitwise(Or, mask, row);
            Row(a, b, 0, j + 1) == Bitwise(And, x, Bitwise(Xor, x - Bitwise(Or, 2 * row, 1), x))
  {
    assert a[0..] == a;
    RowAdvances(a, b, 0, j, 1, 0);
    NextRowWithoutBorrow(mask, row);
  }

  lemma NextRowWithoutBorrow(mask: int, row: int)
    ensures var x := Bitwise(Or, mask, row);
            NextRow(mask, row, 1, 0) == Bitwise(And, x, Bitwise(Xor, x - Bitwise(Or, 2 * row, 1), x))
  {
    OrShiftedOne(row);
  }

  /** `(row << 1) | 1` sets the low bit that the shift cleared. */
  lemma OrShiftedOne(row: int)
    ensures Bitwise(Or, 2 * row, 1) == 1 + 2 * row
  {
    BitwiseCons(Or, 0, row, 1, 0);
    OrZero(row);
  }

  ghost function Similarity<T>(a: seq<T>, b: seq<T>): real {
    if |a| + |b| == 0 then 1.0 else 2.0 * Lcs(a, b) as real / (|a| + |b|) as real
  }

  method ComputeSimilarity<T(==)>(a: seq<T>, b: seq<T>) returns (s: real)
    ensures s == Similarity(a, b)
  {
    var n := |a| + |b|;
    if n == 0 {
      return 1.0;
    }
    var common := LcsLen(a, b);
    s := 2.0 * common as real / n as real;
  }

  lemma LcsAtMostLengths<T>(a: seq<T>, b: seq<T>)
    ensures Lcs(a, b) <= |a| && Lcs(a, b) <= |b|
    ensures Lcs(a, b) == |a| == |b| ==> a == b
  {
    assert a[..|a|] == a && b[..|b|] == b;
    var c := TableIsReached(a, b, |a|, |b|);
    SubsequenceLength(c, a);
    SubsequenceLength(c, b);
  }

  /** Similarity is a symmetric score in [0, 1] that is 1 for equal sequences and only for them. */
  lemma SimilarityIsAScore<T>(a: seq<T>, b: seq<T>)
    ensures Similarity(a, b) == Similarity(b, a)
    ensures 0.0 <= Similarity(a, b) <= 1.0
    ensures Similarity(a, b) == 1.0 <==> a == b
  {
    TableSymmetric(a, b, |a|, |b|);
    LcsAtMostLengths(a, b);
    if a == b {
      SubsequenceOfSelf(a);
      assert a[..|a|] == a;
      TableIsUpperBound(a, b, |a|, |b|, a);
    }
    if |a| + |b| > 0 {
      ScoreBounds(Lcs(a, b), |a|, |b|);
    }
  }

  lemma ScoreBounds(common: nat, m: nat, n: nat)
    requires common <= m && common <= n && m + n > 0
    ensures 0.0 <= 2.0 * common as real / (m + n) as real <= 1.0
    ensures 2.0 * common as real / (m + n) as real == 1.0 <==> common == m == n
  {
    var part, total := 2.0 * common as real, (m + n) as real;
    Quotient(part, total);
    ShareBounds(part / total, part, total);
    assert (m + n) as real == m as real + n as real;
  }

  lemma Quotient(x: real, total: real)
    requires total > 0.0
    ensures (x / total) * total == x
  {
  }

  lemma ShareBounds(share: real, part: real, total: real)
    requires total > 0.0 && share * total == part && 0.0 <= part <= total
    ensures 0.0 <= share <= 1.0 && (share == 1.0 <==> part == total)
  {
    if share < 0.0 {
      NegativeProduct(share, total);
    } else if share > 1.0 {
      NegativeProduct(1.0 - share, total);
    } else if part == total {
      SameShare(share, total);
    }
  }

  lemma NegativeProduct(x: real, y: real)
    requires x < 0.0 && y > 0.0
    ensures x * y < 0.0
  {
  }

  lemma SameShare(share: real, total: real)
    requires total > 0.0 && share * total == total
    ensures share == 1.0
  {
    assert (share - 1.0) * total == 0.0;
  }
}
