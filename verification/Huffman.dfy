/**
 The code assignment of tools/audio/gen_mp3_tables.py for the Huffman tables of ISO 11172-3 Table B.7,
 and its Kraft and prefix checks.
 */
module Huffman {
  import opened Options
  import opened PyInt
  import opened Sorting

  // ----- lengths, and what the shorter listing takes of the code space

  ghost predicate LengthsWithin(lens: seq<nat>, n: nat) {
    forall k :: 0 <= k < |lens| ==> lens[k] <= n
  }

  /** The share of the first i codes, in units of 2^-n: the sum of 2^(n - length). */
  ghost function Share(lens: seq<nat>, i: nat, n: nat): nat
    requires i <= |lens| && LengthsWithin(lens, n)
  {
    if i == 0 then 0 else Share(lens, i - 1, n) + Pow2(n - lens[i - 1])
  }

  /** The share before entry i is a whole number of codes of its length. */
  ghost predicate Fits(lens: seq<nat>, i: nat, n: nat)
    requires i < |lens| && LengthsWithin(lens, n)
  {
    Share(lens, i, n) % Pow2(n - lens[i]) == 0
  }

  ghost predicate AllFit(lens: seq<nat>, i: nat, n: nat)
    requires i <= |lens| && LengthsWithin(lens, n)
  {
    forall k :: 0 <= k < i ==> Fits(lens, k, n)
  }

  /** Code k, as a binary fraction of its length, is the share before it. */
  ghost predicate IsCode(code: nat, lens: seq<nat>, k: nat, n: nat)
    requires k < |lens| && LengthsWithin(lens, n)
  {
    code * Pow2(n - lens[k]) == Share(lens, k, n)
  }

  ghost predicate AreCodes(codes: seq<nat>, lens: seq<nat>, n: nat)
    requires |codes| <= |lens| && LengthsWithin(lens, n)
  {
    forall k :: 0 <= k < |codes| ==> IsCode(codes[k], lens, k, n)
  }

  // ----- one step of the assignment

  /** The low bits that the mask test sees are the remainder. */
  lemma {:induction false} MaskIsRemainder(x: nat, d: nat)
    ensures Bitwise(And, x, Pow2(d) - 1) == x % Pow2(d)
    decreases d
  {
    if d == 0 {
      AndZeroRight(x);
    } else {
      MaskIsRemainder(x / 2, d - 1);
      MaskedBit(x % 2, x / 2, Pow2(d - 1));
      HalfRemainder(x, Pow2(d - 1));
    }
  }

  /** A mask of ones keeps the low bit and masks the rest. */
  lemma MaskedBit(bit: int, rest: int, m: int)
    requires 0 <= bit < 2
    ensures Bitwise(And, bit + 2 * rest, 2 * m - 1) == bit + 2 * Bitwise(And, rest, m - 1)
  {
    BitwiseCons(And, bit, rest, 1, m - 1);
    assert 1 + 2 * (m - 1) == 2 * m - 1;
  }

  lemma {:induction false} AndZeroRight(x: nat)
    ensures Bitwise(And, x, 0) == 0
  {
    if x > 0 {
      AndZeroRight(x / 2);
    }
  }

  lemma HalfRemainder(x: nat, m: nat)
    requires m > 0
    ensures x % (2 * m) == x % 2 + 2 * ((x / 2) % m)
  {
    var q, r := (x / 2) / m, (x / 2) % m;
    assert x / 2 == q * m + r;
    assert x == q * (2 * m) + (x % 2 + 2 * r);
    RemainderIs(x, q, x % 2 + 2 * r, 2 * m);
  }

  lemma RemainderIs(x: nat, q: nat, r: nat, m: nat)
    requires 0 <= r < m && x == q * m + r
    ensures x % m == r && x / m == q
  {
    var a := x / m - q;
    assert a * m + x % m == r;
    MultiplesApart(a, m);
  }

  lemma MultiplesApart(a: int, m: int)
    requires m > 0
    ensures a >= 1 ==> a * m >= m
    ensures a <= -1 ==> a * m <= -m
  {
  }

  /** The unit of an entry no shorter than the one before. */
  lemma LongerUnit(c: nat, prev: nat, l: nat, n: nat)
    requires prev <= l <= n
    ensures (c * Pow2(l - prev)) * Pow2(n - l) == c * Pow2(n - prev)
  {
    Pow2Add(l - prev, n - l);
    Regroup(c, Pow2(l - prev), Pow2(n - l));
  }

  lemma Regroup(a: nat, b: nat, c: nat)
    ensures (a * b) * c == a * (b * c)
  {
  }

  lemma RemainderScales(c: nat, d: nat, p: nat)
    requires d > 0 && p > 0
    ensures (c * p) % (d * p) == (c % d) * p
  {
    var q, r := c / d, c % d;
    assert c == q * d + r;
    Distribute(q, d, r, p);
    assert r * p < d * p;
    assert 0 < d * p;
    RemainderIs(c * p, q, r * p, d * p);
  }

  lemma Distribute(q: nat, d: nat, r: nat, p: nat)
    ensures (q * d + r) * p == q * (d * p) + r * p
  {
    Regroup(q, d, p);
  }

  /** A shorter entry fits exactly when the dropped bits are zero, and then takes the rest as its code. */
  lemma ShorterUnit(c: nat, prev: nat, l: nat, n: nat)
    requires l < prev <= n
    ensures (c * Pow2(n - prev)) % Pow2(n - l) == 0 <==> c % Pow2(prev - l) == 0
    ensures c % Pow2(prev - l) == 0 ==> (c / Pow2(prev - l)) * Pow2(n - l) == c * Pow2(n - prev)
  {
    var d, p := Pow2(prev - l), Pow2(n - prev);
    Pow2Add(prev - l, n - prev);
    assert Pow2(n - l) == d * p;
    RemainderScales(c, d, p);
    ZeroProduct(c % d, p);
    if c % d == 0 {
      assert c == (c / d) * d;
      Regroup(c / d, d, p);
    }
  }

  lemma ZeroProduct(r: nat, p: nat)
    requires p > 0
    ensures r * p == 0 <==> r == 0
  {
  }

  lemma NextShare(code: nat, p: nat)
    ensures code * p + p == (code + 1) * p
  {
  }

  /** A whole number of units has no remainder. */
  lemma WholeUnits(c: nat, p: nat)
    requires p > 0
    ensures (c * p) % p == 0
  {
    RemainderIs(c * p, c, 0, p);
  }

  lemma CodeFits(code: nat, lens: seq<nat>, k: nat, n: nat)
    requires k < |lens| && LengthsWithin(lens, n) && IsCode(code, lens, k, n)
    ensures Fits(lens, k, n)
  {
    WholeUnits(code, Pow2(n - lens[k]));
  }

  // ----- the assignment

  datatype Assignment = Codes(codes: seq<nat>) | EmptyList | NonCanonical(at: nat)

  /** `assign_codes`, for lengths up to any n: a code for every length, or the first entry that does not fit. */
  method AssignCodes(lens: seq<nat>, ghost n: nat) returns (r: Assignment)
    requires LengthsWithin(lens, n)
    ensures r.EmptyList? <==> lens == []
    ensures r.Codes? <==> lens != [] && AllFit(lens, |lens|, n)
    ensures r.Codes? ==> |r.codes| == |lens| && AreCodes(r.codes, lens, n)
    ensures r.NonCanonical? ==> r.at < |lens| && !Fits(lens, r.at, n) && AllFit(lens, r.at, n)
  {
    if lens == [] {
      return EmptyList;
    }
    var codes: seq<nat> := [];
    var code, prev := 0, lens[0];
    for i := 0 to |lens|
      invariant |codes| == i && AreCodes(codes, lens, n) && AllFit(lens, i, n)
      invariant i == 0 ==> code == 0
      invariant i > 0 ==> code == codes[i - 1] && prev == lens[i - 1]
    {
      var l := lens[i];
      if i > 0 {
        ghost var before := code;
        code := code + 1;
        NextCode(before, lens, i, n);
        if l > prev {
          code := code * Pow2(l - prev);
        } else if l < prev {
          MaskIsRemainder(code, prev - l);
          if Bitwise(And, code, Pow2(prev - l) - 1) != 0 {
            return NonCanonical(i);
          }
          code := code / Pow2(prev - l);
        }
      }
      CodeFits(code, lens, i, n);
      codes := codes + [code];
      prev := l;
    }
    r := Codes(codes);
  }

  lemma NextCode(before: nat, lens: seq<nat>, i: nat, n: nat)
    requires 0 < i < |lens| && LengthsWithin(lens, n) && IsCode(before, lens, i - 1, n)
    ensures var c, prev, l := before + 1, lens[i - 1], lens[i];
            if l >= prev then IsCode(c * Pow2(l - prev), lens, i, n)
            else
              && (Fits(lens, i, n) <==> c % Pow2(prev - l) == 0)
              && (Fits(lens, i, n) ==> IsCode(c / Pow2(prev - l), lens, i, n))
  {
    var prev, l := lens[i - 1], lens[i];
    NextShare(before, Pow2(n - prev));
    if l >= prev {
      LongerUnit(before + 1, prev, l, n);
    } else {
      ShorterUnit(before + 1, prev, l, n);
    }
  }

  // ----- words

  /** `format(c, "0<l>b")`: at least l binary digits, and at least one. */
  function Word(c: nat, l: nat): (w: seq<bool>)
    decreases c + l
  {
    if c < 2 && l <= 1 then [c == 1]
    else Word(c / 2, if l == 0 then 0 else l - 1) + [c % 2 == 1]
  }

  ghost function Value(w: seq<bool>): nat {
    if w == [] then 0 else 2 * Value(w[..|w| - 1]) + (if w[|w| - 1] then 1 else 0)
  }

  lemma {:induction false} WordIs(c: nat, l: nat)
    ensures Value(Word(c, l)) == c && Word(c, l) != []
    ensures c < Pow2(l) && l >= 1 ==> |Word(c, l)| == l
    decreases c + l
  {
    if c < 2 && l <= 1 {
      assert Value([]) == 0;
      assert [c == 1][..0] == [];
    } else {
      var m := if l == 0 then 0 else l - 1;
      WordIs(c / 2, m);
      var w := Word(c / 2, m);
      assert (w + [c % 2 == 1])[..|w|] == w;
      assert Pow2(1) == 2;
    }
  }

  /** What extends a word starts with its value. */
  lemma {:induction false} PrefixValue(w: seq<bool>, v: seq<bool>)
    requires w <= v
    ensures Value(w) * Pow2(|v| - |w|) <= Value(v) < (Value(w) + 1) * Pow2(|v| - |w|)
    decreases |v|
  {
    if |v| > |w| {
      var u := v[..|v| - 1];
      PrefixValue(w, u);
      Doubled(Value(w), Pow2(|u| - |w|));
      Doubled(Value(w) + 1, Pow2(|u| - |w|));
    } else {
      assert w == v;
    }
  }

  lemma Doubled(a: nat, p: nat)
    ensures a * (2 * p) == 2 * (a * p)
  {
  }

  // ----- assigned words are prefix-free

  ghost predicate Kraft(lens: seq<nat>, n: nat)
    requires LengthsWithin(lens, n)
  {
    Share(lens, |lens|, n) <= Pow2(n)
  }

  lemma {:induction false} ShareGrows(lens: seq<nat>, i: nat, j: nat, n: nat)
    requires i < j <= |lens| && LengthsWithin(lens, n)
    ensures Share(lens, i, n) + Pow2(n - lens[i]) <= Share(lens, j, n)
    decreases j
  {
    if i < j - 1 {
      ShareGrows(lens, i, j - 1, n);
    }
  }

  /** A code's word has its listed length. */
  lemma AssignedWord(code: nat, lens: seq<nat>, k: nat, n: nat)
    requires k < |lens| && |lens| >= 2 && LengthsWithin(lens, n) && Kraft(lens, n) && IsCode(code, lens, k, n)
    ensures |Word(code, lens[k])| == lens[k] && Value(Word(code, lens[k])) == code
  {
    var l := lens[k];
    ShareGrows(lens, k, |lens|, n);
    Pow2Add(l, n - l);
    CodeBelow(code, Pow2(n - l), Pow2(l));
    if l == 0 {
      ShareGrows(lens, 1 - k, |lens|, n);
      if k == 0 {
        ShareGrows(lens, 0, 1, n);
      }
      TwoShares(lens, k, n);
    }
    WordIs(code, l);
  }

  lemma CodeBelow(code: nat, p: nat, q: nat)
    requires code * p + p <= q * p && p > 0
    ensures code < q
  {
    if code >= q {
      ScaleOrder(q, code, p);
    }
  }

  /** Beside a word of length 0 there is room for no other. */
  lemma TwoShares(lens: seq<nat>, k: nat, n: nat)
    requires k < |lens| && |lens| >= 2 && LengthsWithin(lens, n) && lens[k] == 0
    ensures !Kraft(lens, n)
  {
    if k == 0 {
      ShareGrows(lens, 0, 1, n);
      ShareGrows(lens, 1, |lens|, n);
    } else {
      ShareGrows(lens, 0, k, n);
      ShareGrows(lens, k, |lens|, n);
    }
  }

  /** A word that starts another has the other's share inside its own. */
  lemma PrefixShare(w: seq<bool>, v: seq<bool>, n: nat)
    requires w <= v && |v| <= n
    ensures Value(w) * Pow2(n - |w|) <= Value(v) * Pow2(n - |v|) < (Value(w) + 1) * Pow2(n - |w|)
  {
    PrefixValue(w, v);
    Pow2Add(|v| - |w|, n - |v|);
    ScaleInterval(Value(w), Value(v), Pow2(|v| - |w|), Pow2(n - |v|));
  }

  lemma NotPrefix(w: seq<bool>, v: seq<bool>, c: nat, l: nat, d: nat, m: nat, n: nat)
    requires |w| == l <= n && |v| == m <= n && Value(w) == c && Value(v) == d
    requires !(c * Pow2(n - l) <= d * Pow2(n - m) < (c + 1) * Pow2(n - l))
    ensures !(w <= v)
  {
    if w <= v {
      PrefixShare(w, v, n);
    }
  }

  lemma ScaleInterval(c: nat, d: nat, p: nat, q: nat)
    requires c * p <= d < (c + 1) * p && q > 0
    ensures c * (p * q) <= d * q < (c + 1) * (p * q)
  {
    Regroup(c, p, q);
    Regroup(c + 1, p, q);
    ScaleOrder(c * p, d, q);
    ScaleOrder(d + 1, (c + 1) * p, q);
    NextShare(d, q);
  }

  lemma SharesApart(c: nat, d: nat, lens: seq<nat>, i: nat, j: nat, n: nat)
    requires i < |lens| && j < |lens| && i != j && LengthsWithin(lens, n)
    requires IsCode(c, lens, i, n) && IsCode(d, lens, j, n)
    ensures !(c * Pow2(n - lens[i]) <= d * Pow2(n - lens[j]) < (c + 1) * Pow2(n - lens[i]))
  {
    NextShare(c, Pow2(n - lens[i]));
    if i < j {
      ShareGrows(lens, i, j, n);
    } else {
      ShareGrows(lens, j, i, n);
    }
  }

  lemma ScaleOrder(a: nat, b: nat, p: nat)
    requires a <= b
    ensures a * p <= b * p
  {
  }

  function Words(codes: seq<nat>, lens: seq<nat>): (ws: seq<seq<bool>>)
    requires |codes| == |lens|
    ensures |ws| == |codes|
    ensures forall k :: 0 <= k < |ws| ==> ws[k] == Word(codes[k], lens[k])
  {
    if codes == [] then [] else
      var z := |codes| - 1;
      Words(codes[..z], lens[..z]) + [Word(codes[z], lens[z])]
  }

  /** No word is, or starts, another. */
  ghost predicate PrefixFree(ws: seq<seq<bool>>) {
    forall i, j :: 0 <= i < |ws| && 0 <= j < |ws| && i != j ==> !(ws[i] <= ws[j])
  }

  lemma PairIsFree(c: nat, d: nat, lens: seq<nat>, i: nat, j: nat, n: nat)
    requires i < |lens| && j < |lens| && i != j && LengthsWithin(lens, n) && Kraft(lens, n)
    requires IsCode(c, lens, i, n) && IsCode(d, lens, j, n)
    ensures !(Word(c, lens[i]) <= Word(d, lens[j]))
  {
    AssignedWord(c, lens, i, n);
    AssignedWord(d, lens, j, n);
    SharesApart(c, d, lens, i, j, n);
    NotPrefix(Word(c, lens[i]), Word(d, lens[j]), c, lens[i], d, lens[j], n);
  }

  /** Under the Kraft bound the assigned words are prefix-free. */
  lemma AssignedArePrefixFree(codes: seq<nat>, lens: seq<nat>, n: nat)
    requires |codes| == |lens| && LengthsWithin(lens, n) && AreCodes(codes, lens, n) && Kraft(lens, n)
    ensures PrefixFree(Words(codes, lens))
  {
    var ws := Words(codes, lens);
    forall i, j | 0 <= i < |ws| && 0 <= j < |ws| && i != j ensures !(ws[i] <= ws[j]) {
      PairIsFree(codes[i], codes[j], lens, i, j, n);
    }
  }

  // ----- checking neighbours is checking all pairs

  /** The order of strings of `0` and `1`. */
  predicate Leq(a: seq<bool>, b: seq<bool>) {
    if a == [] then true
    else if b == [] then false
    else if a[0] == b[0] then Leq(a[1..], b[1..])
    else b[0]
  }

  lemma {:induction false} LeqTotal(a: seq<bool>, b: seq<bool>)
    ensures Leq(a, b) || Leq(b, a)
  {
    if a != [] && b != [] && a[0] == b[0] {
      LeqTotal(a[1..], b[1..]);
    }
  }

  lemma {:induction false} LeqTransitive(a: seq<bool>, b: seq<bool>, c: seq<bool>)
    requires Leq(a, b) && Leq(b, c)
    ensures Leq(a, c)
  {
    if a != [] && b != [] && c != [] && a[0] == b[0] == c[0] {
      LeqTransitive(a[1..], b[1..], c[1..]);
    }
  }

  lemma LeqIsOrder()
    ensures IsOrder(Leq)
  {
    forall a, b ensures Leq(a, b) || Leq(b, a) {
      LeqTotal(a, b);
    }
    forall a, b, c | Leq(a, b) && Leq(b, c) ensures Leq(a, c) {
      LeqTransitive(a, b, c);
    }
  }

  /** Words between a word and one that it starts start with it as well. */
  lemma {:induction false} BetweenExtends(a: seq<bool>, b: seq<bool>, c: seq<bool>)
    requires Leq(a, b) && Leq(b, c) && a <= c
    ensures a <= b
  {
    if a != [] {
      assert b != [] && a[0] == c[0];
      assert a[0] == b[0];
      assert a[1..] <= c[1..];
      BetweenExtends(a[1..], b[1..], c[1..]);
      assert a == [a[0]] + a[1..] && b == [b[0]] + b[1..];
    }
  }

  lemma {:induction false} PrefixIsLeq(a: seq<bool>, b: seq<bool>)
    requires a <= b
    ensures Leq(a, b)
  {
    if a != [] {
      assert a[1..] <= b[1..];
      PrefixIsLeq(a[1..], b[1..]);
    }
  }

  ghost predicate NeighboursFree(ws: seq<seq<bool>>) {
    forall k :: 0 < k < |ws| ==> !(ws[k - 1] <= ws[k])
  }

  lemma SortedNeighbours(ws: seq<seq<bool>>)
    requires SortedBy(ws, Leq)
    ensures NeighboursFree(ws) <==> PrefixFree(ws)
  {
    if NeighboursFree(ws) {
      forall i, j | 0 <= i < |ws| && 0 <= j < |ws| && i != j ensures !(ws[i] <= ws[j]) {
        if ws[i] <= ws[j] {
          PrefixInOrder(ws, i, j);
        }
      }
    }
  }

  /** A word that starts another also starts its neighbour. */
  lemma PrefixInOrder(ws: seq<seq<bool>>, i: nat, j: nat)
    requires SortedBy(ws, Leq) && i < |ws| && j < |ws| && i != j && ws[i] <= ws[j]
    ensures !NeighboursFree(ws)
  {
    if i < j {
      assert Leq(ws[i], ws[i + 1]);
      if i + 1 == j { LeqRefl(ws[j]); }
      BetweenExtends(ws[i], ws[i + 1], ws[j]);
      assert ws[(i + 1) - 1] <= ws[i + 1];
    } else {
      assert Leq(ws[j], ws[j + 1]);
      if j + 1 == i { LeqRefl(ws[i]); }
      PrefixIsLeq(ws[i], ws[j]);
      LeqTransitive(ws[j + 1], ws[i], ws[j]);
      BetweenExtends(ws[j], ws[j + 1], ws[j]);
      assert ws[(j + 1) - 1] <= ws[j + 1];
    }
  }

  lemma {:induction false} LeqRefl(a: seq<bool>)
    ensures Leq(a, a)
  {
    PrefixIsLeq(a, a);
  }

  /** Prefix-freeness in terms of how often each word occurs. */
  ghost predicate FreeBag(ms: multiset<seq<bool>>) {
    && (forall a :: a in ms ==> ms[a] == 1)
    && (forall a, b :: a in ms && b in ms && a != b ==> !(a <= b))
  }

  lemma {:induction false} TwiceInBag(ws: seq<seq<bool>>, a: seq<bool>)
    ensures multiset(ws)[a] >= 2 <==> exists i, j :: 0 <= i < j < |ws| && ws[i] == a && ws[j] == a
    ensures multiset(ws)[a] >= 1 <==> a in ws
  {
    if ws != [] {
      var z := |ws| - 1;
      assert ws == ws[..z] + [ws[z]];
      TwiceInBag(ws[..z], a);
      assert multiset(ws) == multiset(ws[..z]) + multiset{ws[z]};
      if multiset(ws)[a] >= 2 && multiset(ws[..z])[a] < 2 {
        assert a in ws[..z];
        var i :| 0 <= i < z && ws[i] == a;
        assert i < z && ws[z] == a;
      }
      if i, j :| 0 <= i < j < |ws| && ws[i] == a && ws[j] == a {
        assert a in ws[..z] by { assert ws[..z][i] == a; }
        if j < z {
          assert ws[..z][i] == a && ws[..z][j] == a;
        }
      }
    }
  }

  lemma FreeAsBag(ws: seq<seq<bool>>)
    ensures PrefixFree(ws) <==> FreeBag(multiset(ws))
  {
    if PrefixFree(ws) {
      FreeIsFreeBag(ws);
    }
    if FreeBag(multiset(ws)) {
      forall i, j | 0 <= i < |ws| && 0 <= j < |ws| && i != j ensures !(ws[i] <= ws[j]) {
        if i < j {
          BagPairFree(ws, i, j);
        } else {
          BagPairFree(ws, j, i);
        }
      }
    }
  }

  lemma BagPairFree(ws: seq<seq<bool>>, i: nat, j: nat)
    requires i < j < |ws| && FreeBag(multiset(ws))
    ensures !(ws[i] <= ws[j]) && !(ws[j] <= ws[i])
  {
    TwiceInBag(ws, ws[i]);
    TwiceInBag(ws, ws[j]);
  }

  lemma FreeIsFreeBag(ws: seq<seq<bool>>)
    requires PrefixFree(ws)
    ensures FreeBag(multiset(ws))
  {
    forall a | a in multiset(ws) ensures multiset(ws)[a] == 1 {
      TwiceInBag(ws, a);
    }
  }

  /** However the words are listed, sorted neighbours decide whether they are prefix-free. */
  lemma SortedDecides(ws: seq<seq<bool>>)
    ensures NeighboursFree(Sort(ws, Leq)) <==> PrefixFree(ws)
  {
    LeqIsOrder();
    SortSorts(ws, Leq);
    SortedNeighbours(Sort(ws, Leq));
    FreeAsBag(ws);
    FreeAsBag(Sort(ws, Leq));
  }

  /** The loop over neighbours. */
  method CheckNeighbours(sorted: seq<seq<bool>>) returns (ok: bool)
    ensures ok <==> NeighboursFree(sorted)
  {
    var k := 1;
    while k < |sorted|
      invariant k >= 1
      invariant forall i :: 0 < i < k && i < |sorted| ==> !(sorted[i - 1] <= sorted[i])
    {
      if sorted[k - 1] <= sorted[k] {
        return false;
      }
      k := k + 1;
    }
    ok := true;
  }

  method CheckWords(ws: seq<seq<bool>>) returns (ok: bool)
    ensures ok <==> PrefixFree(ws)
  {
    SortedDecides(ws);
    ok := CheckNeighbours(Sort(ws, Leq));
  }

  // ----- the checks of one table

  const BITS: nat := 24

  /** The length of every entry is one that the Kraft sum can count. */
  predicate AreCounted(lens: seq<nat>) {
    forall k :: 0 <= k < |lens| ==> lens[k] <= BITS
  }

  method KraftSum(lens: seq<nat>) returns (kraft: nat)
    requires AreCounted(lens)
    ensures LengthsWithin(lens, BITS) && kraft == Share(lens, |lens|, BITS)
  {
    kraft := 0;
    for i := 0 to |lens|
      invariant LengthsWithin(lens, BITS) && kraft == Share(lens, i, BITS)
    {
      kraft := kraft + Pow2(BITS - lens[i]);
    }
  }

  /** What `main` accepts of a table. */
  ghost predicate IsTable(lens: seq<nat>) {
    lens != [] && AreCounted(lens) && LengthsWithin(lens, BITS) && AllFit(lens, |lens|, BITS) && Kraft(lens, BITS)
  }

  /**
   The checks of `main` on one table: assignment, Kraft bound, sorted neighbours. The last never
   rejects what the first two let through, so a table is accepted exactly when its lengths fit one
   after the other into the code space; and then its words are prefix-free.
   */
  method CheckTable(lens: seq<nat>) returns (r: Option<seq<nat>>)
    ensures r.Some? <==> IsTable(lens)
    ensures r.Some? ==> |r.value| == |lens| && AreCodes(r.value, lens, BITS) && PrefixFree(Words(r.value, lens))
  {
    if !AreCounted(lens) {
      return None;
    }
    assert LengthsWithin(lens, BITS);
    var a := AssignCodes(lens, BITS);
    if !a.Codes? {
      return None;
    }
    var kraft := KraftSum(lens);
    if kraft > Pow2(BITS) {
      return None;
    }
    AssignedArePrefixFree(a.codes, lens, BITS);
    var ok := CheckWords(Words(a.codes, lens));
    assert ok;
    r := Some(a.codes);
  }
}
