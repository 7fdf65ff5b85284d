/**
 The two game-logic generators of tools/horde_oracle/rng_reference.py, and the integers that a drawn
 word stands for.
 */
module Generators {
  import opened Period
  import opened PyInt

  const WORD: nat := 0x1_0000_0000
  const TOP: nat := 0xFFFF_FFFF

  type Word = w: int | 0 <= w < WORD

  // ----- the linear generator

  const MULTIPLIER: nat := 0x08088405

  function LcgNext(s: Word): Word {
    (s * MULTIPLIER + 1) % WORD
  }

  /** The low word of the product plus one, xor its high word. */
  function LcgOut(s: Word): int {
    Bitwise(Xor, (s * MULTIPLIER + 1) % WORD, (s * MULTIPLIER / WORD) % WORD)
  }

  method LcgDraw(seed: array<int>) returns (r: int)
    requires seed.Length == 6 && 0 <= seed[0] < WORD
    modifies seed
    ensures seed[0] == LcgNext(old(seed[0])) && r == LcgOut(old(seed[0]))
    ensures forall k :: 1 <= k < 6 ==> seed[k] == old(seed[k])
  {
    var p := seed[0] * MULTIPLIER;
    var low, high := (p + 1) % WORD, (p / WORD) % WORD;
    seed[0] := low;
    r := Bitwise(Xor, low, high);
  }

  /** Bitwise operations on words of k bits give words of k bits. */
  lemma {:induction false} BitwiseWithin(op: BitOp, x: int, y: int, k: nat)
    requires 0 <= x < Pow2(k) && 0 <= y < Pow2(k)
    ensures 0 <= Bitwise(op, x, y) < Pow2(k)
  {
    if k == 0 {
      assert Bitwise(op, 0, 0) == 0;
    } else {
      BitwiseUnfold(op, x, y);
      BitwiseWithin(op, x / 2, y / 2, k - 1);
    }
  }

  lemma WordIsPower()
    ensures Pow2(32) == WORD
  {
    assert Pow2(4) == 16;
    Pow2Add(4, 4);
    Pow2Add(8, 8);
    Pow2Add(16, 16);
  }

  /** The drawn number is a word. */
  lemma LcgOutIsWord(s: Word)
    ensures 0 <= LcgOut(s) < WORD
  {
    WordIsPower();
    BitwiseWithin(Xor, (s * MULTIPLIER + 1) % WORD, (s * MULTIPLIER / WORD) % WORD, 32);
  }

  lemma {:induction false} XorTwice(x: int, y: int)
    ensures Bitwise(Xor, Bitwise(Xor, x, y), y) == x
    decreases Distance(x) + Distance(y)
  {
    BitwiseUnfold(Xor, x, y);
    BitwiseUnfold(Xor, Bitwise(Xor, x, y), y);
    if !(IsSign(x) && IsSign(y)) {
      XorTwice(x / 2, y / 2);
    }
  }

  lemma {:induction false} XorZero(x: int, y: int)
    requires Bitwise(Xor, x, y) == 0
    ensures x == y
    decreases Distance(x) + Distance(y)
  {
    if !(IsSign(x) && IsSign(y)) {
      XorZero(x / 2, y / 2);
    }
  }

  lemma {:induction false} XorSelf(x: int)
    ensures Bitwise(Xor, x, x) == 0
    decreases Distance(x)
  {
    if !IsSign(x) {
      XorSelf(x / 2);
    }
  }

  lemma {:induction false} XorOfComplements(x: nat, y: nat, k: nat)
    requires x + y == Pow2(k) - 1
    ensures Bitwise(Xor, x, y) == Pow2(k) - 1
  {
    BitwiseUnfold(Xor, x, y);
    if k > 0 {
      XorOfComplements(x / 2, y / 2, k - 1);
    }
  }

  /** An odd word and its negation differ in every bit but the lowest. */
  lemma XorOfNegated(x: nat, y: nat, k: nat)
    requires x % 2 == 1 && x + y == Pow2(k + 1)
    ensures Bitwise(Xor, x, y) == Pow2(k + 1) - 2
  {
    BitwiseUnfold(Xor, x, y);
    XorOfComplements(x / 2, y / 2, k);
  }

  /** A high word of the product that draws w: the product with the low word that goes with it is a multiple. */
  predicate IsHighFor(h: nat, w: int) {
    h < MULTIPLIER && (h * WORD + (Bitwise(Xor, w, h) - 1) % WORD) % MULTIPLIER == 0
  }

  /** The product of a seed word: its high word, below the multiplier, and its low word. */
  lemma LcgHalves(s: Word) returns (h: nat, l: Word)
    ensures h < MULTIPLIER && s * MULTIPLIER == h * WORD + l
    ensures LcgOut(s) == Bitwise(Xor, (l + 1) % WORD, h)
  {
    h, l := s * MULTIPLIER / WORD, s * MULTIPLIER % WORD;
    HalvesDraw(s, h, l);
  }

  lemma HalvesDraw(s: Word, h: nat, l: Word)
    requires h < MULTIPLIER && s * MULTIPLIER == h * WORD + l
    ensures LcgOut(s) == Bitwise(Xor, (l + 1) % WORD, h)
  {
    assert (s * MULTIPLIER + 1) % WORD == (l + 1) % WORD;
    assert s * MULTIPLIER / WORD == h && h % WORD == h;
  }

  lemma HighOf(s: Word) returns (h: nat)
    ensures IsHighFor(h, LcgOut(s))
  {
    var l;
    h, l := LcgHalves(s);
    XorTwice((l + 1) % WORD, h);
    DownAgain(l);
    ModUnique(h * WORD + l, s, 0, MULTIPLIER);
  }

  lemma DownAgain(l: Word)
    ensures ((l + 1) % WORD - 1) % WORD == l
  {
  }

  lemma DrawnWith(h: nat, w: Word) returns (s: Word)
    requires IsHighFor(h, w)
    ensures LcgOut(s) == w
  {
    var low := Bitwise(Xor, w, h);
    WordIsPower();
    BitwiseWithin(Xor, w, h, 32);
    var l := (low - 1) % WORD;
    assert (l + 1) % WORD == low;
    s := (h * WORD + l) / MULTIPLIER;
    HalvesDraw(s, h, l);
    XorTwice(w, h);
  }

  /** The words that the linear generator draws at all, by the high words below the multiplier. */
  lemma LcgDrawsIff(w: Word)
    ensures (exists s: Word :: LcgOut(s) == w) <==> (exists h: nat :: IsHighFor(h, w))
  {
    if s: Word :| LcgOut(s) == w {
      var h := HighOf(s);
    }
    if h: nat :| IsHighFor(h, w) {
      var s := DrawnWith(h, w);
    }
  }

  const INVERSE: nat := 0x02E811B7  // of WORD + 1, modulo the multiplier

  /** A high word that draws 2 differs from its low word in bit 1 alone. */
  lemma XorIsTwo(x: int, y: int)
    requires Bitwise(Xor, x, y) == 2
    ensures x == if (y / 2) % 2 == 0 then y + 2 else y - 2
  {
    BitwiseUnfold(Xor, x, y);
    BitwiseUnfold(Xor, x / 2, y / 2);
    XorZero(x / 2 / 2, y / 2 / 2);
  }

  lemma HighUnique(h: nat, k: int, c: int)
    requires h * (WORD + 1) + c == k * MULTIPLIER
    ensures (h + c * INVERSE) % MULTIPLIER == 0
  {
    var n := INVERSE * k - (INVERSE * (WORD + 1) / MULTIPLIER) * h;
    assert h + c * INVERSE == n * MULTIPLIER;
    ModUnique(h + c * INVERSE, n, 0, MULTIPLIER);
  }

  /** No high word differs in bit 1 alone from what its low word becomes. */
  lemma NoHighForTwo(s: Word, h: nat, l: Word)
    requires h < MULTIPLIER && s * MULTIPLIER == h * WORD + l
    ensures (l + 1) % WORD != if (h / 2) % 2 == 0 then h + 2 else h - 2
  {
    if (h / 2) % 2 == 0 && l == h + 1 {
      HighUnique(h, s, 1);
    } else if (h / 2) % 2 == 1 && l == h - 3 {
      HighUnique(h, s, -3);
    }
  }

  /** The word 2 is never drawn. */
  lemma LcgMissesTwo(s: Word)
    ensures LcgOut(s) != 2
  {
    var h, l := LcgHalves(s);
    NoHighForTwo(s, h, l);
    if LcgOut(s) == 2 {
      hide LcgOut;
      XorIsTwo((l + 1) % WORD, h);
    }
  }

  /** The seed word after n draws. */
  ghost function LcgState(s: Word, n: nat): Word {
    if n == 0 then s else LcgNext(LcgState(s, n - 1))
  }

  lemma {:induction false} LcgStateIsState(s: Word, n: nat)
    ensures LcgState(s, n) == States(MULTIPLIER, 1, Pow2(32), n, s)
  {
    WordIsPower();
    if n > 0 {
      LcgStateIsState(s, n - 1);
    } else {
      ModUnique(s, 0, s, WORD);
    }
  }

  /** From every seed the seed word first comes back after exactly 2^32 draws. */
  lemma LcgFirstReturn(s: Word, n: nat)
    requires 0 < n <= WORD
    ensures LcgState(s, n) == s <==> n == WORD
  {
    WordIsPower();
    LcgStateIsState(s, n);
    ModUnique(s, 0, s, WORD);
    FirstReturn(MULTIPLIER, 1, 32, s, n);
  }

  /** No seed word repeats among 2^32 consecutive draws. */
  lemma LcgAllDifferent(s: Word, i: nat, j: nat)
    requires i < j < i + WORD
    ensures LcgState(s, i) != LcgState(s, j)
  {
    LcgStateIsState(s, i);
    LcgStateIsState(s, j);
    assert j < i + Pow2(32) by { WordIsPower(); }
    AllDifferent(MULTIPLIER, 1, 32, s, i, j);
  }

  /** Every word is the seed word at some point of the 2^32 draws. */
  lemma LcgAllMet(s: Word, t: Word) returns (n: nat)
    ensures n < WORD && LcgState(s, n) == t
  {
    WordIsPower();
    n := AllMet(MULTIPLIER, 1, 32, s, t);
    LcgStateIsState(s, n);
  }

  // ----- the carry-chain generator

  /** Six words; word 5 counts fastest. */
  type Seed = s: seq<int> | |s| == 6 && forall k :: 0 <= k < 6 ==> 0 <= s[k] < WORD witness [0, 0, 0, 0, 0, 0]

  function AddWords(a: Word, b: Word, carry: int): (t: Word)
    requires 0 <= carry <= 1
  {
    (a + b + carry) % WORD
  }

  /** The carry as the code sees it: the sum came out below one of its terms. */
  function SeenCarry(a: Word, b: Word, carry: int): (c: int)
    requires 0 <= carry <= 1
    ensures 0 <= c <= 1
  {
    var total := AddWords(a, b, carry);
    if total < a || total < b then 1 else 0
  }

  /** The seen carry is the true one, except when both terms are all ones and a carry came in. */
  lemma CarryIsSeen(a: Word, b: Word, carry: int)
    requires 0 <= carry <= 1
    ensures SeenCarry(a, b, carry) == (a + b + carry) / WORD <==> !(a == TOP && b == TOP && carry == 1)
    ensures a == TOP && b == TOP && carry == 1 ==> SeenCarry(a, b, carry) == 0
  {
  }

  /** A sum with a carry is not all ones, so what goes on to the next addition cannot lose one. */
  lemma CarryLeavesRoom(a: Word, b: Word, carry: int)
    requires 0 <= carry <= 1 && SeenCarry(a, b, carry) == 1
    ensures AddWords(a, b, carry) < TOP
  {
  }

  /** The chain of additions: words 4 down to 0 each take the sum so far. */
  datatype Chain = Chain(t4: Word, t3: Word, t2: Word, t1: Word, t0: Word)

  function Added(s: Seed): Chain {
    var t4 := AddWords(s[5], s[4], 0);
    var c4 := SeenCarry(s[5], s[4], 0);
    var t3 := AddWords(t4, s[3], c4);
    var c3 := SeenCarry(t4, s[3], c4);
    var t2 := AddWords(t3, s[2], c3);
    var c2 := SeenCarry(t3, s[2], c3);
    var t1 := AddWords(t2, s[1], c2);
    var c1 := SeenCarry(t2, s[1], c2);
    Chain(t4, t3, t2, t1, AddWords(t1, s[0], c1))
  }

  /** One addition of the chain with its true carry c. */
  predicate IsSum(a: Word, b: Word, carry: int, t: Word, c: int) {
    a + b + carry == t + WORD * c
  }

  lemma CarryIsTrue(a: Word, b: Word, carry: int)
    requires 0 <= carry <= 1 && (carry == 1 ==> a < TOP)
    ensures IsSum(a, b, carry, AddWords(a, b, carry), SeenCarry(a, b, carry))
  {
    CarryIsSeen(a, b, carry);
  }

  /** The chain never loses a carry: from every seed each seen carry is the true one. */
  lemma ChainKeepsCarries(s: Seed) returns (c4: int, c3: int, c2: int, c1: int, c0: int)
    ensures c4 == SeenCarry(s[5], s[4], 0) && IsSum(s[5], s[4], 0, Added(s).t4, c4)
    ensures c3 == SeenCarry(Added(s).t4, s[3], c4) && IsSum(Added(s).t4, s[3], c4, Added(s).t3, c3)
    ensures c2 == SeenCarry(Added(s).t3, s[2], c3) && IsSum(Added(s).t3, s[2], c3, Added(s).t2, c2)
    ensures c1 == SeenCarry(Added(s).t2, s[1], c2) && IsSum(Added(s).t2, s[1], c2, Added(s).t1, c1)
    ensures c0 == SeenCarry(Added(s).t1, s[0], c1) && IsSum(Added(s).t1, s[0], c1, Added(s).t0, c0)
  {
    var c := Added(s);
    c4 := SeenCarry(s[5], s[4], 0);
    CarryIsTrue(s[5], s[4], 0);
    c3 := NextCarry(s[5], s[4], 0, s[3]);
    c2 := NextCarry(c.t4, s[3], c4, s[2]);
    c1 := NextCarry(c.t3, s[2], c3, s[1]);
    c0 := NextCarry(c.t2, s[1], c2, s[0]);
  }

  /** The addition behind one of the chain. */
  lemma NextCarry(a: Word, b: Word, carry: int, next: Word) returns (c: int)
    requires 0 <= carry <= 1
    ensures var t, d := AddWords(a, b, carry), SeenCarry(a, b, carry);
            c == SeenCarry(t, next, d) && IsSum(t, next, d, AddWords(t, next, d), c)
  {
    var t, d := AddWords(a, b, carry), SeenCarry(a, b, carry);
    if d == 1 {
      CarryLeavesRoom(a, b, carry);
    }
    c := SeenCarry(t, next, d);
    CarryIsTrue(t, next, d);
  }

  const FIVE_WORDS: nat := WORD * WORD * WORD * WORD * WORD

  /** Five words as one number, the last counting least. */
  function Number(w0: Word, w1: Word, w2: Word, w3: Word, w4: Word): nat {
    (((w0 * WORD + w1) * WORD + w2) * WORD + w3) * WORD + w4
  }

  /**
   So the five additions are a single one of 160 bits: to the words 0 to 4 comes their own sum, moved
   down by a word, with word 5 in the last place.
   */
  lemma ChainIsOneSum(s: Seed)
    ensures var c := Added(s);
            Number(c.t0, c.t1, c.t2, c.t3, c.t4)
            == (Number(s[0], s[1], s[2], s[3], s[4]) + Number(c.t1, c.t2, c.t3, c.t4, s[5])) % FIVE_WORDS
  {
    var c := Added(s);
    var c4, c3, c2, c1, c0 := ChainKeepsCarries(s);
    SumsJoin(s, c, c4, c3, c2, c1, c0);
    var sum := Number(s[0], s[1], s[2], s[3], s[4]) + Number(c.t1, c.t2, c.t3, c.t4, s[5]);
    NumberFits(c.t0, c.t1, c.t2, c.t3, c.t4);
    ModUnique(sum, c0, Number(c.t0, c.t1, c.t2, c.t3, c.t4), FIVE_WORDS);
  }

  lemma NumberFits(w0: Word, w1: Word, w2: Word, w3: Word, w4: Word)
    ensures Number(w0, w1, w2, w3, w4) < FIVE_WORDS
  {
  }

  lemma SumsJoin(s: Seed, c: Chain, c4: int, c3: int, c2: int, c1: int, c0: int)
    requires IsSum(s[5], s[4], 0, c.t4, c4) && IsSum(c.t4, s[3], c4, c.t3, c3) && IsSum(c.t3, s[2], c3, c.t2, c2)
    requires IsSum(c.t2, s[1], c2, c.t1, c1) && IsSum(c.t1, s[0], c1, c.t0, c0)
    ensures Number(s[0], s[1], s[2], s[3], s[4]) + Number(c.t1, c.t2, c.t3, c.t4, s[5])
         == c0 * FIVE_WORDS + Number(c.t0, c.t1, c.t2, c.t3, c.t4)
  {
  }

  function Chained(s: Seed): Seed {
    var c := Added(s);
    [c.t0, c.t1, c.t2, c.t3, c.t4, s[5]]
  }

  /** Count the words up by one, from word i downwards. */
  function CountUp(s: Seed, i: nat): Seed
    requires i < 6
    decreases i
  {
    var up := s[i := (s[i] + 1) % WORD];
    if i == 0 || up[i] != 0 then up else CountUp(up, i - 1)
  }

  /** The first i + 1 words as one number, word 0 counting most. */
  function Counter(s: Seed, i: nat): nat
    requires i < 6
  {
    if i == 0 then s[0] else Counter(s, i - 1) * WORD + s[i]
  }

  function Words(n: nat): (p: nat)
    ensures p > 0
  {
    if n == 0 then 1 else Words(n - 1) * WORD
  }

  lemma {:induction false} CounterWithin(s: Seed, t: Seed, i: nat)
    requires i < 6 && forall k :: 0 <= k <= i ==> s[k] == t[k]
    ensures Counter(s, i) == Counter(t, i)
  {
    if i > 0 {
      CounterWithin(s, t, i - 1);
    }
  }

  /** Counting up adds one to the number of the words, which starts again behind the last. */
  lemma {:induction false} CountUpAddsOne(s: Seed, i: nat)
    requires i < 6
    ensures Counter(s, i) < Words(i + 1)
    ensures Counter(CountUp(s, i), i) == (Counter(s, i) + 1) % Words(i + 1)
    decreases i
  {
    if i == 0 {
      assert Words(1) == Words(0) * WORD == WORD;
    } else {
      var up := s[i := (s[i] + 1) % WORD];
      CountUpAddsOne(s, i - 1);
      CountUpAddsOne(up, i - 1);
      CounterWithin(s, up, i - 1);
      Composed(s, i, Words(i), Counter(CountUp(s, i), i - 1));
    }
  }

  lemma CountUpUnfolded(s: Seed, i: nat)
    requires 0 < i < 6
    ensures Counter(s, i) == Counter(s, i - 1) * WORD + s[i] && Words(i + 1) == Words(i) * WORD
    ensures Counter(CountUp(s, i), i) == Counter(CountUp(s, i), i - 1) * WORD + (s[i] + 1) % WORD
    ensures var up := s[i := (s[i] + 1) % WORD];
            Counter(CountUp(s, i), i - 1) == Counter(if s[i] == TOP then CountUp(up, i - 1) else up, i - 1)
  {
    CountUpLeaves(s, i);
    assert s[i] == TOP <==> (s[i] + 1) % WORD == 0;
  }

  /** The step from the words in front of word i to those up to it. */
  lemma Composed(s: Seed, i: nat, w: nat, after: nat)
    requires 0 < i < 6 && w == Words(i) && after == Counter(CountUp(s, i), i - 1) && Counter(s, i - 1) < w
    requires var up := s[i := (s[i] + 1) % WORD];
             && Counter(up, i - 1) == Counter(s, i - 1)
             && Counter(CountUp(up, i - 1), i - 1) == (Counter(up, i - 1) + 1) % w
    ensures Counter(s, i) < Words(i + 1) && Counter(CountUp(s, i), i) == (Counter(s, i) + 1) % Words(i + 1)
  {
    hide Counter, CountUp, Words;
    CountUpUnfolded(s, i);
    OneWordMore(Counter(s, i - 1), w, s[i], after);
  }

  /** The words in front count on exactly when the last one comes round. */
  lemma OneWordMore(high: nat, w: nat, low: Word, after: nat)
    requires high < w && after == if low == TOP then (high + 1) % w else high
    ensures high * WORD + low < w * WORD
    ensures after * WORD + (low + 1) % WORD == (high * WORD + low + 1) % (w * WORD)
  {
    if low == TOP {
      CarriedOn(high, w, low, after);
    } else {
      NotCarried(high, w, low);
    }
  }

  lemma CarriedOn(high: nat, w: nat, low: nat, after: nat)
    requires high < w && low == TOP && after == (high + 1) % w
    ensures high * WORD + low < w * WORD && after * WORD == (high * WORD + low + 1) % (w * WORD)
  {
    if high + 1 < w {
      assert after == high + 1;
      ModUnique((high + 1) * WORD, 0, (high + 1) * WORD, w * WORD);
    } else {
      ModUnique(w, 1, 0, w);
      ModUnique(w * WORD, 1, 0, w * WORD);
    }
  }

  lemma NotCarried(high: nat, w: nat, low: nat)
    requires high < w && low + 1 < WORD
    ensures high * WORD + low < w * WORD && high * WORD + low + 1 == (high * WORD + low + 1) % (w * WORD)
  {
    ModUnique(high * WORD + low + 1, 0, high * WORD + low + 1, w * WORD);
  }

  function ZhNext(s: Seed): Seed {
    CountUp(Chained(s), 5)
  }

  method ZhDraw(seed: array<int>) returns (r: int)
    requires seed.Length == 6 && forall k :: 0 <= k < 6 ==> 0 <= seed[k] < WORD
    modifies seed
    ensures seed[..] == ZhNext(old(seed[..])) && r == seed[0]
  {
    ghost var s: Seed := seed[..];
    var carry := SeenCarry(seed[5], seed[4], 0);
    var ax := AddWords(seed[5], seed[4], 0);
    seed[4] := ax;
    carry, ax := SeenCarry(ax, seed[3], carry), AddWords(ax, seed[3], carry);
    seed[3] := ax;
    carry, ax := SeenCarry(ax, seed[2], carry), AddWords(ax, seed[2], carry);
    seed[2] := ax;
    carry, ax := SeenCarry(ax, seed[1], carry), AddWords(ax, seed[1], carry);
    seed[1] := ax;
    ax := AddWords(ax, seed[0], carry);
    seed[0] := ax;
    assert seed[..] == Chained(s);
    r := CountUpInPlace(seed, ax);
  }

  method CountUpInPlace(seed: array<int>, ax: int) returns (r: int)
    requires seed.Length == 6 && (forall k :: 0 <= k < 6 ==> 0 <= seed[k] < WORD) && ax == seed[0]
    modifies seed
    ensures seed[..] == CountUp(old(seed[..]), 5) && r == seed[0]
  {
    var i := 5;
    while i >= 1
      invariant 0 <= i <= 5 && seed[0] == ax
      invariant forall k :: 0 <= k < 6 ==> 0 <= seed[k] < WORD
      invariant CountUp(seed[..], i) == CountUp(old(seed[..]), 5)
    {
      ghost var before := seed[..];
      seed[i] := (seed[i] + 1) % WORD;
      assert seed[..] == before[i := (before[i] + 1) % WORD];
      if seed[i] != 0 {
        return ax;
      }
      i := i - 1;
    }
    ghost var before := seed[..];
    seed[0] := (seed[0] + 1) % WORD;
    assert seed[..] == before[0 := (before[0] + 1) % WORD];
    r := (ax + 1) % WORD;
  }

  lemma {:induction false} CountUpInjective(s: Seed, t: Seed, i: nat)
    requires i < 6 && CountUp(s, i) == CountUp(t, i)
    ensures s == t
    decreases i
  {
    CountUpLeaves(s, i);
    CountUpLeaves(t, i);
    assert s[i] == t[i];
    var up, vp := s[i := (s[i] + 1) % WORD], t[i := (t[i] + 1) % WORD];
    if i > 0 && up[i] == 0 {
      CountUpInjective(up, vp, i - 1);
    }
    forall k | 0 <= k < 6 ensures s[k] == t[k] {
      assert k != i ==> s[k] == up[k] && t[k] == vp[k];
    }
  }

  /** Counting from word i on leaves the words above i alone, and word i one higher. */
  lemma {:induction false} CountUpLeaves(s: Seed, i: nat)
    requires i < 6
    ensures CountUp(s, i)[i] == (s[i] + 1) % WORD
    ensures forall k :: i < k < 6 ==> CountUp(s, i)[k] == s[k]
    decreases i
  {
    var up := s[i := (s[i] + 1) % WORD];
    if i > 0 && up[i] == 0 {
      CountUpLeaves(up, i - 1);
    }
  }

  lemma AddWordsInjective(a: Word, b: Word, b': Word, carry: int)
    requires 0 <= carry <= 1 && AddWords(a, b, carry) == AddWords(a, b', carry)
    ensures b == b'
  {
  }

  lemma ChainedInjective(s: Seed, t: Seed)
    requires Chained(s) == Chained(t)
    ensures s == t
  {
    var c, d := Added(s), Added(t);
    assert s[5] == Chained(s)[5] == t[5];
    assert c.t4 == Chained(s)[4] == d.t4 && c.t3 == Chained(s)[3] == d.t3 && c.t2 == Chained(s)[2] == d.t2;
    assert c.t1 == Chained(s)[1] == d.t1 && c.t0 == Chained(s)[0] == d.t0;
    AddWordsInjective(s[5], s[4], t[4], 0);
    var c4 := SeenCarry(s[5], s[4], 0);
    AddWordsInjective(c.t4, s[3], t[3], c4);
    var c3 := SeenCarry(c.t4, s[3], c4);
    AddWordsInjective(c.t3, s[2], t[2], c3);
    var c2 := SeenCarry(c.t3, s[2], c3);
    AddWordsInjective(c.t2, s[1], t[1], c2);
    AddWordsInjective(c.t1, s[0], t[0], SeenCarry(c.t2, s[1], c2));
  }

  /** The carry-chain draw loses no state: different seeds have different successors. */
  lemma ZhNextInjective(s: Seed, t: Seed)
    requires ZhNext(s) == ZhNext(t)
    ensures s == t
  {
    CountUpInjective(Chained(s), Chained(t), 5);
    ChainedInjective(s, t);
  }

  ghost predicate Injective<S(!new)>(next: S -> S) {
    forall s, t :: next(s) == next(t) ==> s == t
  }

  lemma {:induction false} ReturnsToStart<S(!new)>(next: S -> S, s: S, i: nat, j: nat)
    requires Injective(next) && i < j && Iterate(next, i, s) == Iterate(next, j, s)
    ensures Iterate(next, j - i, s) == s
  {
    if i > 0 {
      assert next(Iterate(next, i - 1, s)) == next(Iterate(next, j - 1, s));
      ReturnsToStart(next, s, i - 1, j - 1);
    }
  }

  /** So the first state to come back on a run is the one it started from. */
  lemma ZhReturnsToStart(s: Seed, i: nat, j: nat)
    requires i < j && Iterate(ZhNext, i, s) == Iterate(ZhNext, j, s)
    ensures Iterate(ZhNext, j - i, s) == s
  {
    forall u: Seed, v: Seed | ZhNext(u) == ZhNext(v) ensures u == v {
      ZhNextInjective(u, v);
    }
    ReturnsToStart(ZhNext, s, i, j);
  }

  // ----- integer values

  /** `get_value`: the value, and whether a word was drawn for it. */
  function IntValue(lo: int, hi: int, r: Word): (int, bool) {
    var delta := (hi - lo + 1) % WORD;
    if delta == 0 then (hi, false) else (r % delta + lo, true)
  }

  /** The value of every word is in the interval, exactly when there is an interval. */
  lemma IntValueRange(lo: int, hi: int, r: Word)
    ensures lo <= IntValue(lo, hi, r).0 <= hi <==> lo <= hi
  {
    if lo <= hi && (hi - lo + 1) % WORD != 0 {
      ModWithin(hi - lo + 1, WORD);
    }
  }

  lemma ModWithin(x: int, m: nat)
    requires x >= 0 && m > 0
    ensures 0 <= x % m <= x
  {
    assert x == (x / m) * m + x % m;
  }
}
