/**
 `get_value` and `get_value_real` of tools/horde_oracle/rng_reference.py: a word is drawn from either
 generator and carried into an interval, for reals through five roundings to 24 bits.
 */
module DrawnValues {
  import opened Generators
  import opened Period
  import opened PyInt
  import opened Rounding

  // ----- one draw of either generator

  datatype Generator = Lcg | Zh

  /** The seed after a draw, and the drawn word. */
  function Drawn(gen: Generator, s: Seed): (Seed, Word) {
    match gen
    case Lcg =>
      LcgOutIsWord(s[0]);
      (s[0 := LcgNext(s[0])], LcgOut(s[0]))
    case Zh =>
      (ZhNext(s), ZhNext(s)[0])
  }

  method Draw(gen: Generator, seed: array<int>) returns (r: int)
    requires seed.Length == 6 && forall k :: 0 <= k < 6 ==> 0 <= seed[k] < WORD
    modifies seed
    ensures var s: Seed := old(seed[..]); (seed[..], r) == Drawn(gen, s)
  {
    ghost var s: Seed := seed[..];
    match gen {
      case Lcg =>
        r := LcgDraw(seed);
        assert seed[..] == s[0 := LcgNext(s[0])];
      case Zh =>
        r := ZhDraw(seed);
    }
  }

  // ----- which words are drawn

  /** The carry chain draws every word. */
  lemma ZhDrawsEvery(w: Word)
    ensures Drawn(Zh, [w, 0, 0, 0, 0, 0]).1 == w
  {
    hide Chained;
    ChainedAlone(w);
    var s: Seed := [w, 0, 0, 0, 0, 0];
    assert CountUp(s, 5) == s[5 := 1];
  }

  lemma ChainedAlone(w: Word)
    ensures Chained([w, 0, 0, 0, 0, 0]) == [w, 0, 0, 0, 0, 0]
  {
    var c := Added([w, 0, 0, 0, 0, 0]);
    assert c.t4 == c.t3 == c.t2 == c.t1 == 0 && c.t0 == w;
  }

  /** So it reaches every value of an interval of fewer than 2^32 integers. */
  lemma IntValueReaches(lo: int, hi: int, v: int)
    requires lo <= v <= hi < lo + WORD - 1
    ensures v - lo < WORD && IntValue(lo, hi, Drawn(Zh, [v - lo, 0, 0, 0, 0, 0]).1) == (v, true)
  {
    ZhDrawsEvery(v - lo);
    var n := hi - lo + 1;
    ModUnique(n, 0, n, WORD);
    ModUnique(v - lo, 0, v - lo, n);
  }

  /** The linear generator does not: from no seed does it reach 2 between 0 and 2^32 - 2. */
  lemma LcgMissesAValue(s: Seed)
    ensures IntValue(0, TOP - 1, Drawn(Lcg, s).1).0 != 2
  {
    LcgMissesTwo(s[0]);
    assert (TOP - 1 - 0 + 1) % WORD == TOP;
  }

  /** Which values it does reach: those of a word with a high word that draws it. */
  lemma LcgReachesIff(lo: int, hi: int, v: int)
    ensures (exists s: Seed :: IntValue(lo, hi, Drawn(Lcg, s).1) == (v, true))
       <==> (exists h: nat, w: Word :: IsHighFor(h, w) && IntValue(lo, hi, w) == (v, true))
  {
    if s: Seed :| IntValue(lo, hi, Drawn(Lcg, s).1) == (v, true) {
      var h := HighOf(s[0]);
      assert IsHighFor(h, Drawn(Lcg, s).1);
    }
    if h: nat, w: Word :| IsHighFor(h, w) && IntValue(lo, hi, w) == (v, true) {
      var first := DrawnWith(h, w);
      var s: Seed := [first, 0, 0, 0, 0, 0];
      assert Drawn(Lcg, s).1 == w;
    }
  }

  lemma LcgDrawsZero()
    ensures LcgOut(0x5C9F9EBE) == 0
  {
    HalvesDraw(0x5C9F9EBE, 0x02E811B7, 0x02E811B6);
    XorSelf(0x02E811B7);
  }

  lemma LcgDrawsHigh()
    ensures LcgOut(0x0A0A0A0A) == NEARLY_TOP
  {
    hide Bitwise;
    HalvesDraw(0x0A0A0A0A, 0x0050A5CD, 0xFFAF5A32);
    WordIsPower();
    XorOfNegated(0xFFAF5A33, 0x0050A5CD, 31);
  }

  /** A seed of either generator that draws 0. */
  lemma DrawsZero(gen: Generator) returns (s: Seed)
    ensures Drawn(gen, s).1 == 0
  {
    s := [0, 0, 0, 0, 0, 0];
    match gen {
      case Lcg =>
        s := [0x5C9F9EBE, 0, 0, 0, 0, 0];
        LcgDrawsZero();
      case Zh =>
        ZhDrawsEvery(0);
    }
  }

  const NEARLY_TOP: Word := 0xFFFF_FFFE

  /** And one that draws a word of the highest 128. */
  lemma DrawsHigh(gen: Generator) returns (s: Seed)
    ensures Drawn(gen, s).1 == NEARLY_TOP
  {
    s := [NEARLY_TOP, 0, 0, 0, 0, 0];
    match gen {
      case Lcg =>
        s := [0x0A0A0A0A, 0, 0, 0, 0, 0];
        LcgDrawsHigh();
      case Zh =>
        ZhDrawsEvery(NEARLY_TOP);
    }
  }

  /** `get_value`: nothing is drawn when the interval's size is a multiple of 2^32. */
  method GetValue(gen: Generator, seed: array<int>, lo: int, hi: int) returns (v: int, drew: bool)
    requires seed.Length == 6 && forall k :: 0 <= k < 6 ==> 0 <= seed[k] < WORD
    modifies seed
    ensures var s: Seed := old(seed[..]);
            (v, drew) == IntValue(lo, hi, Drawn(gen, s).1) && seed[..] == (if drew then Drawn(gen, s).0 else s)
  {
    var delta := (hi - lo + 1) % WORD;
    if delta == 0 {
      return hi, false;
    }
    var r := Draw(gen, seed);
    return r % delta + lo, true;
  }

  // ----- the chain of roundings, for any rounding

  const HALF_WORD: nat := 0x8000_0000
  const SPAN := 4294967296.0                                   // 2^32
  const MULT_FACTOR := 0.00000000023283064365386962890625      // 2^-32

  /** The word read as a signed integer. */
  function Signed(r: Word): int {
    if r >= HALF_WORD then r - WORD else r
  }

  /** The word carried into the unit interval: negative readings get 2^32 added back, with a rounding. */
  function Unit(round: real -> real, r: Word): real {
    var t := Signed(r) as real;
    var u := if Signed(r) < 0 then round(t + SPAN) else t;
    round(u * MULT_FACTOR)
  }

  /** Its product with delta and the sum with lo, each rounded. */
  function Carried(round: real -> real, u: real, delta: real, lo: real): real {
    round(round(u * delta) + lo)
  }

  /** `get_value_real` for the drawn word r: the value, and whether a word was drawn for it. */
  function RealValue(round: real -> real, lo: real, hi: real, r: Word): (real, bool) {
    var delta := round(hi - lo);
    if delta <= 0.0 then (hi, false) else (Carried(round, Unit(round, r), delta, lo), true)
  }

  method GetValueReal(round: real -> real, gen: Generator, seed: array<int>, lo: real, hi: real)
    returns (v: real, drew: bool)
    requires seed.Length == 6 && forall k :: 0 <= k < 6 ==> 0 <= seed[k] < WORD
    modifies seed
    ensures var s: Seed := old(seed[..]);
            (v, drew) == RealValue(round, lo, hi, Drawn(gen, s).1) && seed[..] == (if drew then Drawn(gen, s).0 else s)
  {
    var delta := round(hi - lo);
    if delta <= 0.0 {
      return hi, false;
    }
    var r := Draw(gen, seed);
    v := ComputeUnit(round, r);
    v := CarryInto(round, v, delta, lo);
    drew := true;
  }

  /** The steps up to the unit interval. */
  method ComputeUnit(round: real -> real, r: Word) returns (t: real)
    ensures t == Unit(round, r)
  {
    var signed := if r >= HALF_WORD then r - WORD else r;
    t := signed as real;
    if signed < 0 {
      t := round(t + SPAN);
    }
    t := round(t * MULT_FACTOR);
  }

  /** The steps from there into the interval. */
  method CarryInto(round: real -> real, u: real, delta: real, lo: real) returns (t: real)
    ensures t == Carried(round, u, delta, lo)
  {
    t := round(u * delta);
    t := round(t + lo);
  }

  /** What the chain needs of its rounding. */
  ghost predicate IsRounding(round: real -> real) {
    && round(0.0) == 0.0
    && round(1.0) == 1.0
    && Monotone(round)
    && Settles(round)
    && Scales(round)
  }

  ghost predicate Monotone(round: real -> real) {
    forall x, y :: x <= y ==> round(x) <= round(y)
  }

  ghost predicate Settles(round: real -> real) {
    forall x :: round(round(x)) == round(x)
  }

  ghost predicate Scales(round: real -> real) {
    forall x: real, y: real :: x > 0.0 && IsScaledUp(x, y) ==> round(y) == round(x) * SPAN
  }

  predicate IsScaledUp(x: real, y: real) {
    y == x * SPAN
  }

  // ----- both sign branches are one rounding

  lemma RoundedTwice(round: real -> real, x: real, y: real)
    requires IsRounding(round) && x > 0.0 && IsScaledUp(x, y)
    ensures round(round(y) * MULT_FACTOR) == round(x)
  {
    assert round(y) == round(x) * SPAN;
    assert round(y) * MULT_FACTOR == round(x);
    assert round(round(x)) == round(x);
  }

  /** Whatever its sign bit, the drawn word is divided by 2^32 and rounded once. */
  lemma UnitIsOneRounding(round: real -> real, r: Word)
    requires IsRounding(round)
    ensures Unit(round, r) == round(r as real * MULT_FACTOR)
  {
    if r >= HALF_WORD {
      RoundedTwice(round, r as real * MULT_FACTOR, r as real);
      assert Signed(r) as real + SPAN == r as real;
    }
  }

  /** So the value of every draw is three roundings of the exact steps. */
  lemma RealValueIs(round: real -> real, lo: real, hi: real, r: Word)
    requires IsRounding(round) && round(hi - lo) > 0.0
    ensures RealValue(round, lo, hi, r) == (round(lo + round(round(hi - lo) * round(r as real * MULT_FACTOR))), true)
  {
    UnitIsOneRounding(round, r);
  }

  // ----- bounds, and when they hold

  lemma UnitRange(round: real -> real, r: Word)
    requires IsRounding(round)
    ensures 0.0 <= Unit(round, r) <= 1.0
  {
    UnitIsOneRounding(round, r);
    var x := r as real * MULT_FACTOR;
    assert 0.0 <= x <= 1.0;
    assert round(0.0) <= round(x) <= round(1.0);
  }

  /** The scaled word stays between 0 and delta. */
  lemma StepWithin(round: real -> real, u: real, delta: real)
    requires IsRounding(round) && 0.0 <= u <= 1.0 && delta > 0.0 && round(delta) == delta
    ensures 0.0 <= round(u * delta) <= delta
  {
    var p := u * delta;
    PartOf(p, u, delta);
    assert round(0.0) <= round(p) <= round(delta);
  }

  lemma PartOf(p: real, u: real, delta: real)
    requires IsProduct(u, delta, p) && 0.0 <= u <= 1.0 && delta > 0.0
    ensures 0.0 <= p <= delta
  {
    ScaleOrder(u, 1.0, delta);
    ScaleOrder(0.0, u, delta);
    assert 1.0 * delta == delta;
  }

  /** Every drawn value lies between the roundings of lo and of lo + delta. */
  lemma RealValueWithin(round: real -> real, lo: real, hi: real, r: Word)
    requires IsRounding(round) && round(hi - lo) > 0.0
    ensures round(lo) <= RealValue(round, lo, hi, r).0 <= round(lo + round(hi - lo))
  {
    var delta := round(hi - lo);
    UnitRange(round, r);
    var u := Unit(round, r);
    assert round(round(hi - lo)) == round(hi - lo);
    StepWithin(round, u, delta);
    CarriedWithin(round, u, delta, lo);
  }

  lemma CarriedWithin(round: real -> real, u: real, delta: real, lo: real)
    requires Monotone(round) && 0.0 <= round(u * delta) <= delta
    ensures round(lo) <= Carried(round, u, delta, lo) <= round(lo + delta)
  {
    var s := round(u * delta);
    assert lo <= s + lo <= lo + delta;
  }

  /** The word 0 draws the rounding of lo. */
  lemma LowestDraw(round: real -> real, lo: real, hi: real)
    requires IsRounding(round) && round(hi - lo) > 0.0
    ensures RealValue(round, lo, hi, 0).0 == round(lo)
  {
    assert Unit(round, 0) == 0.0;
    assert Unit(round, 0) * round(hi - lo) == 0.0;
  }

  /** A word that is rounded up to 2^32 draws the upper bound. */
  lemma HighestDraw(round: real -> real, lo: real, hi: real, r: Word)
    requires IsRounding(round) && round(r as real) == SPAN && round(hi - lo) > 0.0
    ensures RealValue(round, lo, hi, r).0 == round(lo + round(hi - lo))
  {
    UnitOfHighest(round, r);
    assert Unit(round, r) * round(hi - lo) == round(hi - lo);
    assert round(round(hi - lo)) == round(hi - lo);
  }

  lemma UnitOfHighest(round: real -> real, r: Word)
    requires IsRounding(round) && round(r as real) == SPAN
    ensures Unit(round, r) == 1.0
  {
    UnitIsOneRounding(round, r);
    if r > 0 {
      RoundedTwice(round, r as real * MULT_FACTOR, r as real);
    }
  }

  /** From no seed does the generator draw a value above hi. */
  ghost predicate NeverAbove(round: real -> real, gen: Generator, lo: real, hi: real) {
    forall s: Seed :: RealValue(round, lo, hi, Drawn(gen, s).1).0 <= hi
  }

  ghost predicate NeverBelow(round: real -> real, gen: Generator, lo: real, hi: real) {
    forall s: Seed :: lo <= RealValue(round, lo, hi, Drawn(gen, s).1).0
  }

  /** No draw exceeds hi exactly when there is none, or lo + delta does not round to more than hi. */
  lemma NeverAboveIff(round: real -> real, gen: Generator, lo: real, hi: real, high: Seed)
    requires IsRounding(round) && round(Drawn(gen, high).1 as real) == SPAN
    ensures NeverAbove(round, gen, lo, hi) <==> round(hi - lo) <= 0.0 || round(lo + round(hi - lo)) <= hi
  {
    if round(hi - lo) > 0.0 {
      HighestDraw(round, lo, hi, Drawn(gen, high).1);
      forall s: Seed ensures RealValue(round, lo, hi, Drawn(gen, s).1).0 <= round(lo + round(hi - lo)) {
        RealValueWithin(round, lo, hi, Drawn(gen, s).1);
      }
    }
  }

  /** No value is below lo exactly when lo is not rounded down; without a draw, when hi is not below it. */
  lemma NeverBelowIff(round: real -> real, gen: Generator, lo: real, hi: real)
    requires IsRounding(round)
    ensures NeverBelow(round, gen, lo, hi) <==> lo <= if round(hi - lo) <= 0.0 then hi else round(lo)
  {
    var zero := DrawsZero(gen);
    if round(hi - lo) > 0.0 {
      LowestDraw(round, lo, hi);
      forall s: Seed ensures round(lo) <= RealValue(round, lo, hi, Drawn(gen, s).1).0 {
        RealValueWithin(round, lo, hi, Drawn(gen, s).1);
      }
      assert RealValue(round, lo, hi, Drawn(gen, zero).1).0 == round(lo);
    } else {
      assert RealValue(round, lo, hi, Drawn(gen, zero).1).0 == hi;
    }
  }

  // ----- the rounding to 24 bits

  lemma SpanIsPower()
    ensures P2(32) == SPAN
  {
    assert P2(4) == 16.0;
    P2Add(4, 4);
    P2Add(8, 8);
    P2Add(16, 16);
  }

  lemma OneIsRounded()
    ensures Round24(1.0) == 1.0
  {
    assert IsFloatOf(1.0, 1, 0);
    RoundIdempotent(1.0);
  }

  lemma Round24Monotone()
    ensures Monotone(Round24)
  {
    forall x, y | x <= y ensures Round24(x) <= Round24(y) {
      RoundMonotone(x, y);
    }
  }

  lemma Round24Settles()
    ensures Settles(Round24)
  {
    forall x ensures Round24(Round24(x)) == Round24(x) {
      RoundIsFloat(x);
      RoundIdempotent(Round24(x));
    }
  }

  lemma Round24ScalesAt(x: real, y: real)
    requires x > 0.0 && IsScaledUp(x, y)
    ensures Round24(y) == Round24(x) * SPAN
  {
    SpanIsPower();
    RoundScaled(x, 32, y);
  }

  lemma Round24Scales()
    ensures Scales(Round24)
  {
    forall x: real, y: real | x > 0.0 && IsScaledUp(x, y) ensures Round24(y) == Round24(x) * SPAN {
      Round24ScalesAt(x, y);
    }
  }

  /** `round24` is such a rounding, so everything above is said of it. */
  lemma Round24IsRounding()
    ensures IsRounding(Round24)
  {
    OneIsRounded();
    Round24Monotone();
    Round24Settles();
    Round24Scales();
  }

  /** The highest 128 words have 32 bits, so they are rounded up to 2^32. */
  lemma HighRoundsUp(r: Word)
    requires r >= WORD - 128
    ensures Round24(r as real) == SPAN
  {
    assert P2(4) == 16.0;
    P2Add(4, 4);
    var q := r as real / 256.0;
    RoundInBinade(r as real, q, 8);
    assert RoundHalfEven(q) == 16777216 by { assert q.Floor == 16777215; }
  }

  /** With a representable lo no draw falls below it, and none exceeds the rounded sum of lo and the width. */
  lemma Value24Within(lo: real, hi: real, r: Word)
    requires IsFloat24(lo) && Round24(hi - lo) > 0.0
    ensures lo <= RealValue(Round24, lo, hi, r).0 <= Round24(lo + Round24(hi - lo))
  {
    Round24IsRounding();
    RealValueWithin(Round24, lo, hi, r);
    RoundIdempotent(lo);
  }

  /** With either generator no value exceeds hi exactly when none is drawn, or the rounded sum does not. */
  lemma Value24NeverAboveIff(gen: Generator, lo: real, hi: real)
    ensures NeverAbove(Round24, gen, lo, hi) <==> Round24(hi - lo) <= 0.0 || Round24(lo + Round24(hi - lo)) <= hi
  {
    Round24IsRounding();
    var high := DrawsHigh(gen);
    HighRoundsUp(NEARLY_TOP);
    NeverAboveIff(Round24, gen, lo, hi, high);
  }

  // ----- an interval of representable ends whose upper end is exceeded

  const ULP := 1.0 / 8388608.0  // 2^-23

  lemma UlpPowers()
    ensures P2(-23) == ULP && P2(-22) == 2.0 * ULP
  {
    assert P2(4) == 16.0;
    P2Add(4, 4);
    P2Add(8, 8);
    P2Add(16, 4);
    P2Add(20, 3);
    assert P2(23) == 8388608.0;
    P2Add(-23, 23);
    P2Next(-23);
  }

  lemma RoundedWidth()
    ensures Round24(2.0 + 3.0 * ULP) == 2.0 + 4.0 * ULP
  {
    UlpPowers();
    var q := 8388609.5;
    assert InBinade(2.0 + 3.0 * ULP, q, -22);
    RoundInBinade(2.0 + 3.0 * ULP, q, -22);
    assert RoundHalfEven(q) == 8388610 by { assert q.Floor == 8388609; }
  }

  lemma EndsAreFloats()
    ensures IsFloat24(-1.0) && IsFloat24(1.0 + 3.0 * ULP) && IsFloat24(1.0 + 4.0 * ULP)
  {
    UlpPowers();
    assert IsFloatOf(-1.0, -1, 0);
    assert IsFloatOf(1.0 + 3.0 * ULP, 8388611, -23);
    assert IsFloatOf(1.0 + 4.0 * ULP, 8388612, -23);
  }

  /** The width 2 + 3 ulp is a tie and rounds up, and the sum with lo is exact: hi is exceeded by an ulp. */
  lemma UpperBoundExceeded(gen: Generator, lo: real, hi: real) returns (s: Seed)
    requires lo == -1.0 && hi == 1.0 + 3.0 * ULP
    ensures IsFloat24(lo) && IsFloat24(hi) && RealValue(Round24, lo, hi, Drawn(gen, s).1) == (hi + ULP, true)
  {
    EndsAreFloats();
    RoundIdempotent(1.0 + 4.0 * ULP);
    RoundedWidth();
    Round24IsRounding();
    s := DrawsHigh(gen);
    HighRoundsUp(NEARLY_TOP);
    HighExceeds(Round24, lo, hi, NEARLY_TOP);
  }

  lemma HighExceeds(round: real -> real, lo: real, hi: real, r: Word)
    requires lo == -1.0 && hi == 1.0 + 3.0 * ULP
    requires IsRounding(round) && round(r as real) == SPAN
    requires round(2.0 + 3.0 * ULP) == 2.0 + 4.0 * ULP && round(1.0 + 4.0 * ULP) == 1.0 + 4.0 * ULP
    ensures RealValue(round, lo, hi, r) == (hi + ULP, true)
  {
    assert hi - lo == 2.0 + 3.0 * ULP;
    HighestDraw(round, lo, hi, r);
  }
}
