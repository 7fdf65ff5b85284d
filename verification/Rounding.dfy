/**
 `round24` of tools/horde_oracle/rng_reference.py: rounding to a 24-bit significand, ties to even
 (roundTiesToEven, section 4.3.1 of IEEE 754-2019), with an unbounded exponent.
 */
module Rounding {

  /** 2^e for any integer e. */
  function P2(e: int): (p: real)
    ensures p > 0.0
    decreases if e < 0 then -e else e
  {
    if e == 0 then 1.0
    else if e > 0 then 2.0 * P2(e - 1)
    else 0.5 * P2(e + 1)
  }

  lemma P2Next(e: int)
    ensures P2(e + 1) == 2.0 * P2(e)
  {
  }

  /** p times q is pq. */
  predicate IsProduct(p: real, q: real, pq: real) {
    pq == p * q
  }

  lemma {:induction false} ProductUp(e: int, f: nat)
    ensures IsProduct(P2(e), P2(f), P2(e + f))
  {
    if f == 0 {
      TimesOne(P2(e));
    } else {
      ProductUp(e, f - 1);
      P2Next(e + (f - 1));
      P2Next(f - 1);
      DoubledProduct(P2(e), P2(f - 1), P2(e + (f - 1)), P2(f), P2(e + f));
    }
  }

  lemma ProductDown(e: int, f: int)
    requires f >= 0
    ensures IsProduct(P2(e), P2(-f), P2(e - f))
  {
    ProductUp(e - f, f);
    ProductUp(-f, f);
    Cancelled(P2(e - f), P2(f), P2(e), P2(-f));
  }

  /** Powers of two multiply by adding their exponents, negative ones included. */
  lemma P2Add(e: int, f: int)
    ensures IsProduct(P2(e), P2(f), P2(e + f))
  {
    if f >= 0 {
      ProductUp(e, f);
    } else {
      ProductDown(e, -f);
    }
  }

  /** Dividing a product by its second factor. */
  lemma Cancelled(d: real, q: real, p: real, r: real)
    requires IsProduct(d, q, p) && IsProduct(r, q, 1.0) && q > 0.0
    ensures d == p * r
  {
    assert p * r == d * (q * r);
  }

  lemma TimesOne(p: real)
    ensures IsProduct(p, 1.0, p)
  {
  }

  lemma DoubledProduct(p: real, q: real, pq: real, r: real, pr: real)
    requires IsProduct(p, q, pq) && r == 2.0 * q && pr == 2.0 * pq
    ensures IsProduct(p, r, pr)
  {
    Regroup(p, q);
  }

  lemma Regroup(u: real, v: real)
    ensures 2.0 * (u * v) == u * (2.0 * v)
  {
  }

  /** Powers of larger exponents are at least twice as large. */
  lemma {:induction false} P2Grows(e: int, f: int)
    requires e < f
    ensures 2.0 * P2(e) <= P2(f)
    decreases f - e
  {
    P2Next(f - 1);
    if e < f - 1 {
      P2Grows(e, f - 1);
    }
  }

  const LOW := 8388608.0    // 2^23
  const HIGH := 16777216.0  // 2^24

  /** x is a multiple of 2^e whose factor has 24 bits before the point. */
  predicate InBinade(x: real, q: real, e: int) {
    LOW <= q < HIGH && x == q * P2(e)
  }

  /** Round to an integer, halves to the even neighbour. */
  function RoundHalfEven(q: real): int {
    var fl := q.Floor;
    var rem := q - fl as real;
    if rem > 0.5 || (rem == 0.5 && fl % 2 == 1) then fl + 1 else fl
  }

  /** Bring a positive number into the binade by halving, then by doubling. */
  function Normalize(q: real, e: int): (r: (real, int))
    requires q > 0.0
    ensures LOW <= r.0 < HIGH
    decreases if q >= HIGH then q.Floor else 0, if q < LOW then (HIGH / q).Floor else 0
  {
    if q >= HIGH then
      Normalize(0.5 * q, e + 1)
    else if q < LOW then
      DoubleFloor(q);
      Normalize(2.0 * q, e - 1)
    else (q, e)
  }

  lemma DoubleFloor(q: real)
    requires 0.0 < q < LOW
    ensures HIGH / (2.0 * q) == 0.5 * (HIGH / q) && HIGH / q > 2.0
  {
    var r := HIGH / q;
    assert r * q == HIGH;
    assert r > 2.0;
    assert (0.5 * r) * (2.0 * q) == HIGH;
  }

  lemma {:induction false} NormalizeKeepsValue(x: real, q: real, e: int)
    requires q > 0.0 && x == q * P2(e)
    ensures InBinade(x, Normalize(q, e).0, Normalize(q, e).1)
    decreases if q >= HIGH then q.Floor else 0, if q < LOW then (HIGH / q).Floor else 0
  {
    if q >= HIGH {
      HalvedTimes(q, e);
      NormalizeKeepsValue(x, 0.5 * q, e + 1);
    } else if q < LOW {
      HalvedTimes(2.0 * q, e - 1);
      DoubleFloor(q);
      NormalizeKeepsValue(x, 2.0 * q, e - 1);
    }
  }

  lemma HalvedTimes(q: real, e: int)
    ensures (0.5 * q) * P2(e + 1) == q * P2(e)
  {
    P2Next(e);
    Halve(q, P2(e));
  }

  lemma Halve(q: real, p: real)
    ensures (0.5 * q) * (2.0 * p) == q * p
  {
  }

  /** The exponent of a positive number is unique. */
  lemma BinadeUnique(x: real, q: real, e: int, r: real, f: int)
    requires InBinade(x, q, e) && InBinade(x, r, f)
    ensures q == r && e == f
  {
    if e < f {
      P2Grows(e, f);
      BinadeApart(q, P2(e), r, P2(f));
    } else if f < e {
      P2Grows(f, e);
      BinadeApart(r, P2(f), q, P2(e));
    } else {
      CancelFactor(q, r, P2(e));
    }
  }

  lemma BinadeApart(q: real, p: real, r: real, s: real)
    requires 0.0 < p && 2.0 * p <= s && q < HIGH && LOW <= r
    ensures q * p < r * s
  {
    assert q * p < HIGH * p;
    assert HIGH * p == LOW * (2.0 * p);
    assert LOW * (2.0 * p) <= LOW * s;
    assert LOW * s <= r * s;
  }

  lemma CancelFactor(q: real, r: real, p: real)
    requires p > 0.0 && q * p == r * p
    ensures q == r
  {
  }

  function Exponent(x: real): int
    requires x > 0.0
  {
    Normalize(x, 0).1
  }

  function RoundPositive(x: real): real
    requires x > 0.0
  {
    var (q, e) := Normalize(x, 0);
    RoundHalfEven(q) as real * P2(e)
  }

  function Round24(x: real): real {
    if x == 0.0 then 0.0
    else if x > 0.0 then RoundPositive(x)
    else -RoundPositive(-x)
  }

  /** Any binade of x gives its rounding. */
  lemma RoundInBinade(x: real, q: real, e: int)
    requires x > 0.0 && InBinade(x, q, e)
    ensures Round24(x) == RoundHalfEven(q) as real * P2(e) && Exponent(x) == e
  {
    NormalizeKeepsValue(x, x, 0);
    var (m, f) := Normalize(x, 0);
    BinadeUnique(x, q, e, m, f);
  }

  lemma BinadeOf(x: real) returns (q: real, e: int)
    requires x > 0.0
    ensures InBinade(x, q, e) && e == Exponent(x) && Round24(x) == RoundHalfEven(q) as real * P2(e)
    ensures (q, e) == Normalize(x, 0)
  {
    NormalizeKeepsValue(x, x, 0);
    q, e := Normalize(x, 0).0, Normalize(x, 0).1;
  }

  // ----- representable numbers

  /** y is an integer of at most 24 bits, times a power of two. */
  ghost predicate IsFloat24(y: real) {
    exists m: int, e: int :: IsFloatOf(y, m, e)
  }

  predicate IsFloatOf(y: real, m: int, e: int) {
    -HIGH <= m as real <= HIGH && y == m as real * P2(e)
  }

  function AbsR(x: real): real {
    if x < 0.0 then -x else x
  }

  lemma RoundHalfEvenNear(q: real, n: int)
    ensures AbsR(q - RoundHalfEven(q) as real) <= AbsR(q - n as real)
    ensures AbsR(q - RoundHalfEven(q) as real) <= 0.5
    ensures n != RoundHalfEven(q) && AbsR(q - RoundHalfEven(q) as real) == AbsR(q - n as real) ==>
              RoundHalfEven(q) % 2 == 0
  {
    var fl := q.Floor;
    assert fl as real <= q < fl as real + 1.0;
    if n <= fl {
      assert n as real <= fl as real;
    } else {
      assert n as real >= (fl + 1) as real;
    }
  }

  lemma RoundHalfEvenMonotone(q: real, r: real)
    requires q <= r
    ensures RoundHalfEven(q) <= RoundHalfEven(r)
  {
    assert q.Floor <= r.Floor;
  }

  lemma RoundHalfEvenRange(q: real)
    requires LOW <= q < HIGH
    ensures LOW <= RoundHalfEven(q) as real <= HIGH
  {
    assert 8388608 <= q.Floor <= 16777215;
  }

  /** The rounding is representable. */
  lemma RoundIsFloat(x: real)
    ensures IsFloat24(Round24(x))
  {
    if x == 0.0 {
      assert IsFloatOf(0.0, 0, 0);
    } else {
      var q, e := BinadeOf(AbsR(x));
      RoundHalfEvenRange(q);
      var m := RoundHalfEven(q);
      if x > 0.0 {
        assert IsFloatOf(Round24(x), m, e);
      } else {
        NegateFactor(m, P2(e));
        assert IsFloatOf(Round24(x), -m, e);
      }
    }
  }

  lemma NegateFactor(m: int, p: real)
    ensures (-m) as real * p == -(m as real * p)
  {
  }

  lemma RoundOdd(x: real)
    ensures Round24(-x) == -Round24(x)
  {
  }

  lemma RoundSign(x: real)
    ensures x >= 0.0 ==> Round24(x) >= 0.0
    ensures x <= 0.0 ==> Round24(x) <= 0.0
  {
    if x != 0.0 {
      var q, e := BinadeOf(AbsR(x));
      RoundHalfEvenRange(q);
      ProductPositive(RoundHalfEven(q) as real, P2(e));
    }
  }

  lemma ProductPositive(u: real, v: real)
    requires u >= 0.0 && v >= 0.0
    ensures u * v >= 0.0
  {
  }

  lemma ScaleOrder(u: real, v: real, p: real)
    requires u <= v && p > 0.0
    ensures u * p <= v * p
  {
  }

  // ----- nearest, ties to even

  /** y is an integer in units of p, or smaller than the whole binade. */
  ghost predicate InUnits(y: real, n: int, p: real) {
    y == n as real * p || AbsR(y) <= LOW * p
  }

  lemma FloatInUnits(y: real, m: int, f: int, e: int) returns (n: int)
    requires IsFloatOf(y, m, f)
    ensures InUnits(y, n, P2(e))
  {
    if f >= e {
      n := CoarseInUnits(y, m, f, e);
    } else {
      n := 0;
      FineInUnits(y, m, f, e);
    }
  }

  lemma FineInUnits(y: real, m: int, f: int, e: int)
    requires IsFloatOf(y, m, f) && f < e
    ensures AbsR(y) <= LOW * P2(e)
  {
    hide P2;
    P2Grows(f, e);
    SmallFloat(m as real, P2(f), y, P2(e));
  }

  lemma CoarseInUnits(y: real, m: int, f: int, e: int) returns (n: int)
    requires IsFloatOf(y, m, f) && f >= e
    ensures y == n as real * P2(e)
  {
    hide P2;
    var k := P2(f - e).Floor;
    P2Whole(f - e);
    P2Add(e, f - e);
    n := m * k;
    RegroupUnits(y, m, k, P2(e), P2(f));
  }

  lemma RegroupUnits(y: real, m: int, k: int, p: real, s: real)
    requires IsProduct(m as real, s, y) && IsProduct(p, k as real, s)
    ensures y == (m * k) as real * p
  {
    assert (m * k) as real == m as real * k as real;
  }

  lemma SmallFloat(m: real, p: real, y: real, s: real)
    requires -HIGH <= m <= HIGH && IsProduct(m, p, y) && 0.0 < p && 2.0 * p <= s
    ensures AbsR(y) <= LOW * s
  {
    ScaleOrder(m, HIGH, p);
    ScaleOrder(-HIGH, m, p);
  }

  /** Non-negative powers of two are whole numbers. */
  lemma {:induction false} P2Whole(e: int)
    requires e >= 0
    ensures P2(e) == P2(e).Floor as real
  {
    if e > 0 {
      P2Whole(e - 1);
      assert P2(e) == (2 * P2(e - 1).Floor) as real;
    }
  }

  /** Distances in units of p. */
  lemma DistanceInUnits(x: real, y: real, q: real, n: real, p: real)
    requires p > 0.0 && x == q * p && y == n * p
    ensures AbsR(x - y) == AbsR(q - n) * p
  {
    assert x - y == (q - n) * p;
    if q >= n {
      ProductPositive(q - n, p);
    } else {
      ProductPositive(n - q, p);
      assert (n - q) * p == -((q - n) * p);
    }
  }

  /** r is x rounded in units of p. */
  ghost predicate Rounds(x: real, r: real, q: real, p: real) {
    p > 0.0 && x == q * p && r == RoundHalfEven(q) as real * p && LOW <= q < HIGH
  }

  lemma RoundOf(x: real) returns (r: real, q: real, e: int)
    requires x > 0.0
    ensures r == Round24(x) && Rounds(x, r, q, P2(e)) && (q, e) == Normalize(x, 0)
  {
    q, e := BinadeOf(x);
    r := Round24(x);
  }

  /** No representable number is nearer to a positive x than its rounding. */
  lemma RoundPositiveNearest(x: real, y: real, m: int, f: int)
    requires x > 0.0 && IsFloatOf(y, m, f)
    ensures AbsR(x - Round24(x)) <= AbsR(x - y)
  {
    var r, q, e := RoundOf(x);
    NearestAmong(x, r, y, m, f, q, e);
  }

  lemma NearestAmong(x: real, r: real, y: real, m: int, f: int, q: real, e: int)
    requires Rounds(x, r, q, P2(e)) && IsFloatOf(y, m, f)
    ensures AbsR(x - r) <= AbsR(x - y)
  {
    var n := FloatInUnits(y, m, f, e);
    NearestInUnits(x, r, y, q, n, P2(e));
  }

  lemma NearestInUnits(x: real, r: real, y: real, q: real, n: int, p: real)
    requires Rounds(x, r, q, p) && InUnits(y, n, p)
    ensures AbsR(x - r) <= AbsR(x - y)
  {
    if y == n as real * p {
      NearestWhole(x, r, y, q, n, p);
    } else {
      var edge := 8388608.0 * p;
      NearestWhole(x, r, edge, q, 8388608, p);
      AboveEdge(x, r, q, p);
      assert y <= edge by { assert LOW * p == edge; }
    }
  }

  lemma AboveEdge(x: real, r: real, q: real, p: real)
    requires Rounds(x, r, q, p)
    ensures 8388608.0 * p <= x
  {
    ScaleOrder(8388608.0, q, p);
  }

  lemma NearestWhole(x: real, r: real, y: real, q: real, n: int, p: real)
    requires Rounds(x, r, q, p) && y == n as real * p
    ensures AbsR(x - r) <= AbsR(x - y)
  {
    RoundHalfEvenNear(q, n);
    OrderInUnits(x, r, y, q, RoundHalfEven(q) as real, n as real, p);
  }

  lemma OrderInUnits(x: real, r: real, y: real, q: real, a: real, b: real, p: real)
    requires p > 0.0 && x == q * p && r == a * p && y == b * p && AbsR(q - a) <= AbsR(q - b)
    ensures AbsR(x - r) <= AbsR(x - y)
  {
    DistanceInUnits(x, r, q, a, p);
    DistanceInUnits(x, y, q, b, p);
    ScaleOrder(AbsR(q - a), AbsR(q - b), p);
  }

  lemma NegativeFloat(y: real, m: int, f: int)
    requires IsFloatOf(y, m, f)
    ensures IsFloatOf(-y, -m, f)
  {
    NegateFactor(m, P2(f));
  }

  /** The rounding is a nearest representable number. */
  lemma RoundNearest(x: real, y: real)
    requires IsFloat24(y)
    ensures AbsR(x - Round24(x)) <= AbsR(x - y)
  {
    var m: int, f: int :| IsFloatOf(y, m, f);
    if x > 0.0 {
      RoundPositiveNearest(x, y, m, f);
    } else if x < 0.0 {
      NegativeFloat(y, m, f);
      RoundPositiveNearest(-x, -y, -m, f);
    }
  }

  /** Within half a unit of the last place; zero is exact. */
  lemma RoundHalfUlp(x: real)
    ensures if x == 0.0 then Round24(x) == x else AbsR(x - Round24(x)) <= 0.5 * P2(Exponent(AbsR(x)))
  {
    hide P2, Normalize, RoundHalfEven;
    if x != 0.0 {
      var a := AbsR(x);
      var r, q, e := RoundOf(a);
      HalfInUnits(a, r, q, P2(e));
      AbsOfRounding(x);
    }
  }

  /** The rounding is as far from x as that of the absolute value is from it. */
  lemma AbsOfRounding(x: real)
    ensures AbsR(x - Round24(x)) == AbsR(AbsR(x) - Round24(AbsR(x)))
  {
    RoundOdd(x);
  }

  lemma HalfInUnits(x: real, r: real, q: real, p: real)
    requires p > 0.0 && x == q * p && r == RoundHalfEven(q) as real * p
    ensures AbsR(x - r) <= 0.5 * p
  {
    RoundHalfEvenNear(q, 0);
    var z := RoundHalfEven(q) as real;
    DistanceInUnits(x, r, q, z, p);
    HalfOf(AbsR(x - r), AbsR(q - z), p);
  }

  lemma HalfOf(a: real, d: real, p: real)
    requires p > 0.0 && d <= 0.5 && a == d * p
    ensures a <= 0.5 * p
  {
    ScaleOrder(d, 0.5, p);
  }

  /** The significand that x is rounded to, in units of the last place of x. */
  function Significand(x: real): int
    requires x > 0.0
  {
    RoundHalfEven(Normalize(x, 0).0)
  }

  /** In a tie with another representable number the significand of the rounding is even. */
  lemma RoundTiesToEven(x: real, y: real)
    requires IsFloat24(y) && y != Round24(x) && AbsR(x - y) == AbsR(x - Round24(x))
    ensures x != 0.0 && Significand(AbsR(x)) % 2 == 0
  {
    var k: int, f: int :| IsFloatOf(y, k, f);
    if x > 0.0 {
      PositiveTie(x, y, k, f);
    } else if x < 0.0 {
      NegativeFloat(y, k, f);
      RoundOdd(x);
      PositiveTie(-x, -y, -k, f);
    }
  }

  lemma PositiveTie(x: real, y: real, k: int, f: int)
    requires x > 0.0 && IsFloatOf(y, k, f) && y != Round24(x) && AbsR(x - y) == AbsR(x - Round24(x))
    ensures Significand(x) % 2 == 0
  {
    var r, q, e := RoundOf(x);
    TieAmong(x, r, y, k, f, q, e);
  }

  lemma TieAmong(x: real, r: real, y: real, m: int, f: int, q: real, e: int)
    requires Rounds(x, r, q, P2(e)) && IsFloatOf(y, m, f) && y != r && AbsR(x - y) == AbsR(x - r)
    ensures RoundHalfEven(q) % 2 == 0
  {
    var n := FloatInUnits(y, m, f, e);
    TieInUnits(x, r, y, q, n, P2(e));
  }

  lemma TieInUnits(x: real, r: real, y: real, q: real, n: int, p: real)
    requires Rounds(x, r, q, p) && InUnits(y, n, p)
    requires y != r && AbsR(x - y) == AbsR(x - r)
    ensures RoundHalfEven(q) % 2 == 0
  {
    hide RoundHalfEven;
    var z := RoundHalfEven(q);
    DistanceInUnits(x, r, q, z as real, p);
    if y == n as real * p {
      DistanceInUnits(x, y, q, n as real, p);
      CancelFactor(AbsR(q - n as real), AbsR(q - z as real), p);
      RoundHalfEvenNear(q, n);
    } else {
      TieBelowBinade(x, r, y, q, z, p);
    }
  }

  /** Below the binade only its lower edge could tie, and that is an integer in units. */
  lemma TieBelowBinade(x: real, r: real, y: real, q: real, z: int, p: real)
    requires p > 0.0 && LOW <= q && z == RoundHalfEven(q) && x == q * p && r == z as real * p
    requires AbsR(y) <= LOW * p && y != r && AbsR(x - y) == AbsR(q - z as real) * p
    ensures z % 2 == 0
  {
    EdgeBelow(x, LOW * p, q, p);
    TieAtEdge(x, y, LOW * p, q, z, AbsR(q - z as real), AbsR(q - LOW), p, AbsR(x - y), x - LOW * p);
  }

  /** The lower edge of the binade lies below x, at the distance of the factors. */
  lemma EdgeBelow(x: real, edge: real, q: real, p: real)
    requires p > 0.0 && LOW <= q && x == q * p && edge == LOW * p
    ensures edge <= x && IsProduct(AbsR(q - LOW), p, x - edge)
  {
    ScaleOrder(LOW, q, p);
    DistanceInUnits(x, edge, q, LOW, p);
  }

  /** Only the edge could be as near as the rounding, and then the rounding is even. */
  lemma TieAtEdge(x: real, y: real, edge: real, q: real, z: int, near: real, far: real, p: real, nearP: real,
                  farP: real)
    requires p > 0.0 && LOW <= q && z == RoundHalfEven(q) && near == AbsR(q - z as real) && far == AbsR(q - LOW)
    requires IsProduct(near, p, nearP) && IsProduct(far, p, farP)
    requires edge <= x && x - edge == farP && AbsR(x - y) == nearP && AbsR(y) <= edge
    ensures z % 2 == 0
  {
    RoundHalfEvenNear(q, 8388608);
    ProductsOrdered(near, far, p, nearP, farP);
    ProductsCancel(near, far, p, nearP, farP);
  }

  lemma ProductsOrdered(u: real, v: real, p: real, up: real, vp: real)
    requires IsProduct(u, p, up) && IsProduct(v, p, vp) && u <= v && p > 0.0
    ensures up <= vp
  {
    ScaleOrder(u, v, p);
  }

  lemma ProductsCancel(u: real, v: real, p: real, up: real, vp: real)
    requires IsProduct(u, p, up) && IsProduct(v, p, vp) && p > 0.0
    ensures up == vp ==> u == v
  {
  }

  /** Representable numbers stay as they are. */
  lemma RoundIdempotent(y: real)
    requires IsFloat24(y)
    ensures Round24(y) == y
  {
    RoundNearest(y, y);
  }

  // ----- monotone, and at home with powers of two

  lemma RoundMonotonePositive(x: real, y: real)
    requires 0.0 < x <= y
    ensures Round24(x) <= Round24(y)
  {
    var r, q, e := RoundOf(x);
    var s, t, f := RoundOf(y);
    MonotoneAmong(x, r, q, e, y, s, t, f);
  }

  lemma MonotoneAmong(x: real, r: real, q: real, e: int, y: real, s: real, t: real, f: int)
    requires Rounds(x, r, q, P2(e)) && Rounds(y, s, t, P2(f)) && x <= y
    ensures r <= s
  {
    if e == f {
      SameBinade(x, r, q, y, s, t, P2(e));
    } else if e < f {
      P2Grows(e, f);
      HigherBinade(x, r, q, P2(e), y, s, t, P2(f));
    } else {
      P2Grows(f, e);
      NoLowerBinade(x, r, q, P2(e), y, s, t, P2(f));
    }
  }

  lemma HigherBinade(x: real, r: real, q: real, p: real, y: real, s: real, t: real, p': real)
    requires Rounds(x, r, q, p) && Rounds(y, s, t, p') && 2.0 * p <= p'
    ensures r <= s
  {
    RoundHalfEvenRange(q);
    RoundHalfEvenRange(t);
    LowerBinade(RoundHalfEven(q) as real, p, RoundHalfEven(t) as real, p');
  }

  lemma NoLowerBinade(x: real, r: real, q: real, p: real, y: real, s: real, t: real, p': real)
    requires Rounds(x, r, q, p) && Rounds(y, s, t, p') && 2.0 * p' <= p
    ensures y < x
  {
    BinadeApart(t, p', q, p);
  }

  lemma SameBinade(x: real, r: real, q: real, y: real, s: real, t: real, p: real)
    requires Rounds(x, r, q, p) && Rounds(y, s, t, p) && x <= y
    ensures r <= s
  {
    if t < q {
      StrictScaleOrder(t, q, p);
    }
    RoundHalfEvenMonotone(q, t);
    ScaleOrder(RoundHalfEven(q) as real, RoundHalfEven(t) as real, p);
  }

  lemma StrictScaleOrder(u: real, v: real, p: real)
    requires u < v && p > 0.0
    ensures u * p < v * p
  {
  }

  lemma LowerBinade(q: real, p: real, t: real, s: real)
    requires q <= HIGH && LOW <= t && p > 0.0 && 2.0 * p <= s
    ensures q * p <= t * s
  {
    ScaleOrder(q, HIGH, p);
    ScaleOrder(LOW, t, s);
    assert HIGH * p == 16777216.0 * p && LOW * s == 8388608.0 * s;
  }

  lemma RoundMonotone(x: real, y: real)
    requires x <= y
    ensures Round24(x) <= Round24(y)
  {
    if x > 0.0 {
      RoundMonotonePositive(x, y);
    } else if y < 0.0 {
      RoundMonotonePositive(-y, -x);
    } else {
      RoundSign(x);
      RoundSign(y);
    }
  }

  /** Multiplying by any power of two commutes with rounding. */
  lemma RoundScaled(x: real, k: int, y: real)
    requires y == x * P2(k)
    ensures Round24(y) == Round24(x) * P2(k)
  {
    ScaledAs(x, Round24(x), P2(k), k, y, Round24(x) * P2(k));
  }

  /** r is the rounding of x; y and s are both scaled by w. */
  lemma ScaledAs(x: real, r: real, w: real, k: int, y: real, s: real)
    requires r == Round24(x) && w == P2(k) && IsProduct(x, w, y) && IsProduct(r, w, s)
    ensures Round24(y) == s
  {
    if x > 0.0 {
      PositiveScaled(x, r, k, w, y, s);
    } else if x < 0.0 {
      RoundOdd(x);
      NegatedProduct(x, w, y);
      NegatedProduct(r, w, s);
      PositiveScaled(-x, -r, k, w, -y, -s);
      RoundOdd(y);
    }
  }

  lemma NegatedProduct(u: real, w: real, uw: real)
    requires IsProduct(u, w, uw)
    ensures IsProduct(-u, w, -uw)
  {
  }

  lemma PositiveScaled(x: real, r: real, k: int, w: real, y: real, s: real)
    requires x > 0.0 && r == Round24(x) && w == P2(k) && IsProduct(x, w, y) && IsProduct(r, w, s)
    ensures Round24(y) == s
  {
    var r', q, e := RoundOf(x);
    P2Add(e, k);
    ScaledDecides(x, r, q, P2(e), w, e + k, y, s, P2(e + k));
  }

  lemma ScaledDecides(x: real, r: real, q: real, p: real, w: real, e: int, y: real, s: real, pw: real)
    requires Rounds(x, r, q, p) && x > 0.0 && w > 0.0 && pw == P2(e)
    requires IsProduct(p, w, pw) && IsProduct(x, w, y) && IsProduct(r, w, s)
    ensures Round24(y) == s
  {
    StrictScaleOrder(0.0, x, w);
    ProductsRegroup(q, p, w, x, y, pw);
    ProductsRegroup(RoundHalfEven(q) as real, p, w, r, s, pw);
    RoundsDecides(y, s, q, e, pw);
  }

  /** (u v) w == u (v w), with every product named. */
  lemma ProductsRegroup(u: real, v: real, w: real, uv: real, uvw: real, vw: real)
    requires IsProduct(u, v, uv) && IsProduct(uv, w, uvw) && IsProduct(v, w, vw)
    ensures IsProduct(u, vw, uvw)
  {
    Associate(u, v, w);
  }

  lemma RoundsDecides(x: real, r: real, q: real, e: int, p: real)
    requires x > 0.0 && Rounds(x, r, q, p) && p == P2(e)
    ensures Round24(x) == r
  {
    RoundInBinade(x, q, e);
  }

  lemma Associate(u: real, v: real, w: real)
    ensures (u * v) * w == u * (v * w)
  {
  }

  // ----- the method

  function BitLength(n: nat): nat {
    if n == 0 then 0 else 1 + BitLength(n / 2)
  }

  /** `round24` of the fraction num / den: an estimate of the exponent, corrected upwards and downwards. */
  method ComputeRound24(num: int, den: nat) returns (r: real)
    requires den > 0
    ensures r == Round24(num as real / den as real)
  {
    var x := num as real / den as real;
    if num == 0 {
      return 0.0;
    }
    var positive := num > 0;
    SignOfFraction(num, den);
    x := if positive then x else -x;
    var e: int := BitLength(if positive then num else -num) - BitLength(den) - 24;
    r := RoundFrom(x, e);
    if !positive {
      r := -r;
    }
  }

  lemma SignOfFraction(num: int, den: nat)
    requires den > 0
    ensures num > 0 ==> num as real / den as real > 0.0
    ensures num < 0 ==> num as real / den as real < 0.0
    ensures num == 0 ==> num as real / den as real == 0.0
  {
  }

  /** x is q in units of 2^e. */
  ghost predicate IsScaled(x: real, q: real, e: int) {
    q > 0.0 && x == q * P2(e)
  }

  lemma ScaleUp(x: real, q: real, e: int)
    requires IsScaled(x, q, e)
    ensures IsScaled(x, 0.5 * q, e + 1)
  {
    HalvedTimes(q, e);
  }

  lemma ScaleDown(x: real, q: real, e: int)
    requires IsScaled(x, q, e)
    ensures IsScaled(x, 2.0 * q, e - 1)
  {
    HalvedTimes(2.0 * q, e - 1);
  }

  /** First loop: halve until the number is below 2^24 units. */
  method ScaleUpFrom(x: real, q0: real, e0: int) returns (q: real, e: int)
    requires IsScaled(x, q0, e0)
    ensures IsScaled(x, q, e) && q < HIGH
  {
    q, e := q0, e0;
    while q >= HIGH
      invariant IsScaled(x, q, e)
      decreases q.Floor
    {
      ScaleUp(x, q, e);
      q, e := 0.5 * q, e + 1;
    }
  }

  /** Second loop: double until it is at least 2^23 units. */
  method ScaleDownFrom(x: real, q0: real, e0: int) returns (q: real, e: int)
    requires IsScaled(x, q0, e0) && q0 < HIGH
    ensures IsScaled(x, q, e) && LOW <= q < HIGH
  {
    q, e := q0, e0;
    while q < LOW
      invariant IsScaled(x, q, e) && 0.0 < q < HIGH
      decreases (HIGH / q).Floor
    {
      ScaleDown(x, q, e);
      DoubleFloor(q);
      q, e := 2.0 * q, e - 1;
    }
  }

  /** The loops need no particular first estimate. */
  method RoundFrom(x: real, estimate: int) returns (r: real)
    requires x > 0.0
    ensures r == Round24(x)
  {
    QuotientTimes(x, P2(estimate));
    var q, e := ScaleUpFrom(x, x / P2(estimate), estimate);
    q, e := ScaleDownFrom(x, q, e);
    RoundInBinade(x, q, e);
    r := RoundHalfEven(q) as real * P2(e);
  }

  lemma QuotientTimes(x: real, p: real)
    requires x > 0.0 && p > 0.0
    ensures x / p > 0.0 && x == (x / p) * p
  {
  }
}
