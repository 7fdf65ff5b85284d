/**
 The projectile flight path of tools/proj/bezier_model.py in exact arithmetic: curve evaluation,
 subdivision length and forward differencing. Lengths come from an arbitrary norm.
 */
module Bezier {

  /** Three coordinates. */
  type Vec = v: seq<real> | |v| == 3 witness [0.0, 0.0, 0.0]

  /** Four control points. */
  datatype Curve = Curve(p0: Vec, p1: Vec, p2: Vec, p3: Vec)

  datatype Four = Four(c0: real, c1: real, c2: real, c3: real)

  /** The control points of a curve in one coordinate. */
  function Axis(cp: Curve, k: nat): Four
    requires k < 3
  {
    Four(cp.p0[k], cp.p1[k], cp.p2[k], cp.p3[k])
  }

  // ----- evaluation

  /** The row vector v times the cubic basis matrix. */
  function Transform4(v: Four): Four {
    Four(-v.c0 + 3.0 * v.c1 - 3.0 * v.c2 + v.c3,
         3.0 * v.c0 - 6.0 * v.c1 + 3.0 * v.c2,
         -3.0 * v.c0 + 3.0 * v.c1,
         v.c0)
  }

  /** The weights of the four control points at parameter t. */
  function Weights(t: real): Four {
    var t2 := t * t;
    Transform4(Four(t2 * t, t2, t, 1.0))
  }

  function Dot(r: Four, c: Four): real {
    r.c3 * c.c3 + r.c2 * c.c2 + r.c1 * c.c1 + r.c0 * c.c0
  }

  function EvaluateAxis(c: Four, t: real): real {
    Dot(Weights(t), c)
  }

  function Evaluate(cp: Curve, t: real): Vec {
    [EvaluateAxis(Axis(cp, 0), t), EvaluateAxis(Axis(cp, 1), t), EvaluateAxis(Axis(cp, 2), t)]
  }

  /** The basis matrix is symmetric: weights of t on the points are powers of t on the transformed points. */
  lemma PowerForm(c: Four, t: real)
    ensures var q := Transform4(c); EvaluateAxis(c, t) == q.c0 * (t * t * t) + q.c1 * (t * t) + q.c2 * t + q.c3
  {
    PowerTerms(c, t, t * t, t * t * t);
  }

  lemma PowerTerms(c: Four, t: real, t2: real, t3: real)
    ensures var q := Transform4(c); Dot(Transform4(Four(t3, t2, t, 1.0)), c) == q.c0 * t3 + q.c1 * t2 + q.c2 * t + q.c3
  {
  }

  lemma DotAtEnds(c: Four, r: Four)
    ensures r == Four(1.0, 0.0, 0.0, 0.0) ==> Dot(r, c) == c.c0
    ensures r == Four(0.0, 0.0, 0.0, 1.0) ==> Dot(r, c) == c.c3
  {
  }

  lemma WeightsAtStart()
    ensures Weights(0.0) == Four(1.0, 0.0, 0.0, 0.0)
  {
  }

  lemma WeightsAtEnd()
    ensures Weights(1.0) == Four(0.0, 0.0, 0.0, 1.0)
  {
  }

  /** A curve starts at its first control point. */
  lemma EvaluateStart(c: Four)
    ensures EvaluateAxis(c, 0.0) == c.c0
  {
    var r := Weights(0.0);
    WeightsAtStart();
    DotAtEnds(c, r);
  }

  /** A curve ends at its last control point. */
  lemma EvaluateEnd(c: Four)
    ensures EvaluateAxis(c, 1.0) == c.c3
  {
    var r := Weights(1.0);
    WeightsAtEnd();
    DotAtEnds(c, r);
  }

  // ----- forward differences

  /** One coordinate of the running point and its three differences. */
  datatype Run = Run(cur: real, dq: real, ddq: real, dddq: real)

  function Step(r: Run): Run {
    Run(r.dq + r.cur, r.ddq + r.dq, r.dddq + r.ddq, r.dddq)
  }

  /** The start of a coordinate for step width h. */
  function Start(c: Four, h: real): Run {
    var q := Transform4(c);
    var bd2, cd, ad3 := q.c1 * (h * h), q.c2 * h, q.c0 * (h * h * h);
    Run(c.c0, cd + bd2 + ad3, bd2 * 2.0 + ad3 * 6.0, ad3 * 6.0)
  }

  /** A coordinate after i steps, in closed form, over the power coefficients scaled by the step width. */
  function After(q: Four, i: nat): Run {
    var n := i as real;
    Run(q.c0 * (n * n * n) + q.c1 * (n * n) + q.c2 * n + q.c3,
        q.c0 * (3.0 * (n * n) + 3.0 * n + 1.0) + q.c1 * (2.0 * n + 1.0) + q.c2,
        q.c0 * (6.0 * n + 6.0) + 2.0 * q.c1,
        6.0 * q.c0)
  }

  function Scaled(q: Four, h: real): Four {
    Four(q.c0 * (h * h * h), q.c1 * (h * h), q.c2 * h, q.c3)
  }

  /** The three sums of a step, with the powers of n and n + 1 as separate numbers. */
  lemma CurStep(q: Four, n: real, n2: real, n3: real, m: real, m2: real, m3: real)
    requires m == n + 1.0 && m2 == n2 + 2.0 * n + 1.0 && m3 == n3 + 3.0 * n2 + 3.0 * n + 1.0
    ensures (q.c0 * (3.0 * n2 + 3.0 * n + 1.0) + q.c1 * (2.0 * n + 1.0) + q.c2)
          + (q.c0 * n3 + q.c1 * n2 + q.c2 * n + q.c3)
            == q.c0 * m3 + q.c1 * m2 + q.c2 * m + q.c3
  {
  }

  lemma DqStep(q: Four, n: real, n2: real, m: real, m2: real)
    requires m == n + 1.0 && m2 == n2 + 2.0 * n + 1.0
    ensures (q.c0 * (6.0 * n + 6.0) + 2.0 * q.c1) + (q.c0 * (3.0 * n2 + 3.0 * n + 1.0) + q.c1 * (2.0 * n + 1.0) + q.c2)
            == q.c0 * (3.0 * m2 + 3.0 * m + 1.0) + q.c1 * (2.0 * m + 1.0) + q.c2
  {
  }

  lemma DdqStep(q: Four, n: real, m: real)
    requires m == n + 1.0
    ensures 6.0 * q.c0 + (q.c0 * (6.0 * n + 6.0) + 2.0 * q.c1) == q.c0 * (6.0 * m + 6.0) + 2.0 * q.c1
  {
  }

  lemma PowersNext(n: real, m: real)
    requires m == n + 1.0
    ensures m * m == n * n + 2.0 * n + 1.0
    ensures m * m * m == n * n * n + 3.0 * (n * n) + 3.0 * n + 1.0
  {
    assert m * m == n * n + 2.0 * n + 1.0;
    assert m * m * m == (n * n + 2.0 * n + 1.0) * n + (n * n + 2.0 * n + 1.0);
  }

  lemma AfterSteps(q: Four, i: nat)
    ensures Step(After(q, i)) == After(q, i + 1)
  {
    CurSteps(q, i, i as real, (i + 1) as real);
    DqSteps(q, i, i as real, (i + 1) as real);
    DdqSteps(q, i, i as real, (i + 1) as real);
  }

  lemma CurSteps(q: Four, i: nat, n: real, m: real)
    requires n == i as real && m == (i + 1) as real
    ensures After(q, i).dq + After(q, i).cur == After(q, i + 1).cur
  {
    PowersNext(n, m);
    CurStep(q, n, n * n, n * n * n, m, m * m, m * m * m);
  }

  lemma DqSteps(q: Four, i: nat, n: real, m: real)
    requires n == i as real && m == (i + 1) as real
    ensures After(q, i).ddq + After(q, i).dq == After(q, i + 1).dq
  {
    PowersNext(n, m);
    DqStep(q, n, n * n, m, m * m);
  }

  lemma DdqSteps(q: Four, i: nat, n: real, m: real)
    requires n == i as real && m == (i + 1) as real
    ensures After(q, i).dddq + After(q, i).ddq == After(q, i + 1).ddq
  {
    DdqStep(q, n, m);
  }

  /** The start of a coordinate is the closed form at step 0. */
  lemma StartIsAfterZero(c: Four, h: real)
    ensures Start(c, h) == After(Scaled(Transform4(c), h), 0)
  {
    AfterZero(Scaled(Transform4(c), h));
  }

  lemma AfterZero(q: Four)
    ensures After(q, 0) == Run(q.c3, q.c0 + q.c1 + q.c2, 6.0 * q.c0 + 2.0 * q.c1, 6.0 * q.c0)
  {
  }

  /** A cubic, given the powers of its argument. */
  function Cubic(q: Four, t: real, t2: real, t3: real): real {
    q.c0 * t3 + q.c1 * t2 + q.c2 * t + q.c3
  }

  /** After i steps of width h the coordinate is the curve at parameter i * h. */
  lemma AfterIsEvaluate(c: Four, h: real, i: nat)
    ensures After(Scaled(Transform4(c), h), i).cur == EvaluateAxis(c, i as real * h)
  {
    AfterIsEvaluateAt(c, Transform4(c), h, i, i as real, i as real * h);
  }

  lemma AfterIsEvaluateAt(c: Four, q: Four, h: real, i: nat, n: real, t: real)
    requires q == Transform4(c) && n == i as real && t == n * h
    ensures After(Scaled(q, h), i).cur == EvaluateAxis(c, t)
  {
    CubicOfRun(Scaled(q, h), i, n);
    ScaledPowers(q, n, h, t);
    CubicOfCurve(c, t);
  }

  lemma CubicOfRun(q: Four, i: nat, n: real)
    requires n == i as real
    ensures After(q, i).cur == Cubic(q, n, n * n, n * n * n)
  {
  }

  lemma CubicOfCurve(c: Four, t: real)
    ensures EvaluateAxis(c, t) == Cubic(Transform4(c), t, t * t, t * t * t)
  {
    PowerForm(c, t);
  }

  lemma ScaledPowers(q: Four, n: real, h: real, t: real)
    requires t == n * h
    ensures Cubic(Scaled(q, h), n, n * n, n * n * n) == Cubic(q, t, t * t, t * t * t)
  {
    PowersOfProduct(n, h, t);
    ScaledTerm(q.c0, h * h * h, n * n * n, t * t * t);
    ScaledTerm(q.c1, h * h, n * n, t * t);
    ScaledTerm(q.c2, h, n, t);
  }

  lemma PowersOfProduct(n: real, h: real, t: real)
    requires t == n * h
    ensures (h * h) * (n * n) == t * t && (h * h * h) * (n * n * n) == t * t * t
  {
    assert (h * h) * (n * n) == t * t;
    assert (h * h * h) * (n * n * n) == ((h * h) * (n * n)) * (h * n);
  }

  lemma ScaledTerm(q: real, a: real, b: real, ab: real)
    requires a * b == ab
    ensures (q * a) * b == q * ab
  {
  }

  /** All three coordinates are where i steps lead. */
  ghost predicate IsAfter(cp: Curve, h: real, i: nat, runs: seq<Run>) {
    |runs| == 3 && forall k :: 0 <= k < 3 ==> runs[k] == After(Scaled(Transform4(Axis(cp, k)), h), i)
  }

  lemma StepAllAfter(cp: Curve, h: real, i: nat, runs: seq<Run>)
    requires IsAfter(cp, h, i, runs)
    ensures IsAfter(cp, h, i + 1, [Step(runs[0]), Step(runs[1]), Step(runs[2])])
  {
    var next := [Step(runs[0]), Step(runs[1]), Step(runs[2])];
    forall k | 0 <= k < 3 ensures next[k] == After(Scaled(Transform4(Axis(cp, k)), h), i + 1) {
      AfterSteps(Scaled(Transform4(Axis(cp, k)), h), i);
      assert next[k] == Step(runs[k]);
    }
  }

  lemma StartAllAfter(cp: Curve, h: real)
    ensures IsAfter(cp, h, 0, [Start(Axis(cp, 0), h), Start(Axis(cp, 1), h), Start(Axis(cp, 2), h)])
  {
    var runs := [Start(Axis(cp, 0), h), Start(Axis(cp, 1), h), Start(Axis(cp, 2), h)];
    forall k | 0 <= k < 3 ensures runs[k] == After(Scaled(Transform4(Axis(cp, k)), h), 0) {
      StartIsAfterZero(Axis(cp, k), h);
      assert runs[k] == Start(Axis(cp, k), h);
    }
  }

  function Point(runs: seq<Run>): Vec
    requires |runs| == 3
  {
    [runs[0].cur, runs[1].cur, runs[2].cur]
  }

  /** The point is on the curve, in every coordinate. */
  ghost predicate IsOnCurve(cp: Curve, t: real, point: Vec) {
    forall k :: 0 <= k < 3 ==> point[k] == EvaluateAxis(Axis(cp, k), t)
  }

  lemma PointAfter(cp: Curve, h: real, i: nat, runs: seq<Run>, t: real)
    requires IsAfter(cp, h, i, runs) && t == i as real * h
    ensures IsOnCurve(cp, t, Point(runs))
  {
    forall k | 0 <= k < 3 ensures Point(runs)[k] == EvaluateAxis(Axis(cp, k), t) {
      AfterIsEvaluate(Axis(cp, k), h, i);
      assert Point(runs)[k] == runs[k].cur;
    }
  }

  /** The parameter of point i of n. */
  function Parameter(i: nat, n: nat): real
    requires n > 1
  {
    i as real / (n - 1) as real
  }

  lemma ParameterIsStep(i: nat, n: nat)
    requires n > 1
    ensures Parameter(i, n) == i as real * (1.0 / (n - 1) as real)
  {
  }

  lemma EndParameters(n: nat)
    requires n > 1
    ensures Parameter(0, n) == 0.0 && Parameter(n - 1, n) == 1.0
  {
  }

  /** n points of the curve at equal parameter steps, by adding differences in place. */
  method SegmentPoints(cp: Curve, n: nat) returns (points: seq<Vec>)
    ensures |points| == n
    ensures n == 1 ==> points == [cp.p0]
    ensures n > 1 ==> forall i :: 0 <= i < n ==> IsOnCurve(cp, Parameter(i, n), points[i])
    ensures n > 1 ==> points[0] == cp.p0 && points[n - 1] == cp.p3
  {
    points := [];
    var runs := [Run(cp.p0[0], 0.0, 0.0, 0.0), Run(cp.p0[1], 0.0, 0.0, 0.0), Run(cp.p0[2], 0.0, 0.0, 0.0)];
    if n <= 1 {
      if n == 1 {
        points := [Point(runs)];
        assert points[0] == cp.p0;
      }
      return;
    }
    var h := 1.0 / (n - 1) as real;
    runs := [Start(Axis(cp, 0), h), Start(Axis(cp, 1), h), Start(Axis(cp, 2), h)];
    StartAllAfter(cp, h);
    for i := 0 to n
      invariant |points| == i && IsAfter(cp, h, i, runs)
      invariant forall k :: 0 <= k < i ==> IsOnCurve(cp, Parameter(k, n), points[k])
    {
      ParameterIsStep(i, n);
      PointAfter(cp, h, i, runs, Parameter(i, n));
      StepAllAfter(cp, h, i, runs);
      points := points + [Point(runs)];
      runs := [Step(runs[0]), Step(runs[1]), Step(runs[2])];
    }
    OnCurveAtEnds(cp, n, points[0], points[n - 1]);
  }

  lemma OnCurveAtEnds(cp: Curve, n: nat, first: Vec, last: Vec)
    requires n > 1 && IsOnCurve(cp, Parameter(0, n), first) && IsOnCurve(cp, Parameter(n - 1, n), last)
    ensures first == cp.p0 && last == cp.p3
  {
    EndParameters(n);
    forall k | 0 <= k < 3 ensures first[k] == cp.p0[k] && last[k] == cp.p3[k] {
      EvaluateStart(Axis(cp, k));
      EvaluateEnd(Axis(cp, k));
    }
  }

  lemma OnCurveIsEvaluate(cp: Curve, t: real, point: Vec)
    ensures IsOnCurve(cp, t, point) <==> point == Evaluate(cp, t)
  {
    var p := Evaluate(cp, t);
    assert forall k :: 0 <= k < 3 ==> p[k] == EvaluateAxis(Axis(cp, k), t);
  }

  // ----- vectors and norms

  function Plus(u: Vec, v: Vec): Vec {
    [u[0] + v[0], u[1] + v[1], u[2] + v[2]]
  }

  function Minus(u: Vec, v: Vec): Vec {
    [u[0] - v[0], u[1] - v[1], u[2] - v[2]]
  }

  function Scale(k: real, v: Vec): Vec {
    [k * v[0], k * v[1], k * v[2]]
  }

  type Norm = Vec -> real

  ghost predicate Triangle(norm: Norm, u: Vec, v: Vec) {
    norm(Plus(u, v)) <= norm(u) + norm(v)
  }

  ghost predicate Homogeneous(norm: Norm, k: real, v: Vec) {
    norm(Scale(k, v)) == (if k < 0.0 then -k else k) * norm(v)
  }

  ghost predicate IsNorm(norm: Norm) {
    && (forall u, v :: Triangle(norm, u, v))
    && (forall k, v :: Homogeneous(norm, k, v))
  }

  /** w is a sum of parts u and v. */
  lemma NormOfSum(norm: Norm, w: Vec, u: Vec, v: Vec)
    requires IsNorm(norm) && forall k :: 0 <= k < 3 ==> w[k] == u[k] + v[k]
    ensures norm(w) <= norm(u) + norm(v)
  {
    assert w == Plus(u, v);
    assert Triangle(norm, u, v);
  }

  lemma NormOfMultiple(norm: Norm, w: Vec, f: real, v: Vec)
    requires IsNorm(norm) && f >= 0.0 && forall k :: 0 <= k < 3 ==> w[k] == f * v[k]
    ensures norm(w) == f * norm(v)
  {
    assert w[0] == f * v[0] && w[1] == f * v[1] && w[2] == f * v[2];
    assert w == Scale(f, v);
    assert Homogeneous(norm, f, v);
  }

  lemma NormOfNegative(norm: Norm, w: Vec, v: Vec)
    requires IsNorm(norm) && forall k :: 0 <= k < 3 ==> w[k] == -v[k]
    ensures norm(w) == norm(v)
  {
    assert w == Scale(-1.0, v);
    assert Homogeneous(norm, -1.0, v);
  }

  // ----- subdivision

  /** `split` at parameter t: both halves share the point of the curve at t. */
  function Split(cp: Curve, t: real): (Curve, Curve) {
    var p01 := Plus(Scale(t, Minus(cp.p1, cp.p0)), cp.p0);
    var p12 := Plus(Scale(t, Minus(cp.p2, cp.p1)), cp.p1);
    var p23 := Plus(Scale(t, Minus(cp.p3, cp.p2)), cp.p2);
    var tl := Plus(Scale(t, Minus(p12, p01)), p01);
    var tr := Plus(Scale(t, Minus(p23, p12)), p12);
    var mid := Evaluate(cp, t);
    (Curve(cp.p0, p01, tl, mid), Curve(mid, tr, p23, cp.p3))
  }

  /** One coordinate of the first half of a curve. */
  function FirstHalf(c: Four): Four {
    Four(c.c0, 0.5 * (c.c0 + c.c1), 0.25 * (c.c0 + 2.0 * c.c1 + c.c2),
         0.125 * (c.c0 + 3.0 * c.c1 + 3.0 * c.c2 + c.c3))
  }

  function Mirror(c: Four): Four {
    Four(c.c3, c.c2, c.c1, c.c0)
  }

  lemma FirstHalfFollows(c: Four, u: real)
    ensures EvaluateAxis(FirstHalf(c), u) == EvaluateAxis(c, u * 0.5)
  {
    PowerForm(FirstHalf(c), u);
    PowerForm(c, u * 0.5);
    ScaledPowers(Transform4(c), u, 0.5, u * 0.5);
    FirstHalfPowers(c);
  }

  lemma FirstHalfPowers(c: Four)
    ensures Transform4(FirstHalf(c)) == Scaled(Transform4(c), 0.5)
  {
  }

  lemma WeightsMirror(t: real)
    ensures Weights(1.0 - t) == Mirror(Weights(t))
  {
    var s := 1.0 - t;
    assert s * s == 1.0 - 2.0 * t + t * t;
    assert s * s * s == (1.0 - 2.0 * t + t * t) - (t - 2.0 * (t * t) + t * t * t);
  }

  lemma MirrorRunsBack(c: Four, t: real)
    ensures EvaluateAxis(Mirror(c), t) == EvaluateAxis(c, 1.0 - t)
  {
    WeightsMirror(t);
    DotMirror(Weights(t), Weights(1.0 - t), c);
  }

  lemma DotMirror(r: Four, m: Four, c: Four)
    requires m == Mirror(r)
    ensures Dot(r, Mirror(c)) == Dot(m, c)
  {
  }

  lemma SplitAxis(cp: Curve, k: nat)
    requires k < 3
    ensures var (l, r) := Split(cp, 0.5);
            Axis(l, k) == FirstHalf(Axis(cp, k)) && Axis(r, k) == Mirror(FirstHalf(Mirror(Axis(cp, k))))
  {
    HalfPoint(Axis(cp, k));
  }

  lemma HalfPoint(c: Four)
    ensures EvaluateAxis(c, 0.5) == 0.125 * (c.c0 + 3.0 * c.c1 + 3.0 * c.c2 + c.c3)
  {
  }

  /** Subdivision keeps the curve: the two halves run over it with half the parameter each. */
  lemma HalvesFollowCurve(cp: Curve, u: real, k: nat)
    requires k < 3
    ensures var (l, r) := Split(cp, 0.5);
            && EvaluateAxis(Axis(l, k), u) == EvaluateAxis(Axis(cp, k), 0.5 * u)
            && EvaluateAxis(Axis(r, k), u) == EvaluateAxis(Axis(cp, k), 0.5 + 0.5 * u)
  {
    var c := Axis(cp, k);
    SplitAxis(cp, k);
    FirstHalfFollows(c, u);
    MirrorRunsBack(FirstHalf(Mirror(c)), u);
    FirstHalfFollows(Mirror(c), 1.0 - u);
    MirrorRunsBack(c, (1.0 - u) * 0.5);
    assert 1.0 - (1.0 - u) * 0.5 == 0.5 + 0.5 * u;
  }

  function Chord(norm: Norm, cp: Curve): real {
    norm(Minus(cp.p3, cp.p0))
  }

  /** The length of the control polygon. */
  function Polygon(norm: Norm, cp: Curve): real {
    norm(Minus(cp.p1, cp.p0)) + norm(Minus(cp.p2, cp.p1)) + norm(Minus(cp.p3, cp.p2))
  }

  /** The second differences of the control points. */
  function Bend1(cp: Curve): Vec {
    Minus(Minus(cp.p2, cp.p1), Minus(cp.p1, cp.p0))
  }

  function Bend2(cp: Curve): Vec {
    Minus(Minus(cp.p3, cp.p2), Minus(cp.p2, cp.p1))
  }

  /** The half split in the coordinates of the control polygon's sides. */
  ghost predicate HasHalfSides(cp: Curve, l: Curve, r: Curve, k: nat)
    requires k < 3
  {
    var a, b, c := cp.p1[k] - cp.p0[k], cp.p2[k] - cp.p1[k], cp.p3[k] - cp.p2[k];
    && l.p1[k] - l.p0[k] == 0.5 * a && l.p2[k] - l.p1[k] == 0.25 * (a + b)
    && l.p3[k] - l.p2[k] == 0.125 * (a + 2.0 * b + c)
    && r.p1[k] - r.p0[k] == 0.125 * (a + 2.0 * b + c)
    && r.p2[k] - r.p1[k] == 0.25 * (b + c) && r.p3[k] - r.p2[k] == 0.5 * c
  }

  lemma HalfSidesAt(cp: Curve, l: Curve, r: Curve, k: nat)
    requires k < 3 && (l, r) == Split(cp, 0.5)
    ensures HasHalfSides(cp, l, r, k)
  {
    SplitAxis(cp, k);
    SidesFromAxes(cp, l, r, k);
  }

  lemma SidesFromAxes(cp: Curve, l: Curve, r: Curve, k: nat)
    requires k < 3
    requires Axis(l, k) == FirstHalf(Axis(cp, k)) && Axis(r, k) == Mirror(FirstHalf(Mirror(Axis(cp, k))))
    ensures HasHalfSides(cp, l, r, k)
  {
  }

  /** A weighted sum of two and of three sides is no longer than the weighted sum of their lengths. */
  lemma NormOfTwo(norm: Norm, w: Vec, f: real, u: Vec, v: Vec)
    requires IsNorm(norm) && f >= 0.0 && forall k :: 0 <= k < 3 ==> w[k] == f * (u[k] + v[k])
    ensures norm(w) <= f * (norm(u) + norm(v))
  {
    var sum := Plus(u, v);
    NormOfSum(norm, sum, u, v);
    NormOfMultiple(norm, w, f, sum);
    MonotoneMultiple(f, norm(sum), norm(u) + norm(v));
  }

  lemma MonotoneMultiple(f: real, x: real, y: real)
    requires f >= 0.0 && x <= y
    ensures f * x <= f * y
  {
  }

  lemma NormOfThree(norm: Norm, w: Vec, a: Vec, b: Vec, c: Vec)
    requires IsNorm(norm) && forall k :: 0 <= k < 3 ==> w[k] == 0.125 * (a[k] + 2.0 * b[k] + c[k])
    ensures norm(w) <= 0.125 * (norm(a) + 2.0 * norm(b) + norm(c))
  {
    var ab, bc := Plus(a, b), Plus(b, c);
    NormOfSum(norm, ab, a, b);
    NormOfSum(norm, bc, b, c);
    NormOfTwo(norm, w, 0.125, ab, bc);
  }

  /** The polygon of one half: sides of half, a quarter and an eighth. */
  lemma PolygonOfHalf(norm: Norm, outer: Vec, middle: Vec, inner: Vec, a: Vec, b: Vec, c: Vec)
    requires IsNorm(norm)
    requires forall k :: 0 <= k < 3 ==> outer[k] == 0.5 * a[k]
    requires forall k :: 0 <= k < 3 ==> middle[k] == 0.25 * (a[k] + b[k])
    requires forall k :: 0 <= k < 3 ==> inner[k] == 0.125 * (a[k] + 2.0 * b[k] + c[k])
    ensures norm(outer) + norm(middle) + norm(inner)
         <= 0.5 * norm(a) + 0.25 * (norm(a) + norm(b)) + 0.125 * (norm(a) + 2.0 * norm(b) + norm(c))
  {
    NormOfMultiple(norm, outer, 0.5, a);
    NormOfTwo(norm, middle, 0.25, a, b);
    NormOfThree(norm, inner, a, b, c);
  }

  /** The sides of both halves, as parts of the sides a, b and c. */
  lemma SidesOfHalves(cp: Curve, l: Curve, r: Curve, k: nat)
    requires k < 3 && HasHalfSides(cp, l, r, k)
    ensures var a, b, c := Minus(cp.p1, cp.p0), Minus(cp.p2, cp.p1), Minus(cp.p3, cp.p2);
            && Minus(l.p1, l.p0)[k] == 0.5 * a[k] && Minus(l.p2, l.p1)[k] == 0.25 * (a[k] + b[k])
            && Minus(l.p3, l.p2)[k] == 0.125 * (a[k] + 2.0 * b[k] + c[k])
            && Minus(r.p3, r.p2)[k] == 0.5 * c[k] && Minus(r.p2, r.p1)[k] == 0.25 * (c[k] + b[k])
            && Minus(r.p1, r.p0)[k] == 0.125 * (c[k] + 2.0 * b[k] + a[k])
  {
  }

  lemma LeftPolygon(norm: Norm, cp: Curve, l: Curve, r: Curve)
    requires IsNorm(norm) && (l, r) == Split(cp, 0.5)
    ensures var a, b, c := norm(Minus(cp.p1, cp.p0)), norm(Minus(cp.p2, cp.p1)), norm(Minus(cp.p3, cp.p2));
            Polygon(norm, l) <= 0.5 * a + 0.25 * (a + b) + 0.125 * (a + 2.0 * b + c)
  {
    forall k | 0 <= k < 3 ensures HasHalfSides(cp, l, r, k) {
      HalfSidesAt(cp, l, r, k);
      SidesOfHalves(cp, l, r, k);
    }
    SidesOfHalves(cp, l, r, 0);
    SidesOfHalves(cp, l, r, 1);
    SidesOfHalves(cp, l, r, 2);
    PolygonOfHalf(norm, Minus(l.p1, l.p0), Minus(l.p2, l.p1), Minus(l.p3, l.p2),
                  Minus(cp.p1, cp.p0), Minus(cp.p2, cp.p1), Minus(cp.p3, cp.p2));
  }

  lemma RightPolygon(norm: Norm, cp: Curve, l: Curve, r: Curve)
    requires IsNorm(norm) && (l, r) == Split(cp, 0.5)
    ensures var a, b, c := norm(Minus(cp.p1, cp.p0)), norm(Minus(cp.p2, cp.p1)), norm(Minus(cp.p3, cp.p2));
            Polygon(norm, r) <= 0.5 * c + 0.25 * (c + b) + 0.125 * (c + 2.0 * b + a)
  {
    HalfSidesAt(cp, l, r, 0);
    HalfSidesAt(cp, l, r, 1);
    HalfSidesAt(cp, l, r, 2);
    SidesOfHalves(cp, l, r, 0);
    SidesOfHalves(cp, l, r, 1);
    SidesOfHalves(cp, l, r, 2);
    PolygonOfHalf(norm, Minus(r.p3, r.p2), Minus(r.p2, r.p1), Minus(r.p1, r.p0),
                  Minus(cp.p3, cp.p2), Minus(cp.p2, cp.p1), Minus(cp.p1, cp.p0));
  }

  /** Halving never lengthens the control polygon. */
  lemma PolygonShrinks(norm: Norm, cp: Curve)
    requires IsNorm(norm)
    ensures var (l, r) := Split(cp, 0.5); Polygon(norm, l) + Polygon(norm, r) <= Polygon(norm, cp)
  {
    var (l, r) := Split(cp, 0.5);
    LeftPolygon(norm, cp, l, r);
    RightPolygon(norm, cp, l, r);
  }

  /** And never shortens the chords. */
  lemma ChordsGrow(norm: Norm, cp: Curve)
    requires IsNorm(norm)
    ensures var (l, r) := Split(cp, 0.5); Chord(norm, cp) <= Chord(norm, l) + Chord(norm, r)
  {
    var (l, r) := Split(cp, 0.5);
    NormOfSum(norm, Minus(cp.p3, cp.p0), Minus(l.p3, l.p0), Minus(r.p3, r.p0));
  }

  /** A chord is no longer than its polygon. */
  lemma ChordWithinPolygon(norm: Norm, cp: Curve)
    requires IsNorm(norm)
    ensures Chord(norm, cp) <= Polygon(norm, cp)
  {
    var a, b, c := Minus(cp.p1, cp.p0), Minus(cp.p2, cp.p1), Minus(cp.p3, cp.p2);
    var ab := Minus(cp.p2, cp.p0);
    NormOfSum(norm, ab, a, b);
    NormOfSum(norm, Minus(cp.p3, cp.p0), ab, c);
  }

  /** How far the curve is from straight. */
  function Bend(norm: Norm, cp: Curve): real {
    if norm(Bend1(cp)) > norm(Bend2(cp)) then norm(Bend1(cp)) else norm(Bend2(cp))
  }

  lemma BendOfHalf(norm: Norm, w1: Vec, w2: Vec, d1: Vec, d2: Vec, bend: real)
    requires IsNorm(norm) && norm(d1) <= bend && norm(d2) <= bend
    requires forall k :: 0 <= k < 3 ==> w1[k] == 0.25 * d1[k]
    requires forall k :: 0 <= k < 3 ==> w2[k] == 0.125 * (d1[k] + d2[k])
    ensures norm(w1) <= 0.25 * bend && norm(w2) <= 0.25 * bend
  {
    NormOfMultiple(norm, w1, 0.25, d1);
    NormOfTwo(norm, w2, 0.125, d1, d2);
  }

  /** Halving divides the bend by four. */
  lemma BendQuarters(norm: Norm, cp: Curve)
    requires IsNorm(norm)
    ensures var (l, r) := Split(cp, 0.5);
            Bend(norm, l) <= 0.25 * Bend(norm, cp) && Bend(norm, r) <= 0.25 * Bend(norm, cp)
  {
    var (l, r) := Split(cp, 0.5);
    var d1, d2 := Bend1(cp), Bend2(cp);
    HalfBends(cp);
    BendOfHalf(norm, Bend1(l), Bend2(l), d1, d2, Bend(norm, cp));
    BendOfHalf(norm, Bend2(r), Bend1(r), d2, d1, Bend(norm, cp));
  }

  lemma HalfBends(cp: Curve)
    ensures var (l, r) := Split(cp, 0.5);
            forall k :: 0 <= k < 3 ==>
              && Bend1(l)[k] == 0.25 * Bend1(cp)[k] && Bend2(l)[k] == 0.125 * (Bend1(cp)[k] + Bend2(cp)[k])
              && Bend1(r)[k] == 0.125 * (Bend1(cp)[k] + Bend2(cp)[k]) && Bend2(r)[k] == 0.25 * Bend2(cp)[k]
  {
    var (l, r) := Split(cp, 0.5);
    HalfBendsAt(cp, l, r, 0);
    HalfBendsAt(cp, l, r, 1);
    HalfBendsAt(cp, l, r, 2);
  }

  lemma HalfBendsAt(cp: Curve, l: Curve, r: Curve, k: nat)
    requires k < 3 && (l, r) == Split(cp, 0.5)
    ensures Bend1(l)[k] == 0.25 * Bend1(cp)[k] && Bend2(l)[k] == 0.125 * (Bend1(cp)[k] + Bend2(cp)[k])
    ensures Bend1(r)[k] == 0.125 * (Bend1(cp)[k] + Bend2(cp)[k]) && Bend2(r)[k] == 0.25 * Bend2(cp)[k]
  {
    HalfSidesAt(cp, l, r, k);
  }

  /** The polygon exceeds the chord by at most twice the two second differences, so by at most four bends. */
  lemma ExcessWithinBend(norm: Norm, cp: Curve)
    requires IsNorm(norm)
    ensures Polygon(norm, cp) - Chord(norm, cp) <= 2.0 * (norm(Bend1(cp)) + norm(Bend2(cp))) <= 4.0 * Bend(norm, cp)
  {
    var a, b, c := Minus(cp.p1, cp.p0), Minus(cp.p2, cp.p1), Minus(cp.p3, cp.p2);
    var d1, d2 := Bend1(cp), Bend2(cp);
    var back := Scale(-1.0, d1);
    NormOfNegative(norm, back, d1);
    NormOfSum(norm, a, b, back);
    NormOfSum(norm, c, b, d2);
    // three times the middle side is the chord, bent back at both ends
    var three, turn := Scale(3.0, b), Minus(d1, d2);
    NormOfMultiple(norm, three, 3.0, b);
    NormOfSum(norm, three, Minus(cp.p3, cp.p0), turn);
    var forth := Scale(-1.0, d2);
    NormOfNegative(norm, forth, d2);
    NormOfSum(norm, turn, d1, forth);
  }

  // ----- the length

  /** How often x can be divided by four before it is within tol. */
  ghost function Level(x: real, tol: real): nat
    requires tol > 0.0
    decreases if x <= tol then 0 else (x / tol).Floor
  {
    if x <= tol then 0
    else
      QuarterFloor(x, tol);
      1 + Level(0.25 * x, tol)
  }

  lemma QuarterFloor(x: real, tol: real)
    requires tol > 0.0 && x > tol
    ensures (x / tol).Floor >= 1 && ((0.25 * x) / tol).Floor < (x / tol).Floor
  {
    var r := x / tol;
    assert r * tol == x;
    assert r > 1.0;
    assert (0.25 * x) / tol == 0.25 * r;
  }

  lemma {:induction false} LevelMonotone(x: real, y: real, tol: real)
    requires tol > 0.0 && x <= y
    ensures Level(x, tol) <= Level(y, tol)
    decreases Level(x, tol)
  {
    if x > tol {
      LevelMonotone(0.25 * x, 0.25 * y, tol);
    }
  }

  /** A curve that is not yet flat enough has halves of a lower level. */
  lemma HalvesAreLower(norm: Norm, cp: Curve, tol: real)
    requires IsNorm(norm) && tol > 0.0 && Polygon(norm, cp) - Chord(norm, cp) > tol
    ensures var (l, r) := Split(cp, 0.5);
            && Level(4.0 * Bend(norm, l), tol) < Level(4.0 * Bend(norm, cp), tol)
            && Level(4.0 * Bend(norm, r), tol) < Level(4.0 * Bend(norm, cp), tol)
  {
    var (l, r) := Split(cp, 0.5);
    ExcessWithinBend(norm, cp);
    BendQuarters(norm, cp);
    var x := 4.0 * Bend(norm, cp);
    LevelMonotone(4.0 * Bend(norm, l), 0.25 * x, tol);
    LevelMonotone(4.0 * Bend(norm, r), 0.25 * x, tol);
  }

  /** `approx_length`: it ends for every curve and every positive tolerance. */
  function ApproxLength(norm: Norm, cp: Curve, tol: real): real
    requires IsNorm(norm) && tol > 0.0
    decreases Level(4.0 * Bend(norm, cp), tol)
  {
    var l0, l1 := Chord(norm, cp), Polygon(norm, cp);
    if l1 - l0 > tol then
      var (a, b) := Split(cp, 0.5);
      HalvesAreLower(norm, cp, tol);
      var second := ApproxLength(norm, b, tol);
      ApproxLength(norm, a, tol) + second
    else (l1 + l0) * 0.5
  }

  /** The result lies between the chord and the control polygon. */
  lemma {:induction false} ApproxLengthBounds(norm: Norm, cp: Curve, tol: real)
    requires IsNorm(norm) && tol > 0.0
    ensures Chord(norm, cp) <= ApproxLength(norm, cp, tol) <= Polygon(norm, cp)
    decreases Level(4.0 * Bend(norm, cp), tol)
  {
    if Polygon(norm, cp) - Chord(norm, cp) > tol {
      var (a, b) := Split(cp, 0.5);
      HalvesAreLower(norm, cp, tol);
      ApproxLengthBounds(norm, a, tol);
      ApproxLengthBounds(norm, b, tol);
      PolygonShrinks(norm, cp);
      ChordsGrow(norm, cp);
    } else {
      ChordWithinPolygon(norm, cp);
    }
  }

  /** The pieces that the curve is cut into. */
  function Pieces(norm: Norm, cp: Curve, tol: real): nat
    requires IsNorm(norm) && tol > 0.0
    decreases Level(4.0 * Bend(norm, cp), tol)
  {
    if Polygon(norm, cp) - Chord(norm, cp) > tol then
      var (a, b) := Split(cp, 0.5);
      HalvesAreLower(norm, cp, tol);
      Pieces(norm, a, tol) + Pieces(norm, b, tol)
    else 1
  }

  /** A length: it adds up over halves, and lies between the chord and the polygon. */
  ghost predicate IsLength(norm: Norm, length: Curve -> real) {
    forall cp :: LengthAt(norm, length, cp)
  }

  ghost predicate LengthAt(norm: Norm, length: Curve -> real, cp: Curve) {
    var (a, b) := Split(cp, 0.5);
    length(cp) == length(a) + length(b) && Chord(norm, cp) <= length(cp) <= Polygon(norm, cp)
  }

  /** Half the tolerance for each of n pieces. */
  function Allowance(tol: real, n: nat): real {
    0.5 * tol * n as real
  }

  lemma AllowancesAdd(tol: real, m: nat, n: nat)
    ensures Allowance(tol, m) + Allowance(tol, n) == Allowance(tol, m + n) && Allowance(tol, 1) == 0.5 * tol
  {
    assert (m + n) as real == m as real + n as real;
  }

  ghost predicate IsNear(x: real, y: real, allowed: real) {
    y - allowed <= x <= y + allowed
  }

  /** The result is within half the tolerance per piece of any true length. */
  lemma {:induction false} ApproxLengthError(norm: Norm, length: Curve -> real, cp: Curve, tol: real)
    requires IsNorm(norm) && IsLength(norm, length) && tol > 0.0
    ensures IsNear(ApproxLength(norm, cp, tol), length(cp), Allowance(tol, Pieces(norm, cp, tol)))
    decreases Level(4.0 * Bend(norm, cp), tol)
  {
    assert LengthAt(norm, length, cp);
    if Polygon(norm, cp) - Chord(norm, cp) > tol {
      var (a, b) := Split(cp, 0.5);
      HalvesAreLower(norm, cp, tol);
      ApproxLengthError(norm, length, a, tol);
      ApproxLengthError(norm, length, b, tol);
      PiecesOfHalves(norm, cp, tol, a, b);
      NearTotal(ApproxLength(norm, cp, tol), length(cp), Pieces(norm, cp, tol),
                ApproxLength(norm, a, tol), length(a), Pieces(norm, a, tol),
                ApproxLength(norm, b, tol), length(b), Pieces(norm, b, tol), tol);
    } else {
      AllowancesAdd(tol, 1, 1);
    }
  }

  /** What is near for both halves is near for the whole. */
  lemma NearTotal(x: real, lx: real, k: nat, xa: real, la: real, m: nat, xb: real, lb: real, n: nat, tol: real)
    requires IsNear(xa, la, Allowance(tol, m)) && IsNear(xb, lb, Allowance(tol, n))
    requires x == xa + xb && lx == la + lb && k == m + n
    ensures IsNear(x, lx, Allowance(tol, k))
  {
    NearAdds(xa, xb, la, lb, tol, m, n);
  }

  lemma PiecesOfHalves(norm: Norm, cp: Curve, tol: real, a: Curve, b: Curve)
    requires IsNorm(norm) && tol > 0.0
    requires Polygon(norm, cp) - Chord(norm, cp) > tol && (a, b) == Split(cp, 0.5)
    ensures Pieces(norm, cp, tol) == Pieces(norm, a, tol) + Pieces(norm, b, tol)
    ensures ApproxLength(norm, cp, tol) == ApproxLength(norm, a, tol) + ApproxLength(norm, b, tol)
  {
  }

  lemma NearAdds(x: real, y: real, lx: real, ly: real, tol: real, m: nat, n: nat)
    requires IsNear(x, lx, Allowance(tol, m)) && IsNear(y, ly, Allowance(tol, n))
    ensures IsNear(x + y, lx + ly, Allowance(tol, m + n))
  {
    AllowancesAdd(tol, m, n);
  }
}
