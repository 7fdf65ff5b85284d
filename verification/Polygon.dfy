/** `point_in_polygon` of tools/path/path_oracle.py: the even-odd test with a rounding after every step. */
module Polygon {

  datatype Point = Point(x: real, y: real)

  /** The rounded difference and the rounded product; nothing is assumed of either. */
  datatype Arithmetic = Arithmetic(sub: (real, real) -> real, mul: (real, real) -> real)

  // ----- the loop

  /** One turn: whether the edge between a and b toggles the flag for the point p. */
  function Counts(ar: Arithmetic, a: Point, b: Point, p: Point): bool {
    if a.y == b.y then false
    else if p.x > a.x && p.x > b.x then false
    else
      var (a, b) := if a.y > b.y then (b, a) else (a, b);
      if p.y > b.y || a.y >= p.y then false
      else
        var lhs := ar.mul(ar.sub(p.y, a.y), ar.sub(b.x, a.x));
        var rhs := ar.mul(ar.sub(p.x, a.x), ar.sub(b.y, a.y));
        lhs >= rhs
  }

  /** Vertex i's neighbour on the closed polygon. */
  function Before(poly: seq<Point>, i: nat): Point
    requires i < |poly|
  {
    if i > 0 then poly[i - 1] else poly[|poly| - 1]
  }

  /** The flag after the first n turns. */
  function Flag(ar: Arithmetic, poly: seq<Point>, p: Point, n: nat): bool
    requires n <= |poly|
  {
    if n == 0 then false
    else Flag(ar, poly, p, n - 1) != Counts(ar, poly[n - 1], Before(poly, n - 1), p)
  }

  /** The smallest of the numbers, and the largest. */
  function Min(s: seq<real>): (m: real)
    requires s != []
    ensures m in s && forall k :: 0 <= k < |s| ==> m <= s[k]
  {
    if |s| == 1 then s[0]
    else
      var m := Min(s[..|s| - 1]);
      assert forall k :: 0 <= k < |s| - 1 ==> s[k] == s[..|s| - 1][k];
      if s[|s| - 1] < m then s[|s| - 1] else m
  }

  function Max(s: seq<real>): (m: real)
    requires s != []
    ensures m in s && forall k :: 0 <= k < |s| ==> s[k] <= m
  {
    if |s| == 1 then s[0]
    else
      var m := Max(s[..|s| - 1]);
      assert forall k :: 0 <= k < |s| - 1 ==> s[k] == s[..|s| - 1][k];
      if s[|s| - 1] > m then s[|s| - 1] else m
  }

  function Xs(poly: seq<Point>): (xs: seq<real>)
    ensures |xs| == |poly| && forall k :: 0 <= k < |xs| ==> xs[k] == poly[k].x
  {
    if poly == [] then [] else Xs(poly[..|poly| - 1]) + [poly[|poly| - 1].x]
  }

  function Ys(poly: seq<Point>): (ys: seq<real>)
    ensures |ys| == |poly| && forall k :: 0 <= k < |ys| ==> ys[k] == poly[k].y
  {
    if poly == [] then [] else Ys(poly[..|poly| - 1]) + [poly[|poly| - 1].y]
  }

  predicate OutsideBox(poly: seq<Point>, p: Point)
    requires poly != []
  {
    Min(Xs(poly)) > p.x || Min(Ys(poly)) > p.y || p.x > Max(Xs(poly)) || p.y > Max(Ys(poly))
  }

  function Inside(ar: Arithmetic, poly: seq<Point>, p: Point): bool {
    poly != [] && !OutsideBox(poly, p) && Flag(ar, poly, p, |poly|)
  }

  method PointInPolygon(ar: Arithmetic, poly: seq<Point>, x: real, y: real) returns (inside: bool)
    ensures inside == Inside(ar, poly, Point(x, y))
  {
    if poly == [] {
      return false;
    }
    var xs, ys := Xs(poly), Ys(poly);
    if Min(xs) > x || Min(ys) > y || x > Max(xs) || y > Max(ys) {
      return false;
    }
    inside := false;
    for i := 0 to |poly|
      invariant inside == Flag(ar, poly, Point(x, y), i)
    {
      var toggles := Toggles(ar, poly[i], Before(poly, i), x, y);
      if toggles {
        inside := !inside;
      }
    }
  }

  /** The body of the loop: the ends are ordered by y before the edge is tested. */
  method Toggles(ar: Arithmetic, a: Point, b: Point, x: real, y: real) returns (toggles: bool)
    ensures toggles == Counts(ar, a, b, Point(x, y))
  {
    var lowX, lowY, highX, highY := a.x, a.y, b.x, b.y;
    if lowY == highY {
      return false;
    }
    if x > lowX && x > highX {
      return false;
    }
    if lowY > highY {
      lowX, lowY, highX, highY := highX, highY, lowX, lowY;
    }
    if y > highY || lowY >= y {
      return false;
    }
    var lhs := ar.mul(ar.sub(y, lowY), ar.sub(highX, lowX));
    var rhs := ar.mul(ar.sub(x, lowX), ar.sub(highY, lowY));
    toggles := !(lhs < rhs);
  }

  // ----- the flag is a parity over edges without direction

  /** An edge counts in whichever direction it is walked. */
  lemma CountsIsSymmetric(ar: Arithmetic, a: Point, b: Point, p: Point)
    ensures Counts(ar, a, b, p) == Counts(ar, b, a, p)
  {
  }

  /** The parity of the counting edges along a walk that is not closed. */
  function Walk(ar: Arithmetic, s: seq<Point>, p: Point): bool {
    if |s| < 2 then false
    else Walk(ar, s[..|s| - 1], p) != Counts(ar, s[|s| - 2], s[|s| - 1], p)
  }

  lemma {:induction false} WalkJoins(ar: Arithmetic, s: seq<Point>, t: seq<Point>, p: Point)
    requires s != [] && t != []
    ensures Walk(ar, s + t, p) == (Walk(ar, s, p) != (Counts(ar, s[|s| - 1], t[0], p) != Walk(ar, t, p)))
  {
    var st := s + t;
    assert st[..|st| - 1] == s + t[..|t| - 1];
    if |t| == 1 {
      assert s + t[..0] == s;
    } else {
      WalkJoins(ar, s, t[..|t| - 1], p);
    }
  }

  lemma {:induction false} FlagIsWalk(ar: Arithmetic, poly: seq<Point>, p: Point, n: nat)
    requires 0 < n <= |poly|
    ensures Flag(ar, poly, p, n) == (Counts(ar, poly[0], poly[|poly| - 1], p) != Walk(ar, poly[..n], p))
  {
    if n > 1 {
      FlagIsWalk(ar, poly, p, n - 1);
      assert poly[..n][..n - 1] == poly[..n - 1];
      CountsIsSymmetric(ar, poly[n - 1], poly[n - 2], p);
    }
  }

  /** The whole loop: the walk around the polygon and the edge that closes it. */
  lemma FlagIsClosedWalk(ar: Arithmetic, poly: seq<Point>, p: Point)
    requires poly != []
    ensures Flag(ar, poly, p, |poly|) == (Counts(ar, poly[|poly| - 1], poly[0], p) != Walk(ar, poly, p))
  {
    FlagIsWalk(ar, poly, p, |poly|);
    assert poly[..|poly|] == poly;
    CountsIsSymmetric(ar, poly[|poly| - 1], poly[0], p);
  }

  lemma RotatedFlag(ar: Arithmetic, s: seq<Point>, t: seq<Point>, p: Point)
    requires s != [] && t != []
    ensures Flag(ar, s + t, p, |s + t|) == Flag(ar, t + s, p, |t + s|)
  {
    FlagIsClosedWalk(ar, s + t, p);
    FlagIsClosedWalk(ar, t + s, p);
    WalkJoins(ar, s, t, p);
    WalkJoins(ar, t, s, p);
  }

  function Reversed(s: seq<Point>): (r: seq<Point>)
    ensures |r| == |s| && forall k :: 0 <= k < |s| ==> r[k] == s[|s| - 1 - k]
  {
    if s == [] then [] else [s[|s| - 1]] + Reversed(s[..|s| - 1])
  }

  lemma {:induction false} ReversedWalk(ar: Arithmetic, s: seq<Point>, p: Point)
    ensures Walk(ar, Reversed(s), p) == Walk(ar, s, p)
  {
    if |s| >= 2 {
      var front, last := s[..|s| - 1], s[|s| - 1];
      ReversedWalk(ar, front, p);
      WalkJoins(ar, [last], Reversed(front), p);
      CountsIsSymmetric(ar, last, s[|s| - 2], p);
    }
  }

  lemma ReversedFlag(ar: Arithmetic, s: seq<Point>, p: Point)
    requires s != []
    ensures Flag(ar, Reversed(s), p, |s|) == Flag(ar, s, p, |s|)
  {
    FlagIsClosedWalk(ar, s, p);
    FlagIsClosedWalk(ar, Reversed(s), p);
    ReversedWalk(ar, s, p);
    CountsIsSymmetric(ar, s[|s| - 1], s[0], p);
  }

  /** The box depends on which vertices there are, not on their order. */
  lemma SameBox(s: seq<Point>, t: seq<Point>, p: Point)
    requires s != [] && t != [] && SameVertices(s, t)
    ensures OutsideBox(s, p) == OutsideBox(t, p)
  {
    BoxAmong(s, t, p);
    BoxAmong(t, s, p);
  }

  ghost predicate SameVertices(s: seq<Point>, t: seq<Point>) {
    (forall k :: 0 <= k < |s| ==> s[k] in t) && (forall k :: 0 <= k < |t| ==> t[k] in s)
  }

  lemma BoxAmong(s: seq<Point>, t: seq<Point>, p: Point)
    requires s != [] && t != [] && forall k :: 0 <= k < |t| ==> t[k] in s
    ensures OutsideBox(s, p) ==> OutsideBox(t, p)
  {
    XsAmong(s, t);
    YsAmong(s, t);
  }

  lemma XsAmong(s: seq<Point>, t: seq<Point>)
    requires s != [] && t != [] && forall k :: 0 <= k < |t| ==> t[k] in s
    ensures Min(Xs(s)) <= Min(Xs(t)) && Max(Xs(t)) <= Max(Xs(s))
  {
    var i :| 0 <= i < |t| && Xs(t)[i] == Min(Xs(t));
    var k :| 0 <= k < |t| && Xs(t)[k] == Max(Xs(t));
    WithinBox(s, t[i]);
    WithinBox(s, t[k]);
  }

  lemma YsAmong(s: seq<Point>, t: seq<Point>)
    requires s != [] && t != [] && forall k :: 0 <= k < |t| ==> t[k] in s
    ensures Min(Ys(s)) <= Min(Ys(t)) && Max(Ys(t)) <= Max(Ys(s))
  {
    var i :| 0 <= i < |t| && Ys(t)[i] == Min(Ys(t));
    var k :| 0 <= k < |t| && Ys(t)[k] == Max(Ys(t));
    WithinBox(s, t[i]);
    WithinBox(s, t[k]);
  }

  lemma WithinBox(s: seq<Point>, v: Point)
    requires s != [] && v in s
    ensures Min(Xs(s)) <= v.x <= Max(Xs(s)) && Min(Ys(s)) <= v.y <= Max(Ys(s))
  {
    var k :| 0 <= k < |s| && s[k] == v;
    assert Xs(s)[k] == v.x && Ys(s)[k] == v.y;
  }

  /** Starting the vertex list elsewhere does not change the answer, whatever the arithmetic. */
  lemma RotationKeepsInside(ar: Arithmetic, poly: seq<Point>, k: nat, p: Point)
    requires k <= |poly|
    ensures Inside(ar, poly[k..] + poly[..k], p) == Inside(ar, poly, p)
  {
    var s, t := poly[..k], poly[k..];
    assert poly == s + t;
    if s == [] || t == [] {
      assert t + s == poly;
    } else {
      RotatedFlag(ar, s, t, p);
      SameBox(t + s, s + t, p);
    }
  }

  /** Nor does walking it backwards. */
  lemma ReversalKeepsInside(ar: Arithmetic, poly: seq<Point>, p: Point)
    ensures Inside(ar, Reversed(poly), p) == Inside(ar, poly, p)
  {
    if poly != [] {
      ReversedFlag(ar, poly, p);
      assert forall k :: 0 <= k < |poly| ==> poly[k] == Reversed(poly)[|poly| - 1 - k];
      SameBox(Reversed(poly), poly, p);
    }
  }

  // ----- in exact arithmetic

  ghost predicate IsExact(ar: Arithmetic) {
    (forall u, v :: ar.sub(u, v) == u - v) && (forall u, v :: ar.mul(u, v) == u * v)
  }

  /** The height of p lies above one end of the edge, and not above the other. */
  predicate Spans(a: Point, b: Point, p: Point) {
    (a.y < p.y) != (b.y < p.y)
  }

  /** The line through a and b is at x when it is at p's height. */
  predicate MeetsAt(a: Point, b: Point, p: Point, x: real) {
    (p.y - a.y) * (b.x - a.x) == (x - a.x) * (b.y - a.y)
  }

  /** With exact steps an edge that spans p's height counts when it meets it at p or to the right. */
  lemma SpanningCounts(ar: Arithmetic, a: Point, b: Point, p: Point, x: real)
    requires IsExact(ar) && Spans(a, b, p) && MeetsAt(a, b, p, x)
    ensures Counts(ar, a, b, p) <==> p.x <= x
  {
    if a.y > b.y {
      OtherEnd(a, b, p, x);
      CountsUpwards(ar, b, a, p, x);
      CountsIsSymmetric(ar, a, b, p);
    } else {
      CountsUpwards(ar, a, b, p, x);
    }
  }

  lemma CountsUpwards(ar: Arithmetic, lo: Point, hi: Point, p: Point, x: real)
    requires IsExact(ar) && lo.y < p.y <= hi.y && MeetsAt(lo, hi, p, x)
    ensures Counts(ar, lo, hi, p) <==> p.x <= x
  {
    CompareProducts(x - lo.x, p.x - lo.x, hi.y - lo.y);
    MeetsBetween(lo, hi, p, x);
  }

  lemma CompareProducts(u: real, v: real, w: real)
    requires w > 0.0
    ensures u * w >= v * w <==> u >= v
  {
  }

  lemma OtherEnd(a: Point, b: Point, p: Point, x: real)
    requires MeetsAt(a, b, p, x)
    ensures MeetsAt(b, a, p, x)
  {
    var h, w := b.y - a.y, b.x - a.x;
    var u, v := p.y - a.y, x - a.x;
    assert u * w == v * h;
    assert p.y - b.y == u - h && x - b.x == v - w;
    assert (u - h) * (-w) == -(u * w) + h * w;
    assert (v - w) * (-h) == -(v * h) + w * h;
  }

  /** An edge that spans p's height meets it between its ends. */
  lemma MeetsBetween(lo: Point, hi: Point, p: Point, x: real)
    requires lo.y < p.y <= hi.y && MeetsAt(lo, hi, p, x)
    ensures lo.x <= x || hi.x <= x
    ensures x <= lo.x || x <= hi.x
  {
    var u, h := p.y - lo.y, hi.y - lo.y;
    Between(u, h, hi.x - lo.x, x - lo.x);
  }

  lemma Between(u: real, h: real, w: real, v: real)
    requires 0.0 < u <= h && u * w == v * h
    ensures 0.0 <= v || w <= v
    ensures v <= 0.0 || v <= w
  {
    if v < 0.0 && v < w {
      SignOf(u, w, v, h);
    }
    if v > 0.0 && v > w {
      SignOf(u, -w, -v, h);
    }
  }

  lemma SignOf(u: real, w: real, v: real, h: real)
    requires 0.0 < u <= h && v < 0.0 && v < w
    ensures u * w > v * h
  {
    assert v * h <= v * u;
    assert v * u < w * u;
  }

  /** Where it meets. */
  lemma MeetingPoint(a: Point, b: Point, p: Point) returns (x: real)
    requires Spans(a, b, p)
    ensures MeetsAt(a, b, p, x)
  {
    var h := b.y - a.y;
    var t := (p.y - a.y) * (b.x - a.x) / h;
    assert t * h == (p.y - a.y) * (b.x - a.x);
    x := a.x + t;
  }

  /** No other edge counts. */
  lemma OnlySpanningCount(ar: Arithmetic, a: Point, b: Point, p: Point)
    requires Counts(ar, a, b, p)
    ensures Spans(a, b, p) && (p.x <= a.x || p.x <= b.x)
  {
  }

  /** With exact steps an edge counts exactly when it meets the ray from p to the right. */
  lemma CountsExactly(ar: Arithmetic, a: Point, b: Point, p: Point)
    requires IsExact(ar)
    ensures Counts(ar, a, b, p) <==> Spans(a, b, p) && exists x :: MeetsAt(a, b, p, x) && p.x <= x
  {
    if Spans(a, b, p) {
      var x := MeetingPoint(a, b, p);
      SpanningCounts(ar, a, b, p, x);
      if y :| MeetsAt(a, b, p, y) && p.x <= y {
        SpanningCounts(ar, a, b, p, y);
      }
    } else if Counts(ar, a, b, p) {
      OnlySpanningCount(ar, a, b, p);
    }
  }

  /** Every edge of the walk counts that spans the height. */
  ghost predicate CountAsSpans(ar: Arithmetic, s: seq<Point>, p: Point) {
    forall j :: 0 < j < |s| ==> (Counts(ar, s[j - 1], s[j], p) <==> Spans(s[j - 1], s[j], p))
  }

  /** A closed walk crosses every height an even number of times. */
  lemma {:induction false} WalkOfSpans(ar: Arithmetic, s: seq<Point>, p: Point)
    requires s != [] && CountAsSpans(ar, s, p)
    ensures Walk(ar, s, p) == Spans(s[0], s[|s| - 1], p)
  {
    if |s| > 1 {
      var front := s[..|s| - 1];
      forall j | 0 < j < |front| ensures Counts(ar, front[j - 1], front[j], p) <==> Spans(front[j - 1], front[j], p) {
        assert front[j - 1] == s[j - 1] && front[j] == s[j];
      }
      WalkOfSpans(ar, front, p);
    }
  }

  /** Left of the polygon every spanning edge counts. */
  lemma LeftOfCounts(ar: Arithmetic, a: Point, b: Point, p: Point)
    requires IsExact(ar) && p.x < a.x && p.x < b.x
    ensures Counts(ar, a, b, p) <==> Spans(a, b, p)
  {
    if Spans(a, b, p) {
      var x := MeetingPoint(a, b, p);
      SpanningCounts(ar, a, b, p, x);
      if a.y > b.y {
        OtherEnd(a, b, p, x);
        MeetsBetween(b, a, p, x);
      } else {
        MeetsBetween(a, b, p, x);
      }
    } else if Counts(ar, a, b, p) {
      OnlySpanningCount(ar, a, b, p);
    }
  }

  /** Above or below the polygon, and right of it, no edge counts, in any arithmetic. */
  lemma NoneCounts(ar: Arithmetic, a: Point, b: Point, p: Point)
    requires (p.y < a.y && p.y < b.y) || (p.y > a.y && p.y > b.y) || (p.x > a.x && p.x > b.x)
    ensures !Counts(ar, a, b, p)
  {
  }

  lemma {:induction false} WalkOfNone(ar: Arithmetic, s: seq<Point>, p: Point)
    requires forall j :: 0 < j < |s| ==> !Counts(ar, s[j - 1], s[j], p)
    ensures !Walk(ar, s, p)
  {
    if |s| > 1 {
      var front := s[..|s| - 1];
      forall j | 0 < j < |front| ensures !Counts(ar, front[j - 1], front[j], p) {
        assert front[j - 1] == s[j - 1] && front[j] == s[j];
      }
      WalkOfNone(ar, front, p);
    }
  }

  lemma PairLeftOf(ar: Arithmetic, poly: seq<Point>, i: nat, j: nat, p: Point)
    requires IsExact(ar) && i < |poly| && j < |poly| && p.x < Min(Xs(poly))
    ensures Counts(ar, poly[i], poly[j], p) <==> Spans(poly[i], poly[j], p)
  {
    WithinBox(poly, poly[i]);
    WithinBox(poly, poly[j]);
    LeftOfCounts(ar, poly[i], poly[j], p);
  }

  lemma LeftOfWalk(ar: Arithmetic, poly: seq<Point>, p: Point)
    requires IsExact(ar) && poly != [] && p.x < Min(Xs(poly))
    ensures CountAsSpans(ar, poly, p)
  {
    forall j | 0 < j < |poly| ensures Counts(ar, poly[j - 1], poly[j], p) <==> Spans(poly[j - 1], poly[j], p) {
      PairLeftOf(ar, poly, j - 1, j, p);
    }
  }

  lemma FlagOfSpans(ar: Arithmetic, poly: seq<Point>, p: Point)
    requires poly != [] && CountAsSpans(ar, poly, p)
    requires Counts(ar, poly[|poly| - 1], poly[0], p) <==> Spans(poly[|poly| - 1], poly[0], p)
    ensures !Flag(ar, poly, p, |poly|)
  {
    WalkOfSpans(ar, poly, p);
    FlagIsClosedWalk(ar, poly, p);
  }

  lemma FlagLeftOf(ar: Arithmetic, poly: seq<Point>, p: Point)
    requires IsExact(ar) && poly != [] && p.x < Min(Xs(poly))
    ensures !Flag(ar, poly, p, |poly|)
  {
    LeftOfWalk(ar, poly, p);
    PairLeftOf(ar, poly, |poly| - 1, 0, p);
    FlagOfSpans(ar, poly, p);
  }

  lemma FlagBesides(ar: Arithmetic, poly: seq<Point>, p: Point)
    requires poly != [] && (p.y < Min(Ys(poly)) || p.x > Max(Xs(poly)) || p.y > Max(Ys(poly)))
    ensures !Flag(ar, poly, p, |poly|)
  {
    forall i, j | 0 <= i < |poly| && 0 <= j < |poly| ensures !Counts(ar, poly[i], poly[j], p) {
      WithinBox(poly, poly[i]);
      WithinBox(poly, poly[j]);
      NoneCounts(ar, poly[i], poly[j], p);
    }
    WalkOfNone(ar, poly, p);
    FlagIsClosedWalk(ar, poly, p);
  }

  /** In exact arithmetic the box only saves work: outside it the loop would find the point outside too. */
  lemma BoxOnlySavesWork(ar: Arithmetic, poly: seq<Point>, p: Point)
    requires IsExact(ar) && poly != []
    ensures Inside(ar, poly, p) == Flag(ar, poly, p, |poly|)
  {
    if OutsideBox(poly, p) {
      if p.x < Min(Xs(poly)) {
        FlagLeftOf(ar, poly, p);
      } else {
        FlagBesides(ar, poly, p);
      }
    }
  }
}
