/**
 The period of a linear congruential generator s -> a * s + c modulo a power of two, for a
 multiplier that is 1 modulo 4 and an odd increment, by induction on the power.
 */
module Period {
  import opened PyInt

  /** n steps over the integers, before any reduction. */
  ghost function Run(a: int, c: int, n: nat, s: int): int {
    if n == 0 then s else a * Run(a, c, n - 1, s) + c
  }

  /** n times the same step. */
  ghost function Iterate<S>(f: S -> S, n: nat, s: S): S {
    if n == 0 then s else f(Iterate(f, n - 1, s))
  }

  ghost function Stepper(a: int, c: int, m: nat): int -> int
    requires m > 0
  {
    (x: int) => (a * x + c) % m
  }

  /** n steps with every state reduced modulo m. */
  ghost function States(a: int, c: int, m: nat, n: nat, s: int): int
    requires m > 0
  {
    Iterate(Stepper(a, c, m), n, s % m)
  }

  lemma {:induction false} RunAdds(a: int, c: int, m: nat, n: nat, s: int)
    ensures Run(a, c, m + n, s) == Run(a, c, n, Run(a, c, m, s))
  {
    if n > 0 {
      RunAdds(a, c, m, n - 1, s);
    }
  }

  ghost function Power(a: int, n: nat): int {
    if n == 0 then 1 else a * Power(a, n - 1)
  }

  /** n steps are one linear step. */
  lemma {:induction false} RunIsLinear(a: int, c: int, n: nat, s: int)
    ensures Run(a, c, n, s) == Power(a, n) * s + Run(a, c, n, 0)
  {
    if n > 0 {
      RunIsLinear(a, c, n - 1, s);
      var p, g := Power(a, n - 1), Run(a, c, n - 1, 0);
      LinearStep(a, p, s, g, c);
    }
  }

  lemma LinearStep(a: int, p: int, s: int, g: int, c: int)
    ensures a * (p * s + g) + c == (a * p) * s + (a * g + c)
  {
  }

  lemma {:induction false} PowerAdds(a: int, m: nat, n: nat)
    ensures Power(a, m + n) == Power(a, m) * Power(a, n)
  {
    if m > 0 {
      PowerAdds(a, m - 1, n);
      Associate(a, Power(a, m - 1), Power(a, n));
    }
  }

  lemma Associate(x: int, y: int, z: int)
    ensures x * (y * z) == (x * y) * z
  {
  }

  /** The multiplier of 2^k steps is 1 modulo 2^(k+2). */
  lemma {:induction false} PowerIsOne(a: int, k: nat) returns (u: int)
    requires a % 4 == 1
    ensures Power(a, Pow2(k)) == 1 + u * (4 * Pow2(k))
  {
    if k == 0 {
      u := a / 4;
      assert Power(a, 1) == a * Power(a, 0);
    } else {
      var v := PowerIsOne(a, k - 1);
      var p := Pow2(k - 1);
      PowerAdds(a, p, p);
      u := v + v * v * (2 * p);
      SquareOfOne(v, p);
    }
  }

  lemma SquareOfOne(v: int, p: int)
    ensures (1 + v * (4 * p)) * (1 + v * (4 * p)) == 1 + (v + v * v * (2 * p)) * (4 * (2 * p))
  {
    var x := v * (4 * p);
    assert (1 + x) * (1 + x) == 1 + 2 * x + x * x;
    assert x * x == v * v * (2 * p) * (4 * (2 * p)) by {
      assert x * x == (v * v) * (16 * (p * p));
      assert (v * v * (2 * p)) * (8 * p) == (v * v) * (16 * (p * p));
    }
  }

  /** The increment of 2^k steps is an odd multiple of 2^k. */
  lemma {:induction false} OffsetIsOdd(a: int, c: int, k: nat) returns (v: int)
    requires a % 4 == 1 && c % 2 == 1
    ensures Run(a, c, Pow2(k), 0) == (2 * v + 1) * Pow2(k)
  {
    if k == 0 {
      v := c / 2;
      assert Run(a, c, 1, 0) == a * Run(a, c, 0, 0) + c;
    } else {
      var p := Pow2(k - 1);
      var w := OffsetIsOdd(a, c, k - 1);
      var u := PowerIsOne(a, k - 1);
      RunAdds(a, c, p, p, 0);
      RunIsLinear(a, c, p, Run(a, c, p, 0));
      v := w + 2 * u * p * w + u * p;
      OddOffset(u, w, p);
    }
  }

  lemma OddOffset(u: int, w: int, p: int)
    ensures (1 + u * (4 * p)) * ((2 * w + 1) * p) + (2 * w + 1) * p == (2 * (w + 2 * u * p * w + u * p) + 1) * (2 * p)
  {
    var o := (2 * w + 1) * p;
    var x := u * (4 * p);
    assert (1 + x) * o + o == 2 * o + x * o;
    assert x * o == (4 * (u * p)) * ((2 * w + 1) * p);
    var z := u * p;
    assert x * o == 8 * (z * w * p) + 4 * (z * p);
    assert 2 * u * p * w == 2 * (z * w);
    assert (2 * (w + 2 * (z * w) + z) + 1) * (2 * p) == 4 * (w * p) + 8 * (z * w * p) + 4 * (z * p) + 2 * p;
  }

  /** 2^k steps move every state by an odd multiple of 2^k. */
  lemma Block(a: int, c: int, k: nat, s: int) returns (w: int)
    requires a % 4 == 1 && c % 2 == 1
    ensures Run(a, c, Pow2(k), s) == s + (2 * w + 1) * Pow2(k)
  {
    var u := PowerIsOne(a, k);
    var v := OffsetIsOdd(a, c, k);
    RunIsLinear(a, c, Pow2(k), s);
    w := v + 2 * u * s;
    BlockSum(u, v, s, Pow2(k));
  }

  lemma BlockSum(u: int, v: int, s: int, p: int)
    ensures (1 + u * (4 * p)) * s + (2 * v + 1) * p == s + (2 * (v + 2 * u * s) + 1) * p
  {
    assert (1 + u * (4 * p)) * s == s + 4 * (u * p * s);
    assert (2 * (v + 2 * u * s) + 1) * p == (2 * v + 1) * p + 4 * (u * s * p);
    assert u * p * s == u * s * p;
  }

  /** m blocks of 2^k steps: the state moves by m * 2^k, modulo 2^(k+1). */
  lemma {:induction false} Blocks(a: int, c: int, k: nat, m: nat, s: int) returns (w: int)
    requires a % 4 == 1 && c % 2 == 1
    ensures Run(a, c, m * Pow2(k), s) == s + (2 * w + m) * Pow2(k)
  {
    var p := Pow2(k);
    if m == 0 {
      w := 0;
      assert m * p == 0;
    } else {
      var v := Blocks(a, c, k, m - 1, s);
      var t := Run(a, c, (m - 1) * p, s);
      var u := Block(a, c, k, t);
      OneMore(m, p);
      RunOn(a, c, (m - 1) * p, p, m * p, s, t);
      w := u + v;
      BlocksSum(v, u, m, p);
    }
  }

  lemma OneMore(m: nat, p: nat)
    requires m > 0
    ensures m * p == (m - 1) * p + p && (m - 1) * p >= 0
  {
  }

  lemma RunOn(a: int, c: int, q: nat, p: nat, r: nat, s: int, t: int)
    requires r == q + p && t == Run(a, c, q, s)
    ensures Run(a, c, r, s) == Run(a, c, p, t)
  {
    RunAdds(a, c, q, p, s);
  }

  lemma BlocksSum(v: int, u: int, m: nat, p: nat)
    requires m > 0
    ensures (2 * v + (m - 1)) * p + (2 * u + 1) * p == (2 * (u + v) + m) * p
  {
  }

  /** A state comes back modulo 2^k only after a multiple of 2^k steps. */
  lemma {:induction false} ComesBack(a: int, c: int, k: nat, n: nat, s: int, d: int) returns (m: nat)
    requires a % 4 == 1 && c % 2 == 1 && Run(a, c, n, s) == s + d * Pow2(k)
    ensures n == m * Pow2(k)
  {
    if k == 0 {
      m := n;
    } else {
      var p := Pow2(k - 1);
      assert d * (2 * p) == (2 * d) * p;
      var l := ComesBack(a, c, k - 1, n, s, 2 * d);
      var w := Blocks(a, c, k - 1, l, s);
      Cancel(2 * d, 2 * w + l, p);
      m := l / 2;
      assert l == 2 * m;
      assert (2 * m) * p == m * (2 * p);
    }
  }

  lemma ProductBounds(z: int, p: int)
    requires p > 0
    ensures z >= 1 ==> z * p >= p
    ensures z <= -1 ==> z * p <= -p
  {
  }

  lemma Cancel(x: int, y: int, p: nat)
    requires p > 0 && x * p == y * p
    ensures x == y
  {
    assert (x - y) * p == x * p - y * p;
    ProductBounds(x - y, p);
  }

  /** Every residue modulo 2^k is met within 2^k steps. */
  lemma {:induction false} Meets(a: int, c: int, k: nat, s: int, t: int) returns (n: nat, d: int)
    requires a % 4 == 1 && c % 2 == 1
    ensures n < Pow2(k) && Run(a, c, n, s) == t + d * Pow2(k)
  {
    if k == 0 {
      n, d := 0, s - t;
    } else {
      n, d := Meets(a, c, k - 1, s, t);
      if d % 2 == 0 {
        HalfMultiple(d, Pow2(k - 1));
        d := d / 2;
      } else {
        n, d := MeetsLater(a, c, k - 1, s, t, n, d);
      }
    }
  }

  lemma HalfMultiple(d: int, p: int)
    requires d % 2 == 0
    ensures d * p == (d / 2) * (2 * p)
  {
    assert d == 2 * (d / 2);
  }

  /** An odd distance to the target is made even by one more block. */
  lemma MeetsLater(a: int, c: int, k: nat, s: int, t: int, n: nat, d: int) returns (n': nat, d': int)
    requires a % 4 == 1 && c % 2 == 1 && d % 2 == 1
    requires n < Pow2(k) && Run(a, c, n, s) == t + d * Pow2(k)
    ensures n' == n + Pow2(k) && Run(a, c, n', s) == t + d' * (2 * Pow2(k))
  {
    hide Run, Pow2;
    var p := Pow2(k);
    var w := Block(a, c, k, Run(a, c, n, s));
    RunAdds(a, c, n, p, s);
    OddSum(d, 2 * w + 1, p);
    n', d' := n + p, (d + (2 * w + 1)) / 2;
  }

  lemma OddSum(x: int, y: int, p: nat)
    requires x % 2 == 1 && y % 2 == 1
    ensures x * p + y * p == ((x + y) / 2) * (2 * p)
  {
    assert x * p + y * p == (x + y) * p;
    HalfMultiple(x + y, p);
  }

  // ----- the reduced states

  lemma ModUnique(x: int, q: int, r: int, m: nat)
    requires m > 0 && x == q * m + r && 0 <= r < m
    ensures x % m == r
  {
    var z := q - x / m;
    assert x == (x / m) * m + x % m;
    assert z * m == q * m - (x / m) * m;
    ProductBounds(z, m);
  }

  lemma ModShift(x: int, k: int, m: nat)
    requires m > 0
    ensures (x + k * m) % m == x % m
  {
    var q := x / m;
    assert x == q * m + x % m;
    assert (q + k) * m == q * m + k * m;
    ModUnique(x + k * m, q + k, x % m, m);
  }

  lemma ModStep(a: int, c: int, r: int, m: nat)
    requires m > 0
    ensures (a * (r % m) + c) % m == (a * r + c) % m
  {
    var q := r / m;
    var x := a * (r % m) + c;
    assert a * r + c == x + (a * q) * m by {
      assert r == q * m + r % m;
      assert a * (q * m) == (a * q) * m;
      assert a * r == a * (q * m) + a * (r % m);
    }
    ModShift(x, a * q, m);
  }

  lemma {:induction false} StatesAreRun(a: int, c: int, m: nat, n: nat, s: int)
    requires m > 0
    ensures States(a, c, m, n, s) == Run(a, c, n, s) % m
  {
    if n > 0 {
      StatesAreRun(a, c, m, n - 1, s);
      ModStep(a, c, Run(a, c, n - 1, s), m);
    }
  }

  lemma {:induction false} IterateAdds<S>(f: S -> S, i: nat, n: nat, s: S)
    ensures Iterate(f, i + n, s) == Iterate(f, n, Iterate(f, i, s))
  {
    if n > 0 {
      IterateAdds(f, i, n - 1, s);
    }
  }

  lemma EqualResidues(x: int, y: int, m: nat) returns (d: int)
    requires m > 0 && x % m == y % m
    ensures x == y + d * m
  {
    d := x / m - y / m;
    assert x == (x / m) * m + x % m && y == (y / m) * m + y % m;
    assert (x / m - y / m) * m == (x / m) * m - (y / m) * m;
  }

  /** From every state the first return is after exactly 2^k steps. */
  lemma FirstReturn(a: int, c: int, k: nat, s: int, n: nat)
    requires a % 4 == 1 && c % 2 == 1 && 0 < n <= Pow2(k)
    ensures States(a, c, Pow2(k), n, s) == s % Pow2(k) <==> n == Pow2(k)
  {
    var m := Pow2(k);
    StatesAreRun(a, c, m, n, s);
    if n == m {
      var w := Block(a, c, k, s);
      ModShift(s, 2 * w + 1, m);
    } else if Run(a, c, n, s) % m == s % m {
      var d := EqualResidues(Run(a, c, n, s), s, m);
      var l := ComesBack(a, c, k, n, s, d);
      ProductBounds(l, m);
    }
  }

  /** No state repeats within 2^k consecutive ones. */
  lemma AllDifferent(a: int, c: int, k: nat, s: int, i: nat, j: nat)
    requires a % 4 == 1 && c % 2 == 1 && i < j < i + Pow2(k)
    ensures States(a, c, Pow2(k), i, s) != States(a, c, Pow2(k), j, s)
  {
    var m := Pow2(k);
    var t := States(a, c, m, i, s);
    StatesContinue(a, c, m, i, j - i, s);
    FirstReturn(a, c, k, t, j - i);
  }

  lemma StatesContinue(a: int, c: int, m: nat, i: nat, n: nat, s: int)
    requires m > 0
    ensures var t := States(a, c, m, i, s); t % m == t && States(a, c, m, i + n, s) == States(a, c, m, n, t)
  {
    StatesAreRun(a, c, m, i, s);
    IterateAdds(Stepper(a, c, m), i, n, s % m);
    var x := Run(a, c, i, s) % m;
    ModUnique(x, 0, x, m);
  }

  /** Every residue is one of any 2^k consecutive states. */
  lemma AllMet(a: int, c: int, k: nat, s: int, t: int) returns (n: nat)
    requires a % 4 == 1 && c % 2 == 1 && 0 <= t < Pow2(k)
    ensures n < Pow2(k) && States(a, c, Pow2(k), n, s) == t
  {
    var d: int;
    n, d := Meets(a, c, k, s, t);
    StatesAreRun(a, c, Pow2(k), n, s);
    ModUnique(Run(a, c, n, s), d, t, Pow2(k));
  }
}
