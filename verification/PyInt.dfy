/**
 Python integers: unbounded, with the bitwise operators acting on an infinite two's complement.
 Dafny's `/ 2` and `% 2` floor, so halving any integer drops its lowest bit.
 */
module PyInt {

  function Max(x: int, y: int): int {
    if x < y then y else x
  }

  function Min(x: int, y: int): int {
    if x < y then x else y
  }

  datatype BitOp = And | Or | Xor

  function Pow2(n: nat): (p: nat)
    ensures p >= 1
  {
    if n == 0 then 1 else 2 * Pow2(n - 1)
  }

  function LowBit(op: BitOp, p: int, q: int): (r: int)
    ensures r == 0 || r == 1
  {
    match op
    case And => if p == 1 && q == 1 then 1 else 0
    case Or => if p == 1 || q == 1 then 1 else 0
    case Xor => if p != q then 1 else 0
  }

  /** All bits of an integer agree exactly when it is 0 or -1. */
  predicate IsSign(x: int) {
    x == 0 || x == -1
  }

  function Distance(x: int): nat {
    if x >= 0 then x else -1 - x
  }

  /** `x & y`, `x | y`, `x ^ y` of any two integers, negative ones included. */
  function Bitwise(op: BitOp, x: int, y: int): int
    decreases Distance(x) + Distance(y)
  {
    if IsSign(x) && IsSign(y) then
      -LowBit(op, x % 2, y % 2)
    else
      LowBit(op, x % 2, y % 2) + 2 * Bitwise(op, x / 2, y / 2)
  }

  /** The recursion equation holds at the sign words too. */
  lemma BitwiseUnfold(op: BitOp, x: int, y: int)
    ensures Bitwise(op, x, y) == LowBit(op, x % 2, y % 2) + 2 * Bitwise(op, x / 2, y / 2)
  {
    if IsSign(x) && IsSign(y) {
      assert x / 2 == x && y / 2 == y;
    }
  }

  /** The operators on words given as a low bit and a rest. */
  lemma BitwiseCons(op: BitOp, p: int, x: int, q: int, y: int)
    requires 0 <= p < 2 && 0 <= q < 2
    ensures Bitwise(op, p + 2 * x, q + 2 * y) == LowBit(op, p, q) + 2 * Bitwise(op, x, y)
  {
    BitwiseUnfold(op, p + 2 * x, q + 2 * y);
  }

  lemma {:induction false} OrZero(x: int)
    ensures Bitwise(Or, 0, x) == x && Bitwise(Or, x, 0) == x
    decreases Distance(x)
  {
    if !IsSign(x) {
      OrZero(x / 2);
    }
  }

  lemma {:induction false} AndZero(x: int)
    ensures Bitwise(And, 0, x) == 0
    decreases Distance(x)
  {
    if !IsSign(x) {
      AndZero(x / 2);
    }
  }

  /** `x.bit_count()` of a non-negative integer. */
  function BitCount(x: nat): nat {
    if x == 0 then 0 else x % 2 + BitCount(x / 2)
  }

  lemma {:induction false} Pow2Add(m: nat, n: nat)
    ensures Pow2(m + n) == Pow2(m) * Pow2(n)
  {
    if m > 0 {
      Pow2Add(m - 1, n);
      assert Pow2(m) * Pow2(n) == 2 * (Pow2(m - 1) * Pow2(n));
    }
  }
}
