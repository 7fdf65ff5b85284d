/** Byte strings, their little-endian integers, and 16-digit hexadecimal names. */
module Bytes {

  type Byte = b: int | 0 <= b < 256

  type Bytes = seq<Byte>

  function Pow256(n: nat): (p: nat)
    ensures p >= 1
  {
    if n == 0 then 1 else 256 * Pow256(n - 1)
  }

  /** `struct.pack("<…")` of an unsigned field of n bytes. */
  function Pack(v: nat, n: nat): (s: Bytes)
    ensures |s| == n
  {
    if n == 0 then [] else [v % 256] + Pack(v / 256, n - 1)
  }

  /** `struct.unpack_from("<…")` of an unsigned field. */
  function Unpack(s: Bytes): nat {
    if s == [] then 0 else s[0] + 256 * Unpack(s[1..])
  }

  lemma {:induction false} UnpackPack(v: nat, n: nat)
    requires v < Pow256(n)
    ensures Unpack(Pack(v, n)) == v
  {
    if n > 0 {
      UnpackPack(v / 256, n - 1);
      assert Pack(v, n)[1..] == Pack(v / 256, n - 1);
    }
  }

  lemma {:induction false} PackUnpack(s: Bytes)
    ensures Unpack(s) < Pow256(|s|) && Pack(Unpack(s), |s|) == s
  {
    if s != [] {
      PackUnpack(s[1..]);
      assert Unpack(s) % 256 == s[0] && Unpack(s) / 256 == Unpack(s[1..]);
      assert s == [s[0]] + s[1..];
    }
  }

  /** The field of n bytes at pos. */
  function Field(data: Bytes, pos: nat, n: nat): nat
    requires pos + n <= |data|
  {
    Unpack(data[pos..pos + n])
  }

  // ----- hexadecimal

  predicate IsDigit(c: char) {
    '0' <= c <= '9' || 'a' <= c <= 'f'
  }

  function Digit(d: nat): (c: char)
    requires d < 16
    ensures IsDigit(c) && DigitValue(c) == d
  {
    if d < 10 then '0' + d as char else 'a' + (d - 10) as char
  }

  function DigitValue(c: char): (d: nat)
    ensures d < 16
  {
    if '0' <= c <= '9' then c as int - '0' as int
    else if 'a' <= c <= 'f' then c as int - 'a' as int + 10
    else 0
  }

  lemma DigitOfValue(c: char)
    requires IsDigit(c)
    ensures Digit(DigitValue(c)) == c
  {
  }

  /** `"%0<n>x" % v` for a v of at most n digits. */
  function Hex(v: nat, n: nat): (s: string)
    ensures |s| == n
  {
    if n == 0 then "" else Hex(v / 16, n - 1) + [Digit(v % 16)]
  }

  predicate IsHex(s: string) {
    forall k :: 0 <= k < |s| ==> IsDigit(s[k])
  }

  /** `int(s, 16)` */
  function HexValue(s: string): nat {
    if s == "" then 0 else 16 * HexValue(s[..|s| - 1]) + DigitValue(s[|s| - 1])
  }

  function Pow16(n: nat): (p: nat)
    ensures p >= 1
  {
    if n == 0 then 1 else 16 * Pow16(n - 1)
  }

  lemma LastDigit(v: nat, d: nat)
    requires d < 16
    ensures (16 * v + d) / 16 == v && (16 * v + d) % 16 == d
  {
  }

  lemma HexAppend(v: nat, d: nat, n: nat)
    requires d < 16
    ensures Hex(16 * v + d, n + 1) == Hex(v, n) + [Digit(d)]
  {
    LastDigit(v, d);
  }

  lemma HexSplit(s: string)
    requires s != ""
    ensures HexValue(s) == 16 * HexValue(s[..|s| - 1]) + DigitValue(s[|s| - 1])
  {
  }

  lemma DigitsJoin(s: string, v: nat, d: nat, c: char, w: nat, n: nat)
    requires s != "" && |s| == n + 1 && s[n] == c && IsDigit(c) && d == DigitValue(c)
    requires Hex(v, n) == s[..n] && w == 16 * v + d
    ensures Hex(w, n + 1) == s
  {
    DigitOfValue(c);
    HexAppend(v, d, n);
    assert s == s[..n] + [c];
  }

  lemma {:induction false} HexOfValue(s: string)
    requires IsHex(s)
    ensures Hex(HexValue(s), |s|) == s
  {
    if s == "" {
      assert Hex(HexValue(s), 0) == "";
    } else {
      var n := |s| - 1;
      HexOfValue(s[..n]);
      HexSplit(s);
      DigitsJoin(s, HexValue(s[..n]), DigitValue(s[n]), s[n], HexValue(s), n);
    }
  }

  lemma {:induction false} HexValueFits(s: string)
    ensures HexValue(s) < Pow16(|s|)
  {
    if s != "" {
      HexValueFits(s[..|s| - 1]);
    }
  }

  /** Sixteen hexadecimal digits fill eight bytes. */
  lemma SixteenDigits()
    ensures Pow16(16) == Pow256(8)
  {
    assert Pow16(4) == 0x10000 && Pow256(2) == 0x10000;
    assert Pow16(8) == 0x1_0000_0000 && Pow256(4) == 0x1_0000_0000;
    assert Pow16(12) == 0x1_0000_0000_0000 && Pow256(6) == 0x1_0000_0000_0000;
  }
}
