/**
 `last_sample` of tools/audio/ima_statistics.py: the last sample of an IMA ADPCM block, reconstructed
 with the reference series of shifts or with one multiplication.
 */
module Ima {
  import opened Bytes
  import opened Options

  const STEP: seq<nat> :=
    [7, 8, 9, 10, 11, 12, 13, 14, 16, 17, 19, 21, 23, 25, 28, 31] +
    [34, 37, 41, 45, 50, 55, 60, 66, 73, 80, 88, 97, 107, 118, 130, 143] +
    [157, 173, 190, 209, 230, 253, 279, 307, 337, 371, 408, 449, 494, 544, 598, 658] +
    [724, 796, 876, 963, 1060, 1166, 1282, 1411, 1552, 1707, 1878, 2066, 2272, 2499, 2749, 3024] +
    [3327, 3660, 4026, 4428, 4871, 5358, 5894, 6484, 7132, 7845, 8630, 9493, 10442, 11487, 12635, 13899] +
    [15289, 16818, 18500, 20350, 22385, 24623, 27086, 29794, 32767]

  const INDEX: seq<int> := [-1, -1, -1, -1, 2, 4, 6, 8]

  type Nibble = n: int | 0 <= n < 16
  type StepIndex = i: int | 0 <= i <= 88
  type Sample = p: int | -32768 <= p <= 32767

  function Clamp(lo: int, hi: int, x: int): int {
    if x < lo then lo else if x > hi then hi else x
  }

  /** The reference arithmetic adds the halved steps of the bits that are set. */
  function Series(nib: Nibble, step: nat): nat {
    step / 8
      + (if nib / 4 % 2 == 1 then step else 0)
      + (if nib / 2 % 2 == 1 then step / 2 else 0)
      + (if nib % 2 == 1 then step / 4 else 0)
  }

  function Product(nib: Nibble, step: nat): nat {
    (2 * (nib % 8) + 1) * step / 8
  }

  function Magnitude(multiply: bool, nib: Nibble, step: nat): nat {
    if multiply then Product(nib, step) else Series(nib, step)
  }

  /** The two roundings of one nibble: the series loses up to two units that the product keeps. */
  lemma MagnitudesDiffer(nib: Nibble, step: nat)
    ensures 0 <= Product(nib, step) - Series(nib, step) <= 2
  {
    var a, b, c := nib / 4 % 2 == 1, nib / 2 % 2 == 1, nib % 2 == 1;
    assert nib % 8 == (if a then 4 else 0) + (if b then 2 else 0) + (if c then 1 else 0);
    RoundingsDiffer(a, b, c, nib % 8, step);
  }

  lemma RoundingsDiffer(a: bool, b: bool, c: bool, k: nat, step: nat)
    requires k == (if a then 4 else 0) + (if b then 2 else 0) + (if c then 1 else 0)
    ensures var series := step / 8 + (if a then step else 0)
                          + (if b then step / 2 else 0) + (if c then step / 4 else 0);
            series <= (2 * k + 1) * step / 8 <= series + 2
  {
    WholeStep(a, k, step);
    var low := if a then k - 4 else k;
    if low < 2 {
      assert low == 0 || low == 1;
    } else {
      assert low == 2 || low == 3;
    }
  }

  /** Bit 2 stands for one whole step. */
  lemma WholeStep(a: bool, k: nat, step: nat)
    requires a ==> k >= 4
    ensures (2 * k + 1) * step / 8 == (if a then step else 0) + (2 * (if a then k - 4 else k) + 1) * step / 8
  {
    if a {
      assert (2 * k + 1) * step == 8 * step + (2 * (k - 4) + 1) * step;
    }
  }

  datatype Decoder = Decoder(p: Sample, ix: StepIndex)

  function Decode(multiply: bool, d: Decoder, nib: Nibble): Decoder {
    var diff := Magnitude(multiply, nib, STEP[d.ix]);
    Decoder(
      Clamp(-32768, 32767, if nib >= 8 then d.p - diff else d.p + diff),
      Clamp(0, 88, d.ix + INDEX[nib % 8]))
  }

  /** The decoder after the nibbles. */
  function Run(multiply: bool, d: Decoder, nibs: seq<Nibble>): Decoder {
    if nibs == [] then d
    else Decode(multiply, Run(multiply, d, nibs[..|nibs| - 1]), nibs[|nibs| - 1])
  }

  /** The low nibble of every byte, then its high one. */
  function Nibbles(data: Bytes): (nibs: seq<Nibble>)
    ensures |nibs| == 2 * |data|
  {
    if data == [] then []
    else Nibbles(data[..|data| - 1]) + [data[|data| - 1] % 16, data[|data| - 1] / 16]
  }

  /** The signed 16-bit field. */
  function Predictor(lo: Byte, hi: Byte): Sample {
    var v := lo + 256 * hi;
    if v >= 32768 then v - 65536 else v
  }

  /** A header's first byte is the low one: the sample is the number that the two bytes are modulo 2^16. */
  lemma PredictorIsLittleEndian(lo: Byte, hi: Byte, s: Sample)
    ensures s == Predictor(lo, hi) <==> s % 0x1_0000 == lo + 0x100 * hi
  {
  }

  /** Every byte gives two nibbles, its low half first. */
  lemma {:induction false} NibblesAt(data: Bytes, k: nat)
    requires k < |data|
    ensures data[k] == (Nibbles(data)[2 * k] as int) + 16 * (Nibbles(data)[2 * k + 1] as int)
  {
    if k < |data| - 1 {
      NibblesAt(data[..|data| - 1], k);
    }
  }

  /** The product is the step times a half more than the low three bits, divided by four and cut off. */
  lemma ProductIsFloor(nib: Nibble, step: nat)
    ensures 8 * Product(nib, step) <= (2 * (nib % 8) + 1) * step < 8 * Product(nib, step) + 8
  {
  }

  /** The sign bit of a nibble. */
  function Flipped(nib: Nibble): Nibble {
    if nib < 8 then nib + 8 else nib - 8
  }

  /** Where the new sample stands without a clamp. */
  function Moved(multiply: bool, d: Decoder, nib: Nibble): int {
    d.p + (if nib < 8 then 1 else -1) * Magnitude(multiply, nib, STEP[d.ix])
  }

  /** Nibbles below 8 raise the sample and those from 8 on lower it. */
  lemma DecodeMoves(multiply: bool, d: Decoder, nib: Nibble)
    ensures var p := Decode(multiply, d, nib).p;
            && (nib < 8 ==> p >= d.p) && (nib >= 8 ==> p <= d.p)
            && (-32768 <= Moved(multiply, d, nib) <= 32767 ==> p == Moved(multiply, d, nib))
  {
  }

  /** From the negated sample the nibble with the other sign leads to the negated sample, where nothing is cut off. */
  lemma DecodeMirrors(multiply: bool, d: Decoder, nib: Nibble)
    requires d.p > -32768 && -32768 < Moved(multiply, d, nib) <= 32767
    ensures var e := Decode(multiply, d, nib);
            Decode(multiply, Decoder(-d.p, d.ix), Flipped(nib)) == Decoder(-e.p, e.ix)
  {
    hide Magnitude;
    FlippedMagnitude(multiply, nib, STEP[d.ix]);
  }

  lemma FlippedMagnitude(multiply: bool, nib: Nibble, step: nat)
    ensures Magnitude(multiply, Flipped(nib), step) == Magnitude(multiply, nib, step) && Flipped(nib) % 8 == nib % 8
  {
    FlippedBits(nib);
    SameBits(nib, Flipped(nib), step);
  }

  lemma FlippedBits(nib: Nibble)
    ensures var n := Flipped(nib);
            n % 8 == nib % 8 && n / 4 % 2 == nib / 4 % 2 && n / 2 % 2 == nib / 2 % 2 && n % 2 == nib % 2
  {
    var low := if nib < 8 then nib else nib - 8;
    assert (low + 8) % 8 == low && (low + 8) / 4 == low / 4 + 2 && (low + 8) / 2 == low / 2 + 4;
  }

  lemma SameBits(nib: Nibble, n: Nibble, step: nat)
    requires n % 8 == nib % 8 && n / 4 % 2 == nib / 4 % 2 && n / 2 % 2 == nib / 2 % 2 && n % 2 == nib % 2
    ensures Product(n, step) == Product(nib, step) && Series(n, step) == Series(nib, step)
  {
  }

  /** The nibbles behind the four bytes of the header. */
  function BlockNibbles(block: Bytes): seq<Nibble> {
    if |block| <= 4 then [] else Nibbles(block[4..])
  }

  /** The code raises on a cut header, and on an index outside the table once it is used. */
  predicate IsDecodable(block: Bytes) {
    |block| >= 3 && (|block| > 4 ==> block[2] <= 88)
  }

  method LastSample(block: Bytes, multiply: bool) returns (r: Option<int>)
    ensures r.Some? <==> IsDecodable(block)
    ensures r.Some? && |block| <= 4 ==> r.value == Predictor(block[0], block[1])
    ensures r.Some? && |block| > 4 ==>
              r.value == Run(multiply, Decoder(Predictor(block[0], block[1]), block[2]), BlockNibbles(block)).p
  {
    if |block| < 3 {
      return None;
    }
    var p := Predictor(block[0], block[1]);
    if |block| <= 4 {
      return Some(p);
    }
    if block[2] > 88 {
      return None;
    }
    var last := DecodeBytes(block[4..], multiply, Decoder(p, block[2]));
    r := Some(last.p);
  }

  method DecodeBytes(data: Bytes, multiply: bool, first: Decoder) returns (d: Decoder)
    ensures d == Run(multiply, first, Nibbles(data))
  {
    d := first;
    var i := 0;
    while i < |data|
      invariant 0 <= i <= |data|
      invariant d == Run(multiply, first, Nibbles(data[..i]))
    {
      RunByte(multiply, first, data, i);
      d := DecodeNibble(d, data[i] % 16, multiply);
      d := DecodeNibble(d, data[i] / 16, multiply);
      i := i + 1;
    }
    assert data[..i] == data;
  }

  lemma RunOnce(multiply: bool, d: Decoder, nibs: seq<Nibble>, nib: Nibble)
    ensures Run(multiply, d, nibs + [nib]) == Decode(multiply, Run(multiply, d, nibs), nib)
  {
    assert (nibs + [nib])[..|nibs|] == nibs;
  }

  /** One byte more is two nibbles more. */
  lemma RunByte(multiply: bool, first: Decoder, data: Bytes, i: nat)
    requires i < |data|
    ensures Run(multiply, first, Nibbles(data[..i + 1]))
         == Decode(multiply, Decode(multiply, Run(multiply, first, Nibbles(data[..i])), data[i] % 16), data[i] / 16)
  {
    var before := Nibbles(data[..i]);
    NibblesOfByte(data, i);
    RunOnce(multiply, first, before, data[i] % 16);
    RunOnce(multiply, first, before + [data[i] % 16], data[i] / 16);
  }

  lemma NibblesOfByte(data: Bytes, i: nat)
    requires i < |data|
    ensures Nibbles(data[..i + 1]) == Nibbles(data[..i]) + [data[i] % 16] + [data[i] / 16]
  {
    assert data[..i + 1][..i] == data[..i];
  }

  /** The inner loop: both arithmetics as they are written. */
  method DecodeNibble(d: Decoder, nib: Nibble, multiply: bool) returns (e: Decoder)
    ensures e == Decode(multiply, d, nib)
  {
    var p: int, ix: int := d.p, d.ix;
    var step := STEP[ix];
    var diff;
    if multiply {
      diff := (2 * (nib % 8) + 1) * step / 8;
    } else {
      diff := step / 8;
      if nib / 4 % 2 == 1 { diff := diff + step; }
      if nib / 2 % 2 == 1 { diff := diff + step / 2; }
      if nib % 2 == 1 { diff := diff + step / 4; }
    }
    p := if nib >= 8 then p - diff else p + diff;
    p := Clamp(-32768, 32767, p);
    ix := Clamp(0, 88, ix + INDEX[nib % 8]);
    e := Decoder(p, ix);
  }

  // ----- the two arithmetics side by side

  /** Both follow the same step sizes, whatever samples they have reached. */
  lemma {:induction false} SameTrajectory(d: Decoder, e: Decoder, nibs: seq<Nibble>)
    requires d.ix == e.ix
    ensures Run(true, d, nibs).ix == Run(false, e, nibs).ix
  {
    if nibs != [] {
      SameTrajectory(d, e, nibs[..|nibs| - 1]);
    }
  }

  function Gap(x: int, y: int): nat {
    if x < y then y - x else x - y
  }

  /** Clamping brings no two numbers further apart. */
  lemma ClampIsTame(lo: int, hi: int, x: int, y: int)
    requires lo <= hi
    ensures Gap(Clamp(lo, hi, x), Clamp(lo, hi, y)) <= Gap(x, y)
  {
  }

  /** One nibble adds at most two to the distance. */
  lemma GapGrows(d: Decoder, e: Decoder, nib: Nibble)
    requires d.ix == e.ix
    ensures Gap(Decode(true, d, nib).p, Decode(false, e, nib).p) <= Gap(d.p, e.p) + 2
  {
    var step := STEP[d.ix];
    MagnitudesDiffer(nib, step);
    StepsDiffer(d.p, e.p, nib, Product(nib, step), Series(nib, step));
  }

  lemma StepsDiffer(p: int, q: int, nib: Nibble, a: nat, b: nat)
    requires 0 <= a - b <= 2
    ensures var x, y := if nib >= 8 then p - a else p + a, if nib >= 8 then q - b else q + b;
            Gap(Clamp(-32768, 32767, x), Clamp(-32768, 32767, y)) <= Gap(p, q) + 2
  {
    var x, y := if nib >= 8 then p - a else p + a, if nib >= 8 then q - b else q + b;
    ClampIsTame(-32768, 32767, x, y);
  }

  /** From one start the two arithmetics end within two units per nibble of one another. */
  lemma {:induction false} SamplesStayClose(d: Decoder, nibs: seq<Nibble>)
    ensures Gap(Run(true, d, nibs).p, Run(false, d, nibs).p) <= 2 * |nibs|
  {
    if nibs != [] {
      var front := nibs[..|nibs| - 1];
      SamplesStayClose(d, front);
      SameTrajectory(d, d, front);
      GapGrows(Run(true, d, front), Run(false, d, front), nibs[|nibs| - 1]);
    }
  }

  /** For every block that decodes at all, within four units per byte behind the header. */
  lemma LastSamplesStayClose(block: Bytes, d: Decoder)
    requires |block| > 4 && block[2] <= 88 && d == Decoder(Predictor(block[0], block[1]), block[2])
    ensures Run(true, d, BlockNibbles(block)).ix == Run(false, d, BlockNibbles(block)).ix
    ensures Gap(Run(true, d, BlockNibbles(block)).p, Run(false, d, BlockNibbles(block)).p) <= 4 * (|block| - 4)
  {
    SameTrajectory(d, d, BlockNibbles(block));
    SamplesStayClose(d, BlockNibbles(block));
  }

  /** The bound is attained: at the smallest step, threes part the two by two units each. */
  lemma {:induction false} BoundIsAttained(nibs: seq<Nibble>)
    requires |nibs| <= 5000 && forall k :: 0 <= k < |nibs| ==> nibs[k] == 3
    ensures Run(true, Decoder(0, 0), nibs) == Decoder(6 * |nibs|, 0)
    ensures Run(false, Decoder(0, 0), nibs) == Decoder(4 * |nibs|, 0)
  {
    if nibs != [] {
      BoundIsAttained(nibs[..|nibs| - 1]);
      assert STEP[0] == 7 && INDEX[3] == -1;
    }
  }
}
