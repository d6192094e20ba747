/**
 What the PCM16 downsampler computes: little-endian 32-bit samples, averaged in
 pairs, shifted, clamped and written as little-endian 16-bit samples.
 */
module DownsamplerModel {
  import opened Common

  const SAMPLE_BYTES: nat := 4
  const HALF_32: int := 0x8000_0000
  const MIN_16: int := -0x8000
  const MAX_16: int := 0x7fff

  /** A 32-bit signed sample from its four bytes, least significant first. */
  function Sample(b0: Byte, b1: Byte, b2: Byte, b3: Byte): (r: int)
    ensures -HALF_32 <= r < HALF_32
  {
    var raw: int := b0 + 0x100 * b1 + 0x1_0000 * b2 + 0x100_0000 * b3;
    if raw < HALF_32 then raw else raw - WORD_32
  }

  function SampleAt(bytes: seq<Byte>, i: nat): (r: int)
    requires SAMPLE_BYTES * i + SAMPLE_BYTES <= |bytes|
    ensures -HALF_32 <= r < HALF_32
  {
    Sample(bytes[4 * i], bytes[4 * i + 1], bytes[4 * i + 2], bytes[4 * i + 3])
  }

  /** Division by two, truncating toward zero. */
  function Half(x: int): int {
    if x >= 0 then x / 2 else -((-x) / 2)
  }

  /** An arithmetic right shift: each place halves, rounding down. */
  function ShiftRight(x: int, shift: nat): int
    decreases shift
  {
    if shift == 0 then x else ShiftRight(x / 2, shift - 1)
  }

  function Clamp16(x: int): (r: int)
    ensures MIN_16 <= r <= MAX_16
  {
    if x < MIN_16 then MIN_16 else if x > MAX_16 then MAX_16 else x
  }

  function ToPcm16(average: int, shift: nat): (r: int)
    ensures MIN_16 <= r <= MAX_16
  {
    Clamp16(ShiftRight(average, shift))
  }

  function LowByte(sample: int): Byte {
    sample % 0x100
  }

  function HighByte(sample: int): Byte {
    (sample / 0x100) % 0x100
  }

  /** The 16-bit sample of the `p`th pair of source samples. */
  function PcmAt(shift: nat, bytes: seq<Byte>, p: nat): (r: int)
    requires 8 * p + 8 <= |bytes|
    ensures MIN_16 <= r <= MAX_16
  {
    ToPcm16(Half(SampleAt(bytes, 2 * p) + SampleAt(bytes, 2 * p + 1)), shift)
  }

  /** The output of the first `n` pairs: two bytes each, the low one first. */
  function OutputOf(shift: nat, bytes: seq<Byte>, n: nat): (r: seq<Byte>)
    requires 8 * n <= |bytes|
    ensures |r| == 2 * n
  {
    if n == 0 then []
    else
      var pcm := PcmAt(shift, bytes, n - 1);
      OutputOf(shift, bytes, n - 1) + [LowByte(pcm), HighByte(pcm)]
  }

  /** All the output that a source allows. */
  function Output(shift: nat, bytes: seq<Byte>): (r: seq<Byte>)
    ensures |r| == 2 * (|bytes| / 8)
  {
    OutputOf(shift, bytes, |bytes| / 8)
  }

  lemma OutputOfNext(shift: nat, bytes: seq<Byte>, n: nat)
    requires 8 * n + 8 <= |bytes|
    ensures OutputOf(shift, bytes, n + 1)
         == OutputOf(shift, bytes, n) + [LowByte(PcmAt(shift, bytes, n)), HighByte(PcmAt(shift, bytes, n))]
  {
  }

  lemma OutputIsWhole(shift: nat, bytes: seq<Byte>, n: nat)
    requires |bytes| / 8 == n
    ensures Output(shift, bytes) == OutputOf(shift, bytes, n)
  {
  }

  /** Each pair has its own two bytes. */
  lemma {:induction false} OutputAt(shift: nat, bytes: seq<Byte>, n: nat, p: nat)
    requires p < n && 8 * n <= |bytes|
    ensures OutputOf(shift, bytes, n)[2 * p..2 * p + 2]
            == [LowByte(PcmAt(shift, bytes, p)), HighByte(PcmAt(shift, bytes, p))]
  {
    hide PcmAt, LowByte, HighByte;
    if p == n - 1 {
    } else {
      OutputAt(shift, bytes, n - 1, p);
    }
  }

  /** The output of the first pairs does not depend on what follows them. */
  lemma {:induction false} OutputOfGrown(shift: nat, bytes: seq<Byte>, longer: seq<Byte>, n: nat)
    requires 8 * n <= |bytes| && bytes <= longer
    ensures OutputOf(shift, bytes, n) == OutputOf(shift, longer, n)
  {
    hide ToPcm16, Half, Sample, LowByte, HighByte;
    if n == 0 {
    } else {
      OutputOfGrown(shift, bytes, longer, n - 1);
      assert forall i :: 0 <= i < |bytes| ==> longer[i] == bytes[i];
    }
  }

  lemma {:induction false} OutputOfPrefix(shift: nat, bytes: seq<Byte>, m: nat, n: nat)
    requires m <= n && 8 * n <= |bytes|
    ensures OutputOf(shift, bytes, m) <= OutputOf(shift, bytes, n)
  {
    if m == n {
    } else {
      OutputOfPrefix(shift, bytes, m, n - 1);
    }
  }

  /** More source only adds to the output. */
  lemma OutputGrows(shift: nat, bytes: seq<Byte>, more: seq<Byte>)
    ensures Output(shift, bytes) <= Output(shift, bytes + more)
  {
    OutputOfGrown(shift, bytes, bytes + more, |bytes| / 8);
    OutputOfPrefix(shift, bytes + more, |bytes| / 8, |bytes + more| / 8);
  }

  /** Each place shifted takes one bit off the range. */
  lemma {:induction false} ShiftNarrows(x: int, shift: nat, bits: nat)
    requires shift <= bits && 0 - Pow2(bits) <= x < Pow2(bits)
    ensures 0 - Pow2(bits - shift) <= ShiftRight(x, shift) < Pow2(bits - shift)
    decreases shift
  {
    if shift == 0 {
    } else {
      ShiftNarrows(x / 2, shift - 1, bits - 1);
    }
  }

  lemma {:induction false} ShiftKeepsSmall(x: int, shift: nat)
    requires MIN_16 <= x <= MAX_16
    ensures MIN_16 <= ShiftRight(x, shift) <= MAX_16
    decreases shift
  {
    if shift == 0 {
    } else {
      ShiftKeepsSmall(x / 2, shift - 1);
    }
  }

  lemma {:induction false} ShiftInTwo(x: int, a: nat, b: nat)
    ensures ShiftRight(x, a + b) == ShiftRight(ShiftRight(x, a), b)
    decreases a
  {
    if a == 0 {
    } else {
      ShiftInTwo(x / 2, a - 1, b);
    }
  }

  lemma {:induction false} ShiftKeepsLarge(x: int, shift: nat, bits: nat)
    requires shift <= bits && x >= Pow2(bits)
    ensures ShiftRight(x, shift) >= Pow2(bits - shift)
    decreases shift
  {
    if shift == 0 {
    } else {
      ShiftKeepsLarge(x / 2, shift - 1, bits - 1);
    }
  }

  lemma PowersHere()
    ensures Pow2(15) == 0x8000 && Pow2(30) == 0x4000_0000 && Pow2(31) == HALF_32
  {
    assert Pow2(5) == 32 && Pow2(10) == 1024 && Pow2(15) == 0x8000;
    assert Pow2(20) == 0x10_0000 && Pow2(25) == 0x200_0000 && Pow2(30) == 0x4000_0000;
  }

  /** From a shift of 16 on, no average of two 32-bit samples is ever clamped. */
  lemma ClampIsIdle(a: int, b: int, shift: nat)
    requires -HALF_32 <= a < HALF_32 && -HALF_32 <= b < HALF_32 && shift >= 16
    ensures ToPcm16(Half(a + b), shift) == ShiftRight(Half(a + b), shift)
  {
    hide ShiftRight, Pow2;
    PowersHere();
    var x := Half(a + b);
    ShiftNarrows(x, 16, 31);
    ShiftInTwo(x, 16, shift - 16);
    ShiftKeepsSmall(ShiftRight(x, 16), shift - 16);
  }

  /** Below a shift of 16, some pair is clamped. */
  lemma ClampIsNeededBelow(shift: nat)
    requires shift < 16
    ensures ToPcm16(Half(HALF_32 - 1 + HALF_32 - 1), shift) != ShiftRight(Half(HALF_32 - 1 + HALF_32 - 1), shift)
  {
    hide ShiftRight, Pow2;
    PowersHere();
    ShiftKeepsLarge(HALF_32 - 1, shift, 30);
    Pow2Grows(15, 30 - shift);
  }

  /** The two bytes written for a sample read back as that sample. */
  lemma BytesKeepTheSample(sample: int)
    requires MIN_16 <= sample <= MAX_16
    ensures var word := LowByte(sample) as int + 0x100 * HighByte(sample) as int;
      sample == if word < 0x8000 then word else word - 0x1_0000
  {
  }

  // ------------------------------------------------ what the steps are worth

  /** The four bytes of a 32-bit integer, least significant first, in two's complement. */
  predicate SpellsSample(bytes: seq<Byte>, s: int) {
    && -HALF_32 <= s < HALF_32
    && bytes == [s % 0x100, (s / 0x100) % 0x100, (s / 0x1_0000) % 0x100, (s / 0x100_0000) % 0x100]
  }

  /** Every 32-bit integer is what its four bytes are read as. */
  lemma SampleIsSpelled(bytes: seq<Byte>, s: int)
    requires SpellsSample(bytes, s)
    ensures Sample(bytes[0], bytes[1], bytes[2], bytes[3]) == s
  {
    var a, b, c := s / 0x100, s / 0x1_0000, s / 0x100_0000;
    assert s == 0x100 * a + bytes[0] && a == 0x100 * b + bytes[1] && b == 0x100 * c + bytes[2];
    assert -0x80 <= c < 0x80;
  }

  lemma SampleAtIsSpelled(bytes: seq<Byte>, i: nat, s: int)
    requires 4 * i + 4 <= |bytes| && SpellsSample(bytes[4 * i..4 * i + 4], s)
    ensures SampleAt(bytes, i) == s
  {
    hide SpellsSample, Sample;
    SampleIsSpelled(bytes[4 * i..4 * i + 4], s);
  }

  /** `m` is half of `sum`, without its fraction. */
  predicate IsHalfOf(m: int, sum: int) {
    if sum >= 0 then 2 * m <= sum < 2 * (m + 1) else 2 * (m - 1) < sum <= 2 * m
  }

  /** `d` is the greatest integer that 2 to the `shift` times fits into `m`. */
  predicate IsShiftOf(d: int, m: int, shift: nat) {
    d * Pow2(shift) <= m < (d + 1) * Pow2(shift)
  }

  /** `q` is the 16-bit integer closest to `d`. */
  predicate IsClosest(q: int, d: int) {
    && MIN_16 <= q <= MAX_16
    && (MIN_16 <= d <= MAX_16 ==> q == d) && (d > MAX_16 ==> q == MAX_16) && (d < MIN_16 ==> q == MIN_16)
  }

  /** The two bytes of a 16-bit integer, the low one first. */
  predicate SpellsPcm(bytes: seq<Byte>, q: int) {
    && |bytes| == 2
    && q == bytes[0] as int + 0x100 * bytes[1] as int - if bytes[1] < 0x80 then 0 else 0x1_0000
  }

  lemma {:induction false} ShiftRightRoundsDown(x: int, shift: nat)
    ensures IsShiftOf(ShiftRight(x, shift), x, shift)
    decreases shift
  {
    if shift == 0 {
    } else {
      var d := ShiftRight(x / 2, shift - 1);
      ShiftRightRoundsDown(x / 2, shift - 1);
      assert d * Pow2(shift) == 2 * (d * Pow2(shift - 1));
      assert (d + 1) * Pow2(shift) == 2 * ((d + 1) * Pow2(shift - 1));
    }
  }

  /**
   The output in terms of integers: where the source spells two samples in a row,
   the output spells their mean without its fraction, shifted down and rounded
   down, or the closest 16-bit integer to that.
   */
  lemma OutputIsShiftedMean(shift: nat, bytes: seq<Byte>, n: nat, p: nat, a: int, b: int)
    requires p < n && 8 * n <= |bytes|
    requires SpellsSample(bytes[8 * p..8 * p + 4], a) && SpellsSample(bytes[8 * p + 4..8 * p + 8], b)
    ensures exists m, d, q :: IsHalfOf(m, a + b) && IsShiftOf(d, m, shift) && IsClosest(q, d)
                              && SpellsPcm(OutputOf(shift, bytes, n)[2 * p..2 * p + 2], q)
  {
    hide OutputOf, ShiftRight, IsShiftOf, SpellsSample, Sample, SampleAt, Half, IsHalfOf, LowByte, HighByte, SpellsPcm,
      Pow2;
    SampleAtIsSpelled(bytes, 2 * p, a);
    SampleAtIsSpelled(bytes, 2 * p + 1, b);
    var m := Half(a + b);
    var d, q := ShiftRight(m, shift), PcmAt(shift, bytes, p);
    HalfIsHalf(a + b);
    ShiftRightRoundsDown(m, shift);
    OutputAt(shift, bytes, n, p);
    BytesSpellTheSample(q);
    assert IsClosest(q, d);
  }

  lemma HalfIsHalf(sum: int)
    ensures IsHalfOf(Half(sum), sum)
  {
  }

  lemma BytesSpellTheSample(q: int)
    requires MIN_16 <= q <= MAX_16
    ensures SpellsPcm([LowByte(q), HighByte(q)], q)
  {
  }

  /** There is only one such output. */
  lemma ShiftedMeanIsUnique(shift: nat, sum: int, m: int, d: int, q: int, m2: int, d2: int, q2: int,
                            bytes: seq<Byte>, bytes2: seq<Byte>)
    requires IsHalfOf(m, sum) && IsShiftOf(d, m, shift) && IsClosest(q, d) && SpellsPcm(bytes, q)
    requires IsHalfOf(m2, sum) && IsShiftOf(d2, m2, shift) && IsClosest(q2, d2) && SpellsPcm(bytes2, q2)
    ensures bytes == bytes2
  {
    hide Pow2;
    assert m == m2;
    FloorIsUnique(d, d2, m, Pow2(shift));
  }

  lemma FloorIsUnique(d: int, d2: int, m: int, unit: nat)
    requires unit > 0 && d * unit <= m < (d + 1) * unit && d2 * unit <= m < (d2 + 1) * unit
    ensures d == d2
  {
    ProductsGrow(d + 1, d2, unit);
    ProductsGrow(d2 + 1, d, unit);
  }
}
