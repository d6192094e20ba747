/**
 What the latency histogram of the bus test means: buckets count samples between
 increasing bounds, and a percentile is read off the running sum of the buckets.
 */
module LatencyModel {
  import opened Common

  const TARGET_US: int := 10000
  const MAX_MEASURED_US: int := 1000000

  /** The upper bounds of all buckets but the last, in microseconds. */
  function Bounds(): (r: seq<int>)
    ensures |r| == 17 && r[0] == 500 && (forall i :: 1 <= i <= 10 ==> r[i] == 1000 * i)
    ensures r[11] == 12000 && r[12] == 15000 && r[13] == 20000 && r[14] == 30000 && r[15] == 50000 && r[16] == 100000
  {
    [500, 1000, 2000, 3000, 4000, 5000, 6000, 7000, 8000, 9000, 10000, 12000, 15000, 20000, 30000, 50000, 100000]
  }

  predicate Increasing(bounds: seq<int>) {
    forall i, j :: 0 <= i < j < |bounds| ==> bounds[i] < bounds[j]
  }

  lemma BoundsIncrease()
    ensures Increasing(Bounds())
  {
  }

  /** The first bucket from `i` on whose bound is not exceeded. */
  function BucketFrom(bounds: seq<int>, x: int, i: nat): (k: nat)
    requires i <= |bounds|
    ensures i <= k <= |bounds| && (k < |bounds| ==> x <= bounds[k]) && forall j :: i <= j < k ==> x > bounds[j]
    decreases |bounds| - i
  {
    if i < |bounds| && x > bounds[i] then BucketFrom(bounds, x, i + 1) else i
  }

  /** How many samples each bucket holds. */
  function Buckets(bounds: seq<int>, samples: seq<int>): (r: seq<nat>)
    ensures |r| == |bounds| + 1
  {
    if samples == [] then seq(|bounds| + 1, _ => 0)
    else
      var before := Buckets(bounds, samples[..|samples| - 1]);
      var k := BucketFrom(bounds, samples[|samples| - 1], 0);
      before[k := before[k] + 1]
  }

  function SumTo(buckets: seq<nat>, n: nat): nat
    requires n <= |buckets|
  {
    if n == 0 then 0 else SumTo(buckets, n - 1) + buckets[n - 1]
  }

  function CountAtMost(samples: seq<int>, v: int): nat {
    if samples == [] then 0
    else CountAtMost(samples[..|samples| - 1], v) + (if samples[|samples| - 1] <= v then 1 else 0)
  }

  function CountBelow(samples: seq<int>, v: int): nat {
    CountAtMost(samples, v - 1)
  }

  function Max(samples: seq<int>): (m: int)
    requires samples != []
    ensures m in samples && forall i :: 0 <= i < |samples| ==> samples[i] <= m
  {
    assert samples == samples[..|samples| - 1] + [samples[|samples| - 1]];
    if |samples| == 1 then samples[0]
    else
      var before := Max(samples[..|samples| - 1]);
      if samples[|samples| - 1] > before then samples[|samples| - 1] else before
  }

  function Total(samples: seq<int>): int {
    if samples == [] then 0 else Total(samples[..|samples| - 1]) + samples[|samples| - 1]
  }

  /** One more sample: in its bucket, in the counts, the total and the maximum. */
  lemma BucketsOneMore(bounds: seq<int>, samples: seq<int>, x: int)
    ensures Buckets(bounds, samples + [x])
         == (var k := BucketFrom(bounds, x, 0); var b := Buckets(bounds, samples); b[k := b[k] + 1])
  {
    assert (samples + [x])[..|samples|] == samples;
  }

  lemma CountOneMore(samples: seq<int>, x: int, v: int)
    ensures CountAtMost(samples + [x], v) == CountAtMost(samples, v) + (if x <= v then 1 else 0)
  {
    assert (samples + [x])[..|samples|] == samples;
  }

  lemma TotalOneMore(samples: seq<int>, x: int)
    ensures Total(samples + [x]) == Total(samples) + x
  {
    assert (samples + [x])[..|samples|] == samples;
  }

  lemma MaxOneMore(samples: seq<int>, x: int)
    ensures Max(samples + [x]) == if samples == [] || x > Max(samples) then x else Max(samples)
  {
    assert (samples + [x])[..|samples|] == samples;
  }

  lemma {:induction false} SumToGrows(buckets: seq<nat>, m: nat, n: nat)
    requires m <= n <= |buckets|
    ensures SumTo(buckets, m) <= SumTo(buckets, n)
  {
    if m == n {
    } else {
      SumToGrows(buckets, m, n - 1);
    }
  }

  lemma {:induction false} SumToUpdate(buckets: seq<nat>, k: nat, n: nat)
    requires k < |buckets| && n <= |buckets|
    ensures SumTo(buckets[k := buckets[k] + 1], n) == SumTo(buckets, n) + (if k < n then 1 else 0)
  {
    if n == 0 {
    } else {
      SumToUpdate(buckets, k, n - 1);
    }
  }

  lemma {:induction false} SumToZeros(buckets: seq<nat>, n: nat)
    requires n <= |buckets| && forall i :: 0 <= i < |buckets| ==> buckets[i] == 0
    ensures SumTo(buckets, n) == 0
  {
    if n == 0 {
    } else {
      SumToZeros(buckets, n - 1);
    }
  }

  /** The buckets up to a bound hold exactly the samples that do not exceed it; all of them hold all samples. */
  lemma {:induction false} SumIsCount(bounds: seq<int>, samples: seq<int>, n: nat)
    requires Increasing(bounds) && n <= |bounds| + 1
    ensures SumTo(Buckets(bounds, samples), n)
         == if n == 0 then 0 else if n == |bounds| + 1 then |samples| else CountAtMost(samples, bounds[n - 1])
  {
    if samples == [] {
      SumToZeros(Buckets(bounds, samples), n);
    } else {
      var before, x := samples[..|samples| - 1], samples[|samples| - 1];
      SumIsCount(bounds, before, n);
      var k := BucketFrom(bounds, x, 0);
      SumToUpdate(Buckets(bounds, before), k, n);
    }
  }

  /** No bucket holds more than all samples. */
  lemma BucketFits(bounds: seq<int>, samples: seq<int>, i: nat)
    requires Increasing(bounds) && i <= |bounds|
    ensures Buckets(bounds, samples)[i] <= SumTo(Buckets(bounds, samples), i + 1) <= |samples|
  {
    SumIsCount(bounds, samples, |bounds| + 1);
    SumToGrows(Buckets(bounds, samples), i + 1, |bounds| + 1);
  }

  // ------------------------------------------------------------ percentiles

  /** A hundredth, rounded up to a whole 32-bit number, at least 1. */
  function RankOf(product: nat): nat {
    var rank := ((product + 99) / 100) % WORD_32;
    if rank == 0 then 1 else rank
  }

  /** The nearest rank of a percentile. */
  function Rank(n: nat, p: nat): nat {
    RankOf(n * p)
  }

  /** `x` is a sample, and the `rank`th smallest one. */
  predicate IsNearestRank(samples: seq<int>, rank: nat, x: int) {
    x in samples && CountBelow(samples, x) < rank <= CountAtMost(samples, x)
  }

  /** The first bucket from `i` on where the running sum reaches the rank. */
  function RankBucket(buckets: seq<nat>, rank: nat, i: nat): (k: nat)
    requires i < |buckets|
    ensures i <= k < |buckets|
    ensures k + 1 < |buckets| ==> SumTo(buckets, k + 1) >= rank
    ensures forall j :: i < j <= k ==> SumTo(buckets, j) < rank
    decreases |buckets| - i
  {
    if i + 1 < |buckets| && SumTo(buckets, i + 1) < rank then RankBucket(buckets, rank, i + 1) else i
  }

  /** The bound of that bucket, or the maximum when it is the last, which has no bound. */
  function Percentile(bounds: seq<int>, samples: seq<int>, p: nat): int {
    if samples == [] then 0
    else
      var k := RankBucket(Buckets(bounds, samples), Rank(|samples|, p), 0);
      if k < |bounds| then bounds[k] else Max(samples)
  }

  lemma {:induction false} CountGrows(samples: seq<int>, v: int, w: int)
    requires v <= w
    ensures CountAtMost(samples, v) <= CountAtMost(samples, w) <= |samples|
  {
    if samples == [] {
    } else {
      CountGrows(samples[..|samples| - 1], v, w);
    }
  }

  lemma {:induction false} CountAll(samples: seq<int>, v: int)
    requires forall i :: 0 <= i < |samples| ==> samples[i] <= v
    ensures CountAtMost(samples, v) == |samples|
  {
    if samples == [] {
    } else {
      CountAll(samples[..|samples| - 1], v);
    }
  }

  lemma {:induction false} CountNone(samples: seq<int>, v: int)
    requires forall i :: 0 <= i < |samples| ==> samples[i] > v
    ensures CountAtMost(samples, v) == 0
  {
    if samples == [] {
    } else {
      CountNone(samples[..|samples| - 1], v);
    }
  }

  /** A percentile is the first bound that is not below the nearest-rank sample, or the maximum if all bounds are. */
  lemma PercentileBrackets(bounds: seq<int>, samples: seq<int>, p: nat, x: int)
    requires Increasing(bounds) && samples != [] && IsNearestRank(samples, Rank(|samples|, p), x)
    ensures x <= Percentile(bounds, samples, p)
    ensures if forall j :: 0 <= j < |bounds| ==> bounds[j] < x then Percentile(bounds, samples, p) == Max(samples)
            else exists k :: 0 <= k < |bounds| && Percentile(bounds, samples, p) == bounds[k]
                             && forall j :: 0 <= j < k ==> bounds[j] < x
  {
    hide Rank, Buckets, CountAtMost;
    var rank := Rank(|samples|, p);
    var k := RankBucket(Buckets(bounds, samples), rank, 0);
    if k < |bounds| {
      SumIsCount(bounds, samples, k + 1);
      if x > bounds[k] {
        CountGrows(samples, bounds[k], x - 1);
      }
    }
    forall j | 0 <= j < k
      ensures bounds[j] < x
    {
      SumIsCount(bounds, samples, j + 1);
      if bounds[j] >= x {
        CountGrows(samples, x, bounds[j]);
      }
    }
  }

  lemma RankOfGrows(a: nat, b: nat, n: nat)
    requires a <= b <= n * 100 && 0 < n < WORD_32
    ensures 1 <= RankOf(a) <= RankOf(b) <= n
    ensures a > 0 ==> 100 * (RankOf(a) - 1) < a <= 100 * RankOf(a)
  {
  }

  /** Up to 100 percent the rank is the nearest one, is that of some sample, and grows with `p`. */
  lemma RankGrows(n: nat, p: nat, q: nat)
    requires 0 < n < WORD_32 && p <= q <= 100
    ensures 1 <= Rank(n, p) <= Rank(n, q) <= n
    ensures p > 0 ==> 100 * (Rank(n, p) - 1) < n * p <= 100 * Rank(n, p)
  {
    hide RankOf;
    ProductsGrow(p, q, n);
    ProductsGrow(q, 100, n);
    RankOfGrows(n * p, n * q, n);
    if p > 0 {
      ProductsGrow(1, p, n);
    }
  }

  /** When the sum never reaches the rank, the maximum is beyond every bound. */
  lemma MaxIsBeyond(bounds: seq<int>, samples: seq<int>, rank: nat, j: nat)
    requires Increasing(bounds) && samples != [] && rank <= |samples| && j < |bounds|
    requires RankBucket(Buckets(bounds, samples), rank, 0) == |bounds|
    ensures bounds[j] < Max(samples)
  {
    SumIsCount(bounds, samples, j + 1);
    hide Buckets, CountAtMost;
    if Max(samples) <= bounds[j] {
      CountAll(samples, bounds[j]);
    }
  }

  /** Percentiles grow with `p`, also into the maximum beyond the last bound. */
  lemma PercentileGrows(bounds: seq<int>, samples: seq<int>, p: nat, q: nat)
    requires Increasing(bounds) && p <= q <= 100 && |samples| < WORD_32
    ensures Percentile(bounds, samples, p) <= Percentile(bounds, samples, q)
  {
    hide Rank, Buckets, CountAtMost, Max;
    if samples != [] {
      RankGrows(|samples|, p, q);
      var buckets := Buckets(bounds, samples);
      var i, k := RankBucket(buckets, Rank(|samples|, p), 0), RankBucket(buckets, Rank(|samples|, q), 0);
      if k < |bounds| {
        assert i <= k;
      } else if i < |bounds| {
        MaxIsBeyond(bounds, samples, Rank(|samples|, q), i);
      }
    }
  }

  lemma {:induction false} CountJump(samples: seq<int>, v: int)
    requires CountAtMost(samples, v - 1) < CountAtMost(samples, v)
    ensures v in samples
  {
    var before, last := samples[..|samples| - 1], samples[|samples| - 1];
    assert samples == before + [last];
    if last == v {
    } else {
      CountJump(before, v);
    }
  }

  /** Every rank up to the number of samples has its nearest-rank sample. */
  lemma {:induction false} NearestRankExists(samples: seq<int>, rank: nat, v: nat) returns (x: int)
    requires 1 <= rank <= CountAtMost(samples, v) && forall i :: 0 <= i < |samples| ==> samples[i] >= 0
    ensures IsNearestRank(samples, rank, x)
    decreases v
  {
    if CountAtMost(samples, v - 1) < rank {
      CountJump(samples, v);
      x := v;
    } else if v == 0 {
      CountNone(samples, -1);
      x := 0;
    } else {
      x := NearestRankExists(samples, rank, v - 1);
    }
  }

  // ---------------------------------------------------------------- average

  /** An integer average, rounded down, or zero for no samples. */
  predicate IsAverage(average: int, total: int, n: nat) {
    if n == 0 then average == 0 else average * n <= total < average * n + n
  }

  lemma AverageIsClose(total: int, n: nat)
    requires n > 0
    ensures IsAverage(total / n, total, n)
  {
  }
}
