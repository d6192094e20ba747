/** The latency counters and histogram, updated sample by sample. */
module LatencyStats {
  import opened Common
  import opened LatencyModel

  const INT64_MAX: int := 0x7fff_ffff_ffff_ffff

  /** What a 32-bit counter shows of a count. */
  function Wrap(count: int): Word32 {
    count % WORD_32
  }

  function Inc(x: Word32): Word32 {
    (x + 1) % WORD_32
  }

  /** The smallest and the largest sample, or the far ends of the range when there is none. */
  ghost predicate Extremes(samples: seq<int>, min: int, max: int) {
    if samples == [] then min == INT64_MAX && max == -INT64_MAX - 1
    else max == Max(samples) && min in samples && forall i :: 0 <= i < |samples| ==> min <= samples[i]
  }

  predicate AllMeasured(samples: seq<int>) {
    forall i :: 0 <= i < |samples| ==> 0 <= samples[i] <= MAX_MEASURED_US
  }

  lemma AllMeasuredOneMore(samples: seq<int>, x: int)
    requires AllMeasured(samples) && 0 <= x <= MAX_MEASURED_US
    ensures AllMeasured(samples + [x])
  {
  }

  lemma ExtremesOneMore(samples: seq<int>, min: int, max: int, x: int)
    requires Extremes(samples, min, max) && 0 <= x <= MAX_MEASURED_US
    ensures Extremes(samples + [x], if x < min then x else min, if x > max then x else max)
  {
    MaxOneMore(samples, x);
    hide Max, Buckets, CountAtMost, Total;
    assert (samples + [x])[|samples|] == x;
    assert forall i :: 0 <= i < |samples| ==> (samples + [x])[i] == samples[i];
  }

  lemma IncWraps(count: int)
    ensures Inc(Wrap(count)) == Wrap(count + 1)
  {
  }

  lemma WrapIsIdle(count: nat)
    requires count < WORD_32
    ensures Wrap(count) == count
  {
  }

  class LatencyStats {
    var received: Word32
    var receivedBytes: Word32
    var latencySamples: Word32
    var invalidLatencySamples: Word32
    var targetMisses: Word32
    var minLatencyUs: int
    var maxLatencyUs: int
    var totalLatencyUs: int
    const latencyBuckets: array<Word32>

    /** The valid samples recorded so far, and how many records there were in all. */
    ghost var samples: seq<int>
    ghost var records: nat

    constructor ()
      ensures Valid() && samples == [] && records == 0 && receivedBytes == 0 && fresh(latencyBuckets)
    {
      received, receivedBytes, latencySamples, invalidLatencySamples, targetMisses := 0, 0, 0, 0, 0;
      minLatencyUs, maxLatencyUs, totalLatencyUs := INT64_MAX, -INT64_MAX - 1, 0;
      latencyBuckets := new Word32[18](_ => 0);
      samples, records := [], 0;
    }

    ghost predicate BucketsMatch(counted: seq<int>)
      reads latencyBuckets
    {
      && latencyBuckets.Length == |Bounds()| + 1 == 18
      && forall i :: 0 <= i < 18 ==> latencyBuckets[i] == Wrap(Buckets(Bounds(), counted)[i])
    }

    /** The counters of valid samples, and nothing else. */
    ghost predicate ValidCounts()
      reads this`latencySamples, this`targetMisses, this`totalLatencyUs, this`maxLatencyUs, this`minLatencyUs,
            this`samples, latencyBuckets
    {
      && latencyBuckets.Length == |Bounds()| + 1 == 18
      && latencySamples == Wrap(|samples|)
      && targetMisses == Wrap(|samples| - CountAtMost(samples, 10000))
      && totalLatencyUs == Total(samples)
      && AllMeasured(samples)
      && Extremes(samples, minLatencyUs, maxLatencyUs)
      && BucketsMatch(samples)
    }

    /** Every counter is the true count, modulo 2^32; the extremes and the total are exact. */
    ghost predicate Valid()
      reads this, latencyBuckets
    {
      && ValidCounts()
      && |samples| <= records
      && received == Wrap(records)
      && invalidLatencySamples == Wrap(records - |samples|)
    }

    method IncBucket(k: nat, latencyUs: int, ghost counted: seq<int>)
      requires BucketsMatch(counted) && k == BucketFrom(Bounds(), latencyUs, 0)
      modifies latencyBuckets
      ensures BucketsMatch(counted + [latencyUs])
    {
      hide Bounds, Buckets, CountAtMost, Total, Max, BucketFrom, Inc, Wrap;
      BucketsOneMore(Bounds(), counted, latencyUs);
      IncWraps(Buckets(Bounds(), counted)[k]);
      latencyBuckets[k] := Inc(latencyBuckets[k]);
    }

    /** The bucket loop. */
    method CountInBucket(latencyUs: int, ghost counted: seq<int>)
      requires BucketsMatch(counted)
      modifies latencyBuckets
      ensures BucketsMatch(counted + [latencyUs])
    {
      hide Bounds, BucketsMatch;
      var k := 0;
      while k < |Bounds()|
        invariant BucketsMatch(counted)
        invariant k <= |Bounds()| && BucketFrom(Bounds(), latencyUs, k) == BucketFrom(Bounds(), latencyUs, 0)
      {
        if latencyUs <= Bounds()[k] {
          IncBucket(k, latencyUs, counted);
          return;
        }
        k := k + 1;
      }
      IncBucket(|Bounds()|, latencyUs, counted);
    }

    method RecordLatency(latencyUs: int, payloadSize: nat, latencyValid: bool)
      requires Valid()
      modifies this, latencyBuckets
      ensures Valid() && records == old(records) + 1
      ensures samples == if latencyValid && 0 <= latencyUs <= 1000000 then old(samples) + [latencyUs] else old(samples)
      ensures receivedBytes == (old(receivedBytes) + payloadSize) % WORD_32
    {
      hide ValidCounts, Inc, Wrap;
      IncWraps(records);
      IncWraps(records - |samples|);
      received := Inc(received);
      receivedBytes := (receivedBytes + payloadSize) % WORD_32;
      records := records + 1;
      if !latencyValid || latencyUs < 0 || latencyUs > MAX_MEASURED_US {
        invalidLatencySamples := Inc(invalidLatencySamples);
        return;
      }
      RecordValid(latencyUs);
    }

    /** A valid sample is counted, compared with the target and the extremes, added up and put in its bucket. */
    method RecordValid(latencyUs: int)
      requires 0 <= latencyUs <= MAX_MEASURED_US
      requires ValidCounts()
      modifies this`latencySamples, this`targetMisses, this`minLatencyUs, this`maxLatencyUs, this`totalLatencyUs,
               this`samples, latencyBuckets
      ensures ValidCounts() && samples == old(samples) + [latencyUs]
    {
      hide Buckets, CountAtMost, Total, Max, Bounds, BucketsMatch, Inc, Wrap, Extremes, AllMeasured;
      AllMeasuredOneMore(samples, latencyUs);
      ExtremesOneMore(samples, minLatencyUs, maxLatencyUs, latencyUs);
      IncWraps(|samples|);
      IncWraps(|samples| - CountAtMost(samples, TARGET_US));
      CountOneMore(samples, latencyUs, TARGET_US);
      TotalOneMore(samples, latencyUs);
      ghost var before := samples;
      latencySamples := Inc(latencySamples);
      if latencyUs > TARGET_US {
        targetMisses := Inc(targetMisses);
      }
      assert targetMisses == Wrap(|before| + 1 - CountAtMost(before + [latencyUs], TARGET_US));
      if latencyUs < minLatencyUs {
        minLatencyUs := latencyUs;
      }
      if latencyUs > maxLatencyUs {
        maxLatencyUs := latencyUs;
      }
      assert Extremes(before + [latencyUs], minLatencyUs, maxLatencyUs);
      totalLatencyUs := totalLatencyUs + latencyUs;
      CountInBucket(latencyUs, before);
      samples := before + [latencyUs];
    }

    method AverageLatencyUs() returns (average: int)
      requires Valid() && |samples| < WORD_32
      ensures samples == [] ==> average == 0
      ensures samples != [] ==> average * |samples| <= Total(samples) < (average + 1) * |samples|
    {
      hide BucketsMatch, Extremes, CountAtMost, Total;
      if latencySamples == 0 {
        return 0;
      }
      average := totalLatencyUs / latencySamples;
      AverageIsClose(totalLatencyUs, latencySamples);
    }

    static method NearestRank(n: Word32, percentile: nat) returns (rank: nat)
      ensures rank == Rank(n, percentile)
    {
      rank := ((n * percentile + 99) / 100) % WORD_32;
      if rank == 0 {
        rank := 1;
      }
    }

    method BucketCount(i: nat) returns (n: nat)
      requires BucketsMatch(samples) && |samples| < WORD_32 && i <= |Bounds()|
      ensures n == Buckets(Bounds(), samples)[i]
    {
      hide Bounds, Buckets, Wrap;
      BoundsIncrease();
      BucketFits(Bounds(), samples, i);
      WrapIsIdle(Buckets(Bounds(), samples)[i]);
      return latencyBuckets[i];
    }

    method PercentileUs(percentile: nat) returns (r: int)
      requires Valid() && |samples| < WORD_32
      ensures r == Percentile(Bounds(), samples, percentile) && (samples == [] ==> r == 0)
    {
      hide Bounds, Buckets, Max, Rank, CountAtMost, Total, BucketsMatch;
      assert samples != [] ==> maxLatencyUs == Max(samples);
      BoundsIncrease();
      if latencySamples == 0 {
        return 0;
      }
      assert samples != [];
      var rank := NearestRank(latencySamples, percentile);
      ghost var buckets := Buckets(Bounds(), samples);
      var cumulative := 0;
      var i := 0;
      while i < |Bounds()|
        invariant i <= |Bounds()| && cumulative == SumTo(buckets, i)
        invariant RankBucket(buckets, rank, i) == RankBucket(buckets, rank, 0)
      {
        var count := BucketCount(i);
        cumulative := cumulative + count;
        if cumulative >= rank {
          return Bounds()[i];
        }
        i := i + 1;
      }
      return maxLatencyUs;
    }
  }
}
