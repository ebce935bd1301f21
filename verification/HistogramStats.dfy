/** internal/executor/parsers.go: computeHistStats and computePercentile. */
module HistogramStats {
  import opened Seqs
  import opened Text
  import opened Report

  function Ceil(x: real): (c: int)
    ensures c as real >= x > c as real - 1.0
  {
    -((-x).Floor)
  }

  /** The bounds are added as int64 values before they are halved. */
  function Midpoint(b: Bucket): real { Int64(b.low + b.high) as real / 2.0 }

  /** Samples in the first `k` buckets, before they are reduced to an int64. */
  function Cumulative(bs: seq<Bucket>, k: nat): int
    requires k <= |bs|
  {
    if k == 0 then 0 else Cumulative(bs, k - 1) + bs[k - 1].count
  }

  function Total(bs: seq<Bucket>): int { Cumulative(bs, |bs|) }

  function WeightedSum(bs: seq<Bucket>, k: nat): real
    requires k <= |bs|
  {
    if k == 0 then 0.0 else WeightedSum(bs, k - 1) + Midpoint(bs[k - 1]) * bs[k - 1].count as real
  }

  /** Buckets in ascending order that do not overlap. */
  ghost predicate Ordered(bs: seq<Bucket>) {
    && (forall i :: 0 <= i < |bs| ==> bs[i].low <= bs[i].high)
    && (forall i, j :: 0 <= i < j < |bs| ==> bs[i].high < bs[j].low)
  }

  ghost predicate NonNegative(bs: seq<Bucket>) {
    forall i :: 0 <= i < |bs| ==> bs[i].count >= 0
  }

  /** The rank a quantile asks for. */
  function Rank(total: int, pct: real): int { Ceil(total as real * pct) }

  /** Index of the first bucket, from `k` on, whose cumulative count reaches `target`. */
  function FirstReaching(bs: seq<Bucket>, target: int, k: nat): (r: nat)
    requires k <= |bs|
    ensures k <= r <= |bs|
    ensures r < |bs| ==> Int64(Cumulative(bs, r + 1)) >= target
    ensures forall j :: k < j <= r ==> Int64(Cumulative(bs, j)) < target
    decreases |bs| - k
  {
    if k == |bs| || Int64(Cumulative(bs, k + 1)) >= target then k else FirstReaching(bs, target, k + 1)
  }

  function Percentile(bs: seq<Bucket>, total: int, pct: real): real {
    var k := FirstReaching(bs, Rank(total, pct), 0);
    if k < |bs| then Midpoint(bs[k]) else if bs == [] then 0.0 else bs[|bs| - 1].high as real
  }

  /** `t` is `n * pct` rounded up. */
  ghost predicate RoundsUp(n: int, pct: real, t: int) { (t - 1) as real < n as real * pct <= t as real }

  /** The int64 sum of the counts reaches `t` with this bucket and not before. */
  ghost predicate ReachedAt(bs: seq<Bucket>, t: int, k: int) {
    && 0 <= k < |bs| && Int64(Cumulative(bs, k + 1)) >= t
    && forall j :: 0 < j <= k ==> Int64(Cumulative(bs, j)) < t
  }

  lemma {:induction false} FirstReachingIs(bs: seq<Bucket>, t: int)
    ensures var k := FirstReaching(bs, t, 0); k < |bs| ==> ReachedAt(bs, t, k)
    ensures forall k :: ReachedAt(bs, t, k) ==> k == FirstReaching(bs, t, 0)
  {
    var r := FirstReaching(bs, t, 0);
    assert forall k :: ReachedAt(bs, t, k) ==> (k < r <==> Int64(Cumulative(bs, k + 1)) < t) && k <= r;
  }

  /** computePercentile, as the loop it is: the midpoint of the bucket that reaches the rank. */
  method ComputePercentile(bs: seq<Bucket>, total: int, pct: real) returns (r: real)
    ensures r == Percentile(bs, total, pct)
    ensures forall t, k :: RoundsUp(total, pct, t) && ReachedAt(bs, t, k) ==> r == Midpoint(bs[k])
    ensures forall t :: RoundsUp(total, pct, t) && (forall k :: !ReachedAt(bs, t, k)) ==>
              r == if bs == [] then 0.0 else bs[|bs| - 1].high as real
  {
    FirstReachingIs(bs, Rank(total, pct));
    assert forall t :: RoundsUp(total, pct, t) ==> t == Rank(total, pct);
    hide ReachedAt, RoundsUp;
    var target := Rank(total, pct);
    var cumulative := 0;
    for i := 0 to |bs|
      invariant cumulative == Int64(Cumulative(bs, i))
      invariant FirstReaching(bs, target, 0) == FirstReaching(bs, target, i)
    {
      Int64Sum(Cumulative(bs, i), bs[i].count);
      cumulative := Int64(cumulative + bs[i].count);
      if cumulative >= target {
        return Midpoint(bs[i]);
      }
    }
    if |bs| > 0 {
      return bs[|bs| - 1].high as real;
    }
    return 0.0;
  }

  method Accumulate(bs: seq<Bucket>) returns (total: int, mean: real)
    ensures total == Int64(Total(bs)) && mean == Mean(bs)
  {
    total := 0;
    var weighted := 0.0;
    for i := 0 to |bs|
      invariant total == Int64(Cumulative(bs, i))
      invariant weighted == WeightedSum(bs, i)
    {
      Int64Sum(Cumulative(bs, i), bs[i].count);
      total := Int64(total + bs[i].count);
      weighted := weighted + Midpoint(bs[i]) * bs[i].count as real;
    }
    mean := if total > 0 then weighted / total as real else 0.0;
  }

  /** A histogram under construction: computeHistStats fills it in place. */
  class HistogramCell {
    var name: string
    var unit: string
    var buckets: seq<Bucket>
    var totalCount: int
    var p50: real
    var p90: real
    var p99: real
    var p999: real
    var max: real
    var mean: real

    constructor (name: string, unit: string, buckets: seq<Bucket>)
      ensures this.name == name && this.unit == unit && this.buckets == buckets
      ensures totalCount == 0 && p50 == p90 == p99 == p999 == max == mean == 0.0
    {
      this.name, this.unit, this.buckets := name, unit, buckets;
      totalCount := 0;
      p50, p90, p99, p999, max, mean := 0.0, 0.0, 0.0, 0.0, 0.0, 0.0;
    }

    function Value(): Histogram
      reads this
    {
      Histogram(name, unit, buckets, totalCount, p50, p90, p99, p999, max, mean)
    }

    method ComputeStats()
      modifies this
      ensures name == old(name) && unit == old(unit) && buckets == old(buckets)
      ensures totalCount == Int64(Total(buckets))
      ensures mean == if totalCount > 0 then Mean(buckets) else old(mean)
      ensures max == if buckets == [] then old(max) else buckets[|buckets| - 1].high as real
      ensures p50 == Percentile(buckets, totalCount, 0.5)
      ensures p90 == Percentile(buckets, totalCount, 0.9)
      ensures p99 == Percentile(buckets, totalCount, 0.99)
      ensures p999 == Percentile(buckets, totalCount, 0.999)
    {
      hide Percentile, Mean, Total;
      var m;
      totalCount, m := Accumulate(buckets);
      if totalCount > 0 {
        mean := m;
      }
      SetPercentiles(totalCount);
      if |buckets| > 0 {
        max := buckets[|buckets| - 1].high as real;
      }
    }

    method SetPercentiles(total: int)
      modifies this`p50, this`p90, this`p99, this`p999
      ensures p50 == Percentile(buckets, total, 0.5)
      ensures p90 == Percentile(buckets, total, 0.9)
      ensures p99 == Percentile(buckets, total, 0.99)
      ensures p999 == Percentile(buckets, total, 0.999)
    {
      p50 := ComputePercentile(buckets, total, 0.5);
      p90 := ComputePercentile(buckets, total, 0.9);
      p99 := ComputePercentile(buckets, total, 0.99);
      p999 := ComputePercentile(buckets, total, 0.999);
    }
  }

  /** The statistics of a histogram as a value. */
  function Stats(name: string, unit: string, bs: seq<Bucket>): Histogram {
    var total := Int64(Total(bs));
    Histogram(name, unit, bs, total,
              Percentile(bs, total, 0.5), Percentile(bs, total, 0.9),
              Percentile(bs, total, 0.99), Percentile(bs, total, 0.999),
              if bs == [] then 0.0 else bs[|bs| - 1].high as real,
              Mean(bs))
  }

  /** Mean of the bucket midpoints, zero when nothing was counted. */
  function Mean(bs: seq<Bucket>): real {
    if Int64(Total(bs)) > 0 then WeightedSum(bs, |bs|) / Int64(Total(bs)) as real else 0.0
  }

  // ---------------------------------------------------------------------
  // What fits an int64

  /** Bounds as the parser reads them, in ascending order, and counts that add up to an int64. */
  ghost predicate Regular(bs: seq<Bucket>) {
    && bs != [] && Ordered(bs) && NonNegative(bs)
    && 0 <= bs[0].low && bs[|bs| - 1].high <= MAX_INT64
    && Total(bs) <= MAX_INT64
  }

  /** The bucket's bounds add up past the largest int64. */
  predicate Overflows(b: Bucket) { b.low + b.high > MAX_INT64 }

  /** Then the midpoint comes out negative, and otherwise right. */
  lemma {:induction false} MidpointIs(b: Bucket)
    requires 0 <= b.low <= b.high <= MAX_INT64
    ensures !Overflows(b) ==> Midpoint(b) == (b.low + b.high) as real / 2.0 && b.low as real <= Midpoint(b) <= b.high as real
    ensures Overflows(b) ==> Midpoint(b) == (b.low + b.high) as real / 2.0 - TWO63 as real && Midpoint(b) < 0.0
  {}

  lemma {:induction false} CumulativeMonotone(bs: seq<Bucket>, i: nat, j: nat)
    requires NonNegative(bs) && i <= j <= |bs|
    ensures Cumulative(bs, i) <= Cumulative(bs, j)
  {
    if i < j { CumulativeMonotone(bs, i, j - 1); }
  }

  lemma {:induction false} CountsFit(bs: seq<Bucket>)
    requires NonNegative(bs) && Total(bs) <= MAX_INT64
    ensures forall k :: 0 <= k <= |bs| ==> Int64(Cumulative(bs, k)) == Cumulative(bs, k) >= 0
    ensures Int64(Total(bs)) == Total(bs) >= 0
  {
    forall k | 0 <= k <= |bs| ensures 0 <= Cumulative(bs, k) <= MAX_INT64 {
      CumulativeMonotone(bs, 0, k);
      CumulativeMonotone(bs, k, |bs|);
    }
  }

  /** TotalCount is the sum of the counts if and only if that sum is an int64. */
  lemma {:induction false} TotalCountIff(name: string, unit: string, bs: seq<Bucket>)
    ensures Stats(name, unit, bs).totalCount == Total(bs) <==> MIN_INT64 <= Total(bs) <= MAX_INT64
  {}

  /** Two buckets whose counts do not fit: the total turns negative and the mean is dropped. */
  lemma {:induction false} CountsOverflow(name: string, unit: string)
    ensures var h := Stats(name, unit, [Bucket(4, 7, MAX_INT64), Bucket(8, 15, 1)]);
            h.totalCount == MIN_INT64 && h.mean == 0.0
  {
    var bs := [Bucket(4, 7, MAX_INT64), Bucket(8, 15, 1)];
    assert Cumulative(bs, 1) == MAX_INT64 && Cumulative(bs, 2) == MAX_INT64 + 1;
  }

  // ---------------------------------------------------------------------
  // Order of the statistics

  /** A quantile of at most 1 is always reached, whatever the counts, unless their int64 sum is
      negative: the return after the loop is dead code. */
  lemma {:induction false} FallThroughUnreachable(bs: seq<Bucket>, pct: real)
    requires bs != [] && Int64(Total(bs)) >= 0 && 0.0 <= pct <= 1.0
    ensures FirstReaching(bs, Rank(Int64(Total(bs)), pct), 0) < |bs|
  {
    RankBounds(Int64(Total(bs)), pct);
  }

  lemma {:induction false} RankBounds(total: int, pct: real)
    requires total >= 0 && 0.0 <= pct <= 1.0
    ensures 0 <= Rank(total, pct) <= total
    ensures total > 0 && pct > 0.0 ==> Rank(total, pct) >= 1
  {
    var x := total as real * pct;
    assert 0.0 <= x <= total as real;
  }

  lemma {:induction false} RankMonotone(total: int, p: real, q: real)
    requires total >= 0 && p <= q
    ensures Rank(total, p) <= Rank(total, q)
  {}

  /** The bucket a quantile falls in. */
  ghost function Pick(bs: seq<Bucket>, pct: real): Bucket
    requires Regular(bs) && 0.0 <= pct <= 1.0
  {
    CountsFit(bs);
    FallThroughUnreachable(bs, pct);
    bs[FirstReaching(bs, Rank(Total(bs), pct), 0)]
  }

  lemma {:induction false} BoundsOf(bs: seq<Bucket>, i: nat, j: nat)
    requires Regular(bs) && i <= j < |bs|
    ensures 0 <= bs[0].low <= bs[i].low <= bs[j].low <= bs[j].high <= bs[|bs| - 1].high <= MAX_INT64
    ensures bs[i].high <= bs[j].high
  {
    hide Total;
  }

  /** Percentiles ascend from the first bound to the last if and only if the bucket of the larger
      quantile has bounds that add up to an int64. */
  lemma {:induction false} PercentileOrderIff(bs: seq<Bucket>, p: real, q: real)
    requires Regular(bs) && 0.0 <= p <= q <= 1.0
    ensures (bs[0].low as real <= Percentile(bs, Total(bs), p) <= Percentile(bs, Total(bs), q) <= bs[|bs| - 1].high as real)
            <==> !Overflows(Pick(bs, q))
  {
    hide Midpoint, Total, Rank;
    CountsFit(bs);
    FallThroughUnreachable(bs, p);
    FallThroughUnreachable(bs, q);
    RankMonotone(Total(bs), p, q);
    var i := FirstReaching(bs, Rank(Total(bs), p), 0);
    var j := FirstReaching(bs, Rank(Total(bs), q), 0);
    assert i <= j by { assert Int64(Cumulative(bs, j + 1)) >= Rank(Total(bs), p); }
    BoundsOf(bs, i, j);
    MidpointIs(bs[i]);
    MidpointIs(bs[j]);
    if !Overflows(bs[j]) { assert (bs[i].low + bs[i].high) as real <= (bs[j].low + bs[j].high) as real; }
  }

  function ExactMid(b: Bucket): real { (b.low + b.high) as real / 2.0 }

  /** What WeightedSum would be without overflow, and what the overflowing buckets take away. */
  ghost function ExactSum(bs: seq<Bucket>, k: nat): real
    requires k <= |bs|
  {
    if k == 0 then 0.0 else ExactSum(bs, k - 1) + ExactMid(bs[k - 1]) * bs[k - 1].count as real
  }

  ghost function Lost(bs: seq<Bucket>, k: nat): real
    requires k <= |bs|
  {
    if k == 0 then 0.0 else Lost(bs, k - 1) + (if Overflows(bs[k - 1]) then TWO63 as real * bs[k - 1].count as real else 0.0)
  }

  lemma {:induction false} WeightedSumIs(bs: seq<Bucket>, k: nat)
    requires Regular(bs) && k <= |bs|
    ensures WeightedSum(bs, k) == ExactSum(bs, k) - Lost(bs, k)
    ensures Lost(bs, k) >= 0.0
  {
    hide Midpoint, Total, Regular, Overflows;
    if k > 0 {
      WeightedSumIs(bs, k - 1);
      BoundsOf(bs, k - 1, k - 1);
      MidpointIs(bs[k - 1]);
      CountAt(bs, k - 1);
      Spread(ExactMid(bs[k - 1]), TWO63 as real, bs[k - 1].count as real);
    }
  }

  lemma {:induction false} CountAt(bs: seq<Bucket>, i: nat)
    requires Regular(bs) && i < |bs|
    ensures bs[i].count >= 0
  {}

  lemma {:induction false} Spread(m: real, t: real, c: real)
    ensures (m - t) * c == m * c - t * c
    ensures t >= 0.0 && c >= 0.0 ==> t * c >= 0.0
  {}

  lemma {:induction false} ExactSumBetween(bs: seq<Bucket>, lo: real, hi: real, k: nat)
    requires NonNegative(bs) && k <= |bs|
    requires forall i :: 0 <= i < |bs| ==> lo <= ExactMid(bs[i]) <= hi
    ensures lo * Cumulative(bs, k) as real <= ExactSum(bs, k) <= hi * Cumulative(bs, k) as real
  {
    hide ExactMid;
    if k > 0 {
      ExactSumBetween(bs, lo, hi, k - 1);
      var r, w := Cumulative(bs, k - 1) as real, ExactSum(bs, k - 1);
      var m, c := ExactMid(bs[k - 1]), bs[k - 1].count as real;
      assert Cumulative(bs, k) as real == r + c;
      assert ExactSum(bs, k) == w + m * c;
      ExtendDown(lo, r, w, m, c);
      ExtendUp(hi, r, w, m, c);
    }
  }

  function Product(x: real, y: real): real { x * y }

  /** What the weighted sum would be with every sample at the first bound, or at the last. */
  ghost function LeastSum(bs: seq<Bucket>): real
    requires bs != []
  {
    Product(bs[0].low as real, Total(bs) as real)
  }

  ghost function GreatestSum(bs: seq<Bucket>): real
    requires bs != []
  {
    Product(bs[|bs| - 1].high as real, Total(bs) as real)
  }

  lemma {:induction false} ExactSumBounds(bs: seq<Bucket>)
    requires Regular(bs)
    ensures LeastSum(bs) <= ExactSum(bs, |bs|) <= GreatestSum(bs)
  {
    forall i | 0 <= i < |bs| ensures bs[0].low as real <= ExactMid(bs[i]) <= bs[|bs| - 1].high as real {
      BoundsOf(bs, i, i);
    }
    ExactSumBetween(bs, bs[0].low as real, bs[|bs| - 1].high as real, |bs|);
  }

  lemma {:induction false} ExtendUp(hi: real, r: real, w: real, m: real, c: real)
    requires w <= hi * r && m <= hi && c >= 0.0
    ensures w + m * c <= hi * (r + c)
  {}

  lemma {:induction false} ExtendDown(lo: real, r: real, w: real, m: real, c: real)
    requires lo * r <= w && lo <= m && c >= 0.0
    ensures lo * (r + c) <= w + m * c
  {}

  /** The mean lies between the first and the last bound if and only if what the overflowing
      buckets take away leaves the weighted sum above its floor. */
  lemma {:induction false} MeanOrderIff(bs: seq<Bucket>)
    requires Regular(bs) && Total(bs) > 0
    ensures (bs[0].low as real <= Mean(bs) <= bs[|bs| - 1].high as real) <==>
            Lost(bs, |bs|) <= ExactSum(bs, |bs|) - LeastSum(bs)
  {
    hide ExactSum, Lost, LeastSum, GreatestSum, Mean, Total, WeightedSum, Regular;
    RegularParts(bs);
    ExactSumBounds(bs);
    WeightedSumIs(bs, |bs|);
    MeanSides(bs);
  }

  lemma {:induction false} MeanSides(bs: seq<Bucket>)
    requires Regular(bs) && Total(bs) > 0
    ensures bs[0].low as real <= Mean(bs) <==> LeastSum(bs) <= ExactSum(bs, |bs|) - Lost(bs, |bs|)
    ensures Mean(bs) <= bs[|bs| - 1].high as real <==> ExactSum(bs, |bs|) - Lost(bs, |bs|) <= GreatestSum(bs)
  {
    MeanIs(bs);
    RegularParts(bs);
    hide ExactSum, Lost, Mean, Total, WeightedSum, Regular, Product;
    Sides(bs[0].low as real, bs[|bs| - 1].high as real, Mean(bs), Total(bs) as real,
          ExactSum(bs, |bs|) - Lost(bs, |bs|), LeastSum(bs), GreatestSum(bs));
  }

  lemma {:induction false} Sides(lo: real, hi: real, mean: real, n: real, sum: real, least: real, greatest: real)
    requires n > 0.0 && Product(mean, n) == sum && Product(lo, n) == least && Product(hi, n) == greatest
    ensures lo <= mean <==> least <= sum
    ensures mean <= hi <==> sum <= greatest
  {
    Times(lo, mean, n);
    Times(mean, hi, n);
  }

  lemma {:induction false} MeanIs(bs: seq<Bucket>)
    requires Regular(bs) && Total(bs) > 0
    ensures Product(Mean(bs), Total(bs) as real) == ExactSum(bs, |bs|) - Lost(bs, |bs|)
  {
    CountsFit(bs);
    WeightedSumIs(bs, |bs|);
    hide ExactSum, Lost, WeightedSum, Regular, Total, Int64;
    Undivided(WeightedSum(bs, |bs|), Total(bs) as real);
  }

  lemma {:induction false} Undivided(w: real, n: real)
    requires n > 0.0
    ensures Product(w / n, n) == w
  {}

  lemma {:induction false} Times(x: real, y: real, n: real)
    requires n > 0.0
    ensures x <= y <==> x * n <= y * n
  {}

  /** What computeHistStats leaves behind is ordered as its field names promise, if and only if
      the bucket of the highest quantile does not overflow and the overflowing buckets do not
      outweigh the others. */
  lemma {:induction false} StatsOrderIff(name: string, unit: string, bs: seq<Bucket>)
    requires Regular(bs) && Total(bs) > 0
    ensures var h := Stats(name, unit, bs);
            && h.totalCount == Total(bs)
            && ((bs[0].low as real <= h.p50 <= h.p90 <= h.p99 <= h.p999 <= h.max) <==> !Overflows(Pick(bs, 0.999)))
            && ((bs[0].low as real <= h.mean <= h.max) <==>
                Lost(bs, |bs|) <= ExactSum(bs, |bs|) - LeastSum(bs))
  {
    hide Percentile, Mean, Overflows, Pick;
    CountsFit(bs);
    PercentileOrderIff(bs, 0.999, 0.999);
    PickOrder(bs, 0.99, 0.999);
    PickOrder(bs, 0.9, 0.999);
    PercentileOrderIff(bs, 0.5, 0.9);
    PercentileOrderIff(bs, 0.9, 0.99);
    PercentileOrderIff(bs, 0.99, 0.999);
    MeanOrderIff(bs);
    hide Total, ExactSum, Lost, Regular, Int64;
  }

  /** A bucket below one that fits, fits. */
  lemma {:induction false} PickOrder(bs: seq<Bucket>, p: real, q: real)
    requires Regular(bs) && 0.0 <= p <= q <= 1.0
    ensures Overflows(Pick(bs, p)) ==> Overflows(Pick(bs, q))
  {
    hide Midpoint, Total, Rank;
    CountsFit(bs);
    FallThroughUnreachable(bs, p);
    FallThroughUnreachable(bs, q);
    RankMonotone(Total(bs), p, q);
    var i := FirstReaching(bs, Rank(Total(bs), p), 0);
    var j := FirstReaching(bs, Rank(Total(bs), q), 0);
    assert i <= j by { assert Int64(Cumulative(bs, j + 1)) >= Rank(Total(bs), p); }
    BoundsOf(bs, i, j);
  }

  /** In particular when the bounds of the last bucket add up to an int64. */
  lemma {:induction false} StatsOrder(name: string, unit: string, bs: seq<Bucket>)
    requires Regular(bs) && Total(bs) > 0 && !Overflows(bs[|bs| - 1])
    ensures var h := Stats(name, unit, bs);
            && bs[0].low as real <= h.p50 <= h.p90 <= h.p99 <= h.p999 <= h.max
            && bs[0].low as real <= h.mean <= h.max
  {
    StatsOrderIff(name, unit, bs);
    NoneOverflow(bs, |bs|);
    ExactSumBounds(bs);
    PickFits(bs, 0.999);
    hide Stats, Regular, Total, ExactSum, Lost, Pick, Overflows;
  }

  lemma {:induction false} PickFits(bs: seq<Bucket>, pct: real)
    requires Regular(bs) && 0.0 <= pct <= 1.0 && !Overflows(bs[|bs| - 1])
    ensures !Overflows(Pick(bs, pct))
  {
    hide Regular, Total, Rank;
    RegularParts(bs);
    CountsFit(bs);
    FallThroughUnreachable(bs, pct);
    BoundsOf(bs, FirstReaching(bs, Rank(Total(bs), pct), 0), |bs| - 1);
  }

  lemma {:induction false} RegularParts(bs: seq<Bucket>)
    requires Regular(bs)
    ensures bs != [] && NonNegative(bs) && Total(bs) <= MAX_INT64
  {}

  lemma {:induction false} NoneOverflow(bs: seq<Bucket>, k: nat)
    requires Regular(bs) && k <= |bs| && !Overflows(bs[|bs| - 1])
    ensures Lost(bs, k) == 0.0
  {
    hide Total;
    if k > 0 {
      NoneOverflow(bs, k - 1);
      BoundsOf(bs, k - 1, |bs| - 1);
    }
  }

  /** The log2 bucket that ends at the largest int64 has a negative midpoint: with as many samples
      there as in [0, 1] the 90th percentile and the mean fall below zero. */
  lemma {:induction false} TopBucketBreaksOrder(name: string, unit: string)
    ensures var bs := [Bucket(0, 1, 50), Bucket(0x4000_0000_0000_0000, MAX_INT64, 50)];
            var h := Stats(name, unit, bs);
            && PowerOfTwoBucket(bs[1], 62)
            && h.p50 == 0.5 && h.p90 == h.p99 == h.p999 == -2305843009213693952.5 && h.mean < 0.0
  {
    var bs := [Bucket(0, 1, 50), Bucket(0x4000_0000_0000_0000, MAX_INT64, 50)];
    assert Cumulative(bs, 1) == 50 && Cumulative(bs, 2) == 100 && Total(bs) == 100;
    assert Midpoint(bs[0]) == 0.5 && Midpoint(bs[1]) == -2305843009213693952.5;
    RanksOfHundred();
    Pow2At62();
    hide Midpoint, Int64, Rank, Pow2;
    assert Int64(50) == 50 && Int64(100) == 100;
    assert FirstReaching(bs, 50, 0) == 0;
    forall t | 50 < t <= 100 ensures FirstReaching(bs, t, 0) == 1 {
      assert FirstReaching(bs, t, 0) == FirstReaching(bs, t, 1);
    }
    assert WeightedSum(bs, 1) == 25.0;
    assert WeightedSum(bs, 2) == 25.0 - 2305843009213693952.5 * 50.0;
  }

  lemma {:induction false} RanksOfHundred()
    ensures Rank(100, 0.5) == 50 && Rank(100, 0.9) == 90 && Rank(100, 0.99) == 99 && Rank(100, 0.999) == 100
  {
    assert 100.0 * 0.5 == 50.0 && 100.0 * 0.9 == 90.0 && 100.0 * 0.99 == 99.0 && 100.0 * 0.999 == 99.9;
    assert (-50.0).Floor == -50 && (-90.0).Floor == -90 && (-99.0).Floor == -99 && (-99.9).Floor == -100;
  }

  lemma {:induction false} Pow2At62()
    ensures Pow2(62) == 0x4000_0000_0000_0000 && Pow2(63) == TWO63
  {
    Pow2At32();
    assert Pow2(63) == 2 * Pow2(62);
    Pow2Adds(32, 30);
    hide Pow2;
  }

  lemma {:induction false} Pow2At32()
    ensures Pow2(30) == 0x4000_0000 && Pow2(32) == 0x1_0000_0000
  {
    assert Pow2(2) == 4 && Pow2(4) == 16 by { assert Pow2(3) == 8; }
    hide Pow2;
    Pow2Adds(4, 4);
    Pow2Adds(8, 8);
    Pow2Adds(16, 8);
    Pow2Adds(24, 4);
    Pow2Adds(28, 2);
    Pow2Adds(30, 2);
  }

  lemma {:induction false} Pow2Adds(a: nat, b: nat)
    ensures Pow2(a + b) == Pow2(a) * Pow2(b)
  {
    if b > 0 { Pow2Adds(a, b - 1); }
  }

  // ---------------------------------------------------------------------
  // Percentiles against the samples behind the histogram

  predicate Within(b: Bucket, x: int) { b.low <= x <= b.high }

  ghost predicate Covered(bs: seq<Bucket>, x: int) { exists k :: 0 <= k < |bs| && Within(bs[k], x) }

  /** `bs` is what counting `samples` into its buckets gives. */
  ghost predicate CountedInto(samples: seq<int>, bs: seq<Bucket>) {
    && (forall i :: 0 <= i < |samples| ==> Covered(bs, samples[i]))
    && (forall k :: 0 <= k < |bs| ==> bs[k].count == Count(samples, x => Within(bs[k], x)))
  }

  function AtMost(samples: seq<int>, x: int): nat { Count(samples, y => y <= x) }

  lemma {:induction false} AtMostStep(samples: seq<int>, bs: seq<Bucket>, k: nat)
    requires Ordered(bs) && k < |bs|
    requires forall i :: 0 <= i < |samples| ==> Covered(bs, samples[i])
    ensures AtMost(samples, bs[k].high) ==
            (if k == 0 then 0 else AtMost(samples, bs[k - 1].high)) + Count(samples, x => Within(bs[k], x))
    decreases |samples|
  {
    if samples != [] {
      var x := samples[0];
      var m :| 0 <= m < |bs| && Within(bs[m], x);
      assert m < k ==> m <= k - 1 && bs[m].high <= bs[k - 1].high && bs[m].high < bs[k].low;
      assert m > k ==> bs[k].high < bs[m].low;
      assert k > 0 ==> bs[k - 1].high < bs[k].low;
      assert forall i :: 0 <= i < |samples[1..]| ==> samples[1..][i] == samples[i + 1];
      AtMostStep(samples[1..], bs, k);
    }
  }

  /** As many samples lie at or below a bucket's upper end as the buckets up to it count. */
  lemma {:induction false} AtMostIsCumulative(samples: seq<int>, bs: seq<Bucket>, k: nat)
    requires Ordered(bs) && CountedInto(samples, bs) && k < |bs|
    ensures AtMost(samples, bs[k].high) == Cumulative(bs, k + 1)
  {
    AtMostStep(samples, bs, k);
    if k > 0 { AtMostIsCumulative(samples, bs, k - 1); }
  }

  /** In a sorted sequence the elements up to `x` are a prefix. */
  lemma {:induction false} SortedPrefix(sorted: seq<int>, x: int, i: nat)
    requires SortedBy(sorted, IntLeq()) && i < |sorted|
    ensures sorted[i] <= x <==> i < AtMost(sorted, x)
  {
    assert forall j :: 0 < j < |sorted| ==> IntLeq()(sorted[0], sorted[j]);
    if sorted[0] > x {
      NoneAtMost(sorted, x);
    } else if i > 0 {
      assert SortedBy(sorted[1..], IntLeq()) by {
        forall a, b | 0 <= a < b < |sorted[1..]| ensures IntLeq()(sorted[1..][a], sorted[1..][b]) {
          assert IntLeq()(sorted[a + 1], sorted[b + 1]);
        }
      }
      SortedPrefix(sorted[1..], x, i - 1);
    }
  }

  lemma {:induction false} NoneAtMost(s: seq<int>, x: int)
    requires forall i :: 0 <= i < |s| ==> s[i] > x
    ensures AtMost(s, x) == 0
  {
    if s != [] { NoneAtMost(s[1..], x); }
  }

  /** The bucket the rank `t` falls in holds the t-th smallest sample. */
  lemma {:induction false} RankedSample(samples: seq<int>, sorted: seq<int>, bs: seq<Bucket>, t: int)
    requires Ordered(bs) && CountedInto(samples, bs)
    requires SortedPermutation(sorted, samples, IntLeq())
    requires 1 <= t <= |sorted| <= MAX_INT64 && FirstReaching(bs, t, 0) < |bs|
    ensures Within(bs[FirstReaching(bs, t, 0)], sorted[t - 1])
  {
    PermutationLength(sorted, samples);
    TotalIsLength(samples, bs);
    CountsFit(bs);
    var k := FirstReaching(bs, t, 0);
    var x := sorted[t - 1];
    ReachedBy(samples, sorted, bs, k, t);
    PermutationMember(sorted, samples, x);
    var i :| 0 <= i < |samples| && samples[i] == x;
    assert Covered(bs, samples[i]);
    var h :| 0 <= h < |bs| && Within(bs[h], x);
    if k > 0 {
      ReachedBy(samples, sorted, bs, k - 1, t);
    }
  }

  lemma {:induction false} ReachedBy(samples: seq<int>, sorted: seq<int>, bs: seq<Bucket>, k: nat, t: int)
    requires Ordered(bs) && CountedInto(samples, bs)
    requires SortedPermutation(sorted, samples, IntLeq())
    requires 1 <= t <= |sorted| && k < |bs|
    ensures sorted[t - 1] <= bs[k].high <==> t <= Cumulative(bs, k + 1)
  {
    AtMostIsCumulative(samples, bs, k);
    CountPermutation(sorted, samples, y => y <= bs[k].high);
    SortedPrefix(sorted, bs[k].high, t - 1);
  }

  lemma {:induction false} RankRoundsUp(n: int, pct: real, t: int)
    requires RoundsUp(n, pct, t)
    ensures Rank(n, pct) == t
  {}

  /** Bucket `k` holds the sample `x`, its midpoint `r` is reported, and that is off by at most half
      the width of the bucket if and only if the bounds add up to an int64. */
  ghost predicate Reports(bs: seq<Bucket>, k: int, x: int, r: real) {
    && 0 <= k < |bs| && bs[k].low <= x <= bs[k].high
    && r == Midpoint(bs[k])
    && (0 <= bs[k].low && bs[k].high <= 0x7FFF_FFFF_FFFF_FFFF ==>
          (-((bs[k].high - bs[k].low) as real) / 2.0 <= x as real - r <= (bs[k].high - bs[k].low) as real / 2.0 <==>
           bs[k].low + bs[k].high <= 0x7FFF_FFFF_FFFF_FFFF))
  }

  ghost predicate ReportedFrom(bs: seq<Bucket>, x: int, r: real) { exists k :: Reports(bs, k, x, r) }

  /** For t = ceil(n*p), computePercentile reports the bucket that holds the t-th smallest sample. */
  lemma {:induction false} PercentileRefinement(samples: seq<int>, sorted: seq<int>, bs: seq<Bucket>, pct: real, t: int)
    requires 0 < |samples| <= MAX_INT64 && 0.0 < pct <= 1.0
    requires Ordered(bs) && CountedInto(samples, bs)
    requires SortedPermutation(sorted, samples, IntLeq())
    requires (t - 1) as real < |samples| as real * pct <= t as real
    ensures Total(bs) == |samples| == |sorted| && 1 <= t <= |samples|
    ensures ReportedFrom(bs, sorted[t - 1], Percentile(bs, |samples|, pct))
  {
    hide Midpoint, Rank;
    PermutationLength(sorted, samples);
    assert Covered(bs, samples[0]);
    TotalIsLength(samples, bs);
    RankBounds(|samples|, pct);
    RankRoundsUp(|samples|, pct, t);
    assert NonNegative(bs);
    CountsFit(bs);
    FallThroughUnreachable(bs, pct);
    RankedSample(samples, sorted, bs, t);
    var k := FirstReaching(bs, t, 0);
    if 0 <= bs[k].low && bs[k].high <= MAX_INT64 { MidpointIs(bs[k]); }
    assert Reports(bs, k, sorted[t - 1], Percentile(bs, |samples|, pct));
  }

  /** The four percentiles of a histogram, in whole numbers of samples: each is reported from the
      bucket that holds the sample of its rank. */
  lemma {:induction false} StatsRefinement(
    samples: seq<int>, sorted: seq<int>, bs: seq<Bucket>, name: string, unit: string, a: int, b: int, c: int, d: int)
    requires 0 < |samples| <= MAX_INT64 && Ordered(bs) && CountedInto(samples, bs)
    requires SortedPermutation(sorted, samples, IntLeq())
    requires 2 * (a - 1) < |samples| <= 2 * a && 10 * (b - 1) < 9 * |samples| <= 10 * b
    requires 100 * (c - 1) < 99 * |samples| <= 100 * c && 1000 * (d - 1) < 999 * |samples| <= 1000 * d
    ensures |sorted| == |samples| && 1 <= a <= b <= c <= d <= |samples|
    ensures var h := Stats(name, unit, bs);
            && h.name == name && h.unit == unit && h.buckets == bs && h.totalCount == |samples|
            && ReportedFrom(bs, sorted[a - 1], h.p50)
            && ReportedFrom(bs, sorted[b - 1], h.p90)
            && ReportedFrom(bs, sorted[c - 1], h.p99)
            && ReportedFrom(bs, sorted[d - 1], h.p999)
            && |bs| > 0 && h.max == bs[|bs| - 1].high as real
            && h.max >= sorted[|samples| - 1] as real
  {
    hide Percentile, ReportedFrom, Total, CountedInto, Ordered, SortedPermutation, Stats;
    WholeRanks(|samples|, a, b, c, d);
    StatsFields(name, unit, bs);
    PercentileRefinement(samples, sorted, bs, 0.5, a);
    PercentileRefinement(samples, sorted, bs, 0.9, b);
    PercentileRefinement(samples, sorted, bs, 0.99, c);
    PercentileRefinement(samples, sorted, bs, 0.999, d);
    LastBounds(samples, sorted, bs);
  }

  lemma {:induction false} StatsFields(name: string, unit: string, bs: seq<Bucket>)
    ensures var h, n := Stats(name, unit, bs), Total(bs);
            && h.name == name && h.unit == unit && h.buckets == bs
            && h.max == (if bs == [] then 0.0 else bs[|bs| - 1].high as real)
            && (0 <= n <= MAX_INT64 ==>
                  && h.totalCount == n && h.p50 == Percentile(bs, n, 0.5) && h.p90 == Percentile(bs, n, 0.9)
                  && h.p99 == Percentile(bs, n, 0.99) && h.p999 == Percentile(bs, n, 0.999))
  {
    hide Percentile, Total, Mean;
  }

  lemma {:induction false} WholeRanks(n: int, a: int, b: int, c: int, d: int)
    requires 2 * (a - 1) < n <= 2 * a && 10 * (b - 1) < 9 * n <= 10 * b
    requires 100 * (c - 1) < 99 * n <= 100 * c && 1000 * (d - 1) < 999 * n <= 1000 * d
    ensures (a - 1) as real < n as real * 0.5 <= a as real && (b - 1) as real < n as real * 0.9 <= b as real
    ensures (c - 1) as real < n as real * 0.99 <= c as real && (d - 1) as real < n as real * 0.999 <= d as real
  {}

  lemma {:induction false} LastBounds(samples: seq<int>, sorted: seq<int>, bs: seq<Bucket>)
    requires 0 < |samples| == |sorted| && Ordered(bs) && CountedInto(samples, bs)
    requires SortedPermutation(sorted, samples, IntLeq())
    ensures |bs| > 0 && sorted[|sorted| - 1] <= bs[|bs| - 1].high
  {
    var x := sorted[|sorted| - 1];
    PermutationMember(sorted, samples, x);
    var i :| 0 <= i < |samples| && samples[i] == x;
    assert Covered(bs, samples[i]);
    var k :| 0 <= k < |bs| && Within(bs[k], x);
    assert k < |bs| - 1 ==> bs[k].high < bs[|bs| - 1].low;
  }

  lemma {:induction false} TotalIsLength(samples: seq<int>, bs: seq<Bucket>)
    requires bs != [] && Ordered(bs) && CountedInto(samples, bs)
    ensures Total(bs) == |samples|
  {
    var last := bs[|bs| - 1].high;
    AtMostIsCumulative(samples, bs, |bs| - 1);
    forall i | 0 <= i < |samples| ensures samples[i] <= last {
      var k :| 0 <= k < |bs| && Within(bs[k], samples[i]);
      assert k < |bs| - 1 ==> bs[k].high < bs[|bs| - 1].low;
    }
    AllAtMost(samples, last);
  }

  lemma {:induction false} AllAtMost(s: seq<int>, x: int)
    requires forall i :: 0 <= i < |s| ==> s[i] <= x
    ensures AtMost(s, x) == |s|
  {
    if s != [] { AllAtMost(s[1..], x); }
  }

  function Pow2(k: nat): (p: nat)
    ensures p >= 1
  {
    if k == 0 then 1 else 2 * Pow2(k - 1)
  }

  /** BCC's log2 bucket. */
  predicate PowerOfTwoBucket(b: Bucket, k: nat) {
    b.low == Pow2(k) && b.high == Pow2(k + 1) - 1
  }

  /** On log2 buckets the true quantile lies strictly between 2/3 and 4/3 of the reported one, if
      and only if the bucket it falls in is not the last that an int64 can bound. */
  lemma {:induction false} PercentileWithinThirdIff(
    samples: seq<int>, sorted: seq<int>, bs: seq<Bucket>, pct: real, t: int, k: nat, e: nat)
    requires 0 < |samples| <= MAX_INT64 && 0.0 < pct <= 1.0
    requires Ordered(bs) && CountedInto(samples, bs)
    requires SortedPermutation(sorted, samples, IntLeq())
    requires (t - 1) as real < |samples| as real * pct <= t as real && 1 <= t <= |sorted|
    requires k < |bs| && Within(bs[k], sorted[t - 1]) && 1 <= e <= 62 && PowerOfTwoBucket(bs[k], e)
    ensures var r := Percentile(bs, |samples|, pct);
            (r * 2.0 / 3.0 < sorted[t - 1] as real < r * 4.0 / 3.0) <==> e <= 61
  {
    hide Midpoint, Percentile;
    PercentileRefinement(samples, sorted, bs, pct, t);
    var j :| Reports(bs, j, sorted[t - 1], Percentile(bs, |samples|, pct));
    OneBucket(bs, j, k, sorted[t - 1]);
    Pow2At62();
    Pow2Grows(e, 62);
    if e <= 61 { Pow2Grows(e, 61); }
    assert Pow2(62) == 2 * Pow2(61);
    MidpointIs(bs[k]);
  }

  /** Buckets do not overlap. */
  lemma {:induction false} OneBucket(bs: seq<Bucket>, j: nat, k: nat, x: int)
    requires Ordered(bs) && j < |bs| && k < |bs| && Within(bs[j], x) && Within(bs[k], x)
    ensures j == k
  {}

  lemma {:induction false} Pow2Grows(a: nat, b: nat)
    requires a <= b
    ensures Pow2(a) <= Pow2(b)
  {
    if a < b { Pow2Grows(a, b - 1); }
  }
}
