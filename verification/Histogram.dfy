/** The histogram of recommender/util/histogram.go: bucket weights, their total, and the range
    of the buckets that count as non-empty, over the real numbers. */
module Histogram {
  import opened Arithmetic
  import opened HistogramOptions

  datatype Hist = Hist(weights: seq<real>, total: real, min: nat, max: nat)

  /** The sizes agree and no weight is negative. */
  ghost predicate Sized(o: Options, h: Hist) {
    && Valid(o) && |h.weights| == o.numBuckets && h.min < |h.weights| && h.max < |h.weights|
    && h.total >= 0.0 && forall b :: 0 <= b < |h.weights| ==> h.weights[b] >= 0.0
  }

  /** Every bucket outside the range counts as empty. */
  ghost predicate Ranged(o: Options, h: Hist) {
    forall b :: 0 <= b < |h.weights| && (b < h.min || b > h.max) ==> h.weights[b] < o.epsilon
  }

  /** The range starts and ends with a bucket that is not empty, if there is one. */
  ghost predicate Tight(o: Options, h: Hist)
    requires Sized(o, h)
  {
    (h.weights[h.min] >= o.epsilon || h.min == |h.weights| - 1) && (h.weights[h.max] >= o.epsilon || h.max == 0)
  }

  ghost predicate HistInv(o: Options, h: Hist) {
    Sized(o, h) && Ranged(o, h) && Tight(o, h)
  }

  function Fresh(o: Options): Hist
    requires Valid(o)
  {
    Hist(seq(o.numBuckets, i => 0.0), 0.0, o.numBuckets - 1, 0)
  }

  function Added(o: Options, h: Hist, b: nat, weight: real): Hist
    requires b < |h.weights|
  {
    var w := h.weights[b] + weight;
    Hist(h.weights[b := w], h.total + weight,
      if b < h.min && w >= o.epsilon then b else h.min,
      if b > h.max && w >= o.epsilon then b else h.max)
  }

  function SafeSubtract(value: real, sub: real, epsilon: real): real {
    if value - sub < epsilon then 0.0 else value - sub
  }

  /** The loops of updateMinAndMaxBucket. */
  function FirstFrom(weights: seq<real>, epsilon: real, min: nat): (r: nat)
    requires min < |weights|
    ensures min <= r < |weights|
    ensures forall b :: min <= b < r ==> weights[b] < epsilon
    ensures weights[r] >= epsilon || r == |weights| - 1
    decreases |weights| - min
  {
    if weights[min] < epsilon && min < |weights| - 1 then FirstFrom(weights, epsilon, min + 1) else min
  }

  function LastFrom(weights: seq<real>, epsilon: real, max: nat): (r: nat)
    requires max < |weights|
    ensures r <= max
    ensures forall b :: r < b <= max ==> weights[b] < epsilon
    ensures weights[r] >= epsilon || r == 0
  {
    if weights[max] < epsilon && max > 0 then LastFrom(weights, epsilon, max - 1) else max
  }

  function Tightened(o: Options, h: Hist): Hist
    requires h.min < |h.weights| && h.max < |h.weights|
  {
    h.(min := FirstFrom(h.weights, o.epsilon, h.min), max := LastFrom(h.weights, o.epsilon, h.max))
  }

  function Subtracted(o: Options, h: Hist, b: nat, weight: real): Hist
    requires b < |h.weights| && h.min < |h.weights| && h.max < |h.weights|
  {
    Tightened(o, h.(
      weights := h.weights[b := SafeSubtract(h.weights[b], weight, o.epsilon)],
      total := SafeSubtract(h.total, weight, o.epsilon)))
  }

  /** All weights of the range times a factor. */
  function Scaled(o: Options, h: Hist, factor: real): Hist
    requires h.min < |h.weights| && h.max < |h.weights|
  {
    Tightened(o, h.(weights := ScaledWeights(h, factor), total := Mul(h.total, factor)))
  }

  function ScaledWeights(h: Hist, factor: real): (w: seq<real>)
    ensures |w| == |h.weights|
  {
    seq(|h.weights|, b requires 0 <= b < |h.weights| =>
      if h.min <= b <= h.max then Mul(h.weights[b], factor) else h.weights[b])
  }

  /** The range of another histogram added. */
  function Merged(h: Hist, g: Hist): Hist
    requires |h.weights| == |g.weights|
  {
    Hist(
      seq(|h.weights|, b requires 0 <= b < |h.weights| =>
        if g.min <= b <= g.max then h.weights[b] + g.weights[b] else h.weights[b]),
      h.total + g.total,
      if g.min < h.min then g.min else h.min,
      if g.max > h.max then g.max else h.max)
  }

  predicate Empty(o: Options, h: Hist)
    requires h.min < |h.weights|
  {
    h.weights[h.min] < o.epsilon
  }

  /** The weight of the buckets from `from` up to `to`, without `to`. */
  function SumOf(weights: seq<real>, from: nat, to: nat): real
    requires to <= |weights|
  {
    if to <= from then 0.0 else SumOf(weights, from, to - 1) + weights[to - 1]
  }

  /** The bucket at which the partial sums reach the threshold, or the last of the range. */
  function PercentileFrom(h: Hist, threshold: real, b: nat): (r: nat)
    requires b < |h.weights| && h.max < |h.weights| && h.min <= b
    ensures b <= r < |h.weights| && (b <= h.max ==> r <= h.max)
    decreases h.max - b
  {
    if b < h.max && SumOf(h.weights, h.min, b + 1) < threshold then PercentileFrom(h, threshold, b + 1) else b
  }

  function Percentile(o: Options, h: Hist, percentile: real): real
    requires Valid(o) && |h.weights| == o.numBuckets && h.min < |h.weights| && h.max < |h.weights|
  {
    ValueAt(o, h, Mul(percentile, h.total))
  }

  /** The value at which the partial sums reach a threshold. */
  function ValueAt(o: Options, h: Hist, threshold: real): real
    requires Valid(o) && |h.weights| == o.numBuckets && h.min < |h.weights| && h.max < |h.weights|
  {
    if Empty(o, h) then 0.0 else BucketEnd(o, PercentileFrom(h, threshold, h.min))
  }

  /** The end of a bucket, and the start of the last one, which has no end. */
  function BucketEnd(o: Options, b: nat): real
    requires Valid(o)
  {
    if b < o.numBuckets - 1 then BucketStart(o, b + 1) else BucketStart(o, b)
  }

  // ---------- What the operations keep ----------

  lemma FreshInv(o: Options)
    requires Valid(o)
    ensures HistInv(o, Fresh(o))
  {
  }

  lemma AddedInv(o: Options, h: Hist, b: nat, weight: real)
    requires HistInv(o, h) && b < |h.weights| && weight >= 0.0
    ensures HistInv(o, Added(o, h, b, weight))
  {
  }

  lemma SubtractedInv(o: Options, h: Hist, b: nat, weight: real)
    requires HistInv(o, h) && b < |h.weights| && weight >= 0.0
    ensures HistInv(o, Subtracted(o, h, b, weight))
  {
  }

  lemma ScaledInv(o: Options, h: Hist, factor: real)
    requires HistInv(o, h) && factor >= 0.0
    ensures HistInv(o, Scaled(o, h, factor))
  {
    ScaledWeightsArePositive(o, h, factor);
  }

  lemma ScaledWeightsArePositive(o: Options, h: Hist, factor: real)
    requires Sized(o, h) && factor >= 0.0
    ensures Mul(h.total, factor) >= 0.0
    ensures forall b :: 0 <= b < |h.weights| ==> ScaledWeights(h, factor)[b] >= 0.0
  {
    forall b | 0 <= b < |h.weights| ensures ScaledWeights(h, factor)[b] >= 0.0 {
      Product(h.weights[b], factor);
    }
    Product(h.total, factor);
  }

  lemma MergedInv(o: Options, h: Hist, g: Hist)
    requires HistInv(o, h) && HistInv(o, g)
    ensures HistInv(o, Merged(h, g))
  {
  }

  /** A histogram is empty exactly when all its buckets are. */
  lemma EmptyMeansEmpty(o: Options, h: Hist)
    requires HistInv(o, h)
    ensures Empty(o, h) <==> forall b :: 0 <= b < |h.weights| ==> h.weights[b] < o.epsilon
  {
  }

  /** Subtracting a sample that was just added, heavy enough to count, takes it back. */
  lemma SubtractUndoesAdd(o: Options, h: Hist, b: nat, weight: real)
    requires HistInv(o, h) && b < |h.weights| && weight >= 0.0
    requires h.weights[b] >= o.epsilon || h.weights[b] == 0.0
    requires h.total >= o.epsilon || h.total == 0.0
    ensures Subtracted(o, Added(o, h, b, weight), b, weight) == h
  {
    hide FirstFrom, LastFrom;
    var k := Added(o, h, b, weight);
    assert k.weights[b] - weight == h.weights[b] && k.total - weight == h.total;
    assert k.weights[b := h.weights[b]] == h.weights;
    RangeIsFound(o, h, k.min, k.max);
  }

  /** From a wider range the loops come back to the range of a histogram. */
  lemma RangeIsFound(o: Options, h: Hist, min: nat, max: nat)
    requires HistInv(o, h) && min <= h.min && h.max <= max < |h.weights|
    ensures FirstFrom(h.weights, o.epsilon, min) == h.min && LastFrom(h.weights, o.epsilon, max) == h.max
  {
    hide FirstFrom, LastFrom;
  }

  // ---------- Percentiles ----------

  lemma {:induction false} SumGrows(weights: seq<real>, from: nat, a: nat, b: nat)
    requires a <= b <= |weights| && forall i :: 0 <= i < |weights| ==> weights[i] >= 0.0
    ensures 0.0 <= SumOf(weights, from, a) <= SumOf(weights, from, b)
    decreases b
  {
    if a < b {
      SumGrows(weights, from, a, b - 1);
    } else if a > 0 {
      SumGrows(weights, from, a - 1, a - 1);
    }
  }

  /** The bucket is the first of the range whose partial sum reaches the threshold. */
  lemma {:induction false} PercentileIsFirst(h: Hist, threshold: real, b: nat)
    requires b < |h.weights| && h.max < |h.weights| && h.min <= b
    ensures var r := PercentileFrom(h, threshold, b);
      && (r < h.max ==> SumOf(h.weights, h.min, r + 1) >= threshold)
      && forall k :: b < k <= r ==> SumOf(h.weights, h.min, k) < threshold
    decreases h.max - b
  {
    if b < h.max && SumOf(h.weights, h.min, b + 1) < threshold { PercentileIsFirst(h, threshold, b + 1); }
  }

  lemma {:induction false} PercentileFollows(h: Hist, s: real, t: real, b: nat)
    requires b < |h.weights| && h.max < |h.weights| && h.min <= b && s <= t
    ensures PercentileFrom(h, s, b) <= PercentileFrom(h, t, b)
    decreases h.max - b
  {
    if b < h.max && SumOf(h.weights, h.min, b + 1) < s { PercentileFollows(h, s, t, b + 1); }
  }

  lemma ValuesIncrease(o: Options, h: Hist, s: real, t: real)
    requires Sized(o, h) && s <= t
    ensures 0.0 <= ValueAt(o, h, s) <= ValueAt(o, h, t)
  {
    if !Empty(o, h) {
      PercentileFollows(h, s, t, h.min);
      BucketEndsIncrease(o, PercentileFrom(h, s, h.min), PercentileFrom(h, t, h.min));
    }
  }

  /** The weight of two ranges is that of both together, and that of one bucket is its own. */
  lemma {:induction false} SumSplits(weights: seq<real>, from: nat, mid: nat, end: nat)
    requires from <= mid <= end <= |weights|
    ensures SumOf(weights, from, end) == SumOf(weights, from, mid) + SumOf(weights, mid, end)
    ensures end == from + 1 ==> SumOf(weights, from, end) == weights[from]
    decreases end
  {
    if mid < end { SumSplits(weights, from, mid, end - 1); }
  }

  /** The percentile of an empty histogram is 0. */
  lemma EmptyPercentile(o: Options, h: Hist, p: real)
    requires HistInv(o, h) && forall b :: 0 <= b < |h.weights| ==> h.weights[b] < o.epsilon
    ensures Percentile(o, h, p) == 0.0
  {
    EmptyMeansEmpty(o, h);
  }

  /** Otherwise it is the end of a bucket of the range, or the start if that is the last bucket of
      all. The weight of the range up to this bucket reaches the part p of the total, and
      without it does not; only the last bucket of the range is taken without reaching it. */
  lemma PercentileSplits(o: Options, h: Hist, p: real, full: nat) returns (b: nat)
    requires HistInv(o, h) && full < |h.weights| && h.weights[full] >= o.epsilon
    ensures h.min <= b <= h.max
    ensures Percentile(o, h, p) == BucketStart(o, if b + 1 < o.numBuckets then b + 1 else b)
    ensures b < h.max ==> SumOf(h.weights, h.min, b + 1) >= Mul(p, h.total)
    ensures b > h.min ==> SumOf(h.weights, h.min, b) < Mul(p, h.total)
  {
    EmptyMeansEmpty(o, h);
    b := PercentileFrom(h, Mul(p, h.total), h.min);
    PercentileIsFirst(h, Mul(p, h.total), h.min);
  }

  /** A higher percentile is never a smaller value. */
  lemma PercentileIsMonotone(o: Options, h: Hist, p: real, q: real)
    requires Sized(o, h) && p <= q
    ensures 0.0 <= Percentile(o, h, p) <= Percentile(o, h, q)
  {
    ScaleThreshold(p, q, h.total);
    ValuesIncrease(o, h, Mul(p, h.total), Mul(q, h.total));
  }

  lemma BucketEndsIncrease(o: Options, a: nat, b: nat)
    requires Valid(o) && a <= b
    ensures 0.0 <= BucketEnd(o, a) <= BucketEnd(o, b)
  {
    var i := if a < o.numBuckets - 1 then a + 1 else a;
    var j := if b < o.numBuckets - 1 then b + 1 else b;
    StartsAreOrdered(o, 0, i);
    if i <= j { StartsAreOrdered(o, i, j); }
  }

  lemma ScaleThreshold(p: real, q: real, total: real)
    requires p <= q && total >= 0.0
    ensures Mul(p, total) <= Mul(q, total)
  {
  }

  lemma SameOrder(a: real, b: real, factor: real)
    requires factor > 0.0
    ensures a < b <==> Mul(a, factor) < Mul(b, factor)
  {
  }

  lemma PercentileIs(o: Options, h: Hist, p: real, threshold: real)
    requires Valid(o) && |h.weights| == o.numBuckets && h.min < |h.weights| && h.max < |h.weights|
    requires threshold == Mul(p, h.total)
    ensures Percentile(o, h, p) == ValueAt(o, h, threshold)
  {
  }

  // ---------- The object ----------

  class Histogram {
    const options: Options
    const bucketWeight: array<real>
    var totalWeight: real
    var minBucket: nat
    var maxBucket: nat

    constructor (options: Options)
      requires HistogramOptions.Valid(options)
      ensures Valid() && fresh(bucketWeight) && View() == Fresh(options) && this.options == options
    {
      this.options := options;
      bucketWeight := new real[options.numBuckets](i => 0.0);
      totalWeight, minBucket, maxBucket := 0.0, options.numBuckets - 1, 0;
      new;
      assert bucketWeight[..] == Fresh(options).weights;
    }

    ghost predicate Valid()
      reads this, bucketWeight
    {
      Sized(options, View())
    }

    ghost function View(): Hist
      reads this, bucketWeight
    {
      Hist(bucketWeight[..], totalWeight, minBucket, maxBucket)
    }

    /** A negative weight panics in the source. */
    method AddSample(value: real, weight: real)
      requires Valid() && weight >= 0.0
      modifies this`totalWeight, this`minBucket, this`maxBucket, bucketWeight
      ensures Valid()
      ensures View() == Added(options, old(View()), FindBucket(options, value), weight)
      ensures totalWeight == old(totalWeight) + weight
      ensures forall b :: 0 <= b < bucketWeight.Length ==>
        bucketWeight[b] == old(bucketWeight[b]) + if b == FindBucket(options, value) then weight else 0.0
    {
      var bucket := FindBucket(options, value);
      bucketWeight[bucket] := bucketWeight[bucket] + weight;
      totalWeight := totalWeight + weight;
      if bucket < minBucket && bucketWeight[bucket] >= options.epsilon {
        minBucket := bucket;
      }
      if bucket > maxBucket && bucketWeight[bucket] >= options.epsilon {
        maxBucket := bucket;
      }
    }

    method SubtractSample(value: real, weight: real)
      requires Valid() && weight >= 0.0
      modifies this`totalWeight, this`minBucket, this`maxBucket, bucketWeight
      ensures Valid()
      ensures View() == Subtracted(options, old(View()), FindBucket(options, value), weight)
      ensures totalWeight ==
        if old(totalWeight) - weight >= options.epsilon then old(totalWeight) - weight else 0.0
      ensures forall b :: 0 <= b < bucketWeight.Length ==>
        bucketWeight[b] ==
          if b != FindBucket(options, value) then old(bucketWeight[b])
          else if old(bucketWeight[b]) - weight >= options.epsilon then old(bucketWeight[b]) - weight
          else 0.0
    {
      var bucket := FindBucket(options, value);
      totalWeight := SafeSubtract(totalWeight, weight, options.epsilon);
      bucketWeight[bucket] := SafeSubtract(bucketWeight[bucket], weight, options.epsilon);
      UpdateMinAndMaxBucket();
    }

    method UpdateMinAndMaxBucket()
      requires Valid()
      modifies this`minBucket, this`maxBucket
      ensures Valid() && View() == Tightened(options, old(View()))
    {
      ghost var weights := bucketWeight[..];
      while bucketWeight[minBucket] < options.epsilon && minBucket < bucketWeight.Length - 1
        modifies this`minBucket
        invariant minBucket < bucketWeight.Length
        invariant FirstFrom(weights, options.epsilon, minBucket) == FirstFrom(weights, options.epsilon, old(minBucket))
        decreases bucketWeight.Length - minBucket
      {
        minBucket := minBucket + 1;
      }
      while bucketWeight[maxBucket] < options.epsilon && maxBucket > 0
        modifies this`maxBucket
        decreases maxBucket
        invariant maxBucket < bucketWeight.Length
        invariant LastFrom(weights, options.epsilon, maxBucket) == LastFrom(weights, options.epsilon, old(maxBucket))
      {
        maxBucket := maxBucket - 1;
      }
    }

    method Merge(other: Histogram)
      requires Valid() && other.Valid() && options == other.options
      requires other != this && other.bucketWeight != bucketWeight
      modifies this`totalWeight, this`minBucket, this`maxBucket, bucketWeight
      ensures Valid() && View() == Merged(old(View()), other.View())
      ensures totalWeight == old(totalWeight) + other.totalWeight
      ensures forall b :: 0 <= b < bucketWeight.Length ==>
        bucketWeight[b] == old(bucketWeight[b])
          + if other.minBucket <= b <= other.maxBucket then other.bucketWeight[b] else 0.0
    {
      ghost var before, merged := bucketWeight[..], Merged(View(), other.View()).weights;
      var bucket: int := other.minBucket;
      while bucket <= other.maxBucket
        modifies bucketWeight
        invariant other.minBucket <= bucket
        invariant bucket <= other.maxBucket + 1 || bucket == other.minBucket
        invariant forall b :: 0 <= b < bucketWeight.Length ==>
          bucketWeight[b] == if b < bucket then merged[b] else before[b]
      {
        bucketWeight[bucket] := bucketWeight[bucket] + other.bucketWeight[bucket];
        bucket := bucket + 1;
      }
      assert bucketWeight[..] == merged;
      totalWeight := totalWeight + other.totalWeight;
      if other.minBucket < minBucket {
        minBucket := other.minBucket;
      }
      if other.maxBucket > maxBucket {
        maxBucket := other.maxBucket;
      }
    }

    method PercentileOf(percentile: real) returns (value: real)
      requires Valid()
      ensures value == Percentile(options, View(), percentile)
    {
      if bucketWeight[minBucket] < options.epsilon {
        return 0.0;
      }
      ghost var h := View();
      var partialSum := 0.0;
      var threshold := Mul(percentile, totalWeight);
      var bucket := minBucket;
      while bucket < maxBucket
        invariant minBucket <= bucket < bucketWeight.Length
        invariant partialSum == SumOf(h.weights, h.min, bucket)
        invariant PercentileFrom(h, threshold, bucket) == PercentileFrom(h, threshold, h.min)
        decreases maxBucket - bucket
      {
        partialSum := partialSum + bucketWeight[bucket];
        if partialSum >= threshold {
          break;
        }
        bucket := bucket + 1;
      }
      assert bucket == PercentileFrom(h, threshold, h.min);
      PercentileIs(options, h, percentile, threshold);
      if bucket < options.numBuckets - 1 {
        return BucketStart(options, bucket + 1);
      }
      return BucketStart(options, bucket);
    }

    method ScaleRange(factor: real)
      requires Valid()
      modifies bucketWeight
      ensures bucketWeight[..] == ScaledWeights(old(View()), factor)
    {
      ghost var before, scaled := bucketWeight[..], ScaledWeights(View(), factor);
      var bucket: int := minBucket;
      while bucket <= maxBucket
        invariant minBucket <= bucket && (bucket <= maxBucket + 1 || bucket == minBucket)
        invariant forall b :: 0 <= b < bucketWeight.Length ==>
          bucketWeight[b] == if b < bucket then scaled[b] else before[b]
      {
        bucketWeight[bucket] := Mul(bucketWeight[bucket], factor);
        bucket := bucket + 1;
      }
    }

    /** A negative factor panics in the source. */
    method Scale(factor: real)
      requires Valid() && factor >= 0.0
      modifies this`totalWeight, this`minBucket, this`maxBucket, bucketWeight
      ensures Valid() && View() == Scaled(options, old(View()), factor)
      ensures totalWeight == Mul(old(totalWeight), factor)
      ensures forall b :: 0 <= b < bucketWeight.Length ==>
        bucketWeight[b] ==
          if old(minBucket) <= b <= old(maxBucket) then Mul(old(bucketWeight[b]), factor) else old(bucketWeight[b])
    {
      ScaledWeightsArePositive(options, View(), factor);
      ScaleRange(factor);
      totalWeight := Mul(totalWeight, factor);
      UpdateMinAndMaxBucket();
    }
  }
}
