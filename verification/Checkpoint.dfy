/** Saving a histogram to a checkpoint and loading it, in recommender/util/histogram.go. */
module Checkpoint {
  import opened Arithmetic
  import opened Wrappers
  import opened HistogramOptions
  import opened Histogram

  const MAX_CHECKPOINT_WEIGHT: int := 10000

  datatype Saved = Saved(totalWeight: real, bucketWeights: map<int, nat>)

  /** The largest weight of the buckets from `from` up to `to`, without `to`; at least 0. */
  function MaxWeight(weights: seq<real>, from: nat, to: nat): (m: real)
    requires to <= |weights|
    ensures m >= 0.0 && forall b :: from <= b < to ==> weights[b] <= m
    ensures m > 0.0 ==> exists b :: from <= b < to && weights[b] == m
  {
    if to <= from then 0.0
    else
      var m := MaxWeight(weights, from, to - 1);
      if weights[to - 1] > m then weights[to - 1] else m
  }

  function RangeMax(h: Hist): real
    requires h.max < |h.weights|
  {
    MaxWeight(h.weights, h.min, h.max + 1)
  }

  /** What a weight is multiplied with, so that the largest one becomes the maximum. */
  function SaveRatio(max: real): real
    requires max > 0.0
  {
    MAX_CHECKPOINT_WEIGHT as real / max
  }

  /** The weight that a bucket gets in the checkpoint. */
  function SavedWeight(h: Hist, b: nat): int
    requires b < |h.weights| && h.max < |h.weights| && RangeMax(h) > 0.0
  {
    Rounded(Mul(h.weights[b], SaveRatio(RangeMax(h))))
  }

  /** SaveToChekpoint, for a histogram with some weight in its range; without any the source
      divides by zero. */
  function Save(h: Hist): Saved
    requires h.max < |h.weights| && RangeMax(h) > 0.0
  {
    Saved(h.total, map b: int | h.min <= b <= h.max && SavedWeight(h, b) > 0 :: SavedWeight(h, b))
  }

  // ---------- Loading ----------

  function WeightAt(m: map<int, nat>, b: int): nat {
    if b in m then m[b] else 0
  }

  /** The sum of the weights of the first n buckets that are in a set. */
  function SumIn(m: map<int, nat>, done: set<int>, n: nat): nat {
    if n == 0 then 0 else SumIn(m, done, n - 1) + if n - 1 in done then WeightAt(m, n - 1) else 0
  }

  predicate InRange(m: map<int, nat>, n: nat) {
    forall b :: b in m ==> 0 <= b < n
  }

  /** A bucket joins the set of those counted. */
  lemma {:induction false} SumWithOneMore(m: map<int, nat>, done: set<int>, n: nat, b: nat)
    requires b !in done && b < n
    ensures SumIn(m, done + {b}, n) == SumIn(m, done, n) + WeightAt(m, b)
  {
    if b == n - 1 {
      SumBelow(m, done, b, n - 1);
    } else {
      SumWithOneMore(m, done, n - 1, b);
    }
  }

  lemma {:induction false} SumBelow(m: map<int, nat>, done: set<int>, b: nat, n: nat)
    requires n <= b
    ensures SumIn(m, done + {b}, n) == SumIn(m, done, n)
  {
    if n > 0 { SumBelow(m, done, b, n - 1); }
  }

  /** The weight that one unit of the checkpoint stands for. */
  function LoadRatio(c: Saved, n: nat): real
    requires SumIn(c.bucketWeights, c.bucketWeights.Keys, n) > 0
  {
    c.totalWeight / SumIn(c.bucketWeights, c.bucketWeights.Keys, n) as real
  }

  /** The result of loading a valid checkpoint whose weights do not sum to zero. */
  function Loaded(h: Hist, c: Saved): Hist
    requires SumIn(c.bucketWeights, c.bucketWeights.Keys, |h.weights|) > 0
  {
    var m := c.bucketWeights;
    var ratio := LoadRatio(c, |h.weights|);
    Hist(
      seq(|h.weights|, b requires 0 <= b < |h.weights| =>
        if b in m then h.weights[b] + Mul(m[b] as real, ratio) else h.weights[b]),
      h.total + c.totalWeight,
      LeastKey(m, 0, h.min), Greatest(m, h.max, |h.weights|))
  }

  /** The least of `min` and the keys between `from` and it. */
  function LeastKey(m: map<int, nat>, from: nat, min: nat): (r: nat)
    ensures from <= min ==> from <= r <= min && (r in m || r == min) && forall b :: from <= b < r ==> b !in m
    decreases min - from
  {
    if from >= min || from in m then from else LeastKey(m, from + 1, min)
  }

  /** The greatest of `max` and the keys below n. */
  function Greatest(m: map<int, nat>, max: nat, n: nat): (r: nat)
    ensures r >= max && (r in m || r == max) && (r < n || r == max)
    ensures forall b :: r < b < n ==> b !in m
  {
    if n == 0 || n - 1 <= max then max
    else if n - 1 in m then n - 1 else Greatest(m, max, n - 1)
  }

  // ---------- The round trip ----------

  lemma RoundedInt(k: int)
    ensures Rounded(k as real) == k
  {
  }

  lemma RoundedBounds(x: real, limit: int)
    requires 0.0 <= x <= limit as real
    ensures 0 <= Rounded(x) <= limit
    ensures -0.5 <= x - Rounded(x) as real <= 0.5
  {
  }

  lemma RatioBounds(w: real, max: real)
    requires 0.0 <= w <= max && max > 0.0
    ensures 0.0 <= Mul(w, SaveRatio(max)) <= MAX_CHECKPOINT_WEIGHT as real
    ensures w == max ==> Mul(w, SaveRatio(max)) == MAX_CHECKPOINT_WEIGHT as real
  {
    var k := MAX_CHECKPOINT_WEIGHT as real;
    assert w * (k / max) == (w / max) * k;
    assert 0.0 <= w / max <= 1.0;
  }

  lemma RatioIs(w: real, max: real)
    requires max > 0.0
    ensures Mul(w, SaveRatio(max)) == 10000.0 * (w / max)
  {
    assert w * (10000.0 / max) == (w / max) * 10000.0;
  }

  /** The checkpoint keeps the total, and for each bucket a weight of at most 10000 that is within
      one half of 10000 times its part of the heaviest one of the range, which gets 10000; and
      nothing for a bucket outside the range. */
  lemma SavedWeightsAreClose(o: Options, h: Hist, b: nat)
    requires Sized(o, h) && RangeMax(h) > 0.0 && b < |h.weights|
    ensures Save(h).totalWeight == h.total
    ensures var w := WeightAt(Save(h).bucketWeights, b);
      if h.min <= b <= h.max then
        && 0 <= w <= 10000 && -0.5 <= 10000.0 * (h.weights[b] / RangeMax(h)) - w as real <= 0.5
        && (h.weights[b] == RangeMax(h) ==> w == 10000)
      else w == 0
  {
    if h.min <= b <= h.max {
      RatioIs(h.weights[b], RangeMax(h));
      RatioBounds(h.weights[b], RangeMax(h));
      RoundedBounds(Mul(h.weights[b], SaveRatio(RangeMax(h))), MAX_CHECKPOINT_WEIGHT);
      RoundedInt(MAX_CHECKPOINT_WEIGHT);
    }
  }

  lemma {:induction false} SumOfLoaded(m: map<int, nat>, ratio: real, weights: seq<real>, n: nat)
    requires n <= |weights|
    requires forall b :: 0 <= b < |weights| ==> weights[b] == if b in m then Mul(m[b] as real, ratio) else 0.0
    ensures SumOf(weights, 0, n) == Mul(SumIn(m, m.Keys, n) as real, ratio)
  {
    if n > 0 {
      SumOfLoaded(m, ratio, weights, n - 1);
      Distribute(SumIn(m, m.Keys, n - 1) as real, WeightAt(m, n - 1) as real, ratio);
    }
  }

  lemma {:induction false} SumAtLeast(m: map<int, nat>, n: nat, b: nat)
    requires b < n && b in m
    ensures SumIn(m, m.Keys, n) >= m[b]
  {
    if b < n - 1 { SumAtLeast(m, n - 1, b); }
  }

  lemma Inverse(c: real, r: real, top: real)
    requires r > 0.0 && top == MAX_CHECKPOINT_WEIGHT as real
    ensures Mul(top, r) > 0.0 && Mul(Mul(c, r), SaveRatio(Mul(top, r))) == c
  {
    assert top / (top * r) == 1.0 / r;
    assert (c * r) * (1.0 / r) == c;
  }

  /** What is saved has a bucket of the maximum weight, and no key outside the range. */
  lemma SavedShape(o: Options, h: Hist) returns (top: nat)
    requires Sized(o, h) && RangeMax(h) > 0.0
    ensures var m := Save(h).bucketWeights;
      && h.min <= top <= h.max && top in m && m[top] == MAX_CHECKPOINT_WEIGHT
      && (forall b :: b in m ==> h.min <= b <= h.max && 0 < m[b] <= MAX_CHECKPOINT_WEIGHT)
      && SumIn(m, m.Keys, |h.weights|) > 0
  {
    top :| h.min <= top <= h.max && h.weights[top] == RangeMax(h);
    var m := Save(h).bucketWeights;
    forall b: nat | h.min <= b <= h.max ensures SavedWeight(h, b) <= MAX_CHECKPOINT_WEIGHT {
      SavedWeightsAreClose(o, h, b);
    }
    SavedWeightsAreClose(o, h, top);
    SumAtLeast(m, |h.weights|, top);
  }

  lemma RatioIsPositive(c: Saved, n: nat)
    requires c.totalWeight > 0.0 && SumIn(c.bucketWeights, c.bucketWeights.Keys, n) > 0
    ensures LoadRatio(c, n) > 0.0
    ensures Mul(SumIn(c.bucketWeights, c.bucketWeights.Keys, n) as real, LoadRatio(c, n)) == c.totalWeight
  {
  }

  /** The histogram that a checkpoint gives when loaded into a fresh one. */
  lemma LoadedShape(o: Options, c: Saved, top: nat, r: real)
    requires Valid(o) && c.totalWeight > 0.0 && InRange(c.bucketWeights, o.numBuckets)
    requires top in c.bucketWeights && c.bucketWeights[top] == MAX_CHECKPOINT_WEIGHT
    requires forall b :: b in c.bucketWeights ==> c.bucketWeights[b] <= MAX_CHECKPOINT_WEIGHT
    requires SumIn(c.bucketWeights, c.bucketWeights.Keys, o.numBuckets) > 0
    requires r == LoadRatio(c, o.numBuckets)
    ensures var m, g := c.bucketWeights, Loaded(Fresh(o), c);
      && |g.weights| == o.numBuckets && g.total == c.totalWeight && g.max < o.numBuckets
      && (forall b :: 0 <= b < o.numBuckets ==> g.weights[b] == if b in m then Mul(m[b] as real, r) else 0.0)
      && (forall b :: b in m ==> g.min <= b <= g.max)
  {
  }

  lemma LoadedMax(o: Options, g: Hist, m: map<int, nat>, top: nat, r: real)
    requires r > 0.0 && |g.weights| == o.numBuckets && g.max < o.numBuckets
    requires top in m && m[top] == MAX_CHECKPOINT_WEIGHT && g.min <= top <= g.max
    requires forall b :: b in m ==> m[b] <= MAX_CHECKPOINT_WEIGHT
    requires forall b :: 0 <= b < o.numBuckets ==> g.weights[b] == if b in m then Mul(m[b] as real, r) else 0.0
    ensures RangeMax(g) == Mul(MAX_CHECKPOINT_WEIGHT as real, r) && RangeMax(g) > 0.0
  {
    Inverse(0.0, r, MAX_CHECKPOINT_WEIGHT as real);
    forall b | b in m ensures Mul(m[b] as real, r) <= Mul(MAX_CHECKPOINT_WEIGHT as real, r) {
      ScaleThreshold(m[b] as real, MAX_CHECKPOINT_WEIGHT as real, r);
    }
    assert g.weights[top] == Mul(MAX_CHECKPOINT_WEIGHT as real, r);
  }

  /** Saving a histogram of that shape gives the weights it was loaded from. */
  lemma SavedAgain(o: Options, g: Hist, m: map<int, nat>, r: real)
    requires r > 0.0 && |g.weights| == o.numBuckets && g.max < o.numBuckets
    requires forall b :: b in m ==> g.min <= b <= g.max && m[b] > 0
    requires forall b :: 0 <= b < o.numBuckets ==> g.weights[b] == if b in m then Mul(m[b] as real, r) else 0.0
    requires RangeMax(g) == Mul(MAX_CHECKPOINT_WEIGHT as real, r) && RangeMax(g) > 0.0
    ensures Save(g).bucketWeights == m
  {
    forall b: nat | g.min <= b <= g.max ensures SavedWeight(g, b) == WeightAt(m, b) {
      Inverse(WeightAt(m, b) as real, r, MAX_CHECKPOINT_WEIGHT as real);
      RoundedInt(WeightAt(m, b));
      NoWeight(r);
    }
  }

  lemma NoWeight(r: real)
    ensures Mul(0.0, r) == 0.0
  {
  }

  /** Saving what was loaded from a saved histogram gives back what was saved, and the loaded
      bucket weights sum exactly to the total. */
  lemma SaveLoadSave(o: Options, h: Hist)
    requires Sized(o, h) && h.total > 0.0 && RangeMax(h) > 0.0
    ensures SumIn(Save(h).bucketWeights, Save(h).bucketWeights.Keys, o.numBuckets) > 0
    ensures var g := Loaded(Fresh(o), Save(h));
      && g.max < |g.weights| == o.numBuckets && RangeMax(g) > 0.0
      && Save(g) == Save(h) && SumOf(g.weights, 0, o.numBuckets) == h.total
  {
    var top := SavedShape(o, h);
    var c := Save(h);
    var m, g, r := c.bucketWeights, Loaded(Fresh(o), c), LoadRatio(c, o.numBuckets);
    RatioIsPositive(c, o.numBuckets);
    LoadedShape(o, c, top, r);
    LoadedMax(o, g, m, top, r);
    SavedAgain(o, g, m, r);
    SumOfLoaded(m, r, g.weights, o.numBuckets);
  }

  // ---------- The methods ----------

  method SaveToCheckpoint(h: Histogram) returns (c: Saved)
    requires h.Valid() && RangeMax(h.View()) > 0.0
    ensures c == Save(h.View())
  {
    ghost var v := h.View();
    var max, bucket: int := 0.0, h.minBucket;
    while bucket <= h.maxBucket
      invariant h.minBucket <= bucket && (bucket <= h.maxBucket + 1 || bucket == h.minBucket)
      invariant max == MaxWeight(v.weights, v.min, bucket)
    {
      if h.bucketWeight[bucket] > max {
        max := h.bucketWeight[bucket];
      }
      bucket := bucket + 1;
    }
    assert max == RangeMax(v);
    var ratio := SaveRatio(max);
    var weights: map<int, nat> := map[];
    bucket := h.minBucket;
    while bucket <= h.maxBucket
      invariant h.minBucket <= bucket && (bucket <= h.maxBucket + 1 || bucket == h.minBucket)
      invariant weights == map b: int | h.minBucket <= b < bucket && SavedWeight(v, b) > 0 :: SavedWeight(v, b)
    {
      var newWeight := Rounded(Mul(h.bucketWeight[bucket], ratio));
      assert newWeight == SavedWeight(v, bucket);
      if newWeight > 0 {
        weights := weights[bucket := newWeight];
      }
      bucket := bucket + 1;
    }
    c := Saved(h.totalWeight, weights);
  }

  /** The sum of the weights of a checkpoint, unless one of its buckets does not exist. */
  method CheckBuckets(c: Saved, n: nat) returns (ok: bool, sum: nat)
    ensures ok <==> InRange(c.bucketWeights, n)
    ensures ok ==> sum == SumIn(c.bucketWeights, c.bucketWeights.Keys, n)
  {
    var m := c.bucketWeights;
    var todo := m.Keys;
    sum := 0;
    NothingCounted(m, n);
    while todo != {}
      invariant todo <= m.Keys
      invariant forall b :: b in m && b !in todo ==> 0 <= b < n
      invariant sum == SumIn(m, m.Keys - todo, n)
      decreases todo
    {
      Inhabited(todo);
      var bucket: int :| bucket in todo;
      if bucket >= n || bucket < 0 {
        return false, sum;
      }
      SumWithOneMore(m, m.Keys - todo, n, bucket);
      assert m.Keys - todo + {bucket} == m.Keys - (todo - {bucket});
      sum := sum + m[bucket];
      todo := todo - {bucket};
    }
    assert m.Keys - todo == m.Keys;
    ok := true;
  }

  lemma {:induction false} NothingCounted(m: map<int, nat>, n: nat)
    ensures SumIn(m, m.Keys - m.Keys, n) == 0
  {
    if n > 0 { NothingCounted(m, n - 1); }
  }

  /** What LoadFromCheckpoint does: a negative total or a bucket that does not exist is an
      error and changes nothing; a checkpoint without weight changes nothing. */
  function LoadResult(h: Hist, c: Saved): (Hist, Outcome) {
    if c.totalWeight < 0.0 || !InRange(c.bucketWeights, |h.weights|) then (h, Err)
    else if SumIn(c.bucketWeights, c.bucketWeights.Keys, |h.weights|) == 0 then (h, Ok)
    else (Loaded(h, c), Ok)
  }

  /** The loop that loads the buckets, in any order. */
  method LoadBuckets(h: Histogram, m: map<int, nat>, ratio: real)
    requires h.Valid() && InRange(m, h.options.numBuckets) && ratio >= 0.0
    modifies h`minBucket, h`maxBucket, h.bucketWeight
    ensures h.minBucket == LeastKey(m, 0, old(h.minBucket))
    ensures h.maxBucket == Greatest(m, old(h.maxBucket), h.bucketWeight.Length)
    ensures forall b :: 0 <= b < h.bucketWeight.Length ==>
      h.bucketWeight[b] == if b in m then old(h.bucketWeight[b]) + Mul(m[b] as real, ratio) else old(h.bucketWeight[b])
  {
    ghost var n, min, max := h.bucketWeight.Length, h.minBucket, h.maxBucket;
    var todo := m.Keys;
    while todo != {}
      invariant todo <= m.Keys && h.minBucket <= min && h.maxBucket >= max && h.maxBucket < n
      invariant h.minBucket == min || h.minBucket in m
      invariant h.maxBucket == max || h.maxBucket in m
      invariant forall b :: b in m && b !in todo ==> h.minBucket <= b <= h.maxBucket
      invariant forall b :: 0 <= b < n ==>
        h.bucketWeight[b] == if b in m && b !in todo then old(h.bucketWeight[b]) + Mul(m[b] as real, ratio)
          else old(h.bucketWeight[b])
      decreases todo
    {
      Inhabited(todo);
      var bucket: int :| bucket in todo;
      if bucket < h.minBucket {
        h.minBucket := bucket;
      }
      if bucket > h.maxBucket {
        h.maxBucket := bucket;
      }
      h.bucketWeight[bucket] := h.bucketWeight[bucket] + Mul(m[bucket] as real, ratio);
      todo := todo - {bucket};
    }
    LeastIs(m, 0, min, h.minBucket);
    GreatestIs(m, max, n, h.maxBucket);
  }

  lemma LeastIs(m: map<int, nat>, from: nat, min: nat, r: nat)
    requires from <= r <= min && (r in m || r == min) && forall b :: b in m ==> b >= r
    ensures LeastKey(m, from, min) == r
    decreases min - from
  {
    if from < r { LeastIs(m, from + 1, min, r); }
  }

  lemma GreatestIs(m: map<int, nat>, max: nat, n: nat, r: nat)
    requires max <= r && (r < n || r == max) && (r in m || r == max) && forall b :: b in m ==> b <= r
    ensures Greatest(m, max, n) == r
  {
    if n > 0 && n - 1 > r { GreatestIs(m, max, n - 1, r); }
  }

  method LoadFromCheckpoint(h: Histogram, c: Saved) returns (r: Outcome)
    requires h.Valid()
    modifies h`totalWeight, h`minBucket, h`maxBucket, h.bucketWeight
    ensures h.Valid()
    ensures (h.View(), r) == LoadResult(old(h.View()), c)
  {
    if c.totalWeight < 0.0 {
      return Err;
    }
    var ok, sum := CheckBuckets(c, h.options.numBuckets);
    if !ok {
      return Err;
    }
    if sum == 0 {
      return Ok;
    }
    LoadWeights(h, c, c.totalWeight / sum as real);
    r := Ok;
  }

  /** Loads the weights of a valid checkpoint, in proportion. */
  method LoadWeights(h: Histogram, c: Saved, ratio: real)
    requires h.Valid() && InRange(c.bucketWeights, h.options.numBuckets) && c.totalWeight >= 0.0
    requires SumIn(c.bucketWeights, c.bucketWeights.Keys, h.options.numBuckets) > 0
    requires ratio == LoadRatio(c, h.options.numBuckets)
    modifies h`totalWeight, h`minBucket, h`maxBucket, h.bucketWeight
    ensures h.Valid() && h.View() == Loaded(old(h.View()), c)
  {
    hide LeastKey, Greatest, SumIn;
    ghost var loaded := Loaded(h.View(), c);
    LoadRatioIsPositive(c, h.options.numBuckets);
    LoadedIsPositive(c.bucketWeights, ratio);
    LoadBuckets(h, c.bucketWeights, ratio);
    assert h.bucketWeight[..] == loaded.weights;
    h.totalWeight := h.totalWeight + c.totalWeight;
  }

  lemma LoadedIsPositive(m: map<int, nat>, ratio: real)
    requires ratio >= 0.0
    ensures forall b :: b in m ==> Mul(m[b] as real, ratio) >= 0.0
  {
    forall b | b in m ensures Mul(m[b] as real, ratio) >= 0.0 {
      Product(m[b] as real, ratio);
    }
  }

  lemma LoadRatioIsPositive(c: Saved, n: nat)
    requires c.totalWeight >= 0.0 && SumIn(c.bucketWeights, c.bucketWeights.Keys, n) > 0
    ensures LoadRatio(c, n) >= 0.0
  {
  }

  lemma Inhabited(s: set<int>)
    requires s != {}
    ensures exists b: int :: b in s
  {
    if forall b: int :: b !in s { assert false; }
  }
}
