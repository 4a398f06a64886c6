/** When scaling a histogram keeps its percentiles: the scaling of recommender/util/histogram.go
    tightens the range of the buckets that count as non-empty, and percentiles start there. */
module HistogramScaling {
  import opened Arithmetic
  import opened HistogramOptions
  import opened Histogram

  // ---------- Partial sums and the ends of buckets ----------

  lemma {:induction false} ScaledSum(h: Hist, factor: real, to: nat)
    requires to <= |h.weights| && to <= h.max + 1
    ensures SumOf(ScaledWeights(h, factor), h.min, to) == Mul(SumOf(h.weights, h.min, to), factor)
  {
    if to > h.min {
      ScaledSum(h, factor, to - 1);
      Distribute(SumOf(h.weights, h.min, to - 1), h.weights[to - 1], factor);
    }
  }

  /** The scaled walk stops where the other one does, or at the end of its own range. */
  lemma {:induction false} ScaledWalk(h: Hist, g: Hist, factor: real, threshold: real, b: nat)
    requires factor > 0.0 && |h.weights| == |g.weights| && h.min <= b <= g.max <= h.max < |h.weights|
    requires g.min == h.min && g.weights == ScaledWeights(h, factor)
    ensures PercentileFrom(g, Mul(threshold, factor), b) ==
      var r := PercentileFrom(h, threshold, b); if r <= g.max then r else g.max
    decreases h.max - b
  {
    if b < g.max {
      var s := SumOf(h.weights, h.min, b + 1);
      ScaledSum(h, factor, b + 1);
      SameOrder(s, threshold, factor);
      if s < threshold { ScaledWalk(h, g, factor, threshold, b + 1); }
    }
  }

  /** A threshold above the weight of the range is reached nowhere before its end. */
  lemma {:induction false} WalkToEnd(h: Hist, threshold: real, b: nat)
    requires h.min <= b <= h.max < |h.weights| && forall i :: 0 <= i < |h.weights| ==> h.weights[i] >= 0.0
    requires SumOf(h.weights, h.min, h.max) < threshold
    ensures PercentileFrom(h, threshold, b) == h.max
    decreases h.max - b
  {
    if b < h.max {
      SumGrows(h.weights, h.min, b + 1, h.max);
      WalkToEnd(h, threshold, b + 1);
    }
  }

  /** The last two buckets have one end; otherwise later buckets end later. */
  lemma SameEndIff(o: Options, a: nat, b: nat)
    requires Valid(o) && a <= b < o.numBuckets
    ensures BucketEnd(o, a) == BucketEnd(o, b) <==> a == b || (a == o.numBuckets - 2 && b == o.numBuckets - 1)
  {
    var i := if a < o.numBuckets - 1 then a + 1 else a;
    var j := if b < o.numBuckets - 1 then b + 1 else b;
    if i < j {
      StartsIncrease(o, i);
      StartsAreOrdered(o, i + 1, j);
    }
  }

  lemma EndIsPositive(o: Options, b: nat)
    requires Valid(o) && 2 <= o.numBuckets
    ensures BucketEnd(o, b) > 0.0
  {
    var i := if b < o.numBuckets - 1 then b + 1 else b;
    assert BucketStart(o, 0) == 0.0 by { StartIsZero(o); }
    StartsIncrease(o, 0);
    StartsAreOrdered(o, 1, i);
  }

  lemma StartIsZero(o: Options)
    requires Valid(o)
    ensures BucketStart(o, 0) == 0.0
  {
  }

  // ---------- The range ----------

  /** A histogram that is not empty has a range with full buckets at its ends. */
  lemma RangeOfFull(o: Options, h: Hist)
    requires HistInv(o, h) && !Empty(o, h)
    ensures h.min <= h.max && h.weights[h.min] >= o.epsilon && h.weights[h.max] >= o.epsilon
  {
  }

  /** The range of an empty histogram holds no bucket, unless there is but one. */
  lemma RangeOfEmpty(o: Options, h: Hist)
    requires HistInv(o, h) && Empty(o, h)
    ensures h.min == o.numBuckets - 1 && h.max == 0
  {
  }

  /** The bucket at the lower end stays full; or it was the last but one, the last one stays
      full, and both end at the same value. */
  predicate LowerEndStays(o: Options, h: Hist, factor: real)
    requires |h.weights| == o.numBuckets && h.min < |h.weights| && h.max < |h.weights|
  {
    var n := o.numBuckets;
    || Mul(h.weights[h.min], factor) >= o.epsilon
    || (h.min == n - 2 && h.max == n - 1 && Mul(h.weights[n - 1], factor) >= o.epsilon)
  }

  /** The bucket at the upper end stays full; or it was the last, and the one before, with the
      same end, is in the range and stays full. */
  predicate UpperEndStays(o: Options, h: Hist, factor: real)
    requires |h.weights| == o.numBuckets && h.min < |h.weights| && h.max < |h.weights|
  {
    var n := o.numBuckets;
    || Mul(h.weights[h.max], factor) >= o.epsilon
    || (h.max == n - 1 && h.min <= n - 2 && Mul(h.weights[n - 2], factor) >= o.epsilon)
  }

  /** The lower end of the scaled range. */
  lemma LowerEnd(o: Options, h: Hist, factor: real)
    requires HistInv(o, h) && !Empty(o, h) && factor >= 0.0 && o.numBuckets >= 2
    ensures var g := Scaled(o, h, factor);
      LowerEndStays(o, h, factor) <==> !Empty(o, g) && BucketEnd(o, g.min) == BucketEnd(o, h.min)
    ensures var g := Scaled(o, h, factor);
      LowerEndStays(o, h, factor) ==>
        g.min == h.min || (h.min == o.numBuckets - 2 && g.min == h.max == o.numBuckets - 1)
  {
    RangeOfFull(o, h);
    var g := Scaled(o, h, factor);
    SameEndIff(o, h.min, g.min);
  }

  /** Its upper end, where the lower end is unmoved. */
  lemma UpperEndIs(o: Options, h: Hist, factor: real)
    requires HistInv(o, h) && !Empty(o, h) && factor >= 0.0
    requires var g := Scaled(o, h, factor); !Empty(o, g) && g.min == h.min
    ensures var m := Scaled(o, h, factor).max;
      && h.min <= m <= h.max && Mul(h.weights[m], factor) >= o.epsilon
      && forall b :: m < b <= h.max ==> Mul(h.weights[b], factor) < o.epsilon
  {
    RangeOfFull(o, h);
    ScaledInv(o, h, factor);
    var g := Scaled(o, h, factor);
    RangeOfFull(o, g);
    assert forall b :: h.min <= b <= h.max ==> g.weights[b] == Mul(h.weights[b], factor);
  }

  lemma UpperEnd(o: Options, h: Hist, factor: real)
    requires HistInv(o, h) && !Empty(o, h) && factor >= 0.0 && o.numBuckets >= 2
    requires var g := Scaled(o, h, factor); !Empty(o, g) && g.min == h.min
    ensures var g := Scaled(o, h, factor);
      UpperEndStays(o, h, factor) <==> BucketEnd(o, g.max) == BucketEnd(o, h.max)
    ensures var g := Scaled(o, h, factor);
      && g.min <= g.max <= h.max
      && (UpperEndStays(o, h, factor) ==> g.max == h.max || (g.max == o.numBuckets - 2 && h.max == o.numBuckets - 1))
  {
    UpperEndIs(o, h, factor);
    var m := Scaled(o, h, factor).max;
    SameEndIff(o, m, h.max);
  }

  lemma FactorIsPositive(o: Options, h: Hist, factor: real)
    requires HistInv(o, h) && factor >= 0.0 && LowerEndStays(o, h, factor)
    ensures factor > 0.0
  {
    if factor == 0.0 {
      forall b | 0 <= b < |h.weights| ensures Mul(h.weights[b], factor) == 0.0 {
        TimesZero(h.weights[b]);
      }
    }
  }

  lemma TimesZero(a: real)
    ensures Mul(a, 0.0) == 0.0 && Mul(0.0, a) == 0.0
  {
  }

  // ---------- The theorem ----------

  /** In the last two buckets every percentile is the same. */
  lemma LastTwoAreOne(o: Options, h: Hist, threshold: real)
    requires Sized(o, h) && !Empty(o, h) && h.min >= o.numBuckets - 2 && h.min <= h.max
    ensures ValueAt(o, h, threshold) == BucketEnd(o, o.numBuckets - 1)
  {
    var r := PercentileFrom(h, threshold, h.min);
    SameEndIff(o, r, o.numBuckets - 1);
  }

  lemma StaysMeansKept(o: Options, h: Hist, factor: real, threshold: real)
    requires HistInv(o, h) && !Empty(o, h) && o.numBuckets >= 2 && factor > 0.0
    requires LowerEndStays(o, h, factor) && (UpperEndStays(o, h, factor) || threshold == 0.0)
    ensures ValueAt(o, Scaled(o, h, factor), Mul(threshold, factor)) == ValueAt(o, h, threshold)
  {
    var g := Scaled(o, h, factor);
    RangeOfFull(o, h);
    LowerEnd(o, h, factor);
    if g.min == h.min {
      UpperEnd(o, h, factor);
      ScaledWalk(h, g, factor, threshold, h.min);
      if threshold == 0.0 {
        assert PercentileFrom(h, 0.0, h.min) == h.min by { SumGrows(h.weights, h.min, 0, h.min + 1); }
      } else {
        SameEndIff(o, g.max, h.max);
      }
    } else {
      ScaledInv(o, h, factor);
      RangeOfFull(o, g);
      LastTwoAreOne(o, h, threshold);
      LastTwoAreOne(o, g, Mul(threshold, factor));
    }
  }

  /** The scaled percentile, at the scaled threshold. */
  lemma ScaledThreshold(o: Options, h: Hist, factor: real, p: real, threshold: real)
    requires Sized(o, h) && threshold == Mul(p, h.total)
    ensures Percentile(o, Scaled(o, h, factor), p) == ValueAt(o, Scaled(o, h, factor), Mul(threshold, factor))
    ensures Percentile(o, h, p) == ValueAt(o, h, threshold)
  {
    Reassociate(p, h.total, factor);
  }

  lemma KeptMeansLowerStays(o: Options, h: Hist, factor: real)
    requires HistInv(o, h) && !Empty(o, h) && o.numBuckets >= 2 && factor >= 0.0
    requires Percentile(o, Scaled(o, h, factor), 0.0) == Percentile(o, h, 0.0)
    ensures LowerEndStays(o, h, factor)
  {
    var g := Scaled(o, h, factor);
    TimesZero(h.total);
    TimesZero(g.total);
    RangeOfFull(o, h);
    SumGrows(h.weights, h.min, 0, h.min + 1);
    EndIsPositive(o, h.min);
    assert !Empty(o, g);
    ScaledInv(o, h, factor);
    SumGrows(g.weights, g.min, 0, g.min + 1);
    LowerEnd(o, h, factor);
  }

  /** The percentile that ends the walk at the end of the range. */
  function TopPercentile(h: Hist): real
    requires h.total > 0.0 && h.max < |h.weights|
  {
    (SumOf(h.weights, h.min, h.max) + 1.0) / h.total
  }

  lemma TopThreshold(h: Hist)
    requires h.total > 0.0 && h.max < |h.weights|
    ensures Mul(TopPercentile(h), h.total) == SumOf(h.weights, h.min, h.max) + 1.0
  {
  }

  lemma KeptMeansUpperStays(o: Options, h: Hist, factor: real)
    requires HistInv(o, h) && !Empty(o, h) && o.numBuckets >= 2 && factor > 0.0 && h.total > 0.0
    requires LowerEndStays(o, h, factor)
    requires Percentile(o, Scaled(o, h, factor), TopPercentile(h)) == Percentile(o, h, TopPercentile(h))
    ensures UpperEndStays(o, h, factor)
  {
    var g := Scaled(o, h, factor);
    RangeOfFull(o, h);
    LowerEnd(o, h, factor);
    if g.min == h.min {
      UpperEnd(o, h, factor);
      var threshold := SumOf(h.weights, h.min, h.max) + 1.0;
      TopThreshold(h);
      ScaledThreshold(o, h, factor, TopPercentile(h), threshold);
      WalkToEnd(h, threshold, h.min);
      ScaledWalk(h, g, factor, threshold, h.min);
    }
  }

  /** One bucket, or none that counts: every percentile is 0, before and after. */
  lemma NothingToMove(o: Options, h: Hist, factor: real, p: real)
    requires HistInv(o, h) && factor >= 0.0 && (o.numBuckets == 1 || Empty(o, h))
    ensures Percentile(o, Scaled(o, h, factor), p) == Percentile(o, h, p) == 0.0
  {
    StartIsZero(o);
    if o.numBuckets > 1 {
      RangeOfEmpty(o, h);
      assert ScaledWeights(h, factor) == h.weights;
    }
  }

  /** Scaling keeps every percentile if and only if there is one bucket, or none that is not
      empty, or neither end of the range drops out; the upper end does not matter to a
      histogram whose total is 0. */
  lemma ScalingKeepsPercentilesIff(o: Options, h: Hist, factor: real)
    requires HistInv(o, h) && factor >= 0.0
    ensures (forall p :: Percentile(o, Scaled(o, h, factor), p) == Percentile(o, h, p)) <==>
      || o.numBuckets == 1
      || Empty(o, h)
      || (LowerEndStays(o, h, factor) && (h.total > 0.0 ==> UpperEndStays(o, h, factor)))
  {
    if o.numBuckets == 1 || Empty(o, h) {
      forall p ensures Percentile(o, Scaled(o, h, factor), p) == Percentile(o, h, p) {
        NothingToMove(o, h, factor, p);
      }
    } else if LowerEndStays(o, h, factor) && (h.total > 0.0 ==> UpperEndStays(o, h, factor)) {
      FactorIsPositive(o, h, factor);
      forall p ensures Percentile(o, Scaled(o, h, factor), p) == Percentile(o, h, p) {
        if h.total == 0.0 { TimesZero(p); }
        ScaledThreshold(o, h, factor, p, Mul(p, h.total));
        StaysMeansKept(o, h, factor, Mul(p, h.total));
      }
    } else if forall p :: Percentile(o, Scaled(o, h, factor), p) == Percentile(o, h, p) {
      KeptMeansLowerStays(o, h, factor);
      FactorIsPositive(o, h, factor);
      KeptMeansUpperStays(o, h, factor);
      assert false;
    }
  }

  // ---------- Percentiles between 0 and 1 ----------

  /** The bucket of the percentile 1: the last of the range, if the total is that of the
      weights. */
  function TopBucket(h: Hist): (b: nat)
    requires h.min < |h.weights| && h.max < |h.weights|
    ensures h.min <= b < |h.weights| && (h.min <= h.max ==> b <= h.max)
  {
    PercentileFrom(h, h.total, h.min)
  }

  /** A bucket from there on stays full; or it is the last, and the one before, with the same
      end, is in the range and stays full. */
  ghost predicate TopStays(o: Options, h: Hist, factor: real)
    requires |h.weights| == o.numBuckets && h.min < |h.weights| && h.max < |h.weights|
  {
    var n := o.numBuckets;
    || (exists b :: TopBucket(h) <= b <= h.max && Mul(h.weights[b], factor) >= o.epsilon)
    || (TopBucket(h) == n - 1 && h.min <= n - 2 && Mul(h.weights[n - 2], factor) >= o.epsilon)
  }

  /** Where the scaled walk to the top ends, with the lower end unmoved. */
  lemma TopStaysIff(o: Options, h: Hist, factor: real)
    requires HistInv(o, h) && !Empty(o, h) && factor >= 0.0 && o.numBuckets >= 2
    requires var g := Scaled(o, h, factor); !Empty(o, g) && g.min == h.min
    ensures var m, r := Scaled(o, h, factor).max, TopBucket(h);
      TopStays(o, h, factor) <==> BucketEnd(o, if r <= m then r else m) == BucketEnd(o, r)
  {
    RangeOfFull(o, h);
    UpperEndIs(o, h, factor);
    var m, r := Scaled(o, h, factor).max, TopBucket(h);
    if m < r { SameEndIff(o, m, r); }
  }

  lemma TopStaysMeansKept(o: Options, h: Hist, factor: real, p: real)
    requires HistInv(o, h) && !Empty(o, h) && o.numBuckets >= 2 && factor > 0.0 && 0.0 <= p <= 1.0
    requires LowerEndStays(o, h, factor) && TopStays(o, h, factor)
    ensures Percentile(o, Scaled(o, h, factor), p) == Percentile(o, h, p)
  {
    hide TopStays, LowerEndStays, BucketEnd;
    var g, threshold := Scaled(o, h, factor), Mul(p, h.total);
    ScaledThreshold(o, h, factor, p, threshold);
    RangeOfFull(o, h);
    LowerEnd(o, h, factor);
    if g.min == h.min {
      UpperEndIs(o, h, factor);
      TopStaysIff(o, h, factor);
      ScaledWalk(h, g, factor, threshold, h.min);
      ScaleThreshold(p, 1.0, h.total);
      TimesOne(h.total);
      PercentileFollows(h, threshold, h.total, h.min);
      EndsBetween(o, g.max, PercentileFrom(h, threshold, h.min), TopBucket(h));
    } else {
      ScaledInv(o, h, factor);
      RangeOfFull(o, g);
      LastTwoAreOne(o, h, threshold);
      LastTwoAreOne(o, g, Mul(threshold, factor));
    }
  }

  lemma TimesOne(a: real)
    ensures Mul(1.0, a) == a
  {
  }

  /** If cutting off at m leaves the end of r, it leaves that of every bucket up to r. */
  lemma EndsBetween(o: Options, m: nat, b: nat, r: nat)
    requires Valid(o) && b <= r < o.numBuckets
    requires BucketEnd(o, if r <= m then r else m) == BucketEnd(o, r)
    ensures BucketEnd(o, if b <= m then b else m) == BucketEnd(o, b)
  {
    if m < b {
      BucketEndsIncrease(o, m, b);
      BucketEndsIncrease(o, b, r);
    }
  }

  lemma KeptMeansTopStays(o: Options, h: Hist, factor: real)
    requires HistInv(o, h) && !Empty(o, h) && o.numBuckets >= 2 && factor > 0.0
    requires LowerEndStays(o, h, factor)
    requires Percentile(o, Scaled(o, h, factor), 1.0) == Percentile(o, h, 1.0)
    ensures TopStays(o, h, factor)
  {
    var g := Scaled(o, h, factor);
    RangeOfFull(o, h);
    LowerEnd(o, h, factor);
    if g.min == h.min {
      UpperEndIs(o, h, factor);
      TopStaysIff(o, h, factor);
      TimesOne(h.total);
      ScaledThreshold(o, h, factor, 1.0, h.total);
      ScaledWalk(h, g, factor, h.total, h.min);
    } else {
      assert Mul(h.weights[o.numBuckets - 1], factor) >= o.epsilon;
    }
  }

  /** Scaling keeps every percentile between 0 and 1 if and only if there is one bucket, or none
      that is not empty, or neither the lower end of the range nor the top bucket drops out. */
  lemma ScalingKeepsProperPercentilesIff(o: Options, h: Hist, factor: real)
    requires HistInv(o, h) && factor >= 0.0
    ensures (forall p :: 0.0 <= p <= 1.0 ==> Percentile(o, Scaled(o, h, factor), p) == Percentile(o, h, p)) <==>
      || o.numBuckets == 1
      || Empty(o, h)
      || (LowerEndStays(o, h, factor) && (h.total > 0.0 ==> TopStays(o, h, factor)))
  {
    hide LowerEndStays, TopStays;
    if o.numBuckets == 1 || Empty(o, h) {
      forall p ensures Percentile(o, Scaled(o, h, factor), p) == Percentile(o, h, p) {
        NothingToMove(o, h, factor, p);
      }
    } else if LowerEndStays(o, h, factor) && (h.total > 0.0 ==> TopStays(o, h, factor)) {
      FactorIsPositive(o, h, factor);
      forall p | 0.0 <= p <= 1.0 ensures Percentile(o, Scaled(o, h, factor), p) == Percentile(o, h, p) {
        if h.total > 0.0 {
          TopStaysMeansKept(o, h, factor, p);
        } else {
          TimesZero(p);
          ScaledThreshold(o, h, factor, p, 0.0);
          StaysMeansKept(o, h, factor, 0.0);
        }
      }
    } else if forall p :: 0.0 <= p <= 1.0 ==> Percentile(o, Scaled(o, h, factor), p) == Percentile(o, h, p) {
      KeptMeansLowerStays(o, h, factor);
      FactorIsPositive(o, h, factor);
      KeptMeansTopStays(o, h, factor);
      assert false;
    }
  }

  /** A histogram whose percentiles change: the lower of its two buckets drops out. */
  lemma ScalingCanMovePercentiles()
    ensures var o, h := Linear(3, 1.0, 1.0), Hist([1.0, 10.0, 0.0], 11.0, 0, 1);
      HistInv(o, h) && Percentile(o, h, 0.05) == 1.0 && Percentile(o, Scaled(o, h, 0.5), 0.05) == 2.0
  {
    var o, h := Linear(3, 1.0, 1.0), Hist([1.0, 10.0, 0.0], 11.0, 0, 1);
    assert SumOf(h.weights, 0, 1) == SumOf(h.weights, 0, 0) + 1.0;
    var g := Scaled(o, h, 0.5);
    assert g.weights == [0.5, 5.0, 0.0];
    assert g.min == 1 && g.max == 1;
  }
}
