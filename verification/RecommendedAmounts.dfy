/** What the recommender's numbers come to: the share of the pod's minimum, the documented
    multipliers of recommender/logic/recommender.go, and the three amounts of a resource. */
module RecommendedAmounts {
  import opened Wrappers
  import opened Arithmetic
  import opened Histogram
  import opened Estimators

  /** A number in the range of amounts is rounded down, others are clamped. */
  lemma FromFloatIsExact(x: real)
    ensures x < 0.0 ==> FromFloat(x) == 0
    ensures x > 100_000_000_000_000.0 ==> FromFloat(x) == 100_000_000_000_000
    ensures 0.0 <= x <= 100_000_000_000_000.0 ==> FromFloat(x) as real <= x < FromFloat(x) as real + 1.0
  {
  }

  // ---------- The shared minimum ----------

  lemma Share(total: int, n: nat)
    requires n > 0 && 0 <= total <= MAX_RESOURCE_AMOUNT
    ensures ScaleResource(total, 1.0 / n as real) == total / n
  {
    var q := total / n;
    TimesInverse(total as real, n as real);
    assert q * n <= total < (q + 1) * n;
    AsReals(q, n);
    QuotientIsBetween(total as real, n as real, q as real);
    Shrinks(total as real, 1.0 / n as real);
  }

  lemma AsReals(q: int, n: nat)
    ensures (q * n) as real == q as real * n as real
    ensures ((q + 1) * n) as real == (q as real + 1.0) * n as real
  {
  }

  lemma TimesInverse(a: real, n: real)
    requires n >= 1.0
    ensures Mul(a, 1.0 / n) == a / n && 0.0 <= 1.0 / n <= 1.0
  {
  }

  lemma SmallerFactor(a: real, b: real, n: real)
    requires n >= 1.0
    ensures a * n <= b * n <==> a <= b
  {
  }

  lemma QuotientIsBetween(total: real, n: real, q: real)
    requires n >= 1.0 && q * n <= total < (q + 1.0) * n
    ensures q <= total / n < q + 1.0
  {
    var x := total / n;
    assert x * n == total;
    SmallerFactor(q, x, n);
    SmallerFactor(q + 1.0, x, n);
  }

  /** Of n containers each gets the n-th part of the pod's minimum, rounded down, so that their
      shares do not add up to more than it. */
  lemma SharesAreFair(minCpuMillicores: real, minMemoryMb: real, n: nat, k: ResourceName)
    requires n > 0
    ensures var share := AmountOf(Minimum(minCpuMillicores, minMemoryMb, n), k);
      var total := FromFloat(if k == CPU then minCpuMillicores else minMemoryMb * 1_048_576.0);
      share == total / n && n * share <= total < n * (share + 1)
  {
    var total := FromFloat(if k == CPU then minCpuMillicores else minMemoryMb * 1_048_576.0);
    assert Mul(minCpuMillicores * 0.001, 1000.0) == minCpuMillicores;
    assert minMemoryMb * 1024.0 * 1024.0 == minMemoryMb * 1_048_576.0;
    FromFloatIsMonotone(0.0, 0.0);
    Share(total, n);
    assert n * (total / n) <= total < n * (total / n + 1);
  }

  // ---------- The confidence factors ----------

  /** A stream of one sample a minute over some days has a confidence of these days. */
  lemma SteadyStream(s: Aggregate, days: nat)
    requires s.lifespanInDays == days as real && s.totalSamplesCount == 1440 * days
    ensures Confidence(s) == days as real
  {
    assert (1440 * days) as real == 1440.0 * days as real;
  }

  /** It is no more than the days from the first to the last sample, and no more than those of as
      many samples. */
  lemma ConfidenceIsLimited(s: Aggregate)
    ensures Confidence(s) <= s.lifespanInDays && 1440.0 * Confidence(s) <= s.totalSamplesCount as real
    ensures Confidence(s) == s.lifespanInDays || 1440.0 * Confidence(s) == s.totalSamplesCount as real
  {
  }

  lemma Square(x: real)
    requires x > 1.0
    ensures Growth(x, 1) == x && Mul(Growth(x, -2), Mul(x, x)) == 1.0
  {
    hide Mul, Div;
    var y, z := Growth(x, -1), Growth(x, -2);
    OneTurn(x, 0, 1);
    OneTurn(x, -1, 0);
    OneTurn(x, -2, -1);
    Commute(x, 1.0);
    Commute(z, Mul(x, x));
    Commute(z, x);
    Reassociate(x, x, z);
  }

  lemma Commute(a: real, b: real)
    ensures Mul(a, b) == Mul(b, a) && Mul(1.0, a) == a
  {
  }

  /** The factors of upper and lower bound in terms of the days of history. */
  lemma FactorsAre(s: Aggregate)
    requires Confidence(s) > 0.0
    ensures var c := Confidence(s);
      && Factor(1.0, 1, s) == 1.0 + 1.0 / c
      && Mul(Factor(0.001, -2, s), Mul(1.0 + 0.001 / c, 1.0 + 0.001 / c)) == 1.0
  {
    hide Mul, Growth;
    Square(1.0 + 1.0 / Confidence(s));
    Square(1.0 + 0.001 / Confidence(s));
  }

  /** The multipliers that the source documents: 3 after half a day, 2 after a day and 8/7 after a
      week for the upper bound; 0.6, 0.9 and 0.95 after 5, 30 and 60 minutes for the lower one. */
  lemma DocumentedMultipliers(s: Aggregate)
    requires Confidence(s) > 0.0
    ensures Confidence(s) == 0.5 ==> Factor(1.0, 1, s) == 3.0
    ensures Confidence(s) == 1.0 ==> Factor(1.0, 1, s) == 2.0
    ensures Confidence(s) == 7.0 ==> 7.0 * Factor(1.0, 1, s) == 8.0
    ensures Confidence(s) == 5.0 / 1440.0 ==> 0.60 < Factor(0.001, -2, s) < 0.61
    ensures Confidence(s) == 30.0 / 1440.0 ==> 0.91 < Factor(0.001, -2, s) < 0.92
    ensures Confidence(s) == 60.0 / 1440.0 ==> 0.95 < Factor(0.001, -2, s) < 0.96
  {
    hide Factor;
    FactorsAre(s);
    var f := Factor(0.001, -2, s);
    if Confidence(s) == 5.0 / 1440.0 {
      assert Mul(f, Mul(1.288, 1.288)) == 1.0;
      assert f * 1.658944 == 1.0;
    } else if Confidence(s) == 30.0 / 1440.0 {
      assert Mul(f, Mul(1.048, 1.048)) == 1.0;
      assert f * 1.098304 == 1.0;
    } else if Confidence(s) == 60.0 / 1440.0 {
      assert Mul(f, Mul(1.024, 1.024)) == 1.0;
      assert f * 1.048576 == 1.0;
    }
  }

  // ---------- The three amounts ----------

  /** An amount with its margin. */
  function WithItsMargin(amount: int, margin: real): int {
    amount + ScaleResource(amount, margin)
  }

  /** What is recommended for a resource: for the target the percentile with its margin, for the
      bounds the median and the 95th percentile with theirs, times the confidence factor; never
      less than the minimum; and nothing for a resource that is not controlled. */
  lemma RecommendedIs(minimum: Resources, targetCpu: real, margin: real, s: Aggregate, k: ResourceName)
    requires ValidAggregate(s) && Confidence(s) > 0.0
    ensures var r := Recommended(minimum, targetCpu, margin, s);
      && (k in r.target <==> k in s.controlled)
      && (k in r.lowerBound <==> k in s.controlled)
      && (k in r.upperBound <==> k in s.controlled)
      && (k in s.controlled ==>
            var least := AmountOf(minimum, k);
            var half := WithItsMargin(PercentileAmount(s, 0.5, 0.5, k), margin);
            var top := WithItsMargin(PercentileAmount(s, 0.95, 0.95, k), margin);
            && r.target[k] == Max(least, WithItsMargin(PercentileAmount(s, targetCpu, 0.9, k), margin))
            && r.lowerBound[k] == Max(least, ScaleResource(half, Factor(0.001, -2, s)))
            && r.upperBound[k] == Max(least, ScaleResource(top, Factor(1.0, 1, s))))
  {
    var half, top := WithMargin(LOWER_PERCENTILE, LOWER_PERCENTILE, margin),
      WithMargin(UPPER_PERCENTILE, UPPER_PERCENTILE, margin);
    Margined(s, targetCpu, MEMORY_PERCENTILE, margin, k);
    Margined(s, LOWER_PERCENTILE, LOWER_PERCENTILE, margin, k);
    Margined(s, UPPER_PERCENTILE, UPPER_PERCENTILE, margin, k);
    Multiplied(half, 0.001, -2, s, k);
    Multiplied(top, 1.0, 1, s, k);
    AtLeastMinimum(TargetEstimator(targetCpu, margin), minimum, s, k);
    AtLeastMinimum(LowerBoundEstimator(margin), minimum, s, k);
    AtLeastMinimum(UpperBoundEstimator(margin), minimum, s, k);
  }

  lemma Margined(s: Aggregate, cpu: real, memory: real, margin: real, k: ResourceName)
    requires ValidAggregate(s) && Confidence(s) > 0.0
    ensures k in Estimate(WithMargin(cpu, memory, margin), s)
    ensures Estimate(WithMargin(cpu, memory, margin), s)[k]
         == WithItsMargin(PercentileAmount(s, cpu, memory, k), margin)
  {
    assert k in Estimate(Percentiles(cpu, memory), s);
  }
}
