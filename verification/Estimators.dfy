/** The estimators of recommender/logic/estimator.go and how recommender/logic/recommender.go
    stacks them, over the real numbers. */
module Estimators {
  import opened Wrappers
  import opened Arithmetic
  import opened HistogramOptions
  import opened Histogram

  datatype ResourceName = CPU | Memory
  type Resources = map<ResourceName, int>

  const MAX_RESOURCE_AMOUNT: int := 100_000_000_000_000

  /** resourceAmountFromFloat: clamped at both ends, truncated in between. */
  function FromFloat(amount: real): int {
    if amount < 0.0 then 0 else if amount > MAX_RESOURCE_AMOUNT as real then MAX_RESOURCE_AMOUNT else amount.Floor
  }

  function ScaleResource(amount: int, factor: real): int {
    FromFloat(Mul(amount as real, factor))
  }

  /** What the recommender reads of an AggregateContainerState. */
  datatype Aggregate = Aggregate(
    cpuOptions: Options, cpuUsage: Hist, memoryOptions: Options, memoryPeaks: Hist,
    lifespanInDays: real, totalSamplesCount: int, controlled: seq<ResourceName>)

  ghost predicate ValidAggregate(s: Aggregate) {
    Sized(s.cpuOptions, s.cpuUsage) && Sized(s.memoryOptions, s.memoryPeaks)
  }

  /** getConfidence, in days. */
  function Confidence(s: Aggregate): real {
    var samples := s.totalSamplesCount as real / 1440.0;
    if s.lifespanInDays < samples then s.lifespanInDays else samples
  }

  datatype Estimator =
    | Constant(resources: Resources)
    | Percentiles(cpu: real, memory: real)
    | Margin(fraction: real, base: Estimator)
    | MinResources(minimum: Resources, base: Estimator)
    | ConfidenceMultiplier(multiplier: real, exponent: int, base: Estimator)

  /** The factor of a confidence multiplier. */
  function Factor(multiplier: real, exponent: int, s: Aggregate): real
    requires Confidence(s) > 0.0 && multiplier > 0.0
  {
    Growth(1.0 + multiplier / Confidence(s), exponent)
  }

  predicate Usable(e: Estimator) {
    match e
    case Margin(_, base) => Usable(base)
    case MinResources(_, base) => Usable(base)
    case ConfidenceMultiplier(m, _, base) => m > 0.0 && Usable(base)
    case _ => true
  }

  function AmountOf(r: Resources, k: ResourceName): int {
    if k in r then r[k] else 0
  }

  /** The amount an estimator gives for a resource; a map in the source. */
  function Estimate(e: Estimator, s: Aggregate): Resources
    requires ValidAggregate(s) && Confidence(s) > 0.0 && Usable(e)
  {
    match e
    case Constant(r) => r
    case Percentiles(cpu, memory) => map[
      CPU := FromFloat(Mul(Percentile(s.cpuOptions, s.cpuUsage, cpu), 1000.0)),
      Memory := FromFloat(Percentile(s.memoryOptions, s.memoryPeaks, memory))]
    case Margin(f, base) =>
      var r := Estimate(base, s);
      map k | k in r :: r[k] + ScaleResource(r[k], f)
    case MinResources(m, base) =>
      var r := Estimate(base, s);
      map k | k in r :: if r[k] < AmountOf(m, k) then AmountOf(m, k) else r[k]
    case ConfidenceMultiplier(m, x, base) =>
      var r := Estimate(base, s);
      map k | k in r :: ScaleResource(r[k], Factor(m, x, s))
  }

  /** GetResourceEstimation; the wrapping estimators fill a new map in a loop. */
  method GetResourceEstimation(e: Estimator, s: Aggregate) returns (result: Resources)
    requires ValidAggregate(s) && Confidence(s) > 0.0 && Usable(e)
    ensures result == Estimate(e, s)
    decreases e
  {
    match e
    case Constant(r) => result := r;
    case Percentiles(_, _) => result := Estimate(e, s);
    case Margin(f, base) =>
      var original := GetResourceEstimation(base, s);
      result := Transform(original, (k, amount) => amount + ScaleResource(amount, f));
    case MinResources(m, base) =>
      var original := GetResourceEstimation(base, s);
      result := Transform(original, (k, amount) => if amount < AmountOf(m, k) then AmountOf(m, k) else amount);
    case ConfidenceMultiplier(m, x, base) =>
      var original := GetResourceEstimation(base, s);
      var factor := Factor(m, x, s);
      result := Transform(original, (k, amount) => ScaleResource(amount, factor));
  }

  method Transform(original: Resources, f: (ResourceName, int) -> int) returns (result: Resources)
    ensures result == map k | k in original :: f(k, original[k])
  {
    result := map[];
    var todo := original.Keys;
    while todo != {}
      invariant todo <= original.Keys
      invariant result == map k | k in original && k !in todo :: f(k, original[k])
      decreases todo
    {
      var k :| k in todo;
      result := result[k := f(k, original[k])];
      todo := todo - {k};
    }
  }

  // ---------- The stack ----------

  const LOWER_PERCENTILE: real := 0.5
  const UPPER_PERCENTILE: real := 0.95
  const MEMORY_PERCENTILE: real := 0.9

  function WithMargin(cpu: real, memory: real, margin: real): (e: Estimator)
    ensures Usable(e)
  {
    Margin(margin, Percentiles(cpu, memory))
  }

  function TargetEstimator(targetCpu: real, margin: real): (e: Estimator)
    ensures Usable(e)
  {
    WithMargin(targetCpu, MEMORY_PERCENTILE, margin)
  }

  function LowerBoundEstimator(margin: real): (e: Estimator)
    ensures Usable(e)
  {
    ConfidenceMultiplier(0.001, -2, WithMargin(LOWER_PERCENTILE, LOWER_PERCENTILE, margin))
  }

  function UpperBoundEstimator(margin: real): (e: Estimator)
    ensures Usable(e)
  {
    ConfidenceMultiplier(1.0, 1, WithMargin(UPPER_PERCENTILE, UPPER_PERCENTILE, margin))
  }

  datatype Recommendation = Recommendation(target: Resources, lowerBound: Resources, upperBound: Resources)

  /** FilterControlledResources. */
  method FilterControlled(estimation: Resources, controlled: seq<ResourceName>) returns (result: Resources)
    ensures result == Filtered(estimation, controlled)
  {
    result := map[];
    var i := 0;
    while i < |controlled|
      invariant 0 <= i <= |controlled| && result == Filtered(estimation, controlled[..i])
    {
      if controlled[i] in estimation {
        result := result[controlled[i] := estimation[controlled[i]]];
      }
      i := i + 1;
    }
    assert controlled[..i] == controlled;
  }

  function Filtered(estimation: Resources, controlled: seq<ResourceName>): Resources {
    map k | k in estimation && k in controlled :: estimation[k]
  }

  function Recommended(minimum: Resources, targetCpu: real, margin: real, s: Aggregate): Recommendation
    requires ValidAggregate(s) && Confidence(s) > 0.0
  {
    Recommendation(
      Filtered(Estimate(MinResources(minimum, TargetEstimator(targetCpu, margin)), s), s.controlled),
      Filtered(Estimate(MinResources(minimum, LowerBoundEstimator(margin)), s), s.controlled),
      Filtered(Estimate(MinResources(minimum, UpperBoundEstimator(margin)), s), s.controlled))
  }

  method EstimateContainerResources(minimum: Resources, targetCpu: real, margin: real, s: Aggregate)
    returns (r: Recommendation)
    requires ValidAggregate(s) && Confidence(s) > 0.0
    ensures r == Recommended(minimum, targetCpu, margin, s)
  {
    var target := GetResourceEstimation(MinResources(minimum, TargetEstimator(targetCpu, margin)), s);
    var lower := GetResourceEstimation(MinResources(minimum, LowerBoundEstimator(margin)), s);
    var upper := GetResourceEstimation(MinResources(minimum, UpperBoundEstimator(margin)), s);
    target := FilterControlled(target, s.controlled);
    lower := FilterControlled(lower, s.controlled);
    upper := FilterControlled(upper, s.controlled);
    r := Recommendation(target, lower, upper);
  }

  /** The least amounts for each of n containers of a pod. */
  function Minimum(minCpuMillicores: real, minMemoryMb: real, n: nat): Resources
    requires n > 0
  {
    map[CPU := ScaleResource(FromFloat(Mul(minCpuMillicores * 0.001, 1000.0)), 1.0 / n as real),
        Memory := ScaleResource(FromFloat(minMemoryMb * 1024.0 * 1024.0), 1.0 / n as real)]
  }

  /** GetRecommendedPodResources: one recommendation for each container. */
  method GetRecommendedPodResources(
    containers: map<Name, Aggregate>, targetCpu: real, margin: real, minCpuMillicores: real, minMemoryMb: real)
    returns (result: map<Name, Recommendation>)
    requires forall c :: c in containers ==> ValidAggregate(containers[c]) && Confidence(containers[c]) > 0.0
    ensures result.Keys == containers.Keys
    ensures forall c :: c in containers ==>
      result[c] == Recommended(Minimum(minCpuMillicores, minMemoryMb, |containers|), targetCpu, margin, containers[c])
  {
    result := map[];
    if |containers| == 0 {
      return;
    }
    var minimum := Minimum(minCpuMillicores, minMemoryMb, |containers|);
    var todo := containers.Keys;
    while todo != {}
      invariant todo <= containers.Keys && result.Keys == containers.Keys - todo
      invariant forall c :: c in result ==> result[c] == Recommended(minimum, targetCpu, margin, containers[c])
      decreases todo
    {
      var c :| c in todo;
      var r := EstimateContainerResources(minimum, targetCpu, margin, containers[c]);
      result := result[c := r];
      todo := todo - {c};
    }
  }

  // ---------- The order of the bounds ----------

  lemma FromFloatIsMonotone(x: real, y: real)
    requires x <= y
    ensures 0 <= FromFloat(x) <= FromFloat(y) <= MAX_RESOURCE_AMOUNT
  {
  }

  lemma ScaleIsMonotone(a: int, b: int, factor: real)
    requires a <= b && factor >= 0.0
    ensures ScaleResource(a, factor) <= ScaleResource(b, factor)
  {
    ScaleThreshold(a as real, b as real, factor);
    FromFloatIsMonotone(Mul(a as real, factor), Mul(b as real, factor));
  }

  /** Higher percentiles give higher estimates, with the margin as without. */
  lemma MarginIsMonotone(
    s: Aggregate, cpu1: real, memory1: real, cpu2: real, memory2: real, margin: real, k: ResourceName)
    requires ValidAggregate(s) && Confidence(s) > 0.0 && margin >= 0.0 && cpu1 <= cpu2 && memory1 <= memory2
    ensures k in Estimate(WithMargin(cpu1, memory1, margin), s) && k in Estimate(WithMargin(cpu2, memory2, margin), s)
    ensures 0 <= Estimate(WithMargin(cpu1, memory1, margin), s)[k] <= Estimate(WithMargin(cpu2, memory2, margin), s)[k]
  {
    PercentileIsMonotone(s.cpuOptions, s.cpuUsage, cpu1, cpu2);
    PercentileIsMonotone(s.memoryOptions, s.memoryPeaks, memory1, memory2);
    var a, b := Estimate(Percentiles(cpu1, memory1), s)[k], Estimate(Percentiles(cpu2, memory2), s)[k];
    ScaleThreshold(Percentile(s.cpuOptions, s.cpuUsage, cpu1), Percentile(s.cpuOptions, s.cpuUsage, cpu2), 1000.0);
    assert 0 <= a <= b;
    ScaleIsMonotone(a, b, margin);
    FromFloatIsMonotone(Mul(a as real, margin), Mul(a as real, margin));
  }

  lemma FactorsAreOrdered(s: Aggregate)
    requires Confidence(s) > 0.0
    ensures 0.0 < Factor(0.001, -2, s) <= 1.0 && Factor(1.0, 1, s) >= 1.0
  {
    var x, y := 1.0 + 0.001 / Confidence(s), 1.0 + 1.0 / Confidence(s);
    assert x > 1.0 && y > 1.0;
    GrowthIsPositive(x, -2);
    GrowthIsPositive(y, 1);
  }

  /** A factor of at most 1 gives at most the amount. */
  lemma ScaledDown(a: int, factor: real)
    requires a >= 0 && 0.0 <= factor <= 1.0
    ensures 0 <= ScaleResource(a, factor) <= a
  {
    Shrinks(a as real, factor);
  }

  /** A factor of at least 1 gives at least the amount, unless that is clamped. */
  lemma ScaledUp(a: int, factor: real)
    requires a >= 0 && factor >= 1.0
    ensures ScaleResource(a, factor) >= if a < MAX_RESOURCE_AMOUNT then a else MAX_RESOURCE_AMOUNT
    ensures ScaleResource(a, factor) <= MAX_RESOURCE_AMOUNT
  {
    Grows(a as real, factor);
    assert Mul(a as real, factor) >= a as real;
  }

  lemma Grows(a: real, factor: real)
    requires a >= 0.0 && factor >= 1.0
    ensures Mul(a, factor) >= a
  {
  }

  /** The margin-added estimates without minimum: how the three bounds come from them. */
  lemma BoundsFromMargins(s: Aggregate, targetCpu: real, margin: real, k: ResourceName)
    requires ValidAggregate(s) && Confidence(s) > 0.0 && margin >= 0.0
    requires LOWER_PERCENTILE <= targetCpu <= UPPER_PERCENTILE
    ensures k in Estimate(LowerBoundEstimator(margin), s) && k in Estimate(TargetEstimator(targetCpu, margin), s)
      && k in Estimate(UpperBoundEstimator(margin), s)
    ensures var target := Estimate(TargetEstimator(targetCpu, margin), s)[k];
      && 0 <= Estimate(LowerBoundEstimator(margin), s)[k] <= target
      && (target <= Estimate(UpperBoundEstimator(margin), s)[k] <==> target <= MAX_RESOURCE_AMOUNT)
      && Estimate(UpperBoundEstimator(margin), s)[k] <= MAX_RESOURCE_AMOUNT
  {
    var half, top := WithMargin(LOWER_PERCENTILE, LOWER_PERCENTILE, margin),
      WithMargin(UPPER_PERCENTILE, UPPER_PERCENTILE, margin);
    MarginIsMonotone(s, LOWER_PERCENTILE, LOWER_PERCENTILE, targetCpu, MEMORY_PERCENTILE, margin, k);
    MarginIsMonotone(s, targetCpu, MEMORY_PERCENTILE, UPPER_PERCENTILE, UPPER_PERCENTILE, margin, k);
    FactorsAreOrdered(s);
    ScaledDown(Estimate(half, s)[k], Factor(0.001, -2, s));
    ScaledUp(Estimate(top, s)[k], Factor(1.0, 1, s));
    Multiplied(half, 0.001, -2, s, k);
    Multiplied(top, 1.0, 1, s, k);
  }

  lemma Multiplied(base: Estimator, m: real, x: int, s: Aggregate, k: ResourceName)
    requires ValidAggregate(s) && Confidence(s) > 0.0 && Usable(base) && m > 0.0 && k in Estimate(base, s)
    ensures k in Estimate(ConfidenceMultiplier(m, x, base), s)
      && Estimate(ConfidenceMultiplier(m, x, base), s)[k] == ScaleResource(Estimate(base, s)[k], Factor(m, x, s))
  {
  }

  lemma AtLeastMinimum(base: Estimator, minimum: Resources, s: Aggregate, k: ResourceName)
    requires ValidAggregate(s) && Confidence(s) > 0.0 && Usable(base) && k in Estimate(base, s)
    ensures k in Estimate(MinResources(minimum, base), s)
    ensures var a, m := Estimate(base, s)[k], AmountOf(minimum, k);
      Estimate(MinResources(minimum, base), s)[k] == if a < m then m else a
  {
  }

  /** The amount a percentile gives for a resource, before any margin. */
  function PercentileAmount(s: Aggregate, cpu: real, memory: real, k: ResourceName): (r: int)
    requires ValidAggregate(s)
    ensures 0 <= r <= MAX_RESOURCE_AMOUNT
  {
    FromFloat(if k == CPU then Mul(Percentile(s.cpuOptions, s.cpuUsage, cpu), 1000.0)
              else Percentile(s.memoryOptions, s.memoryPeaks, memory))
  }

  /** An amount and its margin are together at most the largest amount. */
  predicate FitsWithMargin(amount: int, margin: real) {
    amount as real + Mul(amount as real, margin) < (MAX_RESOURCE_AMOUNT + 1) as real
  }

  lemma FitsIff(amount: int, margin: real)
    requires 0 <= amount <= MAX_RESOURCE_AMOUNT && margin >= 0.0
    ensures amount + ScaleResource(amount, margin) <= MAX_RESOURCE_AMOUNT <==> FitsWithMargin(amount, margin)
  {
    Product(amount as real, margin);
    var x := Mul(amount as real, margin);
    if amount == 0 {
      assert x == 0.0;
    } else if x <= MAX_RESOURCE_AMOUNT as real {
      assert x.Floor as real <= x < (x.Floor + 1) as real;
    }
  }

  lemma TargetIs(s: Aggregate, targetCpu: real, margin: real, k: ResourceName)
    requires ValidAggregate(s) && Confidence(s) > 0.0
    ensures var base := PercentileAmount(s, targetCpu, MEMORY_PERCENTILE, k);
      && k in Estimate(TargetEstimator(targetCpu, margin), s)
      && Estimate(TargetEstimator(targetCpu, margin), s)[k] == base + ScaleResource(base, margin)
  {
    var base := Estimate(Percentiles(targetCpu, MEMORY_PERCENTILE), s);
    assert k in base;
  }

  /** With some confidence, and a target percentile between the two others, the lower bound
      never exceeds the target of a controlled resource; and the target does not exceed the
      upper bound if and only if the percentile and its margin are at most the largest amount:
      the upper bound is clamped there and the target is not. */
  lemma BoundsAreOrdered(minimum: Resources, targetCpu: real, margin: real, s: Aggregate, k: ResourceName)
    requires ValidAggregate(s) && Confidence(s) > 0.0 && margin >= 0.0
    requires LOWER_PERCENTILE <= targetCpu <= UPPER_PERCENTILE && k in s.controlled
    requires AmountOf(minimum, k) <= MAX_RESOURCE_AMOUNT
    ensures var r := Recommended(minimum, targetCpu, margin, s);
      && k in r.lowerBound && k in r.target && k in r.upperBound
      && r.lowerBound[k] <= r.target[k]
      && (r.target[k] <= r.upperBound[k] <==>
            FitsWithMargin(PercentileAmount(s, targetCpu, MEMORY_PERCENTILE, k), margin))
  {
    BoundsFromMargins(s, targetCpu, margin, k);
    TargetIs(s, targetCpu, margin, k);
    FitsIff(PercentileAmount(s, targetCpu, MEMORY_PERCENTILE, k), margin);
    AtLeastMinimum(TargetEstimator(targetCpu, margin), minimum, s, k);
    AtLeastMinimum(LowerBoundEstimator(margin), minimum, s, k);
    AtLeastMinimum(UpperBoundEstimator(margin), minimum, s, k);
  }

  /** The largest value a histogram with these options reports. */
  function TopValue(o: Options): real
    requires HistogramOptions.Valid(o)
  {
    BucketStart(o, o.numBuckets - 1)
  }

  /** So the three are ordered, whatever the samples, when the top of the histogram leaves room
      for the margin: as 1000 cores or 10^12 bytes do below 10^14. */
  lemma BoundsAreOrderedBelowTop(minimum: Resources, targetCpu: real, margin: real, s: Aggregate, k: ResourceName)
    requires ValidAggregate(s) && Confidence(s) > 0.0 && margin >= 0.0
    requires LOWER_PERCENTILE <= targetCpu <= UPPER_PERCENTILE && k in s.controlled
    requires AmountOf(minimum, k) <= MAX_RESOURCE_AMOUNT
    requires var top := if k == CPU then Mul(TopValue(s.cpuOptions), 1000.0) else TopValue(s.memoryOptions);
      top + Mul(top, margin) <= MAX_RESOURCE_AMOUNT as real
    ensures var r := Recommended(minimum, targetCpu, margin, s);
      && k in r.lowerBound && k in r.target && k in r.upperBound
      && r.lowerBound[k] <= r.target[k] <= r.upperBound[k]
  {
    BoundsAreOrdered(minimum, targetCpu, margin, s, k);
    var o, h, p := s.memoryOptions, s.memoryPeaks, MEMORY_PERCENTILE;
    if k == CPU { o, h, p := s.cpuOptions, s.cpuUsage, targetCpu; }
    PercentileBelowTop(o, h, p);
    ScaleThreshold(Percentile(o, h, p), TopValue(o), 1000.0);
    var amount := PercentileAmount(s, targetCpu, MEMORY_PERCENTILE, k);
    var top := if k == CPU then Mul(TopValue(o), 1000.0) else TopValue(o);
    assert amount as real <= top;
    ScaleThreshold(amount as real, top, margin);
  }

  lemma PercentileBelowTop(o: Options, h: Hist, p: real)
    requires Sized(o, h)
    ensures 0.0 <= Percentile(o, h, p) <= TopValue(o)
  {
    PercentileIsMonotone(o, h, p, p);
    StartsAreOrdered(o, 0, o.numBuckets - 1);
    forall b: nat | b < o.numBuckets ensures BucketEnd(o, b) <= TopValue(o) {
      StartsAreOrdered(o, if b < o.numBuckets - 1 then b + 1 else b, o.numBuckets - 1);
    }
  }

  /** A memory peak of 10^14 bytes, in a histogram that reaches this far, with 15% of margin:
      the target is above the upper bound. */
  lemma TargetCanExceedUpperBound(cpuOptions: Options, cpuUsage: Hist)
    requires Sized(cpuOptions, cpuUsage)
    ensures var o, h := Linear(2, 100_000_000_000_000.0, 0.1), Hist([1.0, 0.0], 1.0, 0, 0);
      var s := Aggregate(cpuOptions, cpuUsage, o, h, 1.0, 1440, [Memory]);
      && ValidAggregate(s) && Confidence(s) > 0.0
      && var r := Recommended(map[], 0.9, 0.15, s);
      && Memory in r.target && r.target[Memory] == 115_000_000_000_000
      && Memory in r.upperBound && r.upperBound[Memory] == MAX_RESOURCE_AMOUNT
  {
    var o, h := Linear(2, 100_000_000_000_000.0, 0.1), Hist([1.0, 0.0], 1.0, 0, 0);
    var s := Aggregate(cpuOptions, cpuUsage, o, h, 1.0, 1440, [Memory]);
    assert Memory in s.controlled;
    assert Percentile(o, h, MEMORY_PERCENTILE) == BucketStart(o, 1);
    assert PercentileAmount(s, 0.9, MEMORY_PERCENTILE, Memory) == MAX_RESOURCE_AMOUNT;
    FifteenPercent();
    TargetIs(s, 0.9, 0.15, Memory);
    BoundsAreOrdered(map[], 0.9, 0.15, s, Memory);
    AtLeastMinimum(TargetEstimator(0.9, 0.15), map[], s, Memory);
    BoundsFromMargins(s, 0.9, 0.15, Memory);
    AtLeastMinimum(UpperBoundEstimator(0.15), map[], s, Memory);
    TopIsReached(s, 0.15);
  }

  lemma FifteenPercent()
    ensures ScaleResource(MAX_RESOURCE_AMOUNT, 0.15) == 15_000_000_000_000
  {
    assert Mul(MAX_RESOURCE_AMOUNT as real, 0.15) == 15_000_000_000_000.0;
  }

  lemma TopIsReached(s: Aggregate, margin: real)
    requires ValidAggregate(s) && Confidence(s) > 0.0 && margin >= 0.0
    requires PercentileAmount(s, UPPER_PERCENTILE, UPPER_PERCENTILE, Memory) == MAX_RESOURCE_AMOUNT
    ensures Memory in Estimate(UpperBoundEstimator(margin), s)
    ensures Estimate(UpperBoundEstimator(margin), s)[Memory] == MAX_RESOURCE_AMOUNT
  {
    var top := WithMargin(UPPER_PERCENTILE, UPPER_PERCENTILE, margin);
    var base := Estimate(Percentiles(UPPER_PERCENTILE, UPPER_PERCENTILE), s);
    assert Memory in base && base[Memory] == MAX_RESOURCE_AMOUNT;
    assert Memory in Estimate(top, s) && Estimate(top, s)[Memory] >= MAX_RESOURCE_AMOUNT;
    FactorsAreOrdered(s);
    ScaledUp(Estimate(top, s)[Memory], Factor(1.0, 1, s));
    Multiplied(top, 1.0, 1, s, Memory);
  }

  /** The minimum that a pod's containers share is never too large for that. */
  lemma MinimumIsClamped(minCpuMillicores: real, minMemoryMb: real, n: nat, k: ResourceName)
    requires n > 0
    ensures 0 <= AmountOf(Minimum(minCpuMillicores, minMemoryMb, n), k) <= MAX_RESOURCE_AMOUNT
  {
  }
}
