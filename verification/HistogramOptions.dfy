/** The bucket boundaries of recommender/util/histogram_options.go. */
module HistogramOptions {
  import opened Arithmetic
  import opened Wrappers

  datatype Options =
    | Linear(numBuckets: nat, bucketSize: real, epsilon: real)
    | Exponential(numBuckets: nat, firstBucketSize: real, ratio: real, epsilon: real)

  /** What the two constructors of the source accept and make. */
  predicate Valid(o: Options) {
    && o.numBuckets > 0 && o.epsilon > 0.0
    && match o
       case Linear(_, size, _) => size > 0.0
       case Exponential(_, first, ratio, _) => first > 0.0 && ratio > 1.0
  }

  function BucketStart(o: Options, b: nat): real
    requires Valid(o)
  {
    match o
    case Linear(_, size, _) => b as real * size
    case Exponential(_, first, ratio, _) =>
      if b == 0 then 0.0 else StartFor(first, ratio, Growth(ratio, b))
  }

  /** The start of a bucket by the power of the ratio. */
  function StartFor(first: real, ratio: real, power: real): real
    requires ratio > 1.0
  {
    first * (power - 1.0) / (ratio - 1.0)
  }

  /** Conversion of a float to an int truncates toward zero. */
  function Truncate(x: real): int {
    if x >= 0.0 then x.Floor else -((-x).Floor)
  }

  /** The bucket of a value. The logarithm of the exponential case is replaced by the search
      for the boundaries it stands for. */
  function FindBucket(o: Options, value: real): (b: nat)
    requires Valid(o)
    ensures b < o.numBuckets
  {
    match o
    case Linear(n, size, _) =>
      var b := Truncate(value / size);
      if b < 0 then 0 else if b >= n then n - 1 else b
    case Exponential(_, _, _, _) => FindFrom(o, value, 0)
  }

  function FindFrom(o: Options, value: real, b: nat): (r: nat)
    requires Valid(o) && b < o.numBuckets
    ensures b <= r < o.numBuckets
    decreases o.numBuckets - b
  {
    if b + 1 == o.numBuckets || value < BucketStart(o, b + 1) then b else FindFrom(o, value, b + 1)
  }

  // ---------- The buckets divide the values ----------

  lemma TimesKeepsOrder(a: real, b: real, d: real)
    requires a < b && d > 0.0
    ensures d * a < d * b
  {
  }

  lemma StartsIncrease(o: Options, b: nat)
    requires Valid(o)
    ensures BucketStart(o, b) < BucketStart(o, b + 1)
  {
    hide BucketStart;
    BucketSizes(o, b);
    if o.Exponential? {
      GrowthIsPositive(o.ratio, b);
      AtLeastFirst(o.firstBucketSize, Growth(o.ratio, b));
    }
  }

  lemma {:induction false} StartsAreOrdered(o: Options, a: nat, b: nat)
    requires Valid(o) && a <= b
    ensures BucketStart(o, a) <= BucketStart(o, b)
    decreases b
  {
    if a < b {
      StartsAreOrdered(o, a, b - 1);
      StartsIncrease(o, b - 1);
    }
  }

  lemma {:induction false} FindFromIsBetween(o: Options, value: real, b: nat)
    requires Valid(o) && b < o.numBuckets && BucketStart(o, b) <= value
    ensures var r := FindFrom(o, value, b);
      BucketStart(o, r) <= value && (r + 1 == o.numBuckets || value < BucketStart(o, r + 1))
    decreases o.numBuckets - b
  {
    if b + 1 != o.numBuckets && value >= BucketStart(o, b + 1) { FindFromIsBetween(o, value, b + 1); }
  }

  /** A real number lies between the multiples that its floored quotient names. */
  lemma FloorIsBetween(q: real, size: real)
    requires size > 0.0
    ensures q.Floor as real * size <= q * size && q * size < (q.Floor + 1) as real * size
  {
    var low, high := q.Floor as real, (q.Floor + 1) as real;
    if low < q { TimesKeepsOrder(low, q, size); }
    TimesKeepsOrder(q, high, size);
    assert low * size == size * low && q * size == size * q && high * size == size * high;
  }

  lemma LinearIsBetween(n: nat, size: real, value: real)
    requires size > 0.0 && value >= 0.0
    ensures Truncate(value / size) == (value / size).Floor >= 0
    ensures Truncate(value / size) as real * size <= value
    ensures value < (Truncate(value / size) + 1) as real * size
  {
    var q := value / size;
    assert q >= 0.0 && q * size == value;
    FloorIsBetween(q, size);
    var next := (q.Floor + 1) as real;
    assert value < next * size;
  }

  /** A value that is not negative lies between the start of its bucket and that of the next
      one, except that the last bucket has no end. */
  lemma BucketContainsValue(o: Options, value: real)
    requires Valid(o) && value >= 0.0
    ensures var b := FindBucket(o, value);
      BucketStart(o, b) <= value && (b + 1 == o.numBuckets || value < BucketStart(o, b + 1))
  {
    match o
    case Linear(n, size, _) =>
      LinearIsBetween(n, size, value);
      var b := Truncate(value / size);
      if b >= n {
        StartsAreOrdered(o, n - 1, b);
        assert BucketStart(o, b) == b as real * size;
      } else {
        assert BucketStart(o, b + 1) == (b + 1) as real * size;
      }
    case Exponential(_, _, _, _) => FindFromIsBetween(o, value, 0);
  }

  /** Finding the bucket of a boundary gives back the bucket. */
  lemma StartIsFound(o: Options, b: nat)
    requires Valid(o) && b < o.numBuckets
    ensures FindBucket(o, BucketStart(o, b)) == b
  {
    StartsAreOrdered(o, 0, b);
    var v := BucketStart(o, b);
    BucketContainsValue(o, v);
    var r := FindBucket(o, v);
    if r < b { StartsAreOrdered(o, r + 1, b); }
    if b < r { StartsIncrease(o, b); StartsAreOrdered(o, b + 1, r); }
  }

  function FirstSize(o: Options): real {
    match o
    case Linear(_, size, _) => size
    case Exponential(_, first, _, _) => first
  }

  /** Buckets of linear options are all of one size; those of exponential options start with the
      first size and grow by the ratio. */
  lemma BucketSizes(o: Options, b: nat)
    requires Valid(o)
    ensures BucketStart(o, 0) == 0.0
    ensures BucketStart(o, b + 1) - BucketStart(o, b)
         == if o.Linear? then FirstSize(o) else Mul(FirstSize(o), Growth(o.ratio, b))
  {
    hide BucketStart, Mul, StartFor;
    if o.Exponential? {
      OneTurn(o.ratio, b, b + 1);
      SizeOf(o.firstBucketSize, o.ratio, Growth(o.ratio, b));
      StartIs(o, b);
      StartIs(o, b + 1);
    } else {
      LinearStart(o, b);
      LinearStart(o, b + 1);
      NextStart(o.bucketSize, b);
    }
    FirstStart(o);
  }

  lemma FirstStart(o: Options)
    requires Valid(o)
    ensures BucketStart(o, 0) == 0.0
  {
  }

  lemma LinearStart(o: Options, b: nat)
    requires Valid(o) && o.Linear?
    ensures BucketStart(o, b) == b as real * o.bucketSize
  {
  }

  lemma NextStart(size: real, b: nat)
    ensures (b + 1) as real * size - b as real * size == size
  {
  }

  /** The formula gives 0 for the first bucket too. */
  lemma StartIs(o: Options, b: nat)
    requires Valid(o) && o.Exponential?
    ensures BucketStart(o, b) == StartFor(o.firstBucketSize, o.ratio, Growth(o.ratio, b))
  {
    hide StartFor;
    if b == 0 { ZeroStart(o.firstBucketSize, o.ratio); }
  }

  lemma ZeroStart(first: real, ratio: real)
    requires ratio > 1.0
    ensures StartFor(first, ratio, 1.0) == 0.0
  {
    var x, d := first * (1.0 - 1.0), ratio - 1.0;
    assert x == 0.0 && StartFor(first, ratio, 1.0) == x / d;
    DividesBack(x, d);
    Cancel(x / d, 0.0, d);
  }

  lemma DividesBack(x: real, d: real)
    requires d > 0.0
    ensures Mul(x / d, d) == x
  {
  }

  lemma Cancel(a: real, b: real, d: real)
    requires d > 0.0 && Mul(a, d) == Mul(b, d)
    ensures a == b
  {
  }

  lemma SizeOf(first: real, ratio: real, g: real)
    requires ratio > 1.0
    ensures StartFor(first, ratio, Mul(ratio, g)) - StartFor(first, ratio, g) == Mul(first, g)
  {
    var d := ratio - 1.0;
    var x, y := first * (Mul(ratio, g) - 1.0), first * (g - 1.0);
    DividesBack(x, d);
    DividesBack(y, d);
    Distribute(x / d - y / d, y / d, d);
    Terms(first, ratio, g);
    Cancel(x / d - y / d, Mul(first, g), d);
  }

  lemma Terms(first: real, ratio: real, g: real)
    ensures first * (Mul(ratio, g) - 1.0) - first * (g - 1.0) == Mul(Mul(first, g), ratio - 1.0)
  {
  }

  // ---------- The constructors ----------

  function Ceiling(x: real): int {
    -((-x).Floor)
  }

  /** NewLinearHistogramOptions: an error unless all numbers are positive. */
  function NewLinear(maxValue: real, bucketSize: real, epsilon: real): Option<Options> {
    if maxValue <= 0.0 || bucketSize <= 0.0 || epsilon <= 0.0 then None
    else
      var n := Ceiling(maxValue / bucketSize);
      Positive(maxValue, bucketSize);
      Some(Linear(n + 1, bucketSize, epsilon))
  }

  /** NewExponentialHistogramOptions; the least power of the ratio that is large enough is what
      the logarithm in the source, rounded up, stands for. */
  function NewExponential(maxValue: real, firstBucketSize: real, ratio: real, epsilon: real): Option<Options> {
    if maxValue <= 0.0 || firstBucketSize <= 0.0 || ratio <= 1.0 || epsilon <= 0.0 then None
    else
      var o, bound := Exponential(1, firstBucketSize, ratio, epsilon), Ceiling(maxValue / firstBucketSize);
      Positive(maxValue, firstBucketSize);
      StartsGrow(o, bound);
      Some(Exponential(CountFrom(o, maxValue, 0, bound) + 1, firstBucketSize, ratio, epsilon))
  }

  /** The least number, not below n, at which a bucket starts at or after a value. */
  function CountFrom(o: Options, maxValue: real, n: nat, bound: nat): (r: nat)
    requires Valid(o) && n <= bound && BucketStart(o, bound) >= maxValue
    ensures n <= r <= bound && BucketStart(o, r) >= maxValue
    ensures forall k: nat :: n <= k < r ==> BucketStart(o, k) < maxValue
    decreases bound - n
  {
    if BucketStart(o, n) >= maxValue then n else CountFrom(o, maxValue, n + 1, bound)
  }

  lemma Positive(maxValue: real, size: real)
    requires maxValue > 0.0 && size > 0.0
    ensures var n := Ceiling(maxValue / size);
      n >= 1 && Mul(n as real, size) >= maxValue && Mul((n - 1) as real, size) < maxValue
  {
    var q := maxValue / size;
    var n := Ceiling(q);
    DividesBack(maxValue, size);
    assert (n - 1) as real < q <= n as real;
    Ordered(q, n as real, size);
    Ordered((n - 1) as real, q, size);
    if n < 1 { Ordered(q, 0.0, size); }
  }

  lemma Ordered(a: real, b: real, d: real)
    requires d > 0.0
    ensures (a <= b <==> Mul(a, d) <= Mul(b, d)) && (a < b <==> Mul(a, d) < Mul(b, d))
  {
  }

  /** Every bucket is at least as large as the first one. */
  lemma {:induction false} StartsGrow(o: Options, b: nat)
    requires Valid(o)
    ensures BucketStart(o, b) >= Mul(b as real, FirstSize(o))
  {
    hide BucketStart;
    BucketSizes(o, 0);
    if b > 0 {
      StartsGrow(o, b - 1);
      BucketSizes(o, b - 1);
      Distribute((b - 1) as real, 1.0, FirstSize(o));
      if o.Exponential? {
        GrowthIsPositive(o.ratio, b - 1);
        AtLeastFirst(o.firstBucketSize, Growth(o.ratio, b - 1));
      }
    }
  }

  lemma AtLeastFirst(first: real, g: real)
    requires first > 0.0 && g >= 1.0
    ensures Mul(first, g) >= first
  {
  }

  /** The linear options that are made are valid, and their last bucket is the first to start at
      or after the largest value. */
  lemma LinearReachesMax(maxValue: real, size: real, epsilon: real)
    requires maxValue > 0.0 && size > 0.0 && epsilon > 0.0
    ensures var o := NewLinear(maxValue, size, epsilon); o.Some? && Reaches(o.value, maxValue)
  {
    Positive(maxValue, size);
    var n := Ceiling(maxValue / size);
    var o := Linear(n + 1, size, epsilon);
    LinearStart(o, n);
    LinearStart(o, n - 1);
  }

  /** So are the exponential ones. */
  lemma ExponentialReachesMax(maxValue: real, first: real, ratio: real, epsilon: real)
    requires maxValue > 0.0 && first > 0.0 && ratio > 1.0 && epsilon > 0.0
    ensures var o := NewExponential(maxValue, first, ratio, epsilon); o.Some? && Reaches(o.value, maxValue)
  {
    hide BucketStart;
    Positive(maxValue, first);
    var o, bound := Exponential(1, first, ratio, epsilon), Ceiling(maxValue / first);
    StartsGrow(o, bound);
    var n := CountFrom(o, maxValue, 0, bound);
    FirstStart(o);
    SameStarts(o, n + 1, n);
    if n > 0 { SameStarts(o, n + 1, n - 1); }
  }

  /** The number of buckets does not matter to where they start. */
  lemma SameStarts(o: Options, n: nat, b: nat)
    requires Valid(o) && n > 0 && o.Exponential?
    ensures BucketStart(Exponential(n, o.firstBucketSize, o.ratio, o.epsilon), b) == BucketStart(o, b)
  {
  }

  ghost predicate Reaches(o: Options, maxValue: real) {
    && Valid(o) && o.numBuckets >= 2 && BucketStart(o, o.numBuckets - 1) >= maxValue
    && forall b: nat :: b == o.numBuckets - 2 ==> BucketStart(o, b) < maxValue
  }

  /** Larger values fall into the same or a later bucket. */
  lemma BucketsFollowValues(o: Options, v: real, w: real)
    requires Valid(o) && 0.0 <= v <= w
    ensures FindBucket(o, v) <= FindBucket(o, w)
  {
    BucketContainsValue(o, v);
    BucketContainsValue(o, w);
    var a, b := FindBucket(o, v), FindBucket(o, w);
    if b < a { StartsAreOrdered(o, b + 1, a); }
  }
}
