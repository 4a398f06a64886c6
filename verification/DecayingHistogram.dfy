/** The decaying histogram of recommender/util/decaying_histogram.go. A sample's weight grows
    by a factor g per tick of its time, with g to the power of the half life equal to 2, so
    that g^t stands for 2^(t / halfLife). */
module DecayingHistogram {
  import opened Arithmetic
  import opened HistogramOptions
  import opened Histogram

  const MAX_DECAY_EXPONENT: int := 100

  /** The half life in ticks and the growth of a weight per tick. */
  datatype Decay = Decay(halfLife: nat, growth: real)

  ghost predicate ValidDecay(d: Decay) {
    d.halfLife > 0 && d.growth > 1.0 && Growth(d.growth, d.halfLife) == 2.0
  }

  datatype Decaying = Decaying(h: Hist, ref: int)

  /** time.Round: to the nearest multiple, halfway up. */
  function RoundTime(t: int, d: nat): int
    requires d > 0
  {
    var r := t % d;
    if 2 * r < d then t - r else t + d - r
  }

  function Shifted(o: Options, d: Decay, x: Decaying, t: int): Decaying
    requires d.halfLife > 0 && x.h.min < |x.h.weights| && x.h.max < |x.h.weights|
  {
    var ref := RoundTime(t, d.halfLife);
    var exponent := Rounded((x.ref - ref) as real / d.halfLife as real);
    Decaying(Scaled(o, x.h, Growth(2.0, exponent)), ref)
  }

  /** decayFactor first makes sure that the exponent does not grow too large. */
  function Prepared(o: Options, d: Decay, x: Decaying, t: int): Decaying
    requires d.halfLife > 0 && x.h.min < |x.h.weights| && x.h.max < |x.h.weights|
  {
    if t > x.ref + d.halfLife * MAX_DECAY_EXPONENT then Shifted(o, d, x, t) else x
  }

  function DecayedAdd(o: Options, d: Decay, x: Decaying, b: nat, weight: real, t: int): (r: Decaying)
    requires d.halfLife > 0 && d.growth > 1.0 && x.h.min < |x.h.weights| && x.h.max < |x.h.weights| && b < |x.h.weights|
    ensures |r.h.weights| == |x.h.weights| && r.h.min < |x.h.weights| && r.h.max < |x.h.weights|
  {
    var y := Prepared(o, d, x, t);
    Decaying(Added(o, y.h, b, Mul(weight, Growth(d.growth, t - y.ref))), y.ref)
  }

  function DecayedSubtract(o: Options, d: Decay, x: Decaying, b: nat, weight: real, t: int): (r: Decaying)
    requires d.halfLife > 0 && d.growth > 1.0 && x.h.min < |x.h.weights| && x.h.max < |x.h.weights| && b < |x.h.weights|
    ensures |r.h.weights| == |x.h.weights| && r.h.min < |x.h.weights| && r.h.max < |x.h.weights|
  {
    var y := Prepared(o, d, x, t);
    Decaying(Subtracted(o, y.h, b, Mul(weight, Growth(d.growth, t - y.ref))), y.ref)
  }

  // ---------- Powers ----------

  /** A shift by k half lives is a shift by a power of two. */
  lemma {:induction false} HalfLives(d: Decay, k: int, ticks: int)
    requires ValidDecay(d) && ticks == d.halfLife * k
    ensures Growth(d.growth, ticks) == Growth(2.0, k)
    decreases if k >= 0 then k else -k
  {
    var h: int := d.halfLife;
    if k > 0 {
      NextMultiple(h, k - 1);
      HalfLives(d, k - 1, ticks - h);
      GrowthAdds(d.growth, h, ticks - h, ticks);
    } else if k < 0 {
      NextMultiple(h, k);
      HalfLives(d, k + 1, ticks + h);
      GrowthAdds(d.growth, h, ticks, ticks + h);
      Undo(Growth(d.growth, ticks), Growth(2.0, k + 1), 2.0);
    }
  }

  // ---------- The ideal weights ----------

  datatype Sample = Sample(bucket: nat, weight: real, time: int)

  /** The weight of a sample, relative to a reference time. */
  function Term(d: Decay, s: Sample, ref: int): real
    requires d.growth > 1.0
  {
    Mul(s.weight, Growth(d.growth, s.time - ref))
  }

  /** The exact weight of the samples of one bucket, relative to a reference time. */
  function Ideal(d: Decay, hist: seq<Sample>, b: nat, ref: int): real
    requires d.growth > 1.0
  {
    if hist == [] then 0.0
    else
      var s := hist[|hist| - 1];
      Ideal(d, hist[..|hist| - 1], b, ref) + if s.bucket == b then Term(d, s, ref) else 0.0
  }

  function IdealTotal(d: Decay, hist: seq<Sample>, ref: int): real
    requires d.growth > 1.0
  {
    if hist == [] then 0.0
    else
      var s := hist[|hist| - 1];
      IdealTotal(d, hist[..|hist| - 1], ref) + Term(d, s, ref)
  }

  ghost predicate Weighty(hist: seq<Sample>) {
    forall i :: 0 <= i < |hist| ==> hist[i].weight >= 0.0
  }

  /** Moving the reference multiplies every ideal weight by the same factor. */
  lemma {:induction false} IdealMoves(d: Decay, hist: seq<Sample>, b: nat, ref: int, newRef: int, delta: int)
    requires ValidDecay(d) && delta == ref - newRef
    ensures Ideal(d, hist, b, newRef) == Mul(Ideal(d, hist, b, ref), Growth(d.growth, delta))
    ensures IdealTotal(d, hist, newRef) == Mul(IdealTotal(d, hist, ref), Growth(d.growth, delta))
  {
    var f := Growth(d.growth, delta);
    if hist != [] {
      var front, s := hist[..|hist| - 1], hist[|hist| - 1];
      IdealMoves(d, front, b, ref, newRef, delta);
      GrowthAdds(d.growth, s.time - ref, delta, s.time - newRef);
      var term := Mul(s.weight, Growth(d.growth, s.time - ref));
      Reassociate(s.weight, Growth(d.growth, s.time - ref), f);
      Distribute(Ideal(d, front, b, ref), term, f);
      Distribute(IdealTotal(d, front, ref), term, f);
    }
  }

  lemma {:induction false} IdealIsPositive(d: Decay, hist: seq<Sample>, b: nat, ref: int)
    requires ValidDecay(d) && Weighty(hist)
    ensures 0.0 <= Ideal(d, hist, b, ref) <= IdealTotal(d, hist, ref)
  {
    if hist != [] {
      var s := hist[|hist| - 1];
      IdealIsPositive(d, hist[..|hist| - 1], b, ref);
      GrowthIsPositive(d.growth, s.time - ref);
      Product(s.weight, Growth(d.growth, s.time - ref));
    }
  }

  /** How far a stored histogram may be from the ideal one: by at least `low` and by less than
      `high` in a bucket, and by at most `lost` below in the total. */
  datatype Bounds = Bounds(low: real, high: real, lost: real)

  ghost predicate Within(o: Options, d: Decay, x: Decaying, hist: seq<Sample>, e: Bounds)
    requires ValidDecay(d)
  {
    && HistInv(o, x.h) && x.ref % d.halfLife == 0 && Weighty(hist)
    && e.low <= 0.0 && o.epsilon <= e.high && 0.0 <= e.lost
    && (forall b :: 0 <= b < |x.h.weights| ==> Near(x.h.weights[b], Ideal(d, hist, b, x.ref), e.low, e.high))
    && -e.lost <= x.h.total - IdealTotal(d, hist, x.ref) <= 0.0
  }

  predicate Near(stored: real, ideal: real, low: real, high: real) {
    low <= stored - ideal < high
  }

  /** The stored histogram refines the ideal one: every bucket is above its ideal weight by
      less than epsilon, and the total is exact. */
  ghost predicate Refines(o: Options, d: Decay, x: Decaying, hist: seq<Sample>)
    requires ValidDecay(d)
  {
    Within(o, d, x, hist, Bounds(0.0, o.epsilon, 0.0))
  }

  // ---------- Shifting the reference ----------

  lemma RoundedIsMultiple(t: int, h: nat)
    requires h > 0
    ensures RoundTime(t, h) % h == 0 && t - h <= RoundTime(t, h) <= t + h
    ensures 2 * (t - RoundTime(t, h)) <= h && 2 * (RoundTime(t, h) - t) <= h
  {
    var q, r := t / h, t % h;
    assert t == h * q + r;
    MultipleMod(h, q);
    MultipleMod(h, q + 1);
    NextMultiple(h, q);
  }

  /** Between multiples of the half life the rounded exponent is exact. */
  lemma ExponentIsExact(h: nat, ticks: int, k: int)
    requires h > 0 && ticks == h * k
    ensures Rounded(ticks as real / h as real) == k
  {
    assert ticks as real == h as real * k as real;
    Quotient(h as real, k as real, ticks as real);
  }

  lemma Quotient(h: real, k: real, t: real)
    requires h > 0.0 && t == h * k
    ensures t / h == k
  {
  }

  /** Shrinking a stored and an ideal weight by the same factor keeps them near; so does
      shrinking the ideal weight only, if the stored one is small. */
  lemma ShrinkKeepsNear(stored: real, ideal: real, low: real, high: real, f: real)
    requires Near(stored, ideal, low, high) && low <= 0.0 < high && ideal >= 0.0 && 0.0 < f <= 1.0
    ensures Near(Mul(stored, f), Mul(ideal, f), low, high)
    ensures stored < high ==> Near(stored, Mul(ideal, f), low, high)
  {
    Distribute(stored - ideal, ideal, f);
    Shrinks(ideal, f);
    if stored >= ideal {
      Shrinks(stored - ideal, f);
    } else {
      Shrinks(ideal - stored, f);
      Negated(ideal - stored, f);
    }
  }

  lemma Negated(a: real, f: real)
    ensures Mul(-a, f) == -Mul(a, f)
  {
  }

  /** The factor of a shift forward is the growth between the two references, at most 1. */
  lemma ShiftFactor(d: Decay, ref: int, t: int)
    requires ValidDecay(d) && ref % d.halfLife == 0 && RoundTime(t, d.halfLife) >= ref
    ensures var newRef := RoundTime(t, d.halfLife);
      var f := Growth(2.0, Rounded((ref - newRef) as real / d.halfLife as real));
      f == Growth(d.growth, ref - newRef) && 0.0 < f <= 1.0
  {
    var h := d.halfLife;
    var newRef := RoundTime(t, h);
    RoundedIsMultiple(t, h);
    var k, m := ref / h, newRef / h;
    Spread(h, k, m);
    assert ref == h * k && newRef == h * m;
    var ticks := ref - newRef;
    ExponentIsExact(h, ticks, k - m);
    HalfLives(d, k - m, ticks);
    GrowthIsPositive(d.growth, ticks);
  }

  lemma ScaledIsNear(o: Options, h: Hist, f: real, b: nat, ideal: real, low: real, high: real)
    requires HistInv(o, h) && b < |h.weights| && 0.0 < f <= 1.0 && ideal >= 0.0
    requires low <= 0.0 && o.epsilon <= high && Near(h.weights[b], ideal, low, high)
    ensures Near(Scaled(o, h, f).weights[b], Mul(ideal, f), low, high)
  {
    ShrinkKeepsNear(h.weights[b], ideal, low, high, f);
  }

  /** A shift forward keeps the bounds, wherever the range of the buckets ends. */
  lemma ShiftRefines(o: Options, d: Decay, x: Decaying, hist: seq<Sample>, t: int, e: Bounds)
    requires ValidDecay(d) && Within(o, d, x, hist, e) && RoundTime(t, d.halfLife) >= x.ref
    ensures Within(o, d, Shifted(o, d, x, t), hist, e)
  {
    var newRef := RoundTime(t, d.halfLife);
    RoundedIsMultiple(t, d.halfLife);
    ShiftFactor(d, x.ref, t);
    var f := Growth(d.growth, x.ref - newRef);
    ScaledInv(o, x.h, f);
    forall b | 0 <= b < |x.h.weights|
      ensures Near(Scaled(o, x.h, f).weights[b], Ideal(d, hist, b, newRef), e.low, e.high)
    {
      IdealMoves(d, hist, b, x.ref, newRef, x.ref - newRef);
      IdealIsPositive(d, hist, b, x.ref);
      ScaledIsNear(o, x.h, f, b, Ideal(d, hist, b, x.ref), e.low, e.high);
    }
    IdealMoves(d, hist, 0, x.ref, newRef, x.ref - newRef);
    ScaledTotal(x.h.total, IdealTotal(d, hist, x.ref), f, e.lost);
  }

  lemma ScaledTotal(total: real, ideal: real, f: real, lost: real)
    requires -lost <= total - ideal <= 0.0 && 0.0 <= f <= 1.0
    ensures -lost <= Mul(total, f) - Mul(ideal, f) <= 0.0
  {
    Distribute(ideal - total, total, f);
    Shrinks(ideal - total, f);
  }

  /** decayFactor keeps the bounds, and the exponent it leaves never exceeds the maximum. */
  lemma PreparedRefines(o: Options, d: Decay, x: Decaying, hist: seq<Sample>, t: int, e: Bounds)
    requires ValidDecay(d) && Within(o, d, x, hist, e)
    ensures Within(o, d, Prepared(o, d, x, t), hist, e)
    ensures t - Prepared(o, d, x, t).ref <= d.halfLife * MAX_DECAY_EXPONENT
  {
    if t > x.ref + d.halfLife * MAX_DECAY_EXPONENT {
      RoundedIsMultiple(t, d.halfLife);
      ShiftRefines(o, d, x, hist, t, e);
    }
  }

  /** The reference moves only for a sample more than 100 half lives ahead, and then to the multiple
      of the half life that is nearest to it, the later one of two. */
  lemma ReferenceIs(o: Options, d: Decay, x: Decaying, t: int)
    requires ValidDecay(d) && x.h.min < |x.h.weights| && x.h.max < |x.h.weights|
    ensures t <= x.ref + 100 * d.halfLife ==> Prepared(o, d, x, t) == x
    ensures t > x.ref + 100 * d.halfLife ==>
      var ref := Prepared(o, d, x, t).ref;
      ref % d.halfLife == 0 && 2 * (ref - t) <= d.halfLife && 2 * (t - ref) < d.halfLife
  {
    RoundedIsMultiple(t, d.halfLife);
  }

  /** An added sample keeps every bucket as near to its ideal weight as it was. */
  lemma AddRefines(
    o: Options, d: Decay, x: Decaying, hist: seq<Sample>, b: nat, weight: real, t: int, e: Bounds)
    requires ValidDecay(d) && Within(o, d, x, hist, e) && b < |x.h.weights| && weight >= 0.0
    ensures Within(o, d, DecayedAdd(o, d, x, b, weight, t), hist + [Sample(b, weight, t)], e)
  {
    PreparedRefines(o, d, x, hist, t, e);
    var y := Prepared(o, d, x, t);
    var s := Sample(b, weight, t);
    var w := Mul(weight, Growth(d.growth, t - y.ref));
    GrowthIsPositive(d.growth, t - y.ref);
    Product(weight, Growth(d.growth, t - y.ref));
    AddedInv(o, y.h, b, w);
    assert (hist + [s])[..|hist|] == hist && (hist + [s])[|hist|] == s;
    forall k | 0 <= k < |y.h.weights|
      ensures Near(Added(o, y.h, b, w).weights[k], Ideal(d, hist + [s], k, y.ref), e.low, e.high)
    {
      assert Near(y.h.weights[k], Ideal(d, hist, k, y.ref), e.low, e.high);
    }
  }

  // ---------- Taking samples back ----------

  /** The sequence without the last occurrence of an element. */
  function WithoutLast<T(==)>(s: seq<T>, x: T): (r: seq<T>)
    requires x in s
    ensures multiset(r) == multiset(s) - multiset{x}
  {
    var n := |s| - 1;
    assert s == s[..n] + [s[n]];
    if s[n] == x then s[..n] else WithoutLast(s[..n], x) + [s[n]]
  }

  lemma WithoutLastIsWeighty(hist: seq<Sample>, s: Sample)
    requires s in hist && Weighty(hist)
    ensures Weighty(WithoutLast(hist, s))
  {
    var rest := WithoutLast(hist, s);
    forall i | 0 <= i < |rest| ensures rest[i].weight >= 0.0 {
      assert rest[i] in multiset(rest) && rest[i] in multiset(hist);
      assert rest[i] in hist;
    }
  }

  lemma IdealNext(d: Decay, hist: seq<Sample>, s: Sample, b: nat, ref: int)
    requires d.growth > 1.0
    ensures Ideal(d, hist + [s], b, ref) == Ideal(d, hist, b, ref) + if s.bucket == b then Term(d, s, ref) else 0.0
    ensures IdealTotal(d, hist + [s], ref) == IdealTotal(d, hist, ref) + Term(d, s, ref)
  {
    assert (hist + [s])[..|hist|] == hist;
  }

  lemma {:induction false} IdealWithout(d: Decay, hist: seq<Sample>, s: Sample, b: nat, ref: int)
    requires d.growth > 1.0 && s in hist
    ensures Ideal(d, hist, b, ref)
         == Ideal(d, WithoutLast(hist, s), b, ref) + if s.bucket == b then Term(d, s, ref) else 0.0
    ensures IdealTotal(d, hist, ref) == IdealTotal(d, WithoutLast(hist, s), ref) + Term(d, s, ref)
  {
    hide Term;
    var n := |hist| - 1;
    if hist[n] != s {
      assert s in hist[..n];
      IdealWithout(d, hist[..n], s, b, ref);
      IdealNext(d, WithoutLast(hist[..n], s), hist[n], b, ref);
    }
  }

  /** A subtraction that is cut to zero below epsilon loses less than epsilon. */
  lemma CutIsNear(stored: real, ideal: real, w: real, epsilon: real, low: real, high: real)
    requires Near(stored, ideal, low, high) && low <= 0.0 && 0.0 < epsilon <= high && w <= ideal
    ensures Near(SafeSubtract(stored, w, epsilon), ideal - w, low - epsilon, high)
  {
  }

  /** A sample that is taken back after it was added. */
  lemma SubtractRefines(o: Options, d: Decay, x: Decaying, hist: seq<Sample>, s: Sample, e: Bounds)
    requires ValidDecay(d) && Within(o, d, x, hist, e) && s in hist && s.bucket < |x.h.weights|
    ensures Within(o, d, DecayedSubtract(o, d, x, s.bucket, s.weight, s.time), WithoutLast(hist, s),
      Bounds(e.low - o.epsilon, e.high, e.lost + o.epsilon))
  {
    PreparedRefines(o, d, x, hist, s.time, e);
    SubtractPrepared(o, d, Prepared(o, d, x, s.time), hist, s, e);
  }

  lemma TermIsPositive(d: Decay, s: Sample, ref: int)
    requires d.growth > 1.0 && s.weight >= 0.0
    ensures Term(d, s, ref) >= 0.0
  {
    GrowthIsPositive(d.growth, s.time - ref);
    Product(s.weight, Growth(d.growth, s.time - ref));
  }

  lemma SubtractPrepared(o: Options, d: Decay, y: Decaying, hist: seq<Sample>, s: Sample, e: Bounds)
    requires ValidDecay(d) && Within(o, d, y, hist, e) && s in hist && s.bucket < |y.h.weights|
    ensures Within(o, d, Decaying(Subtracted(o, y.h, s.bucket, Term(d, s, y.ref)), y.ref), WithoutLast(hist, s),
      Bounds(e.low - o.epsilon, e.high, e.lost + o.epsilon))
  {
    hide WithoutLast, Ideal, IdealTotal, Term, Tight;
    var w, rest := Term(d, s, y.ref), WithoutLast(hist, s);
    var g := Subtracted(o, y.h, s.bucket, w);
    TermIsPositive(d, s, y.ref);
    SubtractedInv(o, y.h, s.bucket, w);
    WithoutLastIsWeighty(hist, s);
    forall b | 0 <= b < |y.h.weights|
      ensures Near(g.weights[b], Ideal(d, rest, b, y.ref), e.low - o.epsilon, e.high)
    {
      IdealWithout(d, hist, s, b, y.ref);
      IdealIsPositive(d, rest, b, y.ref);
      if b == s.bucket { CutIsNear(y.h.weights[b], Ideal(d, hist, b, y.ref), w, o.epsilon, e.low, e.high); }
    }
    IdealWithout(d, hist, s, 0, y.ref);
    IdealIsPositive(d, rest, 0, y.ref);
  }

  // ---------- Histories ----------

  /** The histogram after a history of samples. */
  function After(o: Options, d: Decay, hist: seq<Sample>): (x: Decaying)
    requires Valid(o) && d.halfLife > 0 && d.growth > 1.0
    requires forall i :: 0 <= i < |hist| ==> hist[i].bucket < o.numBuckets
    ensures |x.h.weights| == o.numBuckets && x.h.min < o.numBuckets && x.h.max < o.numBuckets
  {
    if hist == [] then Decaying(Fresh(o), 0)
    else
      var s := hist[|hist| - 1];
      DecayedAdd(o, d, After(o, d, hist[..|hist| - 1]), s.bucket, s.weight, s.time)
  }

  /** After any history of samples with non-negative weights, with all its shifts of the
      reference, every bucket is above its ideal weight by less than epsilon, and the total
      is exact. */
  lemma {:induction false} HistoryRefines(o: Options, d: Decay, hist: seq<Sample>)
    requires Valid(o) && ValidDecay(d) && Weighty(hist)
    requires forall i :: 0 <= i < |hist| ==> hist[i].bucket < o.numBuckets
    ensures Refines(o, d, After(o, d, hist), hist)
  {
    if hist == [] {
      FreshInv(o);
    } else {
      var front, s := hist[..|hist| - 1], hist[|hist| - 1];
      HistoryRefines(o, d, front);
      AddRefines(o, d, After(o, d, front), front, s.bucket, s.weight, s.time, Bounds(0.0, o.epsilon, 0.0));
      assert hist == front + [s];
    }
  }

  // ---------- Merging ----------

  function Aligned(o: Options, d: Decay, x: Decaying, ref: int): Decaying
    requires d.halfLife > 0 && x.h.min < |x.h.weights| && x.h.max < |x.h.weights|
  {
    if x.ref < ref then Shifted(o, d, x, ref) else x
  }

  /** The older reference is aligned with the younger one, then the histograms are merged. */
  function DecayedMerge(o: Options, d: Decay, x: Decaying, y: Decaying): (r: Decaying)
    requires d.halfLife > 0 && |x.h.weights| == |y.h.weights|
    requires x.h.min < |x.h.weights| && x.h.max < |x.h.weights| && y.h.min < |y.h.weights| && y.h.max < |y.h.weights|
    ensures |r.h.weights| == |x.h.weights| && r.h.min < |x.h.weights| && r.h.max < |x.h.weights|
  {
    var a, b := Aligned(o, d, x, y.ref), Aligned(o, d, y, x.ref);
    Decaying(Merged(a.h, b.h), a.ref)
  }

  lemma {:induction false} IdealOfBoth(d: Decay, a: seq<Sample>, b: seq<Sample>, k: nat, ref: int)
    requires ValidDecay(d)
    ensures Ideal(d, a + b, k, ref) == Ideal(d, a, k, ref) + Ideal(d, b, k, ref)
    ensures IdealTotal(d, a + b, ref) == IdealTotal(d, a, ref) + IdealTotal(d, b, ref)
  {
    if b == [] {
      assert a + b == a;
    } else {
      var n := |b| - 1;
      IdealOfBoth(d, a, b[..n], k, ref);
      assert (a + b)[..|a| + n] == a + b[..n] && (a + b)[|a| + n] == b[n];
    }
  }

  /** Aligning a histogram whose reference is older keeps the bounds. */
  lemma AlignedRefines(o: Options, d: Decay, x: Decaying, hist: seq<Sample>, ref: int, e: Bounds)
    requires ValidDecay(d) && Within(o, d, x, hist, e) && ref % d.halfLife == 0
    ensures Within(o, d, Aligned(o, d, x, ref), hist, e)
    ensures Aligned(o, d, x, ref).ref == if x.ref < ref then ref else x.ref
  {
    if x.ref < ref {
      assert RoundTime(ref, d.halfLife) == ref;
      ShiftRefines(o, d, x, hist, ref, e);
    }
  }

  /** Outside the range of the second histogram its bucket, which is below epsilon, is lost. */
  lemma MergedIsNear(
    o: Options, g: Hist, h: Hist, b: nat, ideal1: real, ideal2: real,
    low1: real, high1: real, low2: real, high2: real)
    requires HistInv(o, g) && HistInv(o, h) && b < |g.weights| && low2 <= 0.0 < high2
    requires Near(g.weights[b], ideal1, low1, high1) && Near(h.weights[b], ideal2, low2, high2) && ideal2 >= 0.0
    ensures Near(Merged(g, h).weights[b], ideal1 + ideal2, low1 + low2 - o.epsilon, high1 + high2)
  {
  }

  /** The bounds of two histograms added, with one more epsilon below. */
  function Joined(o: Options, ex: Bounds, ey: Bounds): Bounds {
    Bounds(ex.low + ey.low - o.epsilon, ex.high + ey.high, ex.lost + ey.lost)
  }

  /** Merging adds the bounds of the two and loses less than another epsilon in a bucket, as only
      the range of the other histogram is merged; it loses nothing in the total. */
  lemma MergeIsNearIdeal(
    o: Options, d: Decay, x: Decaying, y: Decaying, hx: seq<Sample>, hy: seq<Sample>, ex: Bounds, ey: Bounds)
    requires ValidDecay(d) && Within(o, d, x, hx, ex) && Within(o, d, y, hy, ey)
    ensures Within(o, d, DecayedMerge(o, d, x, y), hx + hy, Joined(o, ex, ey))
  {
    AlignedRefines(o, d, x, hx, y.ref, ex);
    AlignedRefines(o, d, y, hy, x.ref, ey);
    var a, b, e := Aligned(o, d, x, y.ref), Aligned(o, d, y, x.ref), Joined(o, ex, ey);
    MergedInv(o, a.h, b.h);
    IdealOfBoth(d, hx, hy, 0, a.ref);
    forall k | 0 <= k < |a.h.weights|
      ensures Near(Merged(a.h, b.h).weights[k], Ideal(d, hx + hy, k, a.ref), e.low, e.high)
    {
      IdealOfBoth(d, hx, hy, k, a.ref);
      IdealIsPositive(d, hy, k, a.ref);
      MergedIsNear(
        o, a.h, b.h, k, Ideal(d, hx, k, a.ref), Ideal(d, hy, k, b.ref), ex.low, ex.high, ey.low, ey.high);
    }
  }

  /** How a histogram came about: from adding samples, taking back some of them, and merging
      histograms, in any order. */
  datatype Origin =
    | Nothing
    | Plus(before: Origin, sample: Sample)
    | Minus(before: Origin, sample: Sample)
    | Both(into: Origin, other: Origin)

  /** Samples have buckets and weights, and one that is taken back is there. */
  ghost predicate Proper(o: Options, origin: Origin) {
    match origin
    case Nothing => true
    case Plus(before, s) => Proper(o, before) && s.bucket < o.numBuckets && s.weight >= 0.0
    case Minus(before, s) => Proper(o, before) && s.bucket < o.numBuckets && s in SamplesOf(before)
    case Both(into, other) => Proper(o, into) && Proper(o, other)
  }

  ghost function SamplesOf(origin: Origin): seq<Sample> {
    match origin
    case Nothing => []
    case Plus(before, s) => SamplesOf(before) + [s]
    case Minus(before, s) => if s in SamplesOf(before) then WithoutLast(SamplesOf(before), s) else SamplesOf(before)
    case Both(into, other) => SamplesOf(into) + SamplesOf(other)
  }

  ghost function Built(o: Options, d: Decay, origin: Origin): (x: Decaying)
    requires Valid(o) && d.halfLife > 0 && d.growth > 1.0 && Proper(o, origin)
    ensures |x.h.weights| == o.numBuckets && x.h.min < o.numBuckets && x.h.max < o.numBuckets
  {
    match origin
    case Nothing => Decaying(Fresh(o), 0)
    case Plus(before, s) => DecayedAdd(o, d, Built(o, d, before), s.bucket, s.weight, s.time)
    case Minus(before, s) => DecayedSubtract(o, d, Built(o, d, before), s.bucket, s.weight, s.time)
    case Both(into, other) => DecayedMerge(o, d, Built(o, d, into), Built(o, d, other))
  }

  ghost function MergesOf(origin: Origin): nat {
    match origin
    case Nothing => 0
    case Plus(before, _) => MergesOf(before)
    case Minus(before, _) => MergesOf(before)
    case Both(into, other) => MergesOf(into) + MergesOf(other) + 1
  }

  /** How many samples were taken back. */
  ghost function CutsOf(origin: Origin): nat {
    match origin
    case Nothing => 0
    case Plus(before, _) => CutsOf(before)
    case Minus(before, _) => CutsOf(before) + 1
    case Both(into, other) => CutsOf(into) + CutsOf(other)
  }

  /** The bounds after m merges and c subtractions. */
  function InEpsilons(o: Options, m: nat, c: nat): Bounds {
    Bounds(-Mul((m + c) as real, o.epsilon), Mul((m + 1) as real, o.epsilon), Mul(c as real, o.epsilon))
  }

  lemma NoEpsilons(o: Options)
    ensures InEpsilons(o, 0, 0) == Bounds(0.0, o.epsilon, 0.0)
  {
  }

  lemma OneCut(o: Options, m: nat, c: nat, next: nat)
    requires next == c + 1
    ensures var e := InEpsilons(o, m, c);
      InEpsilons(o, m, next) == Bounds(e.low - o.epsilon, e.high, e.lost + o.epsilon)
  {
  }

  lemma OneMerge(o: Options, m: nat, c: nat, n: nat, k: nat, merges: nat, cuts: nat)
    requires merges == m + n + 1 && cuts == c + k
    ensures InEpsilons(o, merges, cuts) == Joined(o, InEpsilons(o, m, c), InEpsilons(o, n, k))
  {
  }

  lemma AddCase(o: Options, d: Decay, x: Decaying, hist: seq<Sample>, s: Sample, m: nat, c: nat)
    requires ValidDecay(d) && Within(o, d, x, hist, InEpsilons(o, m, c)) && s.bucket < |x.h.weights| && s.weight >= 0.0
    ensures Within(o, d, DecayedAdd(o, d, x, s.bucket, s.weight, s.time), hist + [s], InEpsilons(o, m, c)) == true
  {
    AddRefines(o, d, x, hist, s.bucket, s.weight, s.time, InEpsilons(o, m, c));
  }

  lemma SubtractCase(o: Options, d: Decay, x: Decaying, hist: seq<Sample>, s: Sample, m: nat, c: nat, next: nat)
    requires ValidDecay(d) && Within(o, d, x, hist, InEpsilons(o, m, c)) && s.bucket < |x.h.weights| && s in hist
    requires next == c + 1
    ensures Within(o, d, DecayedSubtract(o, d, x, s.bucket, s.weight, s.time), WithoutLast(hist, s),
      InEpsilons(o, m, next)) == true
  {
    OneCut(o, m, c, next);
    SubtractRefines(o, d, x, hist, s, InEpsilons(o, m, c));
  }

  lemma MergeCase(
    o: Options, d: Decay, x: Decaying, y: Decaying, hx: seq<Sample>, hy: seq<Sample>,
    m: nat, c: nat, n: nat, k: nat, merges: nat, cuts: nat)
    requires ValidDecay(d) && merges == m + n + 1 && cuts == c + k
    requires Within(o, d, x, hx, InEpsilons(o, m, c)) && Within(o, d, y, hy, InEpsilons(o, n, k))
    ensures Within(o, d, DecayedMerge(o, d, x, y), hx + hy, InEpsilons(o, merges, cuts)) == true
  {
    OneMerge(o, m, c, n, k, merges, cuts);
    MergeIsNearIdeal(o, d, x, y, hx, hy, InEpsilons(o, m, c), InEpsilons(o, n, k));
  }

  /** However samples were added and taken back and histograms merged, with m merges and c
      subtractions a bucket is at most m + c epsilons below and less than m + 1 above the ideal
      weight of the samples left, and the total is at most c epsilons below theirs. */
  lemma {:induction false} OriginIsNearIdeal(o: Options, d: Decay, origin: Origin)
    requires Valid(o) && ValidDecay(d) && Proper(o, origin)
    ensures Within(
      o, d, Built(o, d, origin), SamplesOf(origin), InEpsilons(o, MergesOf(origin), CutsOf(origin))) == true
  {
    hide InEpsilons, DecayedAdd, DecayedSubtract, DecayedMerge, Near;
    match origin
    case Nothing =>
      NothingIsNear(o, d);
    case Plus(before, s) =>
      OriginIsNearIdeal(o, d, before);
      AddCase(o, d, Built(o, d, before), SamplesOf(before), s, MergesOf(before), CutsOf(before));
    case Minus(before, s) =>
      OriginIsNearIdeal(o, d, before);
      SubtractCase(
        o, d, Built(o, d, before), SamplesOf(before), s, MergesOf(before), CutsOf(before), CutsOf(origin));
    case Both(into, other) =>
      OriginIsNearIdeal(o, d, into);
      OriginIsNearIdeal(o, d, other);
      MergeCase(
        o, d, Built(o, d, into), Built(o, d, other), SamplesOf(into), SamplesOf(other), MergesOf(into), CutsOf(into),
        MergesOf(other), CutsOf(other), MergesOf(origin), CutsOf(origin));
  }

  lemma NothingIsNear(o: Options, d: Decay)
    requires Valid(o) && ValidDecay(d)
    ensures Within(o, d, Decaying(Fresh(o), 0), [], InEpsilons(o, 0, 0))
  {
    FreshInv(o);
    NoEpsilons(o);
  }

  // ---------- The object ----------

  class DecayingHistogram {
    const histogram: Histogram
    const decay: Decay
    var referenceTimestamp: int

    constructor (options: Options, decay: Decay)
      requires HistogramOptions.Valid(options) && decay.halfLife > 0 && decay.growth > 1.0
      ensures Valid() && fresh(histogram) && fresh(histogram.bucketWeight)
      ensures View() == Decaying(Fresh(options), 0) && this.decay == decay && histogram.options == options
    {
      histogram := new Histogram(options);
      this.decay := decay;
      referenceTimestamp := 0;
    }

    ghost predicate Valid()
      reads this, histogram, histogram.bucketWeight
    {
      histogram.Valid() && decay.halfLife > 0 && decay.growth > 1.0
    }

    ghost function View(): Decaying
      reads this, histogram, histogram.bucketWeight
    {
      Decaying(histogram.View(), referenceTimestamp)
    }

    method ShiftReferenceTimestamp(t: int)
      requires Valid()
      modifies this, histogram, histogram.bucketWeight
      ensures Valid() && View() == Shifted(histogram.options, decay, old(View()), t)
    {
      var ref := RoundTime(t, decay.halfLife);
      var exponent := Rounded((referenceTimestamp - ref) as real / decay.halfLife as real);
      GrowthIsPositive(2.0, exponent);
      histogram.Scale(Growth(2.0, exponent));
      referenceTimestamp := ref;
    }

    method DecayFactor(t: int) returns (factor: real)
      requires Valid()
      modifies this, histogram, histogram.bucketWeight
      ensures Valid() && View() == Prepared(histogram.options, decay, old(View()), t)
      ensures factor == Growth(decay.growth, t - referenceTimestamp) && factor > 0.0
    {
      if t > referenceTimestamp + decay.halfLife * MAX_DECAY_EXPONENT {
        ShiftReferenceTimestamp(t);
      }
      factor := Growth(decay.growth, t - referenceTimestamp);
      GrowthIsPositive(decay.growth, t - referenceTimestamp);
    }

    method AddSample(value: real, weight: real, t: int)
      requires Valid() && weight >= 0.0
      modifies this, histogram, histogram.bucketWeight
      ensures Valid()
      ensures View() == DecayedAdd(histogram.options, decay, old(View()), FindBucket(histogram.options, value),
        weight, t)
    {
      var factor := DecayFactor(t);
      Product(weight, factor);
      histogram.AddSample(value, Mul(weight, factor));
    }

    method SubtractSample(value: real, weight: real, t: int)
      requires Valid() && weight >= 0.0
      modifies this, histogram, histogram.bucketWeight
      ensures Valid()
      ensures View() == DecayedSubtract(histogram.options, decay, old(View()), FindBucket(histogram.options, value),
        weight, t)
    {
      var factor := DecayFactor(t);
      Product(weight, factor);
      histogram.SubtractSample(value, Mul(weight, factor));
    }

    /** Aligning shifts the reference of the other histogram too, when that is the older one. */
    method Merge(other: DecayingHistogram)
      requires Valid() && other.Valid() && decay == other.decay && histogram.options == other.histogram.options
      requires other != this && other.histogram != histogram && other.histogram.bucketWeight != histogram.bucketWeight
      modifies this, histogram, histogram.bucketWeight, other, other.histogram, other.histogram.bucketWeight
      ensures Valid() && other.Valid()
      ensures View() == DecayedMerge(histogram.options, decay, old(View()), old(other.View()))
      ensures other.View() == Aligned(histogram.options, decay, old(other.View()), old(referenceTimestamp))
    {
      if referenceTimestamp < other.referenceTimestamp {
        ShiftReferenceTimestamp(other.referenceTimestamp);
      } else if other.referenceTimestamp < referenceTimestamp {
        other.ShiftReferenceTimestamp(referenceTimestamp);
      }
      histogram.Merge(other.histogram);
    }
  }
}
