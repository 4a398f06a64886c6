/** The backoff of a pod in scheduler/internal/queue/scheduling_queue.go: a duration, an int64
    of nanoseconds, that doubles with every attempt up to a maximum. */
module PodBackoff {
  import opened Arithmetic

  const INT64_MAX: int := 0x7fff_ffff_ffff_ffff

  /** The value of an int64 after wrap-around. */
  function Wrap(x: int): int {
    (x + INT64_MAX + 1) % 0x1_0000_0000_0000_0000 - INT64_MAX - 1
  }

  /** The loop of calculateBackoffDuration with `more` turns to go. */
  function Doubled(duration: int, max: int, more: nat): int
    decreases more
  {
    if more == 0 then duration
    else
      var d := Wrap(duration * 2);
      if d > max then max else Doubled(d, max, more - 1)
  }

  function Backoff(initial: int, max: int, attempts: int): int {
    Doubled(initial, max, if attempts > 1 then attempts - 1 else 0)
  }

  method CalculateBackoffDuration(initial: int, max: int, attempts: int) returns (duration: int)
    ensures duration == Backoff(initial, max, attempts)
  {
    duration := initial;
    var i := 1;
    while i < attempts
      invariant 1 <= i && (attempts > 1 ==> i <= attempts)
      invariant Doubled(duration, max, if attempts > i then attempts - i else 0) == Backoff(initial, max, attempts)
    {
      duration := Wrap(duration * 2);
      if duration > max {
        return max;
      }
      i := i + 1;
    }
  }

  function Pow2(n: nat): int {
    if n == 0 then 1 else 2 * Pow2(n - 1)
  }

  /** The last of the doublings of a duration that does not exceed the maximum. */
  function LastDoubling(duration: int, max: int): (last: int)
    requires 0 < duration <= max
    ensures duration <= last <= max < 2 * last
    decreases max - duration
  {
    if 2 * duration > max then duration else LastDoubling(2 * duration, max)
  }

  /** The doubling that exceeds the maximum is still an int64. */
  predicate DoublesSafely(initial: int, max: int) {
    0 < initial <= max ==> 2 * LastDoubling(initial, max) <= INT64_MAX
  }

  lemma NoWrap(x: int)
    requires 0 <= x <= INT64_MAX
    ensures Wrap(x) == x
  {
  }

  lemma TimesTwice(a: int, b: int)
    ensures a * (2 * b) == (a * 2) * b
  {
  }

  lemma {:induction false} PowGrows(d: int, n: nat)
    requires d >= 0
    ensures d * Pow2(n) >= d
    decreases n
  {
    if n > 0 {
      TimesTwice(d, Pow2(n - 1));
      PowGrows(d * 2, n - 1);
    }
  }

  lemma {:induction false} DoubledIsMin(duration: int, max: int, more: nat)
    requires 0 <= duration <= max <= INT64_MAX && DoublesSafely(duration, max)
    ensures Doubled(duration, max, more) == Min(duration * Pow2(more), max)
    decreases more
  {
    if more > 0 {
      var d := duration * 2;
      NoWrap(d);
      TimesTwice(duration, Pow2(more - 1));
      if d > max {
        PowGrows(d, more - 1);
      } else {
        DoubledIsMin(d, max, more - 1);
      }
    }
  }

  /** Where the doubling that exceeds the maximum is no int64, it becomes negative. */
  lemma {:induction false} DoubledWraps(duration: int, max: int) returns (more: nat)
    requires 0 < duration <= max <= INT64_MAX && !DoublesSafely(duration, max)
    ensures Doubled(duration, max, more) < 0
    decreases max - duration
  {
    var d := duration * 2;
    if d > max {
      more := 1;
      assert Wrap(d) == d - 0x1_0000_0000_0000_0000;
      assert Doubled(Wrap(d), max, 0) == Wrap(d);
    } else {
      NoWrap(d);
      var n := DoubledWraps(d, max);
      more := n + 1;
    }
  }

  /** Every attempt after the first doubles the backoff, up to the maximum. */
  ghost predicate Exponential(initial: int, max: int) {
    forall a :: a >= 1 ==> Backoff(initial, max, a) == Min(initial * Pow2(a - 1), max)
  }

  /** The backoff is exponential exactly when the initial one does not exceed the maximum and
      the first doubling that does is an int64. */
  lemma BackoffIsExponentialIff(initial: int, max: int)
    requires 0 <= initial && 0 <= max <= INT64_MAX
    ensures Exponential(initial, max) <==> initial <= max && DoublesSafely(initial, max)
  {
    if initial > max {
      assert Backoff(initial, max, 1) == initial && Pow2(0) == 1;
    } else if DoublesSafely(initial, max) {
      forall a | a >= 1 ensures Backoff(initial, max, a) == Min(initial * Pow2(a - 1), max) {
        DoubledIsMin(initial, max, a - 1);
      }
    } else {
      var more := DoubledWraps(initial, max);
      PowGrows(initial, more);
      assert Backoff(initial, max, more + 1) < 0;
    }
  }

  lemma Regroup(d: int, p: int, q: int)
    ensures d * (p * 2 * q) == 2 * (d * p) * q
  {
  }

  /** No doubling up to the maximum exceeds the last of them. */
  lemma LastIsLargest(initial: int, max: int, n: nat, k: nat)
    requires 0 < initial <= max && LastDoubling(initial, max) == initial * Pow2(n)
    requires initial * Pow2(k) <= max
    ensures initial * Pow2(k) <= LastDoubling(initial, max)
  {
    if k > n {
      var m: nat := k - n - 1;
      PowersSplit(n, m);
      Regroup(initial, Pow2(n), Pow2(m));
      PowGrows(2 * LastDoubling(initial, max), m);
    } else {
      PowersGrow(k, n);
      TimesGrows(initial, Pow2(k), Pow2(n));
    }
  }

  /** The condition, in terms of all doublings: those up to the maximum can be doubled. */
  lemma DoublesSafelyIff(initial: int, max: int)
    requires 0 < initial <= max
    ensures DoublesSafely(initial, max) <==>
      forall n: nat :: initial * Pow2(n) <= max ==> 2 * (initial * Pow2(n)) <= INT64_MAX
  {
    var n := LastDoublingIs(initial, max);
    forall k: nat | initial * Pow2(k) <= max ensures initial * Pow2(k) <= LastDoubling(initial, max) {
      LastIsLargest(initial, max, n, k);
    }
  }

  lemma {:induction false} LastDoublingIs(duration: int, max: int) returns (n: nat)
    requires 0 < duration <= max
    ensures LastDoubling(duration, max) == duration * Pow2(n)
    decreases max - duration
  {
    if 2 * duration > max {
      n := 0;
    } else {
      var m := LastDoublingIs(2 * duration, max);
      n := m + 1;
      TimesTwice(duration, Pow2(m));
    }
  }

  lemma {:induction false} PowersSplit(n: nat, m: nat)
    ensures Pow2(n + m + 1) == Pow2(n) * 2 * Pow2(m)
    decreases m
  {
    if m > 0 {
      PowersSplit(n, m - 1);
      TimesTwice(Pow2(n) * 2, Pow2(m - 1));
    }
  }

  lemma {:induction false} PowersGrow(n: nat, m: nat)
    requires n <= m
    ensures 0 < Pow2(n) <= Pow2(m)
  {
    if m > 0 { PowersGrow(if n < m then n else n - 1, m - 1); }
  }

  lemma TimesGrows(d: int, a: int, b: int)
    requires d >= 0 && a <= b
    ensures d * a <= d * b
  {
  }

  /** Under the same condition, and no other, more attempts never mean a shorter backoff, and
      no backoff is negative or exceeds the maximum. */
  lemma BackoffIsMonotoneIff(initial: int, max: int)
    requires 0 <= initial && 0 <= max <= INT64_MAX
    ensures initial <= max && DoublesSafely(initial, max) <==>
      forall a, b :: a <= b ==> 0 <= Backoff(initial, max, a) <= Backoff(initial, max, b) <= max
  {
    if initial > max {
      assert Backoff(initial, max, 1) == initial;
    } else if DoublesSafely(initial, max) {
      forall a, b | a <= b ensures 0 <= Backoff(initial, max, a) <= Backoff(initial, max, b) <= max {
        var m: nat, n: nat := if a > 1 then a - 1 else 0, if b > 1 then b - 1 else 0;
        DoubledIsMin(initial, max, m);
        DoubledIsMin(initial, max, n);
        PowersGrow(m, n);
        TimesGrows(initial, Pow2(m), Pow2(n));
        PowGrows(initial, m);
      }
    } else {
      var more := DoubledWraps(initial, max);
      assert Backoff(initial, max, more + 1) < 0;
    }
  }

  lemma {:induction false} DoubledAfter(duration: int, max: int, done: nat, more: nat)
    requires 0 <= duration && duration * Pow2(done) <= max <= INT64_MAX
    ensures Doubled(duration, max, done + more) == Doubled(duration * Pow2(done), max, more)
    decreases done
  {
    if done > 0 {
      TimesTwice(duration, Pow2(done - 1));
      PowGrows(duration * 2, done - 1);
      NoWrap(duration * 2);
      DoubledAfter(duration * 2, max, done - 1, more);
    }
  }

  lemma ThirtyThirdPower()
    ensures Pow2(33) == 8_589_934_592
  {
    assert Pow2(1) == 2 * Pow2(0);
    PowersSplit(1, 1);
    PowersSplit(3, 3);
    PowersSplit(7, 7);
    PowersSplit(15, 15);
    PowersSplit(31, 1);
  }

  /** With the default initial backoff of a second and no effective maximum, the backoff of the
      thirty-fifth attempt is negative. */
  lemma BackoffCanOverflow()
    ensures Backoff(1_000_000_000, INT64_MAX, 35) == -1_266_874_889_709_551_616
  {
    var last := 8_589_934_592_000_000_000;
    ThirtyThirdPower();
    DoubledAfter(1_000_000_000, INT64_MAX, 33, 1);
    assert Wrap(last * 2) == -1_266_874_889_709_551_616;
    assert Doubled(Wrap(last * 2), INT64_MAX, 0) == Wrap(last * 2);
  }
}
