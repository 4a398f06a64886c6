/** Arithmetic that several modules share. Products and quotients of reals have names, so that
    proofs can treat them as terms. */
module Arithmetic {
  // ---------- Integers ----------

  function Max(a: int, b: int): int {
    if a < b then b else a
  }

  function Min(a: int, b: int): int {
    if a < b then a else b
  }

  lemma Gather(m: int, p: int, q: int)
    ensures m * p + m * q + m == m * (p + q + 1)
  {
  }

  lemma Spread(h: nat, q: int, p: int)
    ensures h * q - h * p == h * (q - p)
  {
  }

  lemma AtLeast(h: nat, k: int)
    requires k >= 1
    ensures h * k >= h
  {
  }

  lemma NextMultiple(h: int, k: int)
    ensures h * (k + 1) == h + h * k
  {
  }

  /** Division with remainder has one result. */
  lemma Unique(h: nat, q: int, p: int, r: int)
    requires h > 0 && 0 <= r < h && h * q == h * p + r
    ensures p == q && r == 0
  {
    Spread(h, q, p);
    if q > p { AtLeast(h, q - p); }
    if q < p { AtLeast(h, p - q); Spread(h, p, q); }
  }

  lemma MultipleMod(h: nat, q: int)
    requires h > 0
    ensures (h * q) % h == 0 && (h * q) / h == q
  {
    Unique(h, q, (h * q) / h, (h * q) % h);
  }

  lemma WithoutRemainder(h: nat, d: int)
    requires h > 0
    ensures (d - d % h) % h == 0
  {
    MultipleMod(h, d / h);
  }

  lemma SumOfMultiples(h: nat, a: int, b: int)
    requires h > 0 && a % h == 0 && b % h == 0
    ensures (a + b + h) % h == 0
  {
    var p, q := a / h, b / h;
    Gather(h, p, q);
    MultipleMod(h, p + q + 1);
  }

  // ---------- Reals ----------

  function Rounded(x: real): int {
    (x + 0.5).Floor
  }

  /** A product under a name, so that proofs can treat it as a term. */
  function Mul(a: real, b: real): real {
    a * b
  }

  function Div(a: real, x: real): real
    requires x > 1.0
  {
    a / x
  }

  /** x to the power of n, for any integer n. */
  function Growth(x: real, n: int): real
    requires x > 1.0
    decreases if n >= 0 then n else -n
  {
    if n == 0 then 1.0 else if n > 0 then Mul(x, Growth(x, n - 1)) else Div(Growth(x, n + 1), x)
  }

  lemma Product(a: real, b: real)
    requires a >= 0.0 && b >= 0.0
    ensures Mul(a, b) >= 0.0
  {
  }

  lemma Distribute(a: real, b: real, c: real)
    ensures Mul(a + b, c) == Mul(a, c) + Mul(b, c)
  {
  }

  lemma Reassociate(a: real, b: real, c: real)
    ensures Mul(a, Mul(b, c)) == Mul(Mul(a, b), c)
  {
  }

  lemma Shrinks(a: real, factor: real)
    requires a >= 0.0 && 0.0 <= factor <= 1.0
    ensures 0.0 <= Mul(a, factor) <= a
  {
  }

  lemma OneTurn(x: real, n: int, next: int)
    requires x > 1.0 && next == n + 1
    ensures Growth(x, next) == Mul(x, Growth(x, n))
    ensures Growth(x, n) == Div(Growth(x, next), x)
  {
    Undo(Growth(x, n), Growth(x, next), x);
  }

  lemma Undo(a: real, b: real, x: real)
    requires x > 1.0
    ensures a == Div(b, x) <==> b == Mul(x, a)
  {
  }

  lemma {:induction false} GrowthIsPositive(x: real, n: int)
    requires x > 1.0
    ensures Growth(x, n) > 0.0 && (n <= 0 ==> Growth(x, n) <= 1.0) && (n >= 0 ==> Growth(x, n) >= 1.0)
    decreases if n >= 0 then n else -n
  {
    if n > 0 {
      GrowthIsPositive(x, n - 1);
      Larger(x, Growth(x, n - 1));
    } else if n < 0 {
      GrowthIsPositive(x, n + 1);
      Smaller(x, Growth(x, n + 1));
    }
  }

  lemma Larger(x: real, p: real)
    requires x > 1.0 && p > 0.0
    ensures Mul(x, p) > p
  {
  }

  lemma Smaller(x: real, p: real)
    requires x > 1.0 && p > 0.0
    ensures 0.0 < Div(p, x) < p
  {
    var q := p / x;
    assert q > 0.0 && p == x * q;
    Larger(x, q);
  }

  lemma DivideProduct(a: real, b: real, x: real)
    requires x > 1.0
    ensures Div(Mul(a, b), x) == Mul(Div(a, x), b)
  {
  }

  lemma {:induction false} GrowthAdds(x: real, m: int, n: int, sum: int)
    requires x > 1.0 && sum == m + n
    ensures Growth(x, sum) == Mul(Growth(x, m), Growth(x, n))
    decreases if m >= 0 then m else -m
  {
    if m > 0 {
      GrowthAdds(x, m - 1, n, sum - 1);
      OneTurn(x, sum - 1, sum);
      Reassociate(x, Growth(x, m - 1), Growth(x, n));
    } else if m < 0 {
      GrowthAdds(x, m + 1, n, sum + 1);
      OneTurn(x, sum, sum + 1);
      DivideProduct(Growth(x, m + 1), Growth(x, n), x);
    }
  }
}
