/** Integer facts about Euclidean division shared by the digit and cursor models. */
module Arith {

  lemma MulAtLeast(a: int, m: int)
    requires a >= 1 && m > 0
    ensures a * m >= m
  {
    assert a * m == (a - 1) * m + m;
  }

  /** Quotient and remainder are determined by `n == q * m + r` with `0 <= r < m`. */
  lemma DivModUnique(n: int, m: int, q: int, r: int)
    requires m > 0 && 0 <= r < m && n == q * m + r
    ensures n / m == q && n % m == r
  {
    var q0, r0 := n / m, n % m;
    assert n == q0 * m + r0;
    assert (q - q0) * m == q * m - q0 * m;
    assert (q - q0) * m == r0 - r;
    if q > q0 {
      MulAtLeast(q - q0, m);
    } else if q < q0 {
      assert (q0 - q) * m == r - r0;
      MulAtLeast(q0 - q, m);
    }
  }

  /**
   Splitting off one more digit in base `b` above position `p`: the quotient
   by `b * p` is the quotient by `p` divided by `b`, and the remainder by
   `b * p` is the digit at `p` followed by the remainder by `p`.
   */
  lemma DigitSplit(n: nat, p: nat, b: nat)
    requires p > 0 && b > 0
    ensures n / (b * p) == (n / p) / b
    ensures n % (b * p) == ((n / p) % b) * p + n % p
  {
    var a, r := n / p, n % p;
    var q, d := a / b, a % b;
    SplitScale(a, p, q, b, d);
    SplitBound(d, b, p, r);
    assert n == q * (b * p) + (d * p + r);
    DivModUnique(n, b * p, q, d * p + r);
  }

  /** Scaling a quotient-remainder split of `a` by `p`. */
  lemma SplitScale(a: int, p: int, q: int, b: int, d: int)
    requires a == q * b + d
    ensures a * p == q * (b * p) + d * p
  {
    assert (q * b + d) * p == (q * b) * p + d * p;
    assert (q * b) * p == q * (b * p);
  }

  /** A digit below `b` at position `p`, plus a remainder below `p`, stays below `b * p`. */
  lemma SplitBound(d: int, b: int, p: int, r: int)
    requires 0 <= d < b && p > 0 && 0 <= r < p
    ensures 0 <= d * p + r < b * p
  {
    assert d * p <= (b - 1) * p by { MulMono(d, b - 1, p); }
    assert (b - 1) * p == b * p - p;
    assert 0 <= d * p by { MulMono(0, d, p); }
  }

  lemma MulMono(x: int, y: int, p: int)
    requires x <= y && p >= 0
    ensures x * p <= y * p
  {
    assert y * p - x * p == (y - x) * p;
  }

  /** Advancing a reduced counter by one and reducing again is advancing the counter. */
  lemma ModStep(a: nat, m: nat)
    requires m > 0
    ensures (a % m + 1) % m == (a + 1) % m
  {
    var q, r := a / m, a % m;
    assert a + 1 == q * m + (r + 1);
    if r + 1 < m {
      DivModUnique(a + 1, m, q, r + 1);
      DivModUnique(r + 1, m, 0, r + 1);
    } else {
      assert a + 1 == (q + 1) * m + 0;
      DivModUnique(a + 1, m, q + 1, 0);
      DivModUnique(r + 1, m, 1, 0);
    }
  }

  /** Reducing before adding does not change the reduced sum. */
  lemma ModShift(a: nat, b: nat, m: nat)
    requires m > 0
    ensures (a % m + b) % m == (a + b) % m
  {
    var q, r := a / m, a % m;
    var q2, r2 := (r + b) / m, (r + b) % m;
    assert r + b == q2 * m + r2;
    assert a + b == (q + q2) * m + r2;
    DivModUnique(a + b, m, q + q2, r2);
  }

  /** A value already below the modulus is its own remainder. */
  lemma ModSmall(a: nat, m: nat)
    requires a < m
    ensures a % m == a
  {
    DivModUnique(a, m, 0, a);
  }
}
