/** Residues: the modular arithmetic behind stepped fields and jitter. */
module Modular {
  lemma MulAtLeast(k: int, m: int)
    requires k >= 1 && m >= 1
    ensures k * m >= m
  {
    assert (k - 1) * m >= 0;
    assert k * m == (k - 1) * m + m;
  }

  /** Quotient and remainder are unique. */
  lemma Unique(q: int, r: int, q': int, r': int, m: int)
    requires m >= 1 && 0 <= r < m && 0 <= r' < m && q * m + r == q' * m + r'
    ensures q == q' && r == r'
  {
    assert (q' - q) * m == q' * m - q * m;
    assert (q - q') * m == q * m - q' * m;
    if q < q' {
      MulAtLeast(q' - q, m);
    } else if q' < q {
      MulAtLeast(q - q', m);
    }
  }

  lemma Divide(a: int, m: int)
    requires m >= 1
    ensures a == a / m * m + a % m && 0 <= a % m < m
  {
  }

  /** The remainder of a number given as a multiple and a rest. */
  lemma Remainder(k: int, r: int, m: int)
    requires m >= 1 && 0 <= r < m
    ensures (k * m + r) % m == r && (k * m + r) / m == k
  {
    var a := k * m + r;
    Divide(a, m);
    Unique(a / m, a % m, k, r, m);
  }

  /** Adding a multiple of the modulus changes no residue. */
  lemma Shift(a: int, k: int, m: int)
    requires m >= 1
    ensures (a + k * m) % m == a % m
  {
    Divide(a, m);
    assert a + k * m == (a / m + k) * m + a % m;
    Remainder(a / m + k, a % m, m);
  }

  /** Congruence by difference. */
  lemma Congruent(a: int, b: int, m: int)
    requires m >= 1
    ensures a % m == b % m <==> (a - b) % m == 0
  {
    Divide(a, m);
    Divide(b, m);
    var k := a / m - b / m;
    assert a - b == k * m + (a % m - b % m) by {
      assert k * m == a / m * m - b / m * m;
    }
    if a % m >= b % m {
      Remainder(k, a % m - b % m, m);
    } else {
      assert a - b == (k - 1) * m + (m + a % m - b % m);
      Remainder(k - 1, m + a % m - b % m, m);
    }
  }

  /** Taking the remainder twice, by a multiple of the modulus first. */
  lemma Nested(a: int, m: int, k: int)
    requires m >= 1 && k >= 1
    ensures k * m >= 1 && a % (k * m) % m == a % m
  {
    MulAtLeast(k, m);
    Divide(a, k * m);
    var q := a / (k * m);
    assert a == q * k * m + a % (k * m);
    assert q * (k * m) == q * k * m;
    Shift(a % (k * m), q * k, m);
  }

  lemma Compose(q: int, high: int, low: int, m: int, k: int)
    requires m >= 1 && k >= 1 && 0 <= high < k && 0 <= low < m
    ensures k * m >= 1 && 0 <= high * m + low < k * m
    ensures ((q * k + high) * m + low) % (k * m) == high * m + low
  {
    MulAtLeast(k, m);
    Expand(q, k, high, m);
    Expand(1, k - 1 - high, high, m);
    NotNegative(k - 1 - high, m);
    NotNegative(high, m);
    Expand(1, 1, k - 1, m);
    Remainder(q, high * m + low, k * m);
  }

  lemma Expand(q: int, k: int, high: int, m: int)
    ensures (q * k + high) * m == q * (k * m) + high * m
  {
  }

  lemma NotNegative(a: int, b: int)
    requires a >= 0 && b >= 0
    ensures a * b >= 0
  {
  }

  /** The two digits of a mixed-radix number: the low one by m, the high one by k. */
  lemma Digits(a: int, m: int, k: int)
    requires m >= 1 && k >= 1
    ensures k * m >= 1
    ensures a % (k * m) == a / m % k * m + a % m
  {
    Divide(a, m);
    Divide(a / m, k);
    Compose(a / m / k, a / m % k, a % m, m, k);
  }

  /** Two numbers have the same residue modulo k * m iff they have the same two digits. */
  lemma SameDigits(a: int, b: int, m: int, k: int)
    requires m >= 1 && k >= 1
    ensures k * m >= 1
    ensures a % (k * m) == b % (k * m) <==> a % m == b % m && a / m % k == b / m % k
  {
    Digits(a, m, k);
    Digits(b, m, k);
    if a % (k * m) == b % (k * m) {
      Unique(a / m % k, a % m, b / m % k, b % m, m);
    }
  }
}
