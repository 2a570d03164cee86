/** Division facts the solver needs spelled out. */
module Arithmetic {
  lemma MulAtLeast(d: int, p: nat)
    requires d >= 1
    ensures d * p >= p
  {
    assert d * p == (d - 1) * p + p;
  }

  lemma MulMonotone(a: nat, b: nat, c: nat, d: nat)
    requires a <= c && b <= d
    ensures a * b <= c * d
  {
    assert c * d == a * b + a * (d - b) + (c - a) * d;
    assert a * (d - b) >= 0 && (c - a) * d >= 0;
  }

  /** A factor of a bounded multiple is bounded. */
  lemma MulBounded(d: nat, low: int, limit: nat)
    requires 0 <= d * low < d * limit
    ensures 0 <= low < limit
  {
    assert (-low) * d == -(d * low);
    assert (low - limit + 1) * d == d * low - d * limit + d;
    if -low >= 1 {
      MulAtLeast(-low, d);
    } else if low - limit + 1 >= 1 {
      MulAtLeast(low - limit + 1, d);
    }
  }

  lemma DivNonNegative(n: nat, d: nat)
    requires d >= 1
    ensures n / d >= 0
  {
    var q := n / d;
    assert n == q * d + n % d;
    assert (-q) * d == -(q * d);
    if -q >= 1 {
      MulAtLeast(-q, d);
    }
  }

  lemma DivModUnique(n: nat, m: nat, q: nat, r: nat)
    requires n == q * m + r
    requires r < m
    ensures n / m == q
    ensures n % m == r
  {
    var d := q - n / m;
    assert d * m == q * m - (n / m) * m;
    assert n == (n / m) * m + n % m;
    assert (-d) * m == -(d * m);
    if d >= 1 {
      MulAtLeast(d, m);
    } else if -d >= 1 {
      MulAtLeast(-d, m);
    }
  }

  /** Stepping by `e` within one modulus moves the residue by `e`, wrapping once at most. */
  lemma StepMod(a: nat, e: nat, m: nat)
    requires e <= m
    requires m >= 1
    ensures (a + e) % m == if a % m + e < m then a % m + e else a % m + e - m
    ensures (a + e) / m == if a % m + e < m then a / m else a / m + 1
  {
    var q, r := a / m, a % m;
    assert a == q * m + r;
    if r + e < m {
      DivModUnique(a + e, m, q, r + e);
    } else {
      assert (q + 1) * m == q * m + m;
      DivModUnique(a + e, m, q + 1, r + e - m);
    }
  }

  /** Between two hits of a residue class lie exactly the other residues. */
  lemma NextResidue(a: nat, m: nat)
    requires m >= 1
    ensures (a + m) % m == a % m
    ensures forall i :: a < i < a + m ==> i % m != a % m
  {
    StepMod(a, m, m);
    forall i | a < i < a + m
      ensures i % m != a % m
    {
      StepMod(a, i - a, m);
    }
  }

  lemma MulSum(a: nat, b: nat, m: nat)
    ensures (a + b) * m == a * m + b * m
  {
  }

  lemma SumOfParts(q: nat, r: nat, q': nat, r': nat, m: nat)
    requires r < m && r' < m
    ensures (q * m + r + (q' * m + r')) % m == if r + r' < m then r + r' else r + r' - m
  {
    MulSum(q, q', m);
    if r + r' < m {
      DivModUnique(q * m + r + (q' * m + r'), m, q + q', r + r');
    } else {
      MulSum(q + q', 1, m);
      DivModUnique(q * m + r + (q' * m + r'), m, q + q' + 1, r + r' - m);
    }
  }

  /** Residues add, wrapping once. */
  lemma AddMod(a: nat, b: nat, m: nat)
    requires m >= 1
    ensures (a + b) % m == if a % m + b % m < m then a % m + b % m else a % m + b % m - m
  {
    SumOfParts(a / m, a % m, b / m, b % m, m);
    assert a == a / m * m + a % m && b == b / m * m + b % m;
  }

  lemma ModIdempotent(a: nat, k: nat, m: nat)
    requires m >= 1
    ensures (a % m + k) % m == (a + k) % m
  {
    DivModUnique(a % m, m, 0, a % m);
    AddMod(a % m, k, m);
    AddMod(a, k, m);
  }
}
