/** Arithmetic modulo powers of two, on unbounded integers. */
module Residues {

  function Pow2(n: nat): (p: nat)
    ensures p > 0
  {
    if n == 0 then 1 else 2 * Pow2(n - 1)
  }

  lemma {:induction false} Pow2Sum(a: nat, b: nat)
    ensures Pow2(a) * Pow2(b) == Pow2(a + b)
  {
    if a > 0 {
      Pow2Sum(a - 1, b);
      assert Pow2(a) * Pow2(b) == 2 * (Pow2(a - 1) * Pow2(b)) by { Regroup(2, Pow2(a - 1), Pow2(b)); }
    }
  }

  lemma {:induction false} Regroup(a: int, b: int, c: int)
    ensures a * b * c == a * (b * c)
  {
  }

  lemma {:induction false} Pow2Grows(a: nat, b: nat)
    requires a <= b
    ensures Pow2(a) <= Pow2(b)
  {
    if a < b {
      Pow2Grows(a, b - 1);
    }
  }

  /** Quotient and remainder are unique. */
  lemma {:induction false} DivModIs(x: int, m: int, q: int, r: int)
    requires m > 0 && 0 <= r < m && x == q * m + r
    ensures x / m == q && x % m == r
  {
    var k := x / m - q;
    assert x == x / m * m + x % m;
    assert k * m == r - x % m by { Distribute(x / m, q, m); }
    if k >= 1 {
      AtLeast(k, m);
    } else if k <= -1 {
      AtLeast(-k, m);
    }
  }

  lemma {:induction false} Distribute(a: int, b: int, m: int)
    ensures (a - b) * m == a * m - b * m
  {
  }

  lemma {:induction false} AtLeast(k: int, m: int)
    requires k >= 1 && m > 0
    ensures k * m >= m
  {
    if k > 1 {
      assert (k - 1) * m > 0;
    }
  }

  /** Adding a multiple of the modulus changes nothing. */
  lemma {:induction false} SameResidue(x: int, y: int, m: int, k: int)
    requires m > 0 && x == y + k * m
    ensures x % m == y % m
  {
    assert y == y / m * m + y % m;
    DivModIs(x, m, y / m + k, y % m);
  }

  lemma {:induction false} ResidueOfResidue(x: int, m: int, c: int)
    requires m > 0 && c > 0
    ensures x % (m * c) % m == x % m
  {
    var n := m * c;
    assert n > 0;
    assert x == x / n * n + x % n;
    assert x / n * n == (x / n * c) * m;
    SameResidue(x, x % n, m, x / n * c);
  }

  lemma {:induction false} ResiduesAdd(a: int, b: int, m: int)
    requires m > 0
    ensures (a % m + b % m) % m == (a + b) % m
    ensures (a % m - b % m) % m == (a - b) % m
  {
    assert a == a / m * m + a % m && b == b / m * m + b % m;
    Distribute(a / m, -(b / m), m);
    Distribute(a / m, b / m, m);
    SameResidue(a + b, a % m + b % m, m, a / m + b / m);
    SameResidue(a - b, a % m - b % m, m, a / m - b / m);
  }

  /** Sums of congruent numbers are congruent. */
  lemma {:induction false} SumsAreCongruent(a: int, b: int, x: int, y: int, m: int)
    requires m > 0 && x % m == a % m && y % m == b % m
    ensures (a + b) % m == (x + y) % m
  {
    ResiduesAdd(a, b, m);
    ResiduesAdd(x, y, m);
  }

  lemma {:induction false} DifferencesAreCongruent(a: int, b: int, x: int, y: int, m: int)
    requires m > 0 && x % m == a % m && y % m == b % m
    ensures (a - b) % m == (x - y) % m
  {
    ResiduesAdd(a, b, m);
    ResiduesAdd(x, y, m);
  }

  lemma {:induction false} ResiduesMultiply(a: int, b: int, m: int)
    requires m > 0
    ensures (a % m * (b % m)) % m == (a * b) % m
  {
    var p, r, q, s := a / m, a % m, b / m, b % m;
    assert a == p * m + r && b == q * m + s;
    Expand(p, m, r, q, s);
    SameResidue(a * b, r * s, m, p * m * q + p * s + r * q);
  }

  lemma {:induction false} Expand(p: int, m: int, r: int, q: int, s: int)
    ensures (p * m + r) * (q * m + s) == r * s + (p * m * q + p * s + r * q) * m
  {
    assert (p * m + r) * (q * m + s) == (p * m) * (q * m) + (p * m) * s + r * (q * m) + r * s;
    assert (p * m) * (q * m) == (p * m * q) * m;
    assert (p * m) * s == (p * s) * m;
    assert r * (q * m) == (r * q) * m;
  }
}
