// Facts about Euclidean division on natural numbers that the solver does not
// find on its own; the model's size and index arithmetic rests on them.
module Arith {
  lemma Euclid(a: nat, t: nat)
    requires t > 0
    ensures a == (a / t) * t + a % t && 0 <= a % t < t
  {
  }

  lemma MulAtLeast(d: int, t: int)
    requires d >= 1 && t > 0
    ensures d * t >= t
  {
  }

  lemma MulGrows(m: nat, s: nat)
    requires m > 0 && s > 1
    ensures m * s > m
  {
    MulAtLeast(s - 1, m);
    assert m * s == (s - 1) * m + m;
  }

  /** Quotient and remainder are the only pair that rebuilds a. */
  lemma DivModUnique(a: nat, t: nat, q: nat, r: nat)
    requires t > 0 && r < t && a == q * t + r
    ensures a / t == q && a % t == r
  {
    Euclid(a, t);
    var p := a / t;
    if q > p {
      MulAtLeast(q - p, t);
      assert false;
    } else if p > q {
      MulAtLeast(p - q, t);
      assert false;
    }
  }

  lemma MulDivMod(q: nat, t: nat)
    requires t > 0
    ensures (q * t) % t == 0 && (q * t) / t == q
  {
    DivModUnique(q * t, t, q, 0);
  }

  /** A multiple of t is q * t for q = a / t. */
  lemma MultipleIs(a: nat, t: nat)
    requires t > 0 && a % t == 0
    ensures a == (a / t) * t
  {
    Euclid(a, t);
  }

  /** In a grid of whole cells of extent t, an index below n lies in a cell
      below n / t. */
  lemma DivBelow(x: nat, n: nat, t: nat)
    requires t > 0 && x < n && n % t == 0
    ensures x / t < n / t
  {
    Euclid(x, t);
    MultipleIs(n, t);
    if x / t >= n / t {
      MulMonotone(n / t, x / t, t);
      assert false;
    }
  }

  lemma MulMonotone(a: nat, b: nat, t: nat)
    requires a <= b
    ensures a * t <= b * t
  {
  }

  /** Cell q, offset p (p < t) of a grid of extent t is index q * t + p. */
  lemma CellIndex(q: nat, p: nat, t: nat)
    requires p < t
    ensures (q * t + p) / t == q && (q * t + p) % t == p
  {
    DivModUnique(q * t + p, t, q, p);
  }

  /** a <= d * k gives a / d <= k. */
  lemma DivUpTo(a: nat, d: nat, k: nat)
    requires a <= d * k && d > 0
    ensures a / d <= k
  {
    if a / d > k {
      Euclid(a, d);
      MulMonotone(k + 1, a / d, d);
      assert false;
    }
  }

  lemma DivMonotone(a: nat, b: nat, d: nat)
    requires a <= b && d > 0
    ensures a / d <= b / d
  {
    if a / d > b / d {
      Euclid(a, d);
      Euclid(b, d);
      MulMonotone(b / d + 1, a / d, d);
      assert false;
    }
  }
}
