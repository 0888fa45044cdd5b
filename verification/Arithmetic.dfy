/** Division facts the solver does not find on its own. */
module Arithmetic {

  lemma MulAtLeast(m: int, d: int)
    requires m >= 0 && d >= 1
    ensures m * d >= m
  {
  }

  lemma RemainderIsUnique(m: nat, q: int, r: int, q': int, r': int)
    requires 0 <= r < m && 0 <= r' < m && m * q + r == m * q' + r'
    ensures q == q' && r == r'
  {
    if q > q' {
      MulAtLeast(m, q - q');
    }
    if q' > q {
      MulAtLeast(m, q' - q);
    }
  }

  lemma DivModIs(x: int, m: nat, q: int, r: nat)
    requires r < m && x == m * q + r
    ensures x / m == q && x % m == r
  {
    RemainderIsUnique(m, q, r, x / m, x % m);
  }

  /** Halving a number halves its remainder: the lowest bit splits off. */
  lemma ModDouble(x: nat, p: nat)
    requires p > 0
    ensures 2 * ((x / 2) % p) + x % 2 == x % (2 * p)
    ensures (x / 2) / p == x / (2 * p)
  {
    var q, r := (x / 2) / p, (x / 2) % p;
    DivModIs(x, 2 * p, q, 2 * r + x % 2);
  }
}
