/** Facts about products and quotients of variables that the solver does not find by itself. */
module Arith {
  lemma MulMono(a: nat, b: nat, c: nat)
    requires b <= c
    ensures a * b <= a * c
  {
  }

  lemma MulStep(m: nat, a: nat, b: nat)
    requires a < b
    ensures m * a + m <= m * b
  {
    MulMono(m, a + 1, b);
    assert m * (a + 1) == m * a + m;
  }

  lemma QuotientUnique(n: nat, m: nat, q: nat, r: nat)
    requires m > 0 && r < m && n == m * q + r
    ensures n / m == q && n % m == r
  {
    var p := n / m;
    assert n == m * p + n % m;
    if p < q {
      MulStep(m, p, q);
    } else if p > q {
      MulStep(m, q, p);
    }
  }

  lemma QuotientShrinks(n: nat, m: nat)
    requires m > 0 && n >= m
    ensures n / m == 1 + (n - m) / m
  {
    var q, r := (n - m) / m, (n - m) % m;
    assert n - m == m * q + r;
    assert n == m * (q + 1) + r;
    QuotientUnique(n, m, q + 1, r);
  }

  function Pow2(n: nat): (r: nat)
    ensures r > 0
  {
    if n == 0 then 1 else 2 * Pow2(n - 1)
  }

  function Min(a: nat, b: nat): nat { if a < b then a else b }

  function Max(a: int, b: int): (r: int)
    ensures r >= a && r >= b
  {
    if a < b then b else a
  }
}
