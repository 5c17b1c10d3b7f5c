/** Numbers that several models count with. */
module Arithmetic {

  function Min(a: nat, b: nat): nat {
    if a < b then a else b
  }

  function Pow2(k: nat): (r: nat)
    ensures r > 0
  {
    if k == 0 then 1 else 2 * Pow2(k - 1)
  }

  lemma ProductMonotone(a: nat, b: nat, d: nat)
    requires a <= b
    ensures a * d <= b * d
  {
  }

  lemma QuotientIsAtMost(n: nat, d: nat)
    requires d > 0
    ensures n / d <= n
  {
    if n / d > n {
      ProductMonotone(1, d, n + 1);
      ProductMonotone(n + 1, n / d, d);
    }
  }

  lemma AtMostQuotient(a: nat, n: nat, d: nat)
    requires d > 0
    ensures a <= n / d <==> a * d <= n
  {
    if a <= n / d {
      ProductMonotone(a, n / d, d);
    } else {
      ProductMonotone(n / d + 1, a, d);
    }
  }
}
