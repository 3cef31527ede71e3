// Facts about integer division, multiplication and powers of two.
module Integers {

  function Power2(n: nat): (r: nat)
    ensures r >= 1
  {
    if n == 0 then 1 else 2 * Power2(n - 1)
  }

  lemma {:induction false} Power2Monotone(m: nat, n: nat)
    requires m <= n
    ensures Power2(m) <= Power2(n)
  {
    if m < n {
      Power2Monotone(m, n - 1);
    }
  }

  lemma {:induction false} ProductAtLeast(n: int, d: int)
    requires n >= 1 && d >= 0
    ensures n * d >= d
  {
    if n > 1 {
      ProductAtLeast(n - 1, d);
      assert n * d == (n - 1) * d + d;
    }
  }

  lemma UniqueQuotient(q: int, q': int, d: int, k: int, k': int)
    requires 0 <= k < d && 0 <= k' < d && q * d + k == q' * d + k'
    ensures q == q' && k == k'
  {
    assert (q - q') * d == q * d - q' * d && (q' - q) * d == q' * d - q * d;
    if q > q' {
      ProductAtLeast(q - q', d);
    } else if q < q' {
      ProductAtLeast(q' - q, d);
    }
  }

  lemma DivideMultiple(q: nat, d: nat, k: nat)
    requires k < d
    ensures (q * d + k) / d == q && (q * d + k) % d == k
  {
    var m := q * d + k;
    assert m == m / d * d + m % d;
    UniqueQuotient(q, m / d, d, k, m % d);
  }
}
