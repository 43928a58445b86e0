/** Powers of two, the C operator >> on unsigned numbers, and remainders. */
module Bits {

  type U8 = x: nat | x < 0x100
  type U16 = x: nat | x < 0x1_0000

  function Pow2(n: nat): (p: nat)
    ensures p > 0
  {
    if n == 0 then 1 else 2 * Pow2(n - 1)
  }

  function Shr(x: nat, n: nat): nat {
    if n == 0 then x else Shr(x / 2, n - 1)
  }

  lemma ModUnique(x: nat, m: nat, q: nat, r: nat)
    requires r < m && x == q * m + r
    ensures x % m == r
  {
    var p, s := x / m, x % m;
    assert x == p * m + s;
    if p > q {
      Apart(p, q, m);
    } else if p < q {
      Apart(q, p, m);
    }
  }

  lemma Apart(p: nat, q: nat, m: nat)
    requires p > q
    ensures p * m >= q * m + m
  {
    assert p * m == q * m + (p - q) * m;
    assert (p - q - 1) * m >= 0;
  }

  lemma ModStep(n: nat, m: nat)
    requires m > 0
    ensures (n + 1) % m == if n % m == m - 1 then 0 else n % m + 1
  {
    var q, r := n / m, n % m;
    assert n == q * m + r;
    if r == m - 1 {
      assert (q + 1) * m == q * m + m;
      ModUnique(n + 1, m, q + 1, 0);
    } else {
      ModUnique(n + 1, m, q, r + 1);
    }
  }
}
