/** Powers of two, and the few facts about products and quotients the other modules need. */
module Arithmetic {
  function Pow2(k: nat): (p: nat)
    ensures p > 0
  {
    if k == 0 then 1 else 2 * Pow2(k - 1)
  }

  lemma {:induction false} MulMono(a: nat, b: nat, c: nat)
    ensures a <= b ==> a * c <= b * c
  {
  }

  lemma {:induction false} DivMod(x: nat, b: nat)
    requires b > 0
    ensures 0 <= x / b && x == (x / b) * b + x % b && 0 <= x % b < b
  {
  }

  lemma {:induction false} DivLe(a: nat, b: nat)
    requires b > 0
    ensures 0 <= a / b <= a
  {
    DivMod(a, b);
    MulMono(1, b, a / b);
  }

  lemma {:induction false} DivUnique(x: nat, b: nat, q: nat, r: nat)
    requires b > 0 && r < b && x == q * b + r
    ensures x / b == q && x % b == r
  {
    DivMod(x, b);
    MulMono(q + 1, x / b, b);
    MulMono(x / b + 1, q, b);
  }

  lemma {:induction false} DivCancel(a: nat, b: nat)
    requires b > 0
    ensures a * b / b == a
  {
    DivUnique(a * b, b, a, 0);
  }

  lemma {:induction false} QuotientBounds(m: nat, u: nat, lo: nat, hi: nat)
    requires u > 0 && lo * u <= m < hi * u
    ensures lo <= m / u < hi
  {
    DivMod(m, u);
    MulMono(m / u + 1, lo, u);
    MulMono(hi, m / u, u);
  }
}
