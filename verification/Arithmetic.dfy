/** Division and multiplication facts that the solver does not find unaided. */
module Arithmetic {

  lemma ProductGrows(x: nat, p: nat)
    requires p > 0
    ensures x * p < (x + 1) * p
  {
  }

  lemma MultipleAtLeast(k: nat, d: nat)
    requires k > 0
    ensures k * d >= d
  {
  }

  lemma DivisionUnique(d: nat, q: nat, r: nat, q': nat, r': nat)
    requires q * d + r == q' * d + r' && r < d && r' < d
    ensures q == q' && r == r'
  {
    if q < q' { MultipleAtLeast(q' - q, d); }
    if q' < q { MultipleAtLeast(q - q', d); }
    assert (q - q') * d == q * d - q' * d;
  }

  lemma QuotientUnique(n: nat, d: nat, q: nat, r: nat)
    requires d > 0 && n == q * d + r && r < d
    ensures n / d == q && n % d == r
  {
    assert n == (n / d) * d + n % d;
    DivisionUnique(d, q, r, n / d, n % d);
  }

  function Pow2(n: nat): (p: nat)
    ensures p > 0
  {
    if n == 0 then 1 else 2 * Pow2(n - 1)
  }

  /** `div_ceil`. */
  function CeilDiv(n: nat, d: nat): nat
    requires d > 0
  {
    (n + d - 1) / d
  }

  lemma CeilDivIs(n: nat, d: nat, c: nat)
    requires d > 0 && n <= c * d < n + d
    ensures CeilDiv(n, d) == c
  {
    QuotientUnique(n + d - 1, d, c, n + d - 1 - c * d);
  }

  /** The `k`-th multiple of `d`, by repeated addition. */
  function Multiple(k: nat, d: nat): nat {
    if k == 0 then 0 else Multiple(k - 1, d) + d
  }

  lemma {:induction false} MultipleIsProduct(k: nat, d: nat)
    ensures Multiple(k, d) == k * d
  {
    if k > 0 {
      MultipleIsProduct(k - 1, d);
      assert k * d == (k - 1) * d + d;
    }
  }

  lemma MultipleDivides(k: nat, d: nat)
    requires d > 0
    ensures Multiple(k, d) % d == 0 && Multiple(k, d) / d == k
  {
    MultipleIsProduct(k, d);
    QuotientUnique(Multiple(k, d), d, k, 0);
  }

  lemma DivisibleIsMultiple(n: nat, d: nat)
    requires d > 0 && n % d == 0
    ensures n == Multiple(n / d, d)
  {
    MultipleIsProduct(n / d, d);
  }

  lemma {:induction false} MultipleMonotone(j: nat, k: nat, d: nat)
    requires d > 0
    ensures Multiple(j, d) < Multiple(k, d) <==> j < k
  {
    if j > 0 && k > 0 { MultipleMonotone(j - 1, k - 1, d); }
  }

  /** Multiples below `n` are the first `CeilDiv(n, d)` ones. */
  lemma MultiplesBelow(k: nat, n: nat, d: nat)
    requires d > 0
    ensures Multiple(k, d) < n <==> k < CeilDiv(n, d)
  {
    var c := CeilDiv(n, d);
    var x := n + d - 1;
    assert x == c * d + x % d;
    MultipleIsProduct(c, d);
    MultipleMonotone(k, c, d);
    if c > 0 {
      MultipleMonotone(c - 1, k, d);
      MultipleMonotone(k, c - 1, d);
    }
  }

  /** The number of multiples below `n` grows exactly at a multiple. */
  lemma CeilDivStep(n: nat, d: nat)
    requires d > 0
    ensures n % d == 0 ==> CeilDiv(n + 1, d) == CeilDiv(n, d) + 1 && Multiple(CeilDiv(n, d), d) == n
    ensures n % d != 0 ==> CeilDiv(n + 1, d) == CeilDiv(n, d)
  {
    var q, m := n / d, n % d;
    assert n == q * d + m;
    assert (q + 1) * d == q * d + d;
    if m == 0 {
      CeilDivIs(n, d, q);
      CeilDivIs(n + 1, d, q + 1);
      MultipleIsProduct(q, d);
    } else {
      CeilDivIs(n, d, q + 1);
      CeilDivIs(n + 1, d, q + 1);
    }
  }
}
