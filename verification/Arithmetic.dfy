/** Products and quotients of integers, one small fact at a time. */
module Arithmetic {

  function Min(x: int, y: int): int {
    if x <= y then x else y
  }

  function Max(x: int, y: int): int {
    if x >= y then x else y
  }

  function CeilDiv(n: nat, k: nat): nat
    requires k > 0
  {
    (n + k - 1) / k
  }

  lemma ProductMonotone(a: int, b: int, k: nat)
    requires a <= b
    ensures a * k <= b * k
  {
  }

  lemma ProductStep(a: int, k: int)
    ensures (a + 1) * k == a * k + k
  {
  }

  /** `n * step` as repeated addition, for loops that only ever add `step`. */
  ghost function Multiple(n: nat, step: nat): nat {
    if n == 0 then 0 else Multiple(n - 1, step) + step
  }

  lemma {:induction false} MultipleIsProduct(n: nat, step: nat)
    ensures Multiple(n, step) == n * step
  {
    if n > 0 {
      MultipleIsProduct(n - 1, step);
      ProductStep(n - 1, step);
    }
  }

  lemma QuotientBounds(n: nat, k: nat)
    requires k > 0
    ensures n / k * k <= n < n / k * k + k
  {
  }

  lemma QuotientIs(n: nat, k: nat, q: nat, r: nat)
    requires n == q * k + r && r < k
    ensures n / k == q
  {
    var d := n / k;
    QuotientBounds(n, k);
    if d < q {
      ProductMonotone(d + 1, q, k);
      ProductStep(d, k);
    } else if d > q {
      ProductMonotone(q + 1, d, k);
      ProductStep(q, k);
    }
  }

  lemma QuotientPositive(n: int, d: int)
    requires 0 < d <= n
    ensures n / d > 0
  {
  }

  lemma CeilDivBounds(n: nat, k: nat)
    requires k > 0
    ensures n <= CeilDiv(n, k) * k < n + k
    ensures n > 0 ==> CeilDiv(n, k) > 0
  {
    QuotientBounds(n + k - 1, k);
    if n > 0 {
      QuotientPositive(n + k - 1, k);
    }
  }

  /** The ceiling is the only count whose product reaches `n` and would not with one fewer. */
  lemma CeilDivIs(n: nat, k: nat, c: nat)
    requires k > 0 && n <= c * k < n + k
    ensures CeilDiv(n, k) == c
  {
    QuotientIs(n + k - 1, k, c, n + k - 1 - c * k);
  }

  lemma CeilDivStep(n: nat, k: nat)
    requires 0 < k <= n
    ensures CeilDiv(n, k) == CeilDiv(n - k, k) + 1
  {
    var c := CeilDiv(n - k, k);
    CeilDivBounds(n - k, k);
    ProductStep(c, k);
    CeilDivIs(n, k, c + 1);
  }

  lemma EvenMultiple(m: nat, p: nat)
    requires p % 2 == 0
    ensures m * p % 2 == 0
  {
    var h := p / 2;
    assert m * p == 2 * (m * h) by {
      assert p == 2 * h;
    }
  }
}
