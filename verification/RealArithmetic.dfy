/** Products and quotients of reals, one small fact at a time. */
module RealArithmetic {

  function Product(x: real, y: real): real {
    x * y
  }

  function Quotient(x: real, d: real): real
    requires d != 0.0
  {
    x / d
  }

  lemma ProductMonotone(x: real, y: real, w: real)
    requires x <= y && w >= 0.0
    ensures Product(x, w) <= Product(y, w)
  {
  }

  lemma ProductStrict(x: real, y: real, w: real)
    requires x < y && w > 0.0
    ensures Product(x, w) < Product(y, w)
  {
  }

  lemma ProductPositive(x: real, y: real)
    requires x > 0.0 && y > 0.0
    ensures Product(x, y) > 0.0
  {
  }

  lemma ProductCommutes(x: real, y: real)
    ensures Product(x, y) == Product(y, x)
  {
  }

  lemma ProductOfSum(x: real, a: real, b: real)
    ensures Product(x, a + b) == Product(x, a) + Product(x, b)
  {
  }

  lemma ProductAssociates(x: real, y: real, z: real)
    ensures Product(Product(x, y), z) == Product(x, Product(y, z))
  {
    assert (x * y) * z == x * (y * z);
  }

  lemma ProductOfInts(i: int, k: int)
    ensures (i * k) as real == Product(i as real, k as real)
  {
  }

  lemma ProductOfQuotient(x: real, d: real)
    requires d != 0.0
    ensures Product(Quotient(x, d), d) == x
  {
  }

  lemma QuotientOfProduct(x: real, d: real)
    requires d != 0.0
    ensures Quotient(Product(x, d), d) == x
  {
  }

  /** A factor that gives the dividend back is the quotient. */
  lemma QuotientIs(x: real, d: real, q: real)
    requires d != 0.0 && Product(q, d) == x
    ensures Quotient(x, d) == q
  {
    QuotientOfProduct(q, d);
  }

  lemma ProductOfShare(x: real, y: real, d: real)
    requires d != 0.0
    ensures Product(x, Quotient(y, d)) == Quotient(Product(x, y), d)
  {
    ProductAssociates(x, Quotient(y, d), d);
    ProductOfQuotient(y, d);
    QuotientIs(Product(x, y), d, Product(x, Quotient(y, d)));
  }

  lemma QuotientMonotone(x: real, y: real, d: real)
    requires x <= y && d > 0.0
    ensures Quotient(x, d) <= Quotient(y, d)
  {
  }

  lemma QuotientStrict(x: real, y: real, d: real)
    requires x < y && d > 0.0
    ensures Quotient(x, d) < Quotient(y, d)
  {
  }

  /** A common factor cancels. */
  lemma QuotientCancels(a: real, n: real, k: real)
    requires n > 0.0 && k > 0.0
    ensures Product(n, k) > 0.0
    ensures Quotient(Product(a, k), Product(n, k)) == Quotient(a, n)
  {
    ProductPositive(n, k);
    var q := Quotient(a, n);
    ProductOfQuotient(a, n);
    ProductAssociates(q, n, k);
    QuotientIs(Product(a, k), Product(n, k), q);
  }
}
