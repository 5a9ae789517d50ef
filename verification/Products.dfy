/** Order and equality of real products and quotients, one small fact at a time. */
module Products {

  lemma MulLe(c: real, x: real, y: real)
    requires x <= y && c >= 0.0
    ensures c * x <= c * y
  {}

  lemma MulBelow(c: real, x: real, y: real, top: real)
    requires x <= y && c >= 0.0 && c * y == top
    ensures c * x <= top
  {
    MulLe(c, x, y);
  }

  lemma MulLt(c: real, x: real, y: real)
    requires x < y && c > 0.0
    ensures c * x < c * y
  {}

  lemma Shrink(c: real, x: real)
    requires c >= 0.0 && 0.0 <= x <= 1.0
    ensures 0.0 <= c * x <= c
  {}

  lemma ProductOrder(q: real, c: real, y: real)
    requires c > 0.0
    ensures q <= y <==> c * q <= c * y
  {}

  /** Comparing quotients is comparing products. */
  lemma QuotientOrder(x: real, c: real, y: real)
    requires c > 0.0
    ensures x / c <= y <==> x <= c * y
    ensures y <= x / c <==> c * y <= x
  {
    ProductOrder(x / c, c, y);
    ProductOrder(y, c, x / c);
  }
}
