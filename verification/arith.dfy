/** Two facts about ordered-field arithmetic on `real` that the solver does
    not find by itself once products of unknowns appear. */
module Arith {

  /** Multiplying both sides by a positive number keeps a strict order. */
  lemma ScaleLess(a: real, b: real, c: real)
    requires c > 0.0
    ensures a < b <==> a * c < b * c
  {
    if a < b {
      assert (b - a) * c > 0.0;
    } else {
      assert (a - b) * c >= 0.0;
    }
  }

  /** A number that times c gives a is the quotient a / c. */
  lemma Quotient(x: real, a: real, c: real)
    requires c != 0.0 && x * c == a
    ensures x == a / c
  {
    assert (a / c) * c == a;
    assert (x - a / c) * c == 0.0;
  }
}
