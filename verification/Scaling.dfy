/** Products and orders, which the solver is left to handle in small steps. */
module Scaling {

  lemma ScaleLess(a: real, b: real, k: real)
    requires k > 0.0 && a < b
    ensures a * k < b * k
  {
    assert (b - a) * k > 0.0;
  }

  lemma ScaleAtMost(a: real, b: real, k: real)
    requires k >= 0.0 && a <= b
    ensures a * k <= b * k
  {
    assert (b - a) * k >= 0.0;
  }

  lemma ScaleOpposite(a: real, b: real, k: real)
    requires k > 0.0 && -a < b
    ensures -(a * k) < b * k
  {
    assert (b + a) * k > 0.0;
  }

  lemma ScaleDifference(a: real, b: real, k: real)
    ensures a * k - b * k == (a - b) * k
  {
  }

  lemma MultiplyAtMost(a: int, b: int, k: int)
    requires k >= 0 && a <= b
    ensures a * k <= b * k
  {
    assert (b - a) * k >= 0;
  }
}
