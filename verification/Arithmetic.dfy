/** Products of reals: the few facts about signs and order that the proofs lean on. */
module Arithmetic {

  lemma ProductIsNotNegative(a: real, b: real)
    requires a >= 0.0 && b >= 0.0
    ensures a * b >= 0.0
  {
  }

  lemma ScaleKeepsSign(scale: real, a: real)
    requires scale > 0.0
    ensures scale * a > 0.0 <==> a > 0.0
    ensures scale * a >= 0.0 <==> a >= 0.0
  {
  }

  lemma Grows(g: real, a: real, b: real)
    requires g > 0.0 && a <= b
    ensures g * a <= g * b
    ensures a < b ==> g * a < g * b
  {
    assert g * (b - a) == g * b - g * a;
  }

  lemma PartIsWithin(part: real, whole: real)
    requires 0.0 <= part <= 1.0 && whole >= 0.0
    ensures part * whole <= whole
  {
    var rest := 1.0 - part;
    ProductIsNotNegative(rest, whole);
    assert rest * whole == whole - part * whole;
  }

  lemma ProductsDiffer(a: real, b: real, d: real)
    requires a != b && d > 0.0
    ensures a * d != b * d
  {
    assert (a - b) * d == a * d - b * d;
  }
}
