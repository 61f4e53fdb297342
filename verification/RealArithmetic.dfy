/** The few facts about products and quotients of reals that the proofs lean on. */
module RealArithmetic {

  lemma Quotient(x: real, s: real)
    requires s != 0.0
    ensures (x / s) * s == x
  {
  }

  lemma QuotientSign(x: real, s: real)
    requires s > 0.0
    ensures x >= 0.0 ==> x / s >= 0.0
    ensures x > 0.0 ==> x / s > 0.0
  {
  }

  lemma Cancel(a: real, s: real)
    requires s != 0.0
    ensures (a * s) / s == a
  {
  }

  lemma Distribute(a: real, b: real, c: real)
    ensures (a + b) * c == a * c + b * c
  {
  }

  lemma Positive(a: real, b: real)
    requires a > 0.0 && b > 0.0
    ensures a * b > 0.0
  {
  }

  lemma NonNegative(a: real, b: real)
    requires a >= 0.0 && b >= 0.0
    ensures a * b >= 0.0
  {
  }

  lemma Nothing(a: real, b: real)
    requires a == 0.0 || b == 0.0
    ensures a * b == 0.0
  {
  }

  lemma ScaleUp(a: real, b: real, s: real)
    requires s > 0.0
    ensures a < b ==> a * s < b * s
    ensures a == b ==> a * s == b * s
  {
    if a < b {
      Positive(b - a, s);
      assert b * s == a * s + (b - a) * s;
    }
  }

  /** A positive factor keeps and reflects the order. */
  lemma Scale(a: real, b: real, s: real)
    requires s > 0.0
    ensures a <= b <==> a * s <= b * s
    ensures a < b <==> a * s < b * s
  {
    ScaleUp(a, b, s);
    ScaleUp(b, a, s);
  }
}
