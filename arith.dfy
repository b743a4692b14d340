/** Small facts about integer multiplication and division that the solver does not find unaided. */
module Arith {

  lemma MulMono(a: int, c: int, b: int)
    requires a <= c && b >= 0
    ensures a * b <= c * b
  {
    var e := c - a;
    assert c * b == a * b + e * b;
    assert e * b >= 0;
  }

  lemma Distrib(v: int, a: int, b: int)
    ensures v * (a + b) == v * a + v * b
  {
  }

  /** Multiplying by a non-negative factor keeps the order, stated as an implication. */
  lemma MulMonoIf(a: int, c: int, b: int)
    requires b >= 0
    ensures a <= c ==> a * b <= c * b
    ensures (a + 1) * b == a * b + b
  {
    if a <= c {
      MulMono(a, c, b);
    }
  }
}
