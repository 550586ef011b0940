/** The few facts about multiplication and floor division that the solver does not find alone. */
module Arith {

  lemma {:induction false} MulStep(a: int, b: int, k: int)
    requires a < b && k > 0
    ensures a * k + k <= b * k
    decreases b - a
  {
    if a + 1 < b {
      MulStep(a + 1, b, k);
    }
    assert (a + 1) * k == a * k + k;
  }

  lemma DivisionIsUnique(x: int, k: int, q: int, r: int)
    requires k > 0 && x == q * k + r && 0 <= r < k
    ensures x / k == q && x % k == r
  {
    var p, s := x / k, x % k;
    assert x == p * k + s;
    if p < q {
      MulStep(p, q, k);
    } else if q < p {
      MulStep(q, p, k);
    }
  }

  lemma DivideSum(x: int, k: int, q: int)
    requires k > 0
    ensures (x + q * k) / k == x / k + q && (x + q * k) % k == x % k
  {
    var a, b := x / k, x % k;
    assert x + q * k == (a + q) * k + b by {
      assert (a + q) * k == a * k + q * k;
    }
    DivisionIsUnique(x + q * k, k, a + q, b);
  }

  lemma DivisionIsMonotone(x: int, y: int, k: int)
    requires k > 0 && x <= y
    ensures x / k <= y / k
  {
    var p, q := x / k, y / k;
    assert x == p * k + x % k && y == q * k + y % k;
    if q < p {
      MulStep(q, p, k);
    }
  }
}
