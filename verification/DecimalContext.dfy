/** Arithmetic in the decimal module's default context: exact, then rounded to 28 digits, half to even. */
module DecimalContext {
  import opened Arith
  import opened Digits
  import opened Money
  import opened Numbers

  const PRECISION: nat := 28

  datatype DecimalError = InvalidOperation

  function HalfEven(n: nat, p: nat): nat
    requires p > 0
  {
    var q, r := n / p, n % p;
    if 2 * r > p || (2 * r == p && q % 2 == 1) then q + 1 else q
  }

  /** Rounding to the context's precision, half to even. */
  function Fix(d: Decimal): (r: Decimal)
    ensures r.exp >= d.exp && r.neg == d.neg
  {
    var length := |DigitsOf(d.coeff)|;
    if length <= PRECISION then d
    else
      var drop := length - PRECISION;
      var c := HalfEven(d.coeff, Pow10(drop));
      if |DigitsOf(c)| > PRECISION then Decimal(d.neg, c / 10, d.exp + drop + 1)
      else Decimal(d.neg, c, d.exp + drop)
  }

  function Product(a: Decimal, b: Decimal): Decimal {
    Decimal(a.neg != b.neg, a.coeff * b.coeff, a.exp + b.exp)
  }

  function Abs(x: int): nat {
    if x < 0 then -x else x
  }

  /** `d` as a whole number of units of 10^m. */
  function Units(d: Decimal, m: int): int
    requires m <= d.exp
  {
    if d.neg then 0 - Scaled(d, m) else Scaled(d, m)
  }

  /** The exact sum. A zero is negative only if both summands are. */
  function Added(a: Decimal, b: Decimal): Decimal {
    var m := if a.exp <= b.exp then a.exp else b.exp;
    var sum := Units(a, m) + Units(b, m);
    Decimal(if sum == 0 then a.neg && b.neg else sum < 0, Abs(sum), m)
  }

  // ------------------------------------------------------- values in units

  lemma NotLess(n: nat, p: nat)
    requires p > 0
    ensures n <= n * p
  {
  }

  lemma MulMonotone(a: nat, b: nat, p: nat)
    requires a <= b
    ensures a * p <= b * p
  {
  }

  lemma Distribute(a: int, b: int, p: int)
    ensures (a + b) * p == a * p + b * p
  {
  }

  lemma ScaledOrder(a: nat, b: nat, k: nat)
    requires k > 0
    ensures a * k > b * k <==> a > b
    ensures a * k == b * k <==> a == b
  {
    if a > b {
      MulStep(b, a, k);
    } else if a < b {
      MulStep(a, b, k);
    }
  }

  lemma QuotientBelow(n: nat, p: nat, top: nat)
    requires p > 0 && n < top * p
    ensures n / p < top
  {
    if n / p >= top {
      MulMonotone(top, n / p, p);
    }
  }

  lemma QuotientAtLeast(n: nat, p: nat, q: nat)
    requires p > 0 && n >= q * p
    ensures n / p >= q
  {
    DivisionIsUnique(q * p, p, q, 0);
    DivisionIsMonotone(q * p, n, p);
  }

  lemma {:induction false} Pow10Grows(a: nat, b: nat)
    requires a < b
    ensures Pow10(a) < Pow10(b)
  {
    if a + 1 < b {
      Pow10Grows(a, b - 1);
    }
  }

  lemma UnitsFurther(d: Decimal, m: int, u: int)
    requires u <= m <= d.exp
    ensures Units(d, u) == Units(d, m) * Pow10(m - u)
  {
    ScaledFurther(d, m, u);
  }

  lemma UnitsHere(d: Decimal)
    ensures Units(d, d.exp) == if d.neg then 0 - d.coeff else d.coeff
  {
    assert Scaled(d, d.exp) == d.coeff * Pow10(0) == d.coeff;
  }

  lemma SignOf(d: Decimal, u: int)
    requires u <= d.exp
    ensures d.coeff == 0 <==> Units(d, u) == 0
    ensures d.coeff > 0 ==> (d.neg <==> Units(d, u) < 0)
  {
    NotLess(d.coeff, Pow10(d.exp - u));
  }

  lemma AddedInUnits(a: Decimal, b: Decimal, u: int)
    requires u <= a.exp && u <= b.exp
    ensures u <= Added(a, b).exp && Units(Added(a, b), u) == Units(a, u) + Units(b, u)
  {
    var c := Added(a, b);
    UnitsFurther(a, c.exp, u);
    UnitsFurther(b, c.exp, u);
    UnitsFurther(c, c.exp, u);
    UnitsHere(c);
    Distribute(Units(a, c.exp), Units(b, c.exp), Pow10(c.exp - u));
  }

  // -------------------------------------------------------------- rounding

  lemma HalfEvenIsExact(n: nat, p: nat)
    requires p > 0
    ensures HalfEven(n, p) * p == n <==> n % p == 0
    ensures HalfEven(n, p) <= n / p + 1
  {
    var q, r := n / p, n % p;
    assert n == q * p + r && (q + 1) * p == q * p + p;
  }

  lemma HalfEvenOfMultiple(n: nat, p: nat, k: nat)
    requires p > 0 && k > 0
    ensures p * k > 0 && HalfEven(n * k, p * k) == HalfEven(n, p)
  {
    var q, r := n / p, n % p;
    assert n == q * p + r;
    assert n * k == q * (p * k) + r * k by {
      Distribute(q * p, r, k);
      MulAssoc(q, p, k);
    }
    MulStep(r, p, k);
    assert r * k < p * k;
    DivisionIsUnique(n * k, p * k, q, r * k);
    ScaledOrder(2 * r, p, k);
    assert 2 * r * k == 2 * (r * k);
  }

  /** A carry past `k` digits can only give a multiple of ten. */
  lemma CarryIsAPower(n: nat, drop: nat, k: nat)
    requires k > 0 && |DigitsOf(n)| == k + drop
    requires |DigitsOf(HalfEven(n, Pow10(drop)))| > k
    ensures HalfEven(n, Pow10(drop)) % 10 == 0
  {
    var p, top := Pow10(drop), Pow10(k);
    var c := HalfEven(n, p);
    DigitsBound(n, k + drop);
    Pow10Splits(k, drop);
    DigitsBound(c, k);
    HalfEvenIsExact(n, p);
    QuotientBelow(n, p, top);
    assert c == top == 10 * Pow10(k - 1);
  }

  /** What is small in fine units needs no rounding. */
  lemma SmallIsKept(d: Decimal, u: int)
    requires u <= d.exp && Abs(Units(d, u)) < Pow10(PRECISION)
    ensures Fix(d) == d
  {
    NotLess(d.coeff, Pow10(d.exp - u));
    DigitsBound(d.coeff, PRECISION);
  }

  /** A number of more than 28 digits keeps its first 28, so it stays at or above 10^28. */
  lemma CutStaysBig(n: nat, drop: nat, k: nat)
    requires k > 0 && drop > 0 && |DigitsOf(n)| == k + drop
    ensures HalfEven(n, Pow10(drop)) >= Pow10(k - 1)
  {
    DigitsBound(n, k + drop - 1);
    Pow10Splits(k - 1, drop);
    QuotientAtLeast(n, Pow10(drop), Pow10(k - 1));
  }

  lemma LongIsCutAbove(d: Decimal)
    requires |DigitsOf(d.coeff)| > PRECISION
    ensures Fix(d).exp > d.exp && Fix(d).coeff >= Pow10(PRECISION - 1)
  {
    var drop := |DigitsOf(d.coeff)| - PRECISION;
    var c := HalfEven(d.coeff, Pow10(drop));
    CutStaysBig(d.coeff, drop, PRECISION);
    if |DigitsOf(c)| > PRECISION {
      CarriedIsBig(c);
    }
  }

  lemma CarriedIsBig(c: nat)
    requires |DigitsOf(c)| > PRECISION
    ensures c / 10 >= Pow10(PRECISION - 1)
  {
    DigitsBound(c, PRECISION);
    QuotientAtLeast(c, 10, Pow10(PRECISION - 1));
  }

  lemma LongCutAtLeast(d: Decimal)
    requires |DigitsOf(d.coeff)| > PRECISION
    ensures var drop := |DigitsOf(d.coeff)| - PRECISION;
            && d.coeff >= Pow10(PRECISION - 1) * Pow10(drop)
            && HalfEven(d.coeff, Pow10(drop)) >= Pow10(PRECISION - 1)
  {
    var drop := |DigitsOf(d.coeff)| - PRECISION;
    CutStaysBig(d.coeff, drop, PRECISION);
    DigitsBound(d.coeff, PRECISION + drop - 1);
    Pow10Splits(PRECISION - 1, drop);
  }

  lemma TenfoldSame(c: nat, p: nat)
    requires c % 10 == 0
    ensures (c / 10) * (10 * p) == c * p
  {
    MulSwap(c / 10, p);
    MulAssoc(10, c / 10, p);
  }

  /** What a long number is rounded to, a carry included. */
  lemma FixIsTheCut(d: Decimal, u: int)
    requires |DigitsOf(d.coeff)| > PRECISION && u <= d.exp
    ensures var drop := |DigitsOf(d.coeff)| - PRECISION;
            Scaled(Fix(d), u) == HalfEven(d.coeff, Pow10(drop)) * Pow10(d.exp + drop - u)
  {
    var drop := |DigitsOf(d.coeff)| - PRECISION;
    var c := HalfEven(d.coeff, Pow10(drop));
    if |DigitsOf(c)| > PRECISION {
      CarryIsAPower(d.coeff, drop, PRECISION);
      TenfoldSame(c, Pow10(d.exp + drop - u));
    }
  }

  lemma HalfEvenIsNearest(n: nat, p: nat)
    requires p > 0
    ensures var q := HalfEven(n, p);
            2 * Abs(q * p - n) <= p && (2 * Abs(q * p - n) == p ==> q % 2 == 0)
  {
    var q, r := n / p, n % p;
    assert n == q * p + r && (q + 1) * p == q * p + p;
  }

  /** A long number is rounded to the nearest multiple of what its digits beyond the 28th count, and from the
      middle between two to the even one. */
  lemma FixIsNearest(d: Decimal)
    requires |DigitsOf(d.coeff)| > 28
    ensures var p := Pow10(|DigitsOf(d.coeff)| - 28);
            var kept := Scaled(Fix(d), d.exp);
            && kept % p == 0 && 2 * Abs(kept - d.coeff) <= p
            && (2 * Abs(kept - d.coeff) == p ==> kept / p % 2 == 0)
  {
    var p := Pow10(|DigitsOf(d.coeff)| - 28);
    FixIsTheCut(d, d.exp);
    HalfEvenIsNearest(d.coeff, p);
    DivisionIsUnique(HalfEven(d.coeff, p) * p, p, HalfEven(d.coeff, p), 0);
  }

  /** A number of at most 28 digits is left alone. */
  lemma ShortIsKept(d: Decimal)
    requires |DigitsOf(d.coeff)| <= 28
    ensures Fix(d) == d
  {
  }

  lemma HalfEvenRespects(n: nat, p: nat, r: nat)
    requires p > 0
    ensures n <= r * p ==> HalfEven(n, p) <= r
    ensures n >= r * p ==> HalfEven(n, p) >= r
  {
    var q, rest := n / p, n % p;
    assert n == q * p + rest;
    if n <= r * p && q >= r {
      if q > r {
        MulStep(r, q, p);
      }
      assert q == r && rest == 0;
    }
    if n >= r * p && q < r {
      MulStep(q, r, p);
    }
  }

  lemma OrderedTimes(a: nat, b: nat, k: nat)
    requires k > 0
    ensures a <= b <==> a * k <= b * k
  {
    ScaledOrder(a, b, k);
  }

  /** The number r * 10^m, in units of 10^u, when r has at most 28 digits. */
  function Point(r: nat, m: int, u: int): nat
    requires u <= m
  {
    r * Pow10(m - u)
  }

  /** A long number whose last kept digit counts no more than 10^m. */
  lemma CutRespects(d: Decimal, r: nat, m: int, u: int)
    requires |DigitsOf(d.coeff)| > PRECISION && u <= d.exp
    requires d.exp + |DigitsOf(d.coeff)| - PRECISION <= m
    ensures Scaled(d, u) <= Point(r, m, u) ==> Scaled(Fix(d), u) <= Point(r, m, u)
    ensures Scaled(d, u) >= Point(r, m, u) ==> Scaled(Fix(d), u) >= Point(r, m, u)
  {
    var drop := |DigitsOf(d.coeff)| - PRECISION;
    var e, p := d.exp + drop, Pow10(drop);
    var kept := r * Pow10(m - e);
    Pow10Splits(m - e, e - u);
    MulAssoc(r, Pow10(m - e), Pow10(e - u));
    Pow10Splits(drop, d.exp - u);
    MulAssoc(kept, p, Pow10(d.exp - u));
    assert Point(r, m, u) == kept * Pow10(e - u) == kept * p * Pow10(d.exp - u);
    OrderedTimes(d.coeff, kept * p, Pow10(d.exp - u));
    OrderedTimes(kept * p, d.coeff, Pow10(d.exp - u));
    HalfEvenRespects(d.coeff, p, kept);
    FixIsTheCut(d, u);
    OrderedTimes(HalfEven(d.coeff, p), kept, Pow10(e - u));
    OrderedTimes(kept, HalfEven(d.coeff, p), Pow10(e - u));
  }

  /** A number of 28 digits before 10^m is above every shorter one there. */
  lemma FarAbove(c: nat, r: nat, m: int, e: int, u: int)
    requires u <= m < e && c >= Pow10(PRECISION - 1) && r < Pow10(PRECISION)
    ensures c * Pow10(e - u) > Point(r, m, u)
  {
    var p := Pow10(m - u);
    Pow10Splits(e - m, m - u);
    assert Pow10(e - u) == Pow10(e - m) * p;
    AtLeastTen(e - m);
    MulMonotone(10, Pow10(e - m), p);
    MulMonotone(Pow10(PRECISION - 1), c, Pow10(e - u));
    MulMonotone(10 * p, Pow10(e - u), Pow10(PRECISION - 1));
    MulAssoc(Pow10(PRECISION - 1), 10, p);
    ScaledOrder(Pow10(PRECISION), r, p);
  }

  lemma AtLeastTen(k: nat)
    requires k > 0
    ensures Pow10(k) >= 10
  {
  }

  /** Rounding never crosses a number of at most 28 digits. */
  lemma FixRespects(d: Decimal, r: nat, m: int, u: int)
    requires u <= d.exp && u <= m && r < Pow10(PRECISION)
    ensures Scaled(d, u) <= Point(r, m, u) ==> Scaled(Fix(d), u) <= Point(r, m, u)
    ensures Scaled(d, u) >= Point(r, m, u) ==> Scaled(Fix(d), u) >= Point(r, m, u)
  {
    var length := |DigitsOf(d.coeff)|;
    if length > PRECISION {
      var e := d.exp + length - PRECISION;
      if e <= m {
        CutRespects(d, r, m, u);
      } else {
        var drop := length - PRECISION;
        LongCutAtLeast(d);
        FixIsTheCut(d, u);
        FarAbove(HalfEven(d.coeff, Pow10(drop)), r, m, e, u);
        FarAbove(Pow10(PRECISION - 1), r, m, e, u);
        LongAbove(d, drop, u);
      }
    }
  }

  lemma LongAbove(d: Decimal, drop: nat, u: int)
    requires u <= d.exp && d.coeff >= Pow10(PRECISION - 1) * Pow10(drop)
    ensures Scaled(d, u) >= Pow10(PRECISION - 1) * Pow10(d.exp + drop - u)
  {
    var least, p := Pow10(PRECISION - 1), Pow10(d.exp - u);
    MulMonotone(least * Pow10(drop), d.coeff, p);
    MulAssoc(least, Pow10(drop), p);
    Pow10Splits(drop, d.exp - u);
  }
}
