/** The total of an order in a foreign currency: products and sums in the decimal context's 28 digits,
    quantised to cents at the end, against the exact sum. */
module ForeignTotal {
  import opened Arith
  import opened DecimalContext
  import opened Digits
  import opened Money
  import opened Numbers
  import opened Wrappers

  datatype Line = Line(quantity: Decimal, price: Option<Decimal>)

  /** The sum of the first `n` lines as the context computes it: every product and every sum is rounded. */
  function Running(lines: seq<Line>, n: nat): Decimal
    requires n <= |lines|
  {
    if n == 0 then Decimal(false, 0, 0)
    else if lines[n - 1].price.None? then Running(lines, n - 1)
    else Fix(Added(Running(lines, n - 1), Fix(Product(lines[n - 1].quantity, lines[n - 1].price.value))))
  }

  function CentsHalfEven(d: Decimal): nat {
    if d.exp >= -2 then Scaled(d, -2) else HalfEven(d.coeff, Pow10(-2 - d.exp))
  }

  /** `quantize(Decimal("0.01"))`, which raises when the result needs more than 28 digits. */
  function Quantized(d: Decimal): Result<Decimal, DecimalError> {
    if |DigitsOf(CentsHalfEven(d))| > PRECISION then Failure(InvalidOperation)
    else Success(Decimal(d.neg, CentsHalfEven(d), -2))
  }

  function Total(lines: seq<Line>): Result<Decimal, DecimalError> {
    Quantized(Running(lines, |lines|))
  }

  /** The cents of the running sum are below 10^28. */
  predicate InRange(lines: seq<Line>) {
    CentsHalfEven(Running(lines, |lines|)) < Pow10(PRECISION)
  }

  /** For every list of lines the total raises exactly when its cents need more than 28 digits. */
  lemma TotalRaisesOutOfRange(lines: seq<Line>)
    ensures Total(lines).Success? <==> InRange(lines)
  {
    DigitsBound(CentsHalfEven(Running(lines, |lines|)), PRECISION);
  }

  // ------------------------------------------------------------ the exact total

  /** No product is finer than 10^u. */
  predicate AtLeastAsCoarse(lines: seq<Line>, u: int) {
    forall i | 0 <= i < |lines| && lines[i].price.Some? :: u <= lines[i].quantity.exp + lines[i].price.value.exp
  }

  function LineUnits(l: Line, u: int): int
    requires l.price.Some? ==> u <= l.quantity.exp + l.price.value.exp
  {
    if l.price.None? then 0 else Units(Product(l.quantity, l.price.value), u)
  }

  /** The exact sum of the first `n` lines, in units of 10^u. */
  function Exact(lines: seq<Line>, n: nat, u: int): int
    requires n <= |lines| && AtLeastAsCoarse(lines, u)
  {
    if n == 0 then 0 else Exact(lines, n - 1, u) + LineUnits(lines[n - 1], u)
  }

  /** The sum of the lines' magnitudes. */
  function Size(lines: seq<Line>, n: nat, u: int): nat
    requires n <= |lines| && AtLeastAsCoarse(lines, u)
  {
    if n == 0 then 0 else Size(lines, n - 1, u) + Abs(LineUnits(lines[n - 1], u))
  }

  /** One more line keeps the running sum exact. */
  lemma AddedIsExact(before: Decimal, p: Decimal, exact: int, u: int)
    requires u <= before.exp && u <= p.exp && Units(before, u) == exact && (before.neg <==> exact < 0)
    requires Abs(exact) + Abs(Units(p, u)) < Pow10(PRECISION)
    ensures var d := Fix(Added(before, Fix(p)));
            u <= d.exp && Units(d, u) == exact + Units(p, u) && (d.neg <==> exact + Units(p, u) < 0)
  {
    SmallIsKept(p, u);
    AddedInUnits(before, p, u);
    SmallIsKept(Added(before, p), u);
    SignOf(Added(before, p), u);
    SignOf(before, u);
  }

  lemma {:induction false} ExactIsNotMore(lines: seq<Line>, n: nat, u: int)
    requires n <= |lines| && AtLeastAsCoarse(lines, u)
    ensures Abs(Exact(lines, n, u)) <= Size(lines, n, u)
  {
    if n > 0 {
      ExactIsNotMore(lines, n - 1, u);
    }
  }

  /** The running sum of the first `n` lines is the exact one, and negative exactly when below zero. */
  predicate RunsExactly(lines: seq<Line>, n: nat, u: int)
    requires n <= |lines| && AtLeastAsCoarse(lines, u)
  {
    var d, exact := Running(lines, n), Exact(lines, n, u);
    u <= d.exp && Units(d, u) == exact && (d.neg <==> exact < 0)
  }

  lemma OneMoreIsExact(lines: seq<Line>, n: nat, u: int)
    requires 0 < n <= |lines| && AtLeastAsCoarse(lines, u) && RunsExactly(lines, n - 1, u)
    requires Abs(Exact(lines, n - 1, u)) + Abs(LineUnits(lines[n - 1], u)) < Pow10(PRECISION)
    ensures RunsExactly(lines, n, u)
  {
    var l := lines[n - 1];
    if l.price.Some? {
      AddedIsExact(Running(lines, n - 1), Product(l.quantity, l.price.value), Exact(lines, n - 1, u), u);
    }
  }

  /** Below 28 digits the running sum is exact. */
  lemma {:induction false} RunningIsExact(lines: seq<Line>, n: nat, u: int)
    requires n <= |lines| && u <= 0 && AtLeastAsCoarse(lines, u)
    requires Size(lines, n, u) < Pow10(PRECISION)
    ensures RunsExactly(lines, n, u)
  {
    if n > 0 {
      RunningIsExact(lines, n - 1, u);
      ExactIsNotMore(lines, n - 1, u);
      OneMoreIsExact(lines, n, u);
    }
  }

  /** Quantising is half-even rounding of the value, whatever the exponent. */
  lemma CentsFromUnits(d: Decimal, u: int)
    requires u <= -2 && u <= d.exp
    ensures CentsHalfEven(d) == HalfEven(Scaled(d, u), Pow10(-2 - u))
  {
    if d.exp >= -2 {
      ScaledFurther(d, -2, u);
      var p := Pow10(-2 - u);
      DivisionIsUnique(Scaled(d, u), p, Scaled(d, -2), 0);
    } else {
      Pow10Splits(-2 - d.exp, d.exp - u);
      HalfEvenOfMultiple(d.coeff, Pow10(-2 - d.exp), Pow10(d.exp - u));
    }
  }

  lemma RoundedIsNotMore(n: nat, p: nat)
    requires p > 0
    ensures HalfEven(n, p) <= n
  {
    var q, r := n / p, n % p;
    assert n == q * p + r;
    NotLess(q, p);
    if p == 1 {
      assert r == 0;
    } else if q > 0 {
      MulStep(1, p, q);
    }
  }

  /** The total is the exact sum rounded to cents, half to even, whenever the lines' magnitudes together
      stay below 28 digits of the finest product; the columns' products are no finer than 10^-5. */
  lemma TotalIsTheExactSum(lines: seq<Line>, u: int)
    requires u <= -2 && AtLeastAsCoarse(lines, u) && Size(lines, |lines|, u) < Pow10(PRECISION)
    ensures var exact := Exact(lines, |lines|, u);
            Total(lines) == Success(Decimal(exact < 0, HalfEven(Abs(exact), Pow10(-2 - u)), -2))
  {
    var d := Running(lines, |lines|);
    RunningIsExact(lines, |lines|, u);
    ExactIsNotMore(lines, |lines|, u);
    CentsFromUnits(d, u);
    RoundedIsNotMore(Scaled(d, u), Pow10(-2 - u));
    DigitsBound(CentsHalfEven(d), PRECISION);
  }

  // ------------------------------------------------------ the columns' values

  /** A quantity of NUMERIC(12, 3) and a price of NUMERIC(12, 2), if any. */
  predicate FromColumns(l: Line) {
    && l.quantity.exp == -3 && l.quantity.coeff < Pow10(12)
    && (l.price.Some? ==> l.price.value.exp == -2 && l.price.value.coeff < Pow10(12))
  }

  lemma ProductBelow(a: nat, b: nat, p: nat)
    requires a < p && b < p
    ensures a * b < p * p
  {
  }

  lemma ColumnLineBelow(l: Line)
    requires FromColumns(l)
    ensures Abs(LineUnits(l, -5)) < Pow10(12) * Pow10(12)
  {
    if l.price.Some? {
      ProductBelow(l.quantity.coeff, l.price.value.coeff, Pow10(12));
      UnitsHere(Product(l.quantity, l.price.value));
    }
  }

  lemma AtMostOneMore(before: nat, line: nat, n: nat, limit: nat)
    requires n > 0 && before <= (n - 1) * limit && line < limit
    ensures before + line <= n * limit
  {
    Distribute(n - 1, 1, limit);
  }

  lemma {:induction false} ColumnSize(lines: seq<Line>, n: nat, limit: nat)
    requires n <= |lines| && AtLeastAsCoarse(lines, -5)
    requires forall i | 0 <= i < n :: Abs(LineUnits(lines[i], -5)) < limit
    ensures Size(lines, n, -5) <= n * limit
  {
    if n > 0 {
      ColumnSize(lines, n - 1, limit);
      AtMostOneMore(Size(lines, n - 1, -5), Abs(LineUnits(lines[n - 1], -5)), n, limit);
    }
  }

  /** Fewer than ten thousand lines of the columns' values never raise: their total is the exact sum
      rounded to cents, half to even. */
  lemma ColumnsNeverRaise(lines: seq<Line>)
    requires |lines| < Pow10(4) && forall i | 0 <= i < |lines| :: FromColumns(lines[i])
    ensures AtLeastAsCoarse(lines, -5)
    ensures var exact := Exact(lines, |lines|, -5);
            Total(lines) == Success(Decimal(exact < 0, HalfEven(Abs(exact), Pow10(3)), -2))
  {
    ColumnsFit(lines, Pow10(12) * Pow10(12));
    TotalIsTheExactSum(lines, -5);
  }

  lemma ColumnsFit(lines: seq<Line>, limit: nat)
    requires |lines| < Pow10(4) && limit == Pow10(12) * Pow10(12)
    requires forall i | 0 <= i < |lines| :: FromColumns(lines[i])
    ensures AtLeastAsCoarse(lines, -5) && Size(lines, |lines|, -5) < Pow10(PRECISION)
  {
    forall i | 0 <= i < |lines| ensures Abs(LineUnits(lines[i], -5)) < limit {
      ColumnLineBelow(lines[i]);
    }
    ColumnSize(lines, |lines|, limit);
    ManyTimes(|lines|, Pow10(4), limit);
    Pow10Splits(12, 12);
    Pow10Splits(4, 24);
  }

  lemma ManyTimes(n: nat, most: nat, limit: nat)
    requires n < most && limit > 0
    ensures n * limit < most * limit
  {
    MulStep(n, most, limit);
  }

  // ------------------------------------------------------- exactly when it raises

  /** No priced line is below zero. */
  predicate NoneNegative(lines: seq<Line>, u: int)
    requires AtLeastAsCoarse(lines, u)
  {
    forall i | 0 <= i < |lines| :: LineUnits(lines[i], u) >= 0
  }

  /** Rounding leaves a small number alone, and a big one big. */
  lemma FixKeepsTheSide(d: Decimal, u: int)
    requires u <= d.exp && Units(d, u) >= 0
    ensures Units(d, u) < Pow10(PRECISION) ==> Fix(d) == d
    ensures Units(d, u) >= Pow10(PRECISION) ==> u <= Fix(d).exp && Units(Fix(d), u) >= Pow10(PRECISION)
  {
    if Units(d, u) < Pow10(PRECISION) {
      SmallIsKept(d, u);
    } else if |DigitsOf(d.coeff)| > PRECISION {
      LongIsCutAbove(d);
      BigAt(Fix(d), u);
      SignOf(d, u);
    }
  }

  lemma BigAt(d: Decimal, u: int)
    requires u < d.exp && d.coeff >= Pow10(PRECISION - 1)
    ensures Scaled(d, u) >= Pow10(PRECISION)
  {
    var p := Pow10(d.exp - u - 1);
    MulMonotone(Pow10(PRECISION - 1), d.coeff, 10 * p);
    NotLess(Pow10(PRECISION - 1) * 10, p);
    MulAssoc(Pow10(PRECISION - 1), 10, p);
  }

  /** `d` stands for the exact sum `e`: equal to it below 10^28 units, and like it at or above. */
  predicate Tracks(d: Decimal, e: int, u: int) {
    && u <= d.exp && Units(d, u) >= 0
    && (if e < Pow10(PRECISION) then Units(d, u) == e else Units(d, u) >= Pow10(PRECISION))
  }

  lemma RoundedTracks(d: Decimal, e: int, u: int)
    requires Tracks(d, e, u)
    ensures Tracks(Fix(d), e, u)
  {
    FixKeepsTheSide(d, u);
  }

  lemma AddedTracks(a: Decimal, b: Decimal, e: int, f: int, u: int)
    requires Tracks(a, e, u) && Tracks(b, f, u) && e >= 0 && f >= 0
    ensures Tracks(Added(a, b), e + f, u)
  {
    AddedInUnits(a, b, u);
  }

  lemma LineTracks(l: Line, u: int)
    requires l.price.Some? && u <= l.quantity.exp + l.price.value.exp && LineUnits(l, u) >= 0
    ensures Tracks(Fix(Product(l.quantity, l.price.value)), LineUnits(l, u), u)
  {
    RoundedTracks(Product(l.quantity, l.price.value), LineUnits(l, u), u);
  }

  lemma {:induction false} RunningTracks(lines: seq<Line>, n: nat, u: int)
    requires n <= |lines| && u <= 0 && AtLeastAsCoarse(lines, u) && NoneNegative(lines, u)
    ensures Exact(lines, n, u) >= 0 && Tracks(Running(lines, n), Exact(lines, n, u), u)
  {
    if n > 0 {
      RunningTracks(lines, n - 1, u);
      if lines[n - 1].price.Some? {
        PricedLineTracks(lines, n, u);
      }
    }
  }

  lemma PricedLineTracks(lines: seq<Line>, n: nat, u: int)
    requires 0 < n <= |lines| && AtLeastAsCoarse(lines, u) && lines[n - 1].price.Some?
    requires LineUnits(lines[n - 1], u) >= 0
    requires Exact(lines, n - 1, u) >= 0 && Tracks(Running(lines, n - 1), Exact(lines, n - 1, u), u)
    ensures Exact(lines, n, u) >= 0 && Tracks(Running(lines, n), Exact(lines, n, u), u)
  {
    var l, before := lines[n - 1], Running(lines, n - 1);
    var p := Fix(Product(l.quantity, l.price.value));
    LineTracks(l, u);
    AddedTracks(before, p, Exact(lines, n - 1, u), LineUnits(l, u), u);
    RoundedTracks(Added(before, p), Exact(lines, n, u), u);
  }

  /** Whole cents, none below zero: the total raises exactly when their exact sum is 10^28 or more,
      however often the sums before it were rounded. */
  lemma TotalRaisesExactly(lines: seq<Line>)
    requires AtLeastAsCoarse(lines, -2) && NoneNegative(lines, -2)
    ensures Total(lines).Failure? <==> Exact(lines, |lines|, -2) >= Pow10(PRECISION)
  {
    RunningTracks(lines, |lines|, -2);
    TotalRaisesOutOfRange(lines);
  }

  /** One piece at 10^k raises for every k from 26 on. */
  lemma HugeTotalRaises(k: nat)
    requires k >= 26
    ensures Total([Line(Decimal(false, 1, 0), Some(Decimal(false, 1, k)))]).Failure?
  {
    var line := Line(Decimal(false, 1, 0), Some(Decimal(false, 1, k)));
    OnePiece(line.quantity, line.price.value);
    ExactOfOne(line, -2);
    if k + 2 > PRECISION {
      Pow10Grows(PRECISION, k + 2);
    }
    TotalRaisesExactly([line]);
  }

  lemma OnePiece(one: Decimal, price: Decimal)
    requires one == Decimal(false, 1, 0) && price == Decimal(false, 1, price.exp) && price.exp >= 0
    ensures Units(Product(one, price), -2) == Pow10(price.exp + 2)
  {
    assert Product(one, price) == price;
  }

  lemma ExactOfOne(line: Line, u: int)
    requires line.price.Some? ==> u <= line.quantity.exp + line.price.value.exp
    ensures AtLeastAsCoarse([line], u) && Exact([line], 1, u) == LineUnits(line, u)
  {
    assert Exact([line], 0, u) == 0;
  }
}
