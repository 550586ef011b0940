/** How one booking is rounded: the sum to the decimal context's 28 digits, and sum and movement to the
    thousandths of a NUMERIC(12, 3) column. */
module StockRounding {
  import opened Arith
  import opened DecimalContext
  import opened Digits
  import opened Money
  import opened Numbers

  /** What the columns hold stays below 10^12 thousandths. */
  const LIMIT: nat := Pow10(12)

  lemma LimitIs()
    ensures LIMIT == 1_000_000_000_000
  {
    assert Pow10(3) == 1000;
    Pow10Splits(3, 3);
    Pow10Splits(6, 6);
  }

  /** How PostgreSQL stores an amount in the column: in thousandths, half away from zero. */
  function Stored(d: Decimal): int {
    if d.neg then 0 - StoredSize(d) else StoredSize(d)
  }

  function StoredSize(d: Decimal): nat {
    if d.exp >= -3 then Scaled(d, -3) else HalfUp(d.coeff, Pow10(-3 - d.exp))
  }

  /** The total as it is read; `or Decimal("0")` changes the exponent of a zero. */
  function Read(current: nat): Decimal {
    if current == 0 then Decimal(false, 0, 0) else Decimal(false, current, -3)
  }

  function ExactSum(current: nat, signed: Decimal): Decimal {
    Added(Read(current), signed)
  }

  /** The new total as the decimal context adds it. */
  function NewTotal(current: nat, signed: Decimal): Decimal {
    Fix(ExactSum(current, signed))
  }

  // -------------------------------------------------- when a booking drifts

  /** Some thousandths and exactly a half. */
  predicate EndsInHalf(d: Decimal) {
    d.exp < -3 && 2 * (d.coeff % Pow10(-3 - d.exp)) == Pow10(-3 - d.exp)
  }

  /** A withdrawal of some thousandths and exactly a half: the row rounds it up, the total down. */
  predicate HalfWithdrawal(signed: Decimal) {
    signed.neg && EndsInHalf(signed)
  }

  /** A sum just short of a half, which its 28 digits make a half: the total is rounded up. */
  predicate LiftedToHalf(current: nat, signed: Decimal) {
    var exact, total := ExactSum(current, signed), NewTotal(current, signed);
    EndsInHalf(total) && exact.coeff < Scaled(total, exact.exp)
  }

  predicate Drifts(current: nat, signed: Decimal) {
    HalfWithdrawal(signed) || LiftedToHalf(current, signed)
  }

  // ------------------------------------------------------ rounding in units

  lemma HalfUpIs(n: nat, h: nat, k: nat)
    requires h > 0
    ensures HalfUp(n, 2 * h) == k <==> (2 * k - 1) * h <= n < (2 * k + 1) * h
  {
    HalfUpBetween(n, h);
    var j := HalfUp(n, 2 * h);
    if j < k {
      Odds(j, k, h);
    } else if k < j {
      Odds(k, j, h);
    }
  }

  lemma HalfUpBetween(n: nat, h: nat)
    requires h > 0
    ensures var k := HalfUp(n, 2 * h); (2 * k - 1) * h <= n < (2 * k + 1) * h
  {
    var q, r := n / (2 * h), n % (2 * h);
    assert n == q * (2 * h) + r;
    Twice(q, h);
    Twice(q + 1, h);
  }

  lemma Twice(q: int, h: int)
    ensures q * (2 * h) == 2 * q * h && (2 * q - 1) * h == q * (2 * h) - h && (2 * q + 1) * h == q * (2 * h) + h
  {
  }

  lemma Odds(j: int, k: int, h: nat)
    requires j < k && h > 0
    ensures (2 * j + 1) * h <= (2 * k - 1) * h
  {
    Twice(j, h);
    Twice(k, h);
    MulStep(j, k, 2 * h);
  }

  lemma HalfUpOfMultiple(n: nat, p: nat, k: nat)
    requires p > 0 && k > 0
    ensures p * k > 0 && HalfUp(n * k, p * k) == HalfUp(n, p)
    ensures 2 * ((n * k) % (p * k)) == p * k <==> 2 * (n % p) == p
  {
    var q, r := n / p, n % p;
    assert n == q * p + r;
    assert n * k == q * (p * k) + r * k by {
      Distribute(q * p, r, k);
      MulAssoc(q, p, k);
    }
    MulStep(r, p, k);
    DivisionIsUnique(n * k, p * k, q, r * k);
    ScaledOrder(2 * r, p, k);
    assert 2 * r * k == 2 * (r * k);
  }

  /** Storing rounds the value, whatever the exponent. */
  lemma StoredFromUnits(d: Decimal, u: int)
    requires u < -3 && u <= d.exp
    ensures StoredSize(d) == HalfUp(Scaled(d, u), Pow10(-3 - u))
    ensures EndsInHalf(d) <==> 2 * (Scaled(d, u) % Pow10(-3 - u)) == Pow10(-3 - u)
  {
    var p := Pow10(-3 - u);
    if d.exp >= -3 {
      ScaledFurther(d, -3, u);
      DivisionIsUnique(Scaled(d, u), p, Scaled(d, -3), 0);
    } else {
      Pow10Splits(-3 - d.exp, d.exp - u);
      HalfUpOfMultiple(d.coeff, Pow10(-3 - d.exp), Pow10(d.exp - u));
    }
  }

  // ------------------------------------------------------- the exact booking

  /** Rounding the sum and summing the roundings of what is added. */
  lemma AddsUp(c: nat, v: nat, h: nat)
    requires h > 0
    ensures HalfUp(c * (2 * h) + v, 2 * h) == c + HalfUp(v, 2 * h)
  {
    DivideSum(v, 2 * h, c);
  }

  /** And of what is taken away, where a half is rounded up in the one and down in the other. */
  lemma TakesAway(c: nat, w: nat, h: nat)
    requires h > 0 && w <= c * (2 * h)
    ensures HalfUp(c * (2 * h) - w, 2 * h) == c - HalfUp(w, 2 * h) + if w % (2 * h) == h then 1 else 0
  {
    var p := 2 * h;
    var q, r := w / p, w % p;
    assert w == q * p + r;
    Distribute(c, -q, p);
    if r == 0 {
      DivisionIsUnique(c * p - w, p, c - q, 0);
    } else {
      Distribute(c - q, -1, p);
      DivisionIsUnique(c * p - w, p, c - q - 1, p - r);
    }
  }

  /** Y keeps to the sides of the half points next to X. */
  predicate KeepsSides(x: nat, y: nat, h: nat, k: nat) {
    && (x <= (2 * k + 1) * h ==> y <= (2 * k + 1) * h)
    && (x >= (2 * k + 1) * h ==> y >= (2 * k + 1) * h)
    && (k > 0 && x >= (2 * k - 1) * h ==> y >= (2 * k - 1) * h)
    && (k > 0 && x <= (2 * k - 1) * h ==> y <= (2 * k - 1) * h)
  }

  lemma HalfPoint(y: nat, h: nat, k: nat)
    requires h > 0 && y == (2 * k + 1) * h
    ensures y % (2 * h) == h && HalfUp(y, 2 * h) == k + 1
  {
    Twice(k, h);
    DivisionIsUnique(y, 2 * h, k, h);
  }

  lemma HalfOf(n: nat, h: nat)
    requires h > 0 && n % (2 * h) == h
    ensures var k := HalfUp(n, 2 * h); k > 0 && n == (2 * k - 1) * h
  {
    Twice(n / (2 * h) + 1, h);
    Distribute(n / (2 * h), 1, 2 * h);
  }

  lemma LiftedOrNot(x: nat, y: nat, h: nat, k: nat)
    requires h > 0 && KeepsSides(x, y, h, k) && HalfUp(x, 2 * h) == k
    ensures HalfUp(y, 2 * h) == if y == (2 * k + 1) * h then k + 1 else k
  {
    HalfUpIs(x, h, k);
    if y == (2 * k + 1) * h {
      HalfPoint(y, h, k);
    } else {
      HalfUpIs(y, h, k);
    }
  }

  /** Y is at a half above X only by being lifted to it. */
  lemma LiftedIsAbove(x: nat, y: nat, h: nat, k: nat)
    requires h > 0 && KeepsSides(x, y, h, k) && HalfUp(x, 2 * h) == k
    ensures y == (2 * k + 1) * h <==> y % (2 * h) == h && x < y
  {
    HalfUpIs(x, h, k);
    if y == (2 * k + 1) * h {
      HalfPoint(y, h, k);
    } else if y % (2 * h) == h {
      LiftedOrNot(x, y, h, k);
      HalfOf(y, h);
    }
  }

  /** A number that keeps its sides is stored as the exact one, or one more when lifted to a half. */
  lemma LiftIsOne(x: nat, y: nat, h: nat)
    requires h > 0 && KeepsSides(x, y, h, HalfUp(x, 2 * h))
    ensures HalfUp(y, 2 * h) == HalfUp(x, 2 * h) + if y % (2 * h) == h && x < y then 1 else 0
    ensures x % (2 * h) == h ==> y == x
  {
    LiftedOrNot(x, y, h, HalfUp(x, 2 * h));
    LiftedIsAbove(x, y, h, HalfUp(x, 2 * h));
    if x % (2 * h) == h {
      HalfOf(x, h);
    }
  }

  // -------------------------------------------------------------- one booking

  predicate BelowZero(d: Decimal) {
    d.neg && d.coeff > 0
  }

  /** The total read and the new one both fit the column, and the new one is not below zero. */
  predicate Fitting(current: nat, signed: Decimal) {
    var total := NewTotal(current, signed);
    current < LIMIT && !BelowZero(total) && Stored(total) < LIMIT
  }

  lemma NotBelowZero(d: Decimal)
    requires !BelowZero(Fix(d)) && (d.coeff == 0 ==> !d.neg)
    ensures !d.neg
  {
    if |DigitsOf(d.coeff)| > PRECISION {
      LongIsCutAbove(d);
    }
  }

  /** A unit in which the booking's numbers are whole, and half a thousandth too. */
  function UnitOf(signed: Decimal): int {
    if signed.exp < -4 then signed.exp else -4
  }

  /** Half a thousandth in units of 10^u. */
  function Half(u: int): (h: nat)
    requires u < -3
    ensures h > 0
  {
    5 * Pow10(-4 - u)
  }

  lemma HalfTwice(u: int)
    requires u < -3
    ensures Pow10(-3 - u) == 2 * Half(u)
  {
    assert Pow10(-3 - u) == 10 * Pow10(-4 - u);
  }

  /** The exact sum in units, and that it is not below zero. */
  lemma SumInUnits(current: nat, signed: Decimal, u: int)
    requires u <= UnitOf(signed) && !BelowZero(NewTotal(current, signed))
    ensures var exact := ExactSum(current, signed);
            && u <= exact.exp && !exact.neg
            && Scaled(exact, u) == current * (2 * Half(u)) + Units(signed, u)
  {
    var exact := ExactSum(current, signed);
    AddedInUnits(Read(current), signed, u);
    NotBelowZero(exact);
    HalfTwice(u);
  }

  lemma SidesInRange(k: nat)
    requires k <= LIMIT
    ensures (2 * k + 1) * 5 < Pow10(PRECISION)
  {
    Pow10Splits(12, 2);
    Pow10Grows(14, PRECISION);
  }

  lemma SumKeepsSide(d: Decimal, u: int, odd: nat)
    requires u < -3 && u <= d.exp && odd * 5 < Pow10(PRECISION)
    ensures Scaled(d, u) <= odd * Half(u) ==> Scaled(Fix(d), u) <= odd * Half(u)
    ensures Scaled(d, u) >= odd * Half(u) ==> Scaled(Fix(d), u) >= odd * Half(u)
  {
    FixRespects(d, odd * 5, -4, u);
    MulAssoc(odd, 5, Pow10(-4 - u));
  }

  lemma SumKeepsSides(d: Decimal, u: int, k: nat)
    requires u < -3 && u <= d.exp && k <= LIMIT
    ensures KeepsSides(Scaled(d, u), Scaled(Fix(d), u), Half(u), k)
  {
    SidesInRange(k);
    SumKeepsSide(d, u, 2 * k + 1);
    if k > 0 {
      SumKeepsSide(d, u, 2 * k - 1);
    }
  }

  /** A total that fits is the rounding of a sum that fits. */
  lemma SumFits(x: nat, y: nat, h: nat)
    requires h > 0 && KeepsSides(x, y, h, LIMIT) && HalfUp(y, 2 * h) < LIMIT
    ensures HalfUp(x, 2 * h) < LIMIT
  {
    var j, k := HalfUp(y, 2 * h), HalfUp(x, 2 * h);
    HalfUpIs(x, h, k);
    HalfUpIs(y, h, j);
    Odds(j, LIMIT, h);
    if LIMIT < k {
      Odds(LIMIT, k, h);
      Twice(LIMIT, h);
    }
  }

  lemma LiftedInUnits(current: nat, signed: Decimal, u: int)
    requires u <= UnitOf(signed) && u <= ExactSum(current, signed).exp
    ensures var x, y := Scaled(ExactSum(current, signed), u), Scaled(NewTotal(current, signed), u);
            LiftedToHalf(current, signed) <==> y % (2 * Half(u)) == Half(u) && x < y
  {
    var exact, total := ExactSum(current, signed), NewTotal(current, signed);
    HalfTwice(u);
    StoredFromUnits(total, u);
    ScaledFurther(total, exact.exp, u);
    ScaledOrder(Scaled(total, exact.exp), exact.coeff, Pow10(exact.exp - u));
  }

  /** The exact sum, stored. */
  function StoredExactly(current: nat, signed: Decimal): nat {
    StoredSize(ExactSum(current, signed))
  }

  lemma NewTotalIsStored(current: nat, signed: Decimal)
    requires Fitting(current, signed)
    ensures Stored(NewTotal(current, signed))
         == StoredExactly(current, signed) + if LiftedToHalf(current, signed) then 1 else 0
    ensures StoredExactly(current, signed) < LIMIT
    ensures EndsInHalf(ExactSum(current, signed)) ==> !LiftedToHalf(current, signed)
  {
    var exact, u := ExactSum(current, signed), UnitOf(signed);
    SumInUnits(current, signed, u);
    var x, y, h := Scaled(exact, u), Scaled(Fix(exact), u), Half(u);
    HalfTwice(u);
    StoredFromUnits(exact, u);
    StoredFromUnits(Fix(exact), u);
    SumKeepsSides(exact, u, LIMIT);
    SumFits(x, y, h);
    SumKeepsSides(exact, u, HalfUp(x, 2 * h));
    LiftIsOne(x, y, h);
    LiftedInUnits(current, signed, u);
  }

  lemma ExactSumIsStored(current: nat, signed: Decimal)
    requires !BelowZero(NewTotal(current, signed))
    ensures StoredExactly(current, signed)
         == current + Stored(signed) + if HalfWithdrawal(signed) then 1 else 0
    ensures HalfWithdrawal(signed) ==> EndsInHalf(ExactSum(current, signed))
  {
    var exact, u := ExactSum(current, signed), UnitOf(signed);
    SumInUnits(current, signed, u);
    var h, v := Half(u), Scaled(signed, u);
    HalfTwice(u);
    StoredFromUnits(exact, u);
    StoredFromUnits(signed, u);
    BookedInUnits(current, v, signed.neg, Scaled(exact, u), h);
  }

  lemma BookedInUnits(c: nat, v: nat, taken: bool, x: nat, h: nat)
    requires h > 0 && x == c * (2 * h) + if taken then 0 - v else v
    ensures HalfUp(x, 2 * h)
         == c + (if taken then 0 - HalfUp(v, 2 * h) else HalfUp(v, 2 * h)) + if taken && v % (2 * h) == h then 1 else 0
    ensures taken && v % (2 * h) == h ==> x % (2 * h) == h
  {
    if taken {
      TakesAway(c, v, h);
      if v % (2 * h) == h {
        HalfIsKept(c, v, h);
      }
    } else {
      AddsUp(c, v, h);
    }
  }

  lemma HalfIsKept(c: nat, w: nat, h: nat)
    requires h > 0 && w <= c * (2 * h) && w % (2 * h) == h
    ensures (c * (2 * h) - w) % (2 * h) == h
  {
    var q := w / (2 * h);
    assert w == q * (2 * h) + h;
    Distribute(c, -q, 2 * h);
    Distribute(c - q, -1, 2 * h);
    DivisionIsUnique(c * (2 * h) - w, 2 * h, c - q - 1, h);
  }

  /** A booking's stored total is the stored total before, plus the stored movement, plus one thousandth
      exactly when the booking drifts. */
  lemma BookingDrift(current: nat, signed: Decimal)
    requires Fitting(current, signed)
    ensures Stored(NewTotal(current, signed)) == current + Stored(signed) + if Drifts(current, signed) then 1 else 0
    ensures Stored(NewTotal(current, signed)) >= 0
  {
    NewTotalIsStored(current, signed);
    ExactSumIsStored(current, signed);
  }

  /** A withdrawal never raises the stored total. */
  lemma WithdrawalDoesNotGrow(current: nat, signed: Decimal)
    requires current < LIMIT && signed.neg && !BelowZero(NewTotal(current, signed))
    ensures Stored(NewTotal(current, signed)) <= current
  {
    var u := UnitOf(signed);
    SumInUnits(current, signed, u);
    SumAtMost(ExactSum(current, signed), current, u);
  }

  lemma SumAtMost(d: Decimal, c: nat, u: int)
    requires u < -3 && u <= d.exp && c < LIMIT && Scaled(d, u) <= c * (2 * Half(u))
    ensures StoredSize(Fix(d)) <= c
  {
    HalfTwice(u);
    Pow10Grows(12, PRECISION);
    FixRespects(d, c, -3, u);
    AtMost(Scaled(Fix(d), u), c, Half(u));
    StoredFromUnits(Fix(d), u);
  }

  lemma AtMost(n: nat, c: nat, h: nat)
    requires h > 0 && n <= c * (2 * h)
    ensures HalfUp(n, 2 * h) <= c
  {
    HalfUpIs(n, h, HalfUp(n, 2 * h));
    if HalfUp(n, 2 * h) > c {
      Odds(c, HalfUp(n, 2 * h), h);
      Twice(c, h);
    }
  }

  /** Stock is short exactly when more is withdrawn than there is, whatever the rounding. */
  lemma ShortIff(current: nat, signed: Decimal, u: int)
    requires u <= UnitOf(signed)
    ensures BelowZero(NewTotal(current, signed))
            <==> signed.neg && Scaled(signed, u) > current * Pow10(-3 - u)
  {
    var exact := ExactSum(current, signed);
    AddedInUnits(Read(current), signed, u);
    SignOf(exact, u);
    if |DigitsOf(exact.coeff)| > PRECISION {
      LongIsCutAbove(exact);
    }
    assert Units(Read(current), u) == current * Pow10(-3 - u);
  }

  /** What the column stores is the nearest thousandth, a half away from zero, with the sign of the number. */
  lemma StoredIsTheNearest(d: Decimal, u: int)
    requires u < -3 && u <= d.exp
    ensures var size := if Stored(d) < 0 then 0 - Stored(d) else Stored(d);
            && (2 * size - 1) * Pow10(-3 - u) <= 2 * Scaled(d, u) < (2 * size + 1) * Pow10(-3 - u)
            && (Stored(d) > 0 ==> !d.neg) && (Stored(d) < 0 ==> d.neg)
  {
    StoredFromUnits(d, u);
    HalfTwice(u);
    var h := Half(u);
    var k: int := StoredSize(d);
    HalfUpIs(Scaled(d, u), h, k);
    Doubled(2 * k - 1, h);
    Doubled(2 * k + 1, h);
  }

  lemma Doubled(a: int, h: int)
    ensures a * (2 * h) == 2 * (a * h)
  {
  }

  // ------------------------------------------------------------- the guards

  /** With at most 19 decimals no sum that fits the column needs rounding. */
  lemma FewDecimalsAreExact(current: nat, signed: Decimal)
    requires Fitting(current, signed) && signed.exp >= -19
    ensures NewTotal(current, signed) == ExactSum(current, signed) && !LiftedToHalf(current, signed)
  {
    var exact := ExactSum(current, signed);
    SumInUnits(current, signed, -19);
    NewTotalIsStored(current, signed);
    HalfTwice(-19);
    StoredFromUnits(exact, -19);
    SmallSum(Scaled(exact, -19), Half(-19));
    SmallIsKept(exact, -19);
    assert Scaled(exact, exact.exp) == exact.coeff * Pow10(0) == exact.coeff;
  }

  lemma SmallSum(x: nat, h: nat)
    requires 2 * h == Pow10(16) && HalfUp(x, 2 * h) < LIMIT
    ensures x < Pow10(PRECISION)
  {
    var k := HalfUp(x, 2 * h);
    HalfUpIs(x, h, k);
    Twice(k, h);
    MulStep(k, LIMIT, 2 * h);
    Pow10Splits(12, 16);
  }

  // --------------------------------------------------- a receipt that drifts

  /** One unit of 10^-(k+4) less than half a thousandth. */
  function AlmostHalf(k: nat): Decimal {
    Decimal(false, 5 * Pow10(k) - 1, -4 - k)
  }

  lemma TenLessOne(n: nat)
    requires n > 0
    ensures HalfEven(10 * n - 1, 10) == n
  {
    DivisionIsUnique(10 * n - 1, 10, n - 1, 9);
  }

  lemma DigitsAre(n: nat, k: nat)
    requires k > 0 && Pow10(k) <= n < 10 * Pow10(k)
    ensures |DigitsOf(n)| == k + 1
  {
    DigitsBound(n, k);
    DigitsBound(n, k + 1);
  }

  /** A number of 29 digits that ends in a nine, rounded. */
  lemma FixOfNine(n: nat, exp: int)
    requires n < Pow10(PRECISION) < 10 * n
    ensures Fix(Decimal(false, 10 * n - 1, exp)) == Decimal(false, n, exp + 1)
  {
    DigitsAre(10 * n - 1, PRECISION);
    DigitsBound(n, PRECISION);
    TenLessOne(n);
    assert Pow10(1) == 10;
  }

  /** The digits of `c` thousandths and a half, from one place behind it on. */
  function WithHalf(c: nat, k: nat): nat
    requires k > 0
  {
    (10 * c + 5) * Pow10(k - 1)
  }

  lemma WithHalfIsLong(c: nat, n: nat, k: nat)
    requires n > 0 && k > 0 && c >= Pow10(n - 1)
    ensures Pow10(n + k) < 10 * WithHalf(c, k)
  {
    Pow10Splits(n, k);
    MulSwap(10 * c + 5, Pow10(k - 1));
    ScaledOrder(10 * c + 5, Pow10(n), Pow10(k));
  }

  lemma WithHalfIsNotTooLong(c: nat, n: nat, k: nat)
    requires k > 0 && c < Pow10(n)
    ensures WithHalf(c, k) < Pow10(n + k)
  {
    Pow10Splits(n + 1, k - 1);
    ScaledOrder(Pow10(n + 1), 10 * c + 5, Pow10(k - 1));
  }

  lemma WithHalfHas28Digits(c: nat, k: nat)
    requires c > 0 && k > 0 && |DigitsOf(c)| + k == PRECISION
    ensures WithHalf(c, k) < Pow10(PRECISION) < 10 * WithHalf(c, k)
  {
    var n := |DigitsOf(c)|;
    DigitsBound(c, n);
    if n > 1 {
      DigitsBound(c, n - 1);
    }
    WithHalfIsLong(c, n, k);
    WithHalfIsNotTooLong(c, n, k);
  }

  lemma SumOfAlmostHalf(c: nat, k: nat)
    requires c > 0 && k > 0
    ensures ExactSum(c, AlmostHalf(k)) == Decimal(false, 10 * WithHalf(c, k) - 1, -4 - k)
  {
    var p := Pow10(k - 1);
    assert Pow10(k + 1) == 100 * p && Pow10(k) == 10 * p;
    Distribute(10 * c, 5, p);
    assert Scaled(AlmostHalf(k), -4 - k) == 5 * Pow10(k) - 1;
    assert Scaled(Decimal(false, c, -3), -4 - k) == c * Pow10(k + 1) == 100 * (c * p);
    assert 10 * c * p == 10 * (c * p);
  }

  lemma EndsWithHalf(c: nat, k: nat)
    requires k > 0
    ensures var total := Decimal(false, WithHalf(c, k), -3 - k);
            EndsInHalf(total) && Stored(total) == c + 1
  {
    var p := Pow10(k - 1);
    Distribute(10 * c, 5, p);
    assert 10 * c * p == c * (10 * p);
    DivisionIsUnique(WithHalf(c, k), 10 * p, c, 5 * p);
  }

  /** On any stock of at most twelve digits but none, a receipt of almost half a thousandth, with as many
      decimals as bring the sum to 29 digits, raises the stock by a thousandth and books none. */
  lemma ReceiptIsLifted(c: nat, k: nat)
    requires c > 0 && k > 0 && |DigitsOf(c)| + k == PRECISION
    ensures Stored(NewTotal(c, AlmostHalf(k))) == c + 1 && Stored(AlmostHalf(k)) == 0
    ensures LiftedToHalf(c, AlmostHalf(k)) && !NewTotal(c, AlmostHalf(k)).neg
  {
    TotalIsLifted(c, k);
    EndsWithHalf(c, k);
    AlmostNothing(k);
    SumOfAlmostHalf(c, k);
    TenTimes(NewTotal(c, AlmostHalf(k)));
  }

  lemma TotalIsLifted(c: nat, k: nat)
    requires c > 0 && k > 0 && |DigitsOf(c)| + k == PRECISION
    ensures NewTotal(c, AlmostHalf(k)) == Decimal(false, WithHalf(c, k), -3 - k)
  {
    WithHalfHas28Digits(c, k);
    SumOfAlmostHalf(c, k);
    FixOfNine(WithHalf(c, k), -4 - k);
  }

  lemma TenTimes(d: Decimal)
    ensures Scaled(d, d.exp - 1) == 10 * d.coeff
  {
    assert Pow10(1) == 10;
  }

  lemma AlmostNothing(k: nat)
    ensures Stored(AlmostHalf(k)) == 0
  {
    var n, p := 5 * Pow10(k) - 1, Pow10(k + 1);
    DivisionIsUnique(n, p, 0, n);
  }
}
