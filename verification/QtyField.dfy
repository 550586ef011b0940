/** The machine format of a quantity field, which goes through the decimal context's 28 digits, against
    the exporter's number, which does not. */
module QtyField {
  import opened Arith
  import opened DecimalContext
  import opened Digits
  import opened Money
  import opened Numbers
  import opened Wrappers

  /** Without zeros at the end of its digits; every zero becomes 0E0. */
  function Strip(d: Decimal): (s: Decimal)
    ensures s.neg == d.neg && (s.coeff % 10 != 0 || (s.coeff == 0 && s.exp == 0))
    decreases d.coeff
  {
    if d.coeff == 0 then Decimal(d.neg, 0, 0)
    else if d.coeff % 10 == 0 then Strip(Decimal(d.neg, d.coeff / 10, d.exp + 1))
    else d
  }

  /** The text of the field. Quantising a large number to units may fail. */
  function QtyText(d: Decimal): Result<string, DecimalError> {
    var n := Strip(Fix(d));
    if n.exp > 0 && |DigitsOf(n.coeff)| + n.exp > PRECISION then Failure(InvalidOperation)
    else if n.exp > 0 then Success(StripFraction(Plain(Decimal(n.neg, n.coeff * Pow10(n.exp), 0))))
    else Success(StripFraction(Plain(n)))
  }

  /** At most 28 digits, with trailing zeros only counted before the point. */
  predicate Fits(d: Decimal) {
    var s := Strip(d);
    |DigitsOf(s.coeff)| + (if s.exp > 0 then s.exp else 0) <= PRECISION
  }

  lemma {:induction false} StripIsTheSame(d: Decimal)
    ensures SameNumber(d, Strip(d))
    decreases d.coeff
  {
    if d.coeff == 0 {
      var m := if d.exp <= 0 then d.exp else 0;
      SameAtAnyExponent(d, Strip(d), m);
    } else if d.coeff % 10 == 0 {
      var less := Decimal(d.neg, d.coeff / 10, d.exp + 1);
      LessOneZero(d);
      StripIsTheSame(less);
      SameIsTransitive(d, less, Strip(d));
    }
  }

  lemma LessOneZero(d: Decimal)
    requires d.coeff % 10 == 0
    ensures SameNumber(d, Decimal(d.neg, d.coeff / 10, d.exp + 1))
  {
    var less := Decimal(d.neg, d.coeff / 10, d.exp + 1);
    assert Pow10(1) == 10 * Pow10(0) == 10;
    assert Scaled(less, d.exp) == less.coeff * Pow10(1) == d.coeff;
    assert Scaled(d, d.exp) == d.coeff * Pow10(0) == d.coeff;
  }

  lemma StrippedAreEqual(a: Decimal, b: Decimal)
    requires SameNumber(a, b) && a.exp <= b.exp && a.coeff % 10 != 0
    ensures a == b
  {
    assert Scaled(a, a.exp) == a.coeff * Pow10(0) == a.coeff;
    if a.exp < b.exp {
      TenDivides(b.coeff, b.exp - a.exp);
    } else {
      assert Scaled(b, a.exp) == b.coeff * Pow10(0) == b.coeff;
    }
  }

  lemma ZeroIsOnlyZero(a: Decimal, b: Decimal)
    requires SameNumber(a, b) && a.coeff == 0
    ensures b.coeff == 0
  {
    var m := if a.exp <= b.exp then a.exp else b.exp;
    if b.coeff > 0 {
      MulPositive(b.coeff, Pow10(b.exp - m));
    }
  }

  lemma SameStripAlike(a: Decimal, b: Decimal)
    requires SameNumber(a, b)
    ensures Strip(a) == Strip(b)
  {
    var s, t := Strip(a), Strip(b);
    StripIsTheSame(a);
    StripIsTheSame(b);
    SameIsTransitive(s, a, b);
    SameIsTransitive(s, b, t);
    if s.coeff == 0 {
      ZeroIsOnlyZero(s, t);
    } else if t.coeff == 0 {
      ZeroIsOnlyZero(t, s);
    } else if s.exp <= t.exp {
      StrippedAreEqual(s, t);
    } else {
      StrippedAreEqual(t, s);
    }
  }

  /** The field shows the number rounded to 28 digits. */
  lemma QtyIsNumOfTheRounded(d: Decimal)
    requires QtyText(d).Success?
    ensures QtyText(d).value == Num(Fix(d))
  {
    var n := Strip(Fix(d));
    StripIsTheSame(Fix(d));
    PrintsTellNumbersApart(Fix(d), n);
    if n.exp > 0 {
      WholeIsTheSame(n);
      PrintsTellNumbersApart(n, Decimal(n.neg, n.coeff * Pow10(n.exp), 0));
    }
  }

  lemma WholeIsTheSame(n: Decimal)
    requires n.exp > 0
    ensures SameNumber(n, Decimal(n.neg, n.coeff * Pow10(n.exp), 0))
  {
    var whole := Decimal(n.neg, n.coeff * Pow10(n.exp), 0);
    assert Scaled(whole, 0) == whole.coeff * Pow10(0) == whole.coeff;
  }

  lemma TenfoldRemainder(m: nat, p: nat)
    requires p > 0
    ensures (10 * m) % (10 * p) == 10 * (m % p)
  {
    var q, r := m / p, m % p;
    assert 10 * m == q * (10 * p) + 10 * r by {
      TimesTen(q, p);
    }
    DivisionIsUnique(10 * m, 10 * p, q, 10 * r);
  }

  lemma {:induction false} StripIsNotLonger(d: Decimal)
    ensures |DigitsOf(Strip(d).coeff)| <= |DigitsOf(d.coeff)|
    decreases d.coeff
  {
    if d.coeff != 0 && d.coeff % 10 == 0 {
      StripIsNotLonger(Decimal(d.neg, d.coeff / 10, d.exp + 1));
    }
  }

  /** Of more than `k` digits those beyond the k-th are zeros exactly when at most `k` are left without
      trailing zeros. */
  lemma {:induction false} DroppedAreZeros(d: Decimal, drop: nat, k: nat)
    requires drop > 0 && k > 0 && |DigitsOf(d.coeff)| == k + drop
    ensures d.coeff % Pow10(drop) == 0 <==> |DigitsOf(Strip(d).coeff)| <= k
    decreases drop
  {
    var p := Pow10(drop - 1);
    assert Pow10(drop) == 10 * p;
    if d.coeff % 10 == 0 {
      var less := Decimal(d.neg, d.coeff / 10, d.exp + 1);
      TenfoldRemainder(less.coeff, p);
      assert |DigitsOf(less.coeff)| == k + drop - 1;
      assert Strip(d) == Strip(less);
      if drop == 1 {
        StripIsNotLonger(less);
      } else {
        DroppedAreZeros(less, drop - 1, k);
      }
    } else {
      assert Strip(d) == d;
      MultipleOfTen(d.coeff, p);
    }
  }

  lemma TensLeaveADigit(n: nat, s: nat, r: nat)
    requires n == 10 * s + r && n % 10 != 0
    ensures r != 0
  {
  }

  lemma RestOfTens(n: nat, q: nat, p: nat, r: nat)
    requires n == q * (10 * p) + r && n % 10 != 0
    ensures r != 0
  {
    TimesTen(q, p);
    MulAssoc(10, q, p);
    TensLeaveADigit(n, q * p, r);
  }

  lemma MultipleOfTen(n: nat, p: nat)
    requires p > 0 && n % 10 != 0
    ensures n % (10 * p) != 0
  {
    RestOfTens(n, n / (10 * p), p, n % (10 * p));
  }

  /** Rounding changes nothing exactly when at most 28 significant digits were there. */
  lemma RoundingIsExact(d: Decimal)
    ensures SameNumber(Fix(d), d) <==> |DigitsOf(Strip(d).coeff)| <= PRECISION
  {
    var length := |DigitsOf(d.coeff)|;
    if length <= PRECISION {
      StripIsNotLonger(d);
    } else {
      var drop := length - PRECISION;
      var c := HalfEven(d.coeff, Pow10(drop));
      var cut := Decimal(d.neg, c, d.exp + drop);
      HalfEvenIsExact(d.coeff, Pow10(drop));
      DroppedAreZeros(d, drop, PRECISION);
      assert Scaled(d, d.exp) == d.coeff * Pow10(0) == d.coeff;
      assert SameNumber(cut, d) <==> c * Pow10(drop) == d.coeff;
      if |DigitsOf(c)| > PRECISION {
        CarryIsAPower(d.coeff, drop, PRECISION);
        LessOneZero(cut);
        if SameNumber(cut, d) {
          SameIsTransitive(Fix(d), cut, d);
        } else if SameNumber(Fix(d), d) {
          SameIsTransitive(cut, Fix(d), d);
        }
      }
    }
  }

  /** The field shows the exporter's number exactly when that has at most 28 digits, those of its whole
      part included. */
  lemma FieldAgreesWithTheExport(d: Decimal)
    ensures QtyText(d) == Success(Num(d)) <==> Fits(d)
  {
    RoundingIsExact(d);
    if SameNumber(Fix(d), d) {
      SameStripAlike(Fix(d), d);
      PrintsTellNumbersApart(Fix(d), d);
      if QtyText(d).Success? {
        QtyIsNumOfTheRounded(d);
      }
    } else if QtyText(d).Success? {
      QtyIsNumOfTheRounded(d);
      PrintsTellNumbersApart(Fix(d), d);
    }
  }

  /** Such a number: 1E+30 prints, but the field raises. */
  lemma HugeQuantityRaises()
    ensures QtyText(Decimal(false, 1, 30)) == Failure(InvalidOperation)
    ensures !Fits(Decimal(false, 1, 30))
  {
    assert Fix(Decimal(false, 1, 30)) == Decimal(false, 1, 30);
  }

  /** A column of at most 28 digits, all after no or some point, always agrees. */
  lemma ColumnsAgree(d: Decimal)
    requires d.coeff < Pow10(PRECISION) && d.exp <= 0
    ensures QtyText(d) == Success(Num(d))
  {
    DigitsBound(d.coeff, PRECISION);
    FieldAgreesWithTheExport(d);
    StripFits(d);
  }

  lemma {:induction false} StripFits(d: Decimal)
    requires |DigitsOf(d.coeff)| + (if d.exp > 0 then d.exp else 0) <= PRECISION
    ensures Fits(d)
    decreases d.coeff
  {
    if d.coeff != 0 && d.coeff % 10 == 0 {
      StripFits(Decimal(d.neg, d.coeff / 10, d.exp + 1));
    }
  }
}
