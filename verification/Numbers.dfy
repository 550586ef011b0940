/** Plain decimal strings: the exporter's numbers and the machine format of quantity fields. */
module Numbers {
  import opened Arith
  import opened Digits
  import opened Money

  // ------------------------------------------------------------ equal values

  /** The digits of `d` when its exponent is lowered to `m`. */
  function Scaled(d: Decimal, m: int): nat
    requires m <= d.exp
  {
    d.coeff * Pow10(d.exp - m)
  }

  /** Same value and same sign: zero keeps its sign. */
  predicate SameNumber(a: Decimal, b: Decimal) {
    var m := if a.exp <= b.exp then a.exp else b.exp;
    a.neg == b.neg && Scaled(a, m) == Scaled(b, m)
  }

  lemma ScaledFurther(d: Decimal, m: int, n: int)
    requires n <= m <= d.exp
    ensures Scaled(d, n) == Scaled(d, m) * Pow10(m - n)
  {
    Pow10Splits(d.exp - m, m - n);
    MulAssoc(d.coeff, Pow10(d.exp - m), Pow10(m - n));
  }

  lemma CancelFactor(a: nat, b: nat, p: nat)
    requires p > 0 && a * p == b * p
    ensures a == b
  {
    DivisionIsUnique(a * p, p, a, 0);
    DivisionIsUnique(b * p, p, b, 0);
  }

  /** Equality can be seen at any common exponent. */
  lemma SameAtAnyExponent(a: Decimal, b: Decimal, n: int)
    requires n <= a.exp && n <= b.exp
    ensures SameNumber(a, b) <==> a.neg == b.neg && Scaled(a, n) == Scaled(b, n)
  {
    var m := if a.exp <= b.exp then a.exp else b.exp;
    ScaledFurther(a, m, n);
    ScaledFurther(b, m, n);
    if Scaled(a, n) == Scaled(b, n) {
      CancelFactor(Scaled(a, m), Scaled(b, m), Pow10(m - n));
    }
  }

  lemma SameIsTransitive(a: Decimal, b: Decimal, c: Decimal)
    requires SameNumber(a, b) && SameNumber(b, c)
    ensures SameNumber(a, c)
  {
    var m := if a.exp <= b.exp then a.exp else b.exp;
    var n := if m <= c.exp then m else c.exp;
    SameAtAnyExponent(a, b, n);
    SameAtAnyExponent(b, c, n);
    SameAtAnyExponent(a, c, n);
  }

  // ---------------------------------------------------------------- printing

  /** The plain notation, format "f": never an exponent, at least one digit before the point. */
  function Plain(d: Decimal): string {
    (if d.neg then "-" else "") + Unsigned(d.coeff, d.exp)
  }

  function Unsigned(coeff: nat, exp: int): string {
    if exp < 0 then Fractional(coeff, 0 - exp)
    else if coeff == 0 then "0"
    else DigitsOf(coeff) + Zeros(exp)
  }

  function Fractional(coeff: nat, k: nat): string {
    Pointed(Pad(coeff, k + 1), k)
  }

  /** `s` with a point before its last `k` characters. */
  function Pointed(s: string, k: nat): string
    requires k <= |s|
  {
    s[..|s| - k] + ("." + s[|s| - k..])
  }

  function StripEnd(s: string, c: char): string {
    if s != "" && s[|s| - 1] == c then StripEnd(s[..|s| - 1], c) else s
  }

  function StripFraction(text: string): string {
    var stripped := if '.' in text then StripEnd(StripEnd(text, '0'), '.') else text;
    if stripped == "" then "0" else stripped
  }

  /** The exporter's number. */
  function Num(d: Decimal): string {
    StripFraction(Plain(d))
  }

  /** The same number with an exponent of at most zero and no zero at the end of its fraction. */
  function Reduce(d: Decimal): (r: Decimal)
    ensures r.exp <= 0 && (r.exp < 0 ==> r.coeff % 10 != 0)
    decreases if d.exp < 0 then 0 - d.exp else 0
  {
    if d.exp >= 0 then Decimal(d.neg, d.coeff * Pow10(d.exp), 0)
    else if d.coeff % 10 == 0 then Reduce(Decimal(d.neg, d.coeff / 10, d.exp + 1))
    else d
  }

  lemma {:induction false} ReduceIsTheSame(d: Decimal)
    ensures SameNumber(d, Reduce(d))
    decreases if d.exp < 0 then 0 - d.exp else 0
  {
    if d.exp >= 0 {
      SameAtAnyExponent(d, Reduce(d), 0);
    } else if d.coeff % 10 == 0 {
      var less := Decimal(d.neg, d.coeff / 10, d.exp + 1);
      assert Scaled(less, d.exp) == less.coeff * Pow10(1) == d.coeff;
      SameAtAnyExponent(d, less, d.exp);
      ReduceIsTheSame(less);
      SameIsTransitive(d, less, Reduce(d));
    }
  }

  lemma TenDivides(n: nat, k: nat)
    requires k > 0
    ensures (n * Pow10(k)) % 10 == 0
  {
    MulSwap(n, Pow10(k - 1));
  }

  /** The reduced form is unique. */
  lemma ReducedAreEqual(a: Decimal, b: Decimal)
    requires SameNumber(a, b) && a.exp <= b.exp <= 0 && (a.exp < 0 ==> a.coeff % 10 != 0)
    ensures a == b
  {
    if a.exp < b.exp {
      TenDivides(b.coeff, b.exp - a.exp);
    }
  }

  lemma SameReduceAlike(a: Decimal, b: Decimal)
    requires SameNumber(a, b)
    ensures Reduce(a) == Reduce(b)
  {
    ReduceIsTheSame(a);
    ReduceIsTheSame(b);
    SameIsTransitive(Reduce(a), a, b);
    SameIsTransitive(Reduce(a), b, Reduce(b));
    if Reduce(a).exp <= Reduce(b).exp {
      ReducedAreEqual(Reduce(a), Reduce(b));
    } else {
      ReducedAreEqual(Reduce(b), Reduce(a));
    }
  }

  lemma PadStep(n: nat, width: nat)
    requires width > 0
    ensures Pad(n, width + 1) == Pad(n / 10, width) + [DigitChar(n % 10)]
  {
    if n < 10 {
      assert Zeros(width) == Zeros(width - 1) + "0";
    } else if |DigitsOf(n)| <= width {
      var k := width - |DigitsOf(n / 10)|;
      assert Zeros(k) + (DigitsOf(n / 10) + [DigitChar(n % 10)]) == Zeros(k) + DigitsOf(n / 10) + [DigitChar(n % 10)];
    }
  }

  lemma {:induction false} DigitsOfMultiple(n: nat, k: nat)
    requires n > 0
    ensures DigitsOf(n * Pow10(k)) == DigitsOf(n) + Zeros(k)
  {
    if k > 0 {
      DigitsOfMultiple(n, k - 1);
      MulSwap(n, Pow10(k - 1));
      var m := n * Pow10(k - 1);
      MulPositive(n, Pow10(k - 1));
      assert n * Pow10(k) == 10 * m;
      assert DigitsOf(10 * m) == DigitsOf(m) + "0";
      assert DigitsOf(n) + Zeros(k - 1) + "0" == DigitsOf(n) + Zeros(k);
    } else {
      assert n * Pow10(0) == n;
      assert DigitsOf(n) + Zeros(0) == DigitsOf(n);
    }
  }

  lemma MulPositive(a: nat, b: nat)
    requires a > 0 && b > 0
    ensures a * b > 0
  {
  }

  // The text of a decimal with a fraction: sign, whole digits, point, fraction digits.

  lemma PointedEnds(sign: string, s: string, k: nat)
    requires 0 < k <= |s|
    ensures var t := sign + Pointed(s, k); '.' in t && |t| >= 2 && t[|t| - 1] == s[|s| - 1]
  {
    var u := Pointed(s, k);
    assert u[|s| - k] == '.' && u[|u| - 1] == s[|s| - 1];
    assert (sign + u)[|sign| + |s| - k] == '.';
  }

  lemma PadEnds(n: nat, width: nat)
    requires width > 0
    ensures var s := Pad(n, width + 1); s[|s| - 1] == DigitChar(n % 10)
  {
    PadStep(n, width);
  }

  lemma PointedText(d: Decimal)
    requires d.exp < 0
    ensures var t := Plain(d); '.' in t && |t| >= 2 && t[|t| - 1] == DigitChar(d.coeff % 10)
  {
    var k := 0 - d.exp;
    PadEnds(d.coeff, k);
    var s := Pad(d.coeff, k + 1);
    PointedEnds(if d.neg then "-" else "", s, k);
    assert Unsigned(d.coeff, d.exp) == Pointed(s, k);
  }

  lemma PointedAppend(s: string, k: nat, c: char)
    requires k <= |s|
    ensures Pointed(s + [c], k + 1) == Pointed(s, k) + [c]
  {
    assert (s + [c])[|s| - k..] == s[|s| - k..] + [c];
    assert (s + [c])[..|s| - k] == s[..|s| - k];
  }

  lemma PadTenfold(tenth: nat, width: nat)
    requires width > 0
    ensures Pad(10 * tenth, width + 1) == Pad(tenth, width) + "0"
  {
    PadStep(10 * tenth, width);
  }

  lemma FractionalDropsZero(tenth: nat, k: nat)
    requires k > 1
    ensures Fractional(10 * tenth, k) == Fractional(tenth, k - 1) + "0"
  {
    PadTenfold(tenth, k);
    PointedAppend(Pad(tenth, k), k - 1, '0');
  }

  /** Printing one zero less at the end of the fraction. */
  lemma DropZero(neg: bool, tenth: nat, k: nat)
    requires k > 1
    ensures Plain(Decimal(neg, 10 * tenth, 0 - k)) == Plain(Decimal(neg, tenth, 1 - k)) + "0"
  {
    FractionalDropsZero(tenth, k);
    ConcatAssoc(if neg then "-" else "", Fractional(tenth, k - 1), "0");
  }

  lemma ConcatAssoc(a: string, b: string, c: string)
    ensures a + (b + c) == a + b + c
  {
  }

  lemma WholeDigits(n: nat)
    ensures Unsigned(n, 0) == DigitsOf(n)
  {
    assert DigitsOf(n) + Zeros(0) == DigitsOf(n);
  }

  lemma FractionalDropsPoint(tenth: nat)
    ensures Fractional(10 * tenth, 1) == DigitsOf(tenth) + ".0"
  {
    var s := DigitsOf(tenth);
    PadTenfold(tenth, 1);
    assert Pointed(s + "0", 1) == s + ".0";
  }

  lemma DropPoint(neg: bool, tenth: nat)
    ensures Plain(Decimal(neg, 10 * tenth, -1)) == Plain(Decimal(neg, tenth, 0)) + ".0"
  {
    FractionalDropsPoint(tenth);
    WholeDigits(tenth);
    ConcatAssoc(if neg then "-" else "", DigitsOf(tenth), ".0");
  }

  lemma WholeText(neg: bool, n: nat)
    ensures var t := Plain(Decimal(neg, n, 0));
      '.' !in t && t != "" && IsDigit(t[|t| - 1])
  {
    assert DigitsOf(n) + Zeros(0) == DigitsOf(n);
    assert Unsigned(n, 0) == DigitsOf(n);
    forall i | 0 <= i < |DigitsOf(n)| ensures DigitsOf(n)[i] != '.' {
      assert IsDigit(DigitsOf(n)[i]);
    }
  }

  lemma StripDropZero(t: string)
    requires '.' in t
    ensures StripFraction(t + "0") == StripFraction(t)
  {
    assert (t + "0")[..|t|] == t;
    assert '.' in t + "0";
  }

  lemma StripDropPoint(t: string)
    requires '.' !in t && t != "" && IsDigit(t[|t| - 1])
    ensures StripFraction(t + ".0") == t == StripFraction(t)
  {
    var dotted := t + ".";
    assert (t + ".0")[..|t| + 1] == dotted && dotted[..|t|] == t;
    assert StripEnd(t + ".0", '0') == StripEnd(dotted, '0') == dotted;
    assert StripEnd(dotted, '.') == StripEnd(t, '.') == t;
    assert (t + ".0")[|t|] == '.';
  }

  lemma WholeIsReduced(d: Decimal)
    requires d.exp >= 0
    ensures Num(d) == Plain(Reduce(d))
  {
    if d.coeff > 0 {
      DigitsOfMultiple(d.coeff, d.exp);
      MulPositive(d.coeff, Pow10(d.exp));
      assert DigitsOf(d.coeff) + Zeros(d.exp) + Zeros(0) == DigitsOf(d.coeff) + Zeros(d.exp);
    }
    assert Plain(d) == Plain(Reduce(d));
    WholeText(d.neg, Reduce(d).coeff);
  }

  lemma NothingToStrip(t: string)
    requires t != "" && t[|t| - 1] != '0' && t[|t| - 1] != '.'
    ensures StripFraction(t) == t
  {
  }

  lemma FractionIsKept(d: Decimal)
    requires d.exp < 0 && d.coeff % 10 != 0
    ensures Num(d) == Plain(d)
  {
    PointedText(d);
    NothingToStrip(Plain(d));
  }

  lemma PlainHasPoint(neg: bool, coeff: nat, k: nat)
    requires k > 0
    ensures '.' in Plain(Decimal(neg, coeff, 0 - k))
  {
    PointedText(Decimal(neg, coeff, 0 - k));
  }

  lemma NumDropsZero(neg: bool, tenth: nat, k: nat)
    requires k > 0
    ensures Num(Decimal(neg, 10 * tenth, 0 - k)) == Num(Decimal(neg, tenth, 1 - k))
  {
    if k == 1 {
      DropPoint(neg, tenth);
      WholeText(neg, tenth);
      StripDropPoint(Plain(Decimal(neg, tenth, 0)));
    } else {
      DropZero(neg, tenth, k);
      PlainHasPoint(neg, tenth, k - 1);
      StripDropZero(Plain(Decimal(neg, tenth, 1 - k)));
    }
  }

  lemma NumOneStep(d: Decimal, less: Decimal)
    requires d.exp < 0 && d.coeff == 10 * less.coeff && less.neg == d.neg && less.exp == d.exp + 1
    ensures Num(d) == Num(less)
  {
    NumDropsZero(d.neg, less.coeff, 0 - d.exp);
    assert d == Decimal(d.neg, 10 * less.coeff, 0 - (0 - d.exp));
    assert less == Decimal(d.neg, less.coeff, 1 - (0 - d.exp));
  }

  /** Stripping zeros off the text is reducing the number. */
  lemma {:induction false} NumIsReduced(d: Decimal)
    ensures Num(d) == Plain(Reduce(d))
    decreases if d.exp < 0 then 0 - d.exp else 0
  {
    if d.exp >= 0 {
      WholeIsReduced(d);
    } else if d.coeff % 10 != 0 {
      FractionIsKept(d);
    } else {
      var less := Decimal(d.neg, d.coeff / 10, d.exp + 1);
      NumOneStep(d, less);
      NumIsReduced(less);
    }
  }

  // ------------------------------------------------------------ reading back

  /** The place of the first point from `i` on, or the length when there is none. */
  function PointFrom(s: string, i: nat): (p: nat)
    requires i <= |s|
    ensures i <= p <= |s|
    decreases |s| - i
  {
    if i == |s| || s[i] == '.' then i else PointFrom(s, i + 1)
  }

  function ReadUnsigned(s: string): (nat, int) {
    ReadAround(s, PointFrom(s, 0))
  }

  function ReadAround(s: string, p: nat): (nat, int)
    requires p <= |s|
  {
    if p == |s| then (Value(s), 0) else (Value(s[..p] + s[p + 1..]), p + 1 - |s|)
  }

  /** Reads a plain decimal. */
  function ReadNum(s: string): Decimal {
    if s != "" && s[0] == '-' then var (c, e) := ReadUnsigned(s[1..]); Decimal(true, c, e)
    else var (c, e) := ReadUnsigned(s); Decimal(false, c, e)
  }

  lemma {:induction false} PointIsThere(s: string, i: nat, p: nat)
    requires i <= p <= |s| && (p < |s| ==> s[p] == '.')
    requires forall j | i <= j < p :: s[j] != '.'
    ensures PointFrom(s, i) == p
    decreases p - i
  {
    if i < p {
      PointIsThere(s, i + 1, p);
    }
  }

  lemma PointAfterDigits(head: string, tail: string)
    requires AllDigits(head) && (tail == "" || tail[0] == '.')
    ensures PointFrom(head + tail, 0) == |head|
  {
    var t := head + tail;
    assert forall j | 0 <= j < |head| :: t[j] == head[j] && IsDigit(head[j]);
    PointIsThere(t, 0, |head|);
  }

  lemma ReadAroundPoint(head: string, tail: string)
    ensures ReadAround(head + ("." + tail), |head|) == (Value(head + tail), 0 - |tail|)
  {
    var t := head + ("." + tail);
    assert t[..|head|] == head && t[|head| + 1..] == tail;
  }

  lemma AllDigitsBefore(s: string, n: nat)
    requires AllDigits(s) && n <= |s|
    ensures AllDigits(s[..n])
  {
  }

  lemma PartsReadBack(head: string, tail: string)
    requires AllDigits(head)
    ensures ReadUnsigned(head + ("." + tail)) == (Value(head + tail), 0 - |tail|)
  {
    var rest := "." + tail;
    assert rest != "" && rest[0] == '.';
    PointAfterDigits(head, rest);
    ReadAroundPoint(head, tail);
  }

  lemma SplitAt(s: string, n: nat)
    requires n <= |s|
    ensures s[..n] + s[n..] == s
  {
  }

  lemma PointedOfParts(head: string, tail: string)
    ensures Pointed(head + tail, |tail|) == head + ("." + tail)
  {
    var s := head + tail;
    assert s[..|head|] == head && s[|head|..] == tail;
  }

  lemma PointedReadsBack(s: string, k: nat)
    requires k <= |s| && AllDigits(s[..|s| - k])
    ensures ReadUnsigned(Pointed(s, k)) == (Value(s), 0 - k)
  {
    var head, tail := s[..|s| - k], s[|s| - k..];
    assert s == head + tail by {
      SplitAt(s, |s| - k);
    }
    PartsReadBack(head, tail);
    PointedOfParts(head, tail);
  }

  lemma PointedStarts(s: string, k: nat)
    requires AllDigits(s) && 0 < k < |s|
    ensures Pointed(s, k) != "" && Pointed(s, k)[0] != '-'
  {
    assert Pointed(s, k)[0] == s[0] && IsDigit(s[0]);
  }

  lemma DigitsReadAsWhole(s: string)
    requires AllDigits(s) && s != ""
    ensures ReadUnsigned(s) == (Value(s), 0) && s[0] != '-'
  {
    PointAfterDigits(s, "");
    assert s + "" == s;
    assert IsDigit(s[0]);
  }

  lemma FractionalReadsBack(n: nat, k: nat)
    requires k > 0
    ensures var t := Fractional(n, k); ReadUnsigned(t) == (n, 0 - k) && t != "" && t[0] != '-'
  {
    var s := Pad(n, k + 1);
    AllDigitsBefore(s, |s| - k);
    PointedReadsBack(s, k);
    PointedStarts(s, k);
    PadReadsBack(n, k + 1);
  }

  lemma UnsignedReadsBack(coeff: nat, exp: int)
    requires exp <= 0
    ensures var t := Unsigned(coeff, exp); ReadUnsigned(t) == (coeff, exp) && t != "" && t[0] != '-'
  {
    if exp == 0 {
      WholeDigits(coeff);
      DigitsReadAsWhole(DigitsOf(coeff));
      DigitsReadBack(coeff);
    } else {
      FractionalReadsBack(coeff, 0 - exp);
    }
  }

  lemma SignReadsBackAs(neg: bool, s: string)
    requires s != "" && s[0] != '-'
    ensures var (c, e) := ReadUnsigned(s); ReadNum((if neg then "-" else "") + s) == Decimal(neg, c, e)
  {
    assert "" + s == s && ("-" + s)[1..] == s;
  }

  lemma PlainReadsBack(d: Decimal)
    requires d.exp <= 0
    ensures ReadNum(Plain(d)) == d
  {
    UnsignedReadsBack(d.coeff, d.exp);
    SignReadsBackAs(d.neg, Unsigned(d.coeff, d.exp));
  }

  /** Every finite decimal is read back from its print, value and sign. */
  lemma NumReadsBack(d: Decimal)
    ensures SameNumber(d, ReadNum(Num(d)))
  {
    NumIsReduced(d);
    PlainReadsBack(Reduce(d));
    ReduceIsTheSame(d);
  }

  /** Two decimals print alike exactly when they are the same number, whatever their trailing zeros. */
  lemma PrintsTellNumbersApart(a: Decimal, b: Decimal)
    ensures Num(a) == Num(b) <==> SameNumber(a, b)
  {
    NumIsReduced(a);
    NumIsReduced(b);
    if SameNumber(a, b) {
      SameReduceAlike(a, b);
    } else if Num(a) == Num(b) {
      NumReadsBack(a);
      NumReadsBack(b);
      SameIsTransitive(a, ReadNum(Num(a)), b);
    }
  }

  // ------------------------------------------------------------------- shape

  /** Digits, with one zero before the point only when nothing else is there. */
  predicate NoPadding(s: string) {
    s != "" && IsDigit(s[0]) && (s[0] == '0' && |s| > 1 ==> s[1] == '.')
  }

  /** The fraction, if there is a point, ends in another digit than zero. */
  predicate NoZeroAtTheEnd(s: string) {
    '.' in s ==> IsDigit(s[|s| - 1]) && s[|s| - 1] != '0'
  }

  lemma FractionalHasNoPadding(n: nat, k: nat)
    requires k > 0
    ensures NoPadding(Fractional(n, k))
  {
    var s, t := Pad(n, k + 1), Fractional(n, k);
    assert t[0] == s[0] && IsDigit(s[0]);
    if |DigitsOf(n)| <= k + 1 {
      assert t[1] == '.';
    } else {
      NoLeadingZero(n);
    }
  }

  lemma UnsignedHasNoPadding(coeff: nat, exp: int)
    requires exp <= 0
    ensures NoPadding(Unsigned(coeff, exp))
  {
    if exp < 0 {
      FractionalHasNoPadding(coeff, 0 - exp);
    } else {
      WholeDigits(coeff);
      assert IsDigit(DigitsOf(coeff)[0]);
      if coeff > 0 {
        NoLeadingZero(coeff);
      }
    }
  }

  lemma SignedHasNoPadding(neg: bool, s: string)
    requires NoPadding(s)
    ensures var t := (if neg then "-" else "") + s;
      (neg ==> t != "" && t[0] == '-' && NoPadding(t[1..])) && (!neg ==> NoPadding(t))
  {
    assert ("-" + s)[1..] == s && "" + s == s;
  }

  lemma ReducedHasNoZeroAtTheEnd(r: Decimal)
    requires r.exp <= 0 && (r.exp < 0 ==> r.coeff % 10 != 0)
    ensures NoZeroAtTheEnd(Plain(r))
  {
    if r.exp < 0 {
      PointedText(r);
    } else {
      WholeText(r.neg, r.coeff);
    }
  }

  lemma ReduceKeepsTheSign(d: Decimal)
    ensures Reduce(d).neg == d.neg
  {
    ReduceIsTheSame(d);
  }

  /** A number is printed without needless zeros at either end. */
  lemma NumIsTidy(d: Decimal)
    ensures var t := Num(d);
      && NoZeroAtTheEnd(t)
      && (d.neg ==> t != "" && t[0] == '-' && NoPadding(t[1..]))
      && (!d.neg ==> NoPadding(t))
  {
    var r := Reduce(d);
    NumIsReduced(d);
    ReduceKeepsTheSign(d);
    UnsignedHasNoPadding(r.coeff, r.exp);
    SignedHasNoPadding(d.neg, Unsigned(r.coeff, r.exp));
    ReducedHasNoZeroAtTheEnd(r);
  }
}
