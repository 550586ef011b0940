/** How amounts of money are printed, and how the printed text is read back. */
module Money {
  import opened Arith
  import opened Digits
  import opened Wrappers

  const DASH := "—"

  function UpperChar(c: char): char {
    if 'a' <= c <= 'z' then c - 32 as char else c
  }

  function Upper(s: string): string {
    seq(|s|, i requires 0 <= i < |s| => UpperChar(s[i]))
  }

  function Symbol(currency: string): string {
    var code := if currency == "" then "CZK" else Upper(currency);
    match code
    case "CZK" => "Kč"
    case "EUR" => "€"
    case "USD" => "$"
    case _ => code
  }

  function Cents(fraction: nat): string {
    if fraction != 0 then "," + Pad(fraction, 2) else ""
  }

  /** Sign, grouped whole units, and the cents when there are any. */
  function Amount(negative: bool, whole: nat, fraction: nat): string {
    (if negative then "-" else "") + (Group(DigitsOf(whole)) + Cents(fraction))
  }

  function AmountOf(c: int): string {
    var size := if c < 0 then -c else c;
    Amount(c < 0, size / 100, size % 100)
  }

  function Tagged(amount: string, symbol: string): string {
    amount + " " + symbol
  }

  function MoneyText(cents: Option<int>, currency: string): string {
    match cents
    case None => DASH
    case Some(c) => Tagged(AmountOf(c), Symbol(currency))
  }

  /** Capitals, by code. */
  lemma UpperByCode(c: char)
    ensures UpperChar(c) as int == if 97 <= c as int <= 122 then c as int - 32 else c as int
  {
  }

  /** The crown, the euro and the dollar have symbols, no currency means crowns, and any other prints its code. */
  lemma Symbols(currency: string)
    ensures currency == "" || Upper(currency) == "CZK" ==> Symbol(currency) == "Kč"
    ensures Upper(currency) == "EUR" ==> Symbol(currency) == "€"
    ensures Upper(currency) == "USD" ==> Symbol(currency) == "$"
    ensures currency != "" && Upper(currency) !in {"CZK", "EUR", "USD"} ==> Symbol(currency) == Upper(currency)
  {
  }

  /** Amount and symbol are a space apart, and a missing amount is a dash. */
  lemma TextsAreTagged(c: int, currency: string)
    ensures MoneyText(Some(c), currency) == AmountOf(c) + " " + Symbol(currency) && MoneyText(None, currency) == "—"
  {
  }

  // ------------------------------------------------------------ reading back

  /** The text before the two cents, if there are cents: the third character from the end is a comma. */
  predicate HasCents(s: string) {
    |s| > 3 && s[|s| - 3] == ','
  }

  function ReadSize(s: string): nat {
    if HasCents(s) then 100 * Value(NoSpaces(s[..|s| - 3])) + Value(s[|s| - 2..])
    else 100 * Value(NoSpaces(s))
  }

  function ReadAmount(s: string): int {
    if s != "" && s[0] == '-' then 0 - ReadSize(s[1..]) else ReadSize(s)
  }

  function ReadTagged(s: string, symbol: string): Option<int> {
    if |s| <= |symbol| then None else Some(ReadAmount(s[..|s| - |symbol| - 1]))
  }

  /** Reads a price printed in `currency`. */
  function ReadMoney(s: string, currency: string): Option<int> {
    ReadTagged(s, Symbol(currency))
  }

  lemma CentsHaveTwoDigits(fraction: nat)
    requires fraction < 100
    ensures |Pad(fraction, 2)| == 2
  {
    DigitsBound(fraction, 2);
    assert Pow10(2) == 100;
  }

  lemma WholeReadsBack(head: string)
    requires forall i | 0 <= i < |head| :: head[i] != ','
    ensures ReadSize(head) == 100 * Value(NoSpaces(head))
  {
  }

  lemma CentsReadBack(head: string, cents: string)
    requires head != "" && |cents| == 2
    ensures ReadSize(head + ("," + cents)) == 100 * Value(NoSpaces(head)) + Value(cents)
  {
    var s := head + ("," + cents);
    assert s[..|s| - 3] == head && s[|s| - 2..] == cents;
  }

  lemma SizeReadsBack(whole: nat, fraction: nat)
    requires fraction < 100
    ensures ReadSize(Group(DigitsOf(whole)) + Cents(fraction)) == 100 * whole + fraction
  {
    var head := Group(DigitsOf(whole));
    GroupIsPlain(DigitsOf(whole));
    assert Value(NoSpaces(head)) == whole by {
      UngroupGroup(DigitsOf(whole));
      DigitsReadBack(whole);
    }
    if fraction == 0 {
      assert head + "" == head;
      WholeReadsBack(head);
    } else {
      CentsHaveTwoDigits(fraction);
      PadReadsBack(fraction, 2);
      CentsReadBack(head, Pad(fraction, 2));
    }
  }

  lemma SignReadsBack(negative: bool, size: string)
    requires size != "" && size[0] != '-'
    ensures ReadAmount((if negative then "-" else "") + size) == if negative then 0 - ReadSize(size) else ReadSize(size)
  {
    if negative {
      assert ("-" + size)[1..] == size;
    } else {
      assert "" + size == size;
    }
  }

  lemma AmountReadsBack(negative: bool, whole: nat, fraction: nat)
    requires fraction < 100
    ensures ReadAmount(Amount(negative, whole, fraction))
         == if negative then 0 - (100 * whole + fraction) else 100 * whole + fraction
  {
    SizeReadsBack(whole, fraction);
    GroupIsPlain(DigitsOf(whole));
    SignReadsBack(negative, Group(DigitsOf(whole)) + Cents(fraction));
  }

  lemma TaggedReadsBack(amount: string, symbol: string)
    ensures ReadTagged(Tagged(amount, symbol), symbol) == Some(ReadAmount(amount))
  {
    var s := Tagged(amount, symbol);
    assert s[..|s| - |symbol| - 1] == amount;
  }

  lemma AmountOfReadsBack(c: int)
    ensures ReadAmount(AmountOf(c)) == c
  {
    var size := if c < 0 then -c else c;
    AmountReadsBack(c < 0, size / 100, size % 100);
  }

  /** Reading back what was printed gives every amount again, in any currency. */
  lemma MoneyReadsBack(c: int, currency: string)
    ensures ReadMoney(MoneyText(Some(c), currency), currency) == Some(c)
  {
    AmountOfReadsBack(c);
    TaggedReadsBack(AmountOf(c), Symbol(currency));
  }

  /** So two amounts of one currency never look the same, nor like a missing one. */
  lemma MoneyNeverCollides(a: Option<int>, b: Option<int>, currency: string)
    requires MoneyText(a, currency) == MoneyText(b, currency)
    ensures a == b
  {
    if a.Some? && b.Some? {
      MoneyReadsBack(a.value, currency);
      MoneyReadsBack(b.value, currency);
    } else if a.Some? {
      AmountIsLonger(a.value, currency);
    } else if b.Some? {
      AmountIsLonger(b.value, currency);
    }
  }

  lemma AmountIsLonger(c: int, currency: string)
    ensures |MoneyText(Some(c), currency)| > |DASH|
  {
    GroupIsPlain(DigitsOf((if c < 0 then -c else c) / 100));
  }

  lemma WholeIsPlain(n: nat)
    ensures var g := Group(DigitsOf(n)); g != "" && g[0] != '-' && ',' !in g
  {
    GroupIsPlain(DigitsOf(n));
    var g := Group(DigitsOf(n));
    assert forall i | 0 <= i < |g| :: g[i] == ' ' || IsDigit(g[i]);
  }

  lemma SignAndComma(sign: string, whole: string, cents: string)
    requires sign == "" || sign == "-"
    requires whole != "" && whole[0] != '-' && ',' !in whole && (cents == "" || cents[0] == ',')
    ensures var s := sign + (whole + cents);
      (s[0] == '-' <==> sign == "-") && (',' in s <==> cents != "")
  {
    var s := sign + (whole + cents);
    if cents != "" {
      assert s[|sign| + |whole|] == ',';
    } else {
      assert s == sign + whole;
    }
  }

  lemma AmountShows(negative: bool, whole: nat, fraction: nat)
    ensures var s := Amount(negative, whole, fraction);
      s != "" && (s[0] == '-' <==> negative) && (',' in s <==> fraction != 0)
  {
    WholeIsPlain(whole);
    SignAndComma(if negative then "-" else "", Group(DigitsOf(whole)), Cents(fraction));
  }

  /** The sign is there exactly below zero, and a comma exactly when there are cents. */
  lemma AmountShowsWhatThereIs(c: int)
    ensures AmountOf(c)[0] == '-' <==> c < 0
    ensures ',' in AmountOf(c) <==> c % 100 != 0
  {
    var size := if c < 0 then -c else c;
    AmountShows(c < 0, size / 100, size % 100);
    WholeHundreds(c);
  }

  lemma WholeHundreds(c: int)
    ensures c % 100 == 0 <==> (if c < 0 then -c else c) % 100 == 0
  {
  }

  // ------------------------------------------------------------ major units

  /** A finite decimal as the decimal module keeps it: sign, digits and exponent. Zero has both signs. */
  datatype Decimal = Decimal(neg: bool, coeff: nat, exp: int)

  /** Whole units with half a unit or more rounded away from zero. */
  function HalfUp(n: nat, p: nat): nat
    requires p > 0
  {
    var q, r := n / p, n % p;
    if 2 * r >= p then q + 1 else q
  }

  /** The cents of a decimal, by magnitude. */
  function CentsOf(d: Decimal): nat {
    if d.exp >= -2 then d.coeff * Pow10(d.exp + 2) else HalfUp(d.coeff, Pow10(-2 - d.exp))
  }

  /** Quantising to cents fails when the result needs more digits than the context's 28. */
  function MajorText(value: Option<Decimal>, currency: string): string {
    match value
    case None => DASH
    case Some(d) =>
      var cents := CentsOf(d);
      if |DigitsOf(cents)| > 28 then DASH
      else Tagged(Amount(d.neg && cents != 0, cents / 100, cents % 100), Symbol(currency))
  }

  function SignedCents(d: Decimal): int {
    if d.neg then 0 - CentsOf(d) else CentsOf(d)
  }

  /** Major units print as their cents do, as long as these have at most 28 digits. */
  lemma MajorPrintsAsMinor(d: Decimal, currency: string)
    ensures MajorText(Some(d), currency)
         == if CentsOf(d) < Pow10(28) then MoneyText(Some(SignedCents(d)), currency) else DASH
  {
    DigitsBound(CentsOf(d), 28);
  }

  /** A column of two decimals and at most 28 digits always prints, as its cents do. */
  lemma ColumnsPrint(d: Decimal, currency: string)
    requires d.exp == -2 && d.coeff < Pow10(28)
    ensures MajorText(Some(d), currency)
         == MoneyText(Some(if d.neg then 0 - d.coeff else d.coeff), currency)
  {
    assert CentsOf(d) == d.coeff * Pow10(0) == d.coeff;
    MajorPrintsAsMinor(d, currency);
  }

  /** In particular an amount of cents given as a decimal prints the same through both filters, exactly
      when it has at most 28 digits. */
  lemma CentsPrintTheSame(c: int, currency: string)
    ensures MajorText(Some(Decimal(c < 0, if c < 0 then -c else c, -2)), currency) == MoneyText(Some(c), currency)
       <==> 0 - Pow10(28) < c < Pow10(28)
  {
    var d := Decimal(c < 0, if c < 0 then -c else c, -2);
    assert CentsOf(d) == d.coeff * Pow10(0) == d.coeff;
    MajorPrintsAsMinor(d, currency);
    AmountIsLonger(c, currency);
  }

  /** The cents printed are the nearest; a tie goes away from zero. Both sides are scaled by the power
      of ten that makes them whole. */
  lemma CentsAreTheNearest(d: Decimal)
    requires d.exp < -2
    ensures var p := Pow10(-2 - d.exp); var c := CentsOf(d);
      0 - p < 2 * (d.coeff - c * p) < p || 2 * (c * p - d.coeff) == p
  {
    var p := Pow10(-2 - d.exp);
    var q, r := d.coeff / p, d.coeff % p;
    assert d.coeff == q * p + r;
    assert (q + 1) * p == q * p + p;
  }

  /** Trailing zeros of the digits do not change the cents. */
  lemma TrailingZeroKeepsTheCents(d: Decimal)
    ensures CentsOf(Decimal(d.neg, 10 * d.coeff, d.exp - 1)) == CentsOf(d)
  {
    if d.exp > -2 {
      TimesTen(d.coeff, Pow10(d.exp + 1));
    } else if d.exp == -2 {
      assert Pow10(1) == 10 * Pow10(0) == 10;
      assert HalfUp(10 * d.coeff, 10) == d.coeff;
    } else {
      HalfUpScales(d.coeff, Pow10(-2 - d.exp));
    }
  }

  lemma TimesTen(n: nat, p: nat)
    ensures 10 * n * p == n * (10 * p)
  {
  }

  lemma HalfUpScales(n: nat, p: nat)
    requires p > 0
    ensures HalfUp(10 * n, 10 * p) == HalfUp(n, p)
  {
    var q, r := n / p, n % p;
    assert 10 * n == q * (10 * p) + 10 * r by {
      TimesTen(q, p);
    }
    DivisionIsUnique(10 * n, 10 * p, q, 10 * r);
  }
}
