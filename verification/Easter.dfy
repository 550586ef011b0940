/** Gregorian Easter: the seed's anonymous algorithm against two independent readings of it. */
module Easter {
  import opened Dates

  /** The intermediate values the algorithm names `h` and `m`. */
  function MoonOffset(year: int): (h: int)
    ensures 0 <= h < 30
  {
    var a := year % 19;
    var b := year / 100;
    var d := b / 4;
    var f := (b + 8) / 25;
    var g := (b - f + 1) / 3;
    (19 * a + b - d - g + 15) % 30
  }

  function SundayOffset(year: int): (m: int)
    ensures 0 <= m < 7
  {
    var b, c := year / 100, year % 100;
    var e := b % 4;
    var i, k := c / 4, c % 4;
    (32 + 2 * e + 2 * i - MoonOffset(year) - k) % 7
  }

  function EasterSunday(year: int): Date {
    var a := year % 19;
    var h := MoonOffset(year);
    var m := SundayOffset(year);
    var n := (a + 11 * h + 22 * m) / 451;
    var s := h + m - 7 * n + 114;
    Date(year, s / 31, s % 31 + 1)
  }

  /** The full moon's offset from 21 March after the two historical exceptions. */
  function AdjustedMoon(year: int): int {
    var h := MoonOffset(year);
    if h == 29 || (h == 28 && year % 19 > 10) then h - 1 else h
  }

  const MARCH := 3

  function FromMarch21(year: int, offset: int): Date {
    AddDays(Date(year, MARCH, 21), offset)
  }

  /** When the last division subtracts a week. */
  lemma CorrectionWeek(year: int)
    ensures var h, m := MoonOffset(year), SundayOffset(year);
            var n := (year % 19 + 11 * h + 22 * m) / 451;
            n == if m == 6 && (h == 29 || (h == 28 && year % 19 > 10)) then 1 else 0
  {
    var a := year % 19;
    var h, m := MoonOffset(year), SundayOffset(year);
    assert 0 <= a + 11 * h + 22 * m < 902;
  }

  lemma EasterOrdinal(year: int)
    ensures var h, m := MoonOffset(year), SundayOffset(year);
            var n := if m == 6 && (h == 29 || (h == 28 && year % 19 > 10)) then 1 else 0;
            && Valid(EasterSunday(year))
            && Ordinal(EasterSunday(year)) == Ordinal(Date(year, MARCH, 21)) + 1 + h + m - 7 * n
            && 0 <= h + m - 7 * n <= 34
  {
    CorrectionWeek(year);
  }

  /** 22 March counted in the algorithm's own century and quadrennium digits, modulo 7. */
  lemma March22ModSeven(year: int)
    ensures var b, c := year / 100, year % 100;
            (Ordinal(Date(year, MARCH, 21)) + 1 + 32 + 2 * (b % 4) + 2 * (c / 4) - c % 4) % 7 == 0
  {
    var b, c := year / 100, year % 100;
    DivisionsStep(year - 1);
    LeapDayByDivisions(year);
    MarchDigits(year, b, c, b / 4, b % 4, c / 4, c % 4);
    SameModSeven(Ordinal(Date(year, MARCH, 21)) + 33 + 2 * (b % 4) + 2 * (c / 4) - c % 4, 0,
                 20871 * (b / 4) + 5218 * (b % 4) + 209 * (c / 4) + 52 * (c % 4) - 36);
  }

  lemma MarchDigits(year: int, b: int, c: int, d: int, e: int, i: int, k: int)
    requires year == 100 * b + c && b == 4 * d + e && c == 4 * i + k && 0 <= c < 100 && 0 <= k < 4 && 0 <= e < 4
    ensures year / 4 == 25 * b + i && year / 100 == b && year / 400 == d
    ensures 365 * (year - 1) + (25 * b + i) - b + d + 59 + 21 + 33 + 2 * e + 2 * i - k
            == 7 * (20871 * d + 5218 * e + 209 * i + 52 * k - 36)
  {
  }

  lemma SundayArithmetic(o: int, x: int, h: int, m: int, n: int)
    requires (o + 1 + x) % 7 == 0
    requires m == (x - h) % 7
    ensures (o + 1 + h + m - 7 * n + 6) % 7 == 6
  {
    var q, t := (x - h) / 7, (o + 1 + x) / 7;
    assert o + 1 + h + m - 7 * n == 7 * (t - q - n);
  }

  /** Easter is a Sunday by the day-number function, between 22 March and 25 April. */
  lemma EasterIsASundayInSeason(year: int)
    ensures var e := EasterSunday(year);
            && Valid(e) && e.year == year
            && Weekday(e) == 6
            && Ordinal(Date(year, MARCH, 22)) <= Ordinal(e) <= Ordinal(Date(year, 4, 25))
  {
    EasterOrdinal(year);
    var h, m := MoonOffset(year), SundayOffset(year);
    var n := if m == 6 && (h == 29 || (h == 28 && year % 19 > 10)) then 1 else 0;
    var o := Ordinal(Date(year, MARCH, 21));
    assert Weekday(EasterSunday(year)) == 6 by {
      March22ModSeven(year);
      var x := 32 + 2 * (year / 100 % 4) + 2 * (year % 100 / 4) - year % 100 % 4;
      SundayArithmetic(o, x, h, m, n);
    }
    SeasonBounds(year, EasterSunday(year), h + m - 7 * n);
  }

  lemma SeasonBounds(year: int, e: Date, offset: int)
    requires Ordinal(e) == Ordinal(Date(year, MARCH, 21)) + 1 + offset && 0 <= offset <= 34
    ensures Ordinal(Date(year, MARCH, 22)) <= Ordinal(e) <= Ordinal(Date(year, 4, 25))
  {
  }

  /** Easter is the first Sunday strictly after the adjusted full moon. */
  lemma EasterIsFirstSundayAfterTheMoon(year: int)
    ensures var moon := FromMarch21(year, AdjustedMoon(year));
            var e := EasterSunday(year);
            && Valid(e) && Weekday(e) == 6 && Ordinal(moon) < Ordinal(e)
            && forall d: Date :: Valid(d) && Weekday(d) == 6 && Ordinal(moon) < Ordinal(d)
                 ==> Ordinal(e) <= Ordinal(d)
  {
    EasterIsASundayInSeason(year);
    var moon, e := Ordinal(FromMarch21(year, AdjustedMoon(year))), Ordinal(EasterSunday(year));
    assert moon < e <= moon + 7 by {
      EasterOrdinal(year);
      WithinAWeek(MoonOffset(year), SundayOffset(year), year % 19);
    }
    forall d: Date | Valid(d) && Weekday(d) == 6 && moon < Ordinal(d)
      ensures e <= Ordinal(d)
    {
      SundaysAreAWeekApart(e, Ordinal(d));
    }
  }

  lemma WithinAWeek(h: int, m: int, a: int)
    requires 0 <= h < 30 && 0 <= m < 7
    ensures var late := h == 29 || (h == 28 && a > 10);
            var moon := if late then h - 1 else h;
            var n := if m == 6 && late then 1 else 0;
            moon < 1 + h + m - 7 * n <= moon + 7
  {
  }

  lemma SundaysAreAWeekApart(e: int, s: int)
    requires (e + 6) % 7 == 6 && (s + 6) % 7 == 6 && s > e - 7
    ensures e <= s
  {
  }

  // ---------------------------------------------------------------- Gauss

  /** Gauss's rule, with his solar and lunar equations and his two explicit exceptions. */
  function GaussMoonConstant(year: int): int {
    var k := year / 100;
    var p := (13 + 8 * k) / 25;
    var q := k / 4;
    (15 - p + k - q) % 30
  }

  function GaussSundayConstant(year: int): int {
    var k := year / 100;
    (4 + k - k / 4) % 7
  }

  function GaussEaster(year: int): Date {
    var bigM := GaussMoonConstant(year);
    var d := (19 * (year % 19) + bigM) % 30;
    var e := (2 * (year % 4) + 4 * (year % 7) + 6 * d + GaussSundayConstant(year)) % 7;
    if d == 29 && e == 6 then Date(year, 4, 19)
    else if d == 28 && e == 6 && (11 * bigM + 11) % 30 < 19 then Date(year, 4, 18)
    else if d + e <= 9 then Date(year, MARCH, 22 + d + e)
    else Date(year, 4, d + e - 9)
  }

  /** The algorithm's nested division is Gauss's lunar equation. */
  lemma LunarEquation(b: int)
    ensures (b - (b + 8) / 25 + 1) / 3 == (13 + 8 * b) / 25
  {
    var t, r := b / 25, b % 25;
    assert b == 25 * t + r;
    assert (b + 8) / 25 == t + (r + 8) / 25;
    assert (13 + 8 * b) / 25 == 8 * t + (13 + 8 * r) / 25;
    assert (b - (b + 8) / 25 + 1) / 3 == 8 * t + (r - (r + 8) / 25 + 1) / 3;
  }

  lemma SameModThirty(x: int, y: int, q: int)
    requires x - y == 30 * q
    ensures x % 30 == y % 30
  {
  }

  lemma SameModSeven(x: int, y: int, q: int)
    requires x - y == 7 * q
    ensures x % 7 == y % 7
  {
  }

  lemma SameMoon(year: int)
    ensures (19 * (year % 19) + GaussMoonConstant(year)) % 30 == MoonOffset(year)
  {
    var k := year / 100;
    LunarEquation(k);
    MoonSum(19 * (year % 19), 15 - (13 + 8 * k) / 25 + k - k / 4);
  }

  lemma MoonSum(x: int, y: int)
    ensures (x + y % 30) % 30 == (x + y) % 30
  {
    SameModThirty(x + y % 30, x + y, -(y / 30));
  }

  lemma SameSunday(year: int)
    ensures var d := MoonOffset(year);
            (2 * (year % 4) + 4 * (year % 7) + 6 * d + GaussSundayConstant(year)) % 7 == SundayOffset(year)
  {
    var k, c := year / 100, year % 100;
    SundayDigits(year, MoonOffset(year), k, c, k / 4, k % 4, c / 4, c % 4);
  }

  lemma SundayDigits(year: int, h: int, b: int, c: int, d: int, e: int, i: int, k: int)
    requires year == 100 * b + c && b == 4 * d + e && c == 4 * i + k && 0 <= k < 4
    ensures (2 * (year % 4) + 4 * (year % 7) + 6 * h + (4 + b - d) % 7) % 7 == (32 + 2 * e + 2 * i - h - k) % 7
  {
    assert year % 4 == k by { assert year == 4 * (25 * b + i) + k; }
    var r, n := year % 7, (4 + b - d) % 7;
    var w, q := year / 7, (4 + b - d) / 7;
    SundaySum(year, h, b, c, d, e, i, k, r, w, n, q);
  }

  lemma SundaySum(year: int, h: int, b: int, c: int, d: int, e: int, i: int, k: int,
                  r: int, w: int, n: int, q: int)
    requires year == 100 * b + c && b == 4 * d + e && c == 4 * i + k
    requires year == 7 * w + r && 4 + b - d == 7 * q + n
    ensures (2 * k + 4 * r + 6 * h + n) % 7 == (32 + 2 * e + 2 * i - h - k) % 7
  {
    SameModSeven(2 * k + 4 * r + 6 * h + n, 32 + 2 * e + 2 * i - h - k,
                 h - 4 + 57 * e + 2 * i + k + 229 * d - 4 * w - q);
  }

  lemma SameException(year: int)
    requires MoonOffset(year) == 28
    ensures (11 * GaussMoonConstant(year) + 11) % 30 < 19 <==> year % 19 > 10
  {
    SameMoon(year);
    ExceptionDigits(year % 19, GaussMoonConstant(year));
  }

  lemma ExceptionDigits(a: int, bigM: int)
    requires (19 * a + bigM) % 30 == 28 && 0 <= a < 19
    ensures (11 * bigM + 11) % 30 < 19 <==> a > 10
  {
    var t := (19 * a + bigM) / 30;
    assert 11 * bigM + 11 == 30 * (11 * t - 7 * a + 10) + 19 + a;
    SameModThirty(11 * bigM + 11, 19 + a, 11 * t - 7 * a + 10);
  }

  /** The anonymous algorithm and Gauss's rule give the same date for every year. */
  lemma EasterAgreesWithGauss(year: int)
    ensures EasterSunday(year) == GaussEaster(year)
  {
    SameMoon(year);
    SameSunday(year);
    CorrectionWeek(year);
    if MoonOffset(year) == 28 {
      SameException(year);
    }
  }
}
