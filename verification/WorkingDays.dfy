/** Czech working days and the loop that moves a date by a number of them. */
module WorkingDays {
  import opened Dates
  import opened Easter

  function FixedHolidays(year: int): set<Date> {
    {Date(year, 1, 1), Date(year, 5, 1), Date(year, 5, 8), Date(year, 7, 5), Date(year, 7, 6),
     Date(year, 9, 28), Date(year, 10, 28), Date(year, 11, 17),
     Date(year, 12, 24), Date(year, 12, 25), Date(year, 12, 26)}
  }

  function CzechHolidays(year: int): set<Date> {
    EasterIsASundayInSeason(year);
    FixedHolidays(year) + {AddDays(EasterSunday(year), -2), AddDays(EasterSunday(year), 1)}
  }

  predicate IsWorkingDay(d: Date) {
    Weekday(d) < 5 && d !in CzechHolidays(d.year)
  }

  /** A date works exactly when it is Monday to Friday, none of the eleven fixed holidays, and neither the Friday
      before Easter Sunday nor the Monday after it. */
  lemma WorkingDayIs(d: Date)
    requires Valid(d)
    ensures IsWorkingDay(d) <==>
      && Weekday(d) <= 4
      && (d.month, d.day) !in {(1, 1), (5, 1), (5, 8), (7, 5), (7, 6), (9, 28), (10, 28), (11, 17), (12, 24), (12, 25),
                               (12, 26)}
      && Ordinal(d) != Ordinal(EasterSunday(d.year)) - 2 && Ordinal(d) != Ordinal(EasterSunday(d.year)) + 1
  {
    var easter := EasterSunday(d.year);
    EasterIsASundayInSeason(d.year);
    OnlyDayOf(d, AddDays(easter, -2));
    OnlyDayOf(d, AddDays(easter, 1));
    FixedHolidayIs(d);
  }

  lemma OnlyDayOf(a: Date, b: Date)
    requires Valid(a) && Valid(b)
    ensures a == b <==> Ordinal(a) == Ordinal(b)
  {
    if Ordinal(a) == Ordinal(b) {
      DateOfOrdinal(a);
      DateOfOrdinal(b);
    }
  }

  lemma FixedHolidayIs(d: Date)
    ensures d in FixedHolidays(d.year) <==>
      (d.month, d.day) in {(1, 1), (5, 1), (5, 8), (7, 5), (7, 6), (9, 28), (10, 28), (11, 17), (12, 24), (12, 25),
                           (12, 26)}
  {
  }

  // ------------------------------------- no run of six days without work

  /** The holidays as day-of-year numbers; `e` is Easter Sunday's. */
  predicate HolidayNumber(leap: int, e: int, x: int) {
    || x == 1 || x == 121 + leap || x == 128 + leap || x == 186 + leap || x == 187 + leap
    || x == 271 + leap || x == 301 + leap || x == 321 + leap
    || x == 358 + leap || x == 359 + leap || x == 360 + leap
    || x == e - 2 || x == e + 1
  }

  lemma FixedHolidayNumbers(d: Date)
    requires Valid(d) && d in FixedHolidays(d.year)
    ensures var x, leap := DayOfYear(d), LeapDay(d.year);
            || x == 1 || x == 121 + leap || x == 128 + leap || x == 186 + leap || x == 187 + leap
            || x == 271 + leap || x == 301 + leap || x == 321 + leap
            || x == 358 + leap || x == 359 + leap || x == 360 + leap
  {
  }

  lemma HolidayNumbers(d: Date)
    requires Valid(d) && d in CzechHolidays(d.year)
    ensures 81 + LeapDay(d.year) <= DayOfYear(EasterSunday(d.year)) <= 115 + LeapDay(d.year)
    ensures HolidayNumber(LeapDay(d.year), DayOfYear(EasterSunday(d.year)), DayOfYear(d))
  {
    EasterIsASundayInSeason(d.year);
    var easter := EasterSunday(d.year);
    if d in FixedHolidays(d.year) {
      FixedHolidayNumbers(d);
    } else if d == AddDays(easter, -2) {
      assert Ordinal(d) == Ordinal(easter) - 2;
    } else {
      assert Ordinal(d) == Ordinal(easter) + 1;
    }
  }

  /** Where a day shortly after `d` lies in its own year. */
  lemma DayAhead(d: Date, a: Date)
    requires Valid(d) && Valid(a) && Ordinal(d) <= Ordinal(a) <= Ordinal(d) + 5
    ensures var x, n := DayOfYear(d) + Ordinal(a) - Ordinal(d), 365 + LeapDay(d.year);
            if x <= n then a.year == d.year && DayOfYear(a) == x
            else a.year == d.year + 1 && DayOfYear(a) == x - n
  {
    DayOfYearRange(d);
    DayOfYearRange(a);
    YearLength(d.year);
    if a.year < d.year {
      YearsAreOrdered(a.year, d.year);
    } else if a.year > d.year + 1 {
      YearsAreOrdered(d.year + 1, a.year);
    }
  }

  /** The holidays that lie within five days of one another. */
  lemma ClosePairs(leap: int, e: int, x: int, y: int)
    requires 0 <= leap <= 1 && 81 + leap <= e <= 115 + leap
    requires HolidayNumber(leap, e, x) && HolidayNumber(leap, e, y) && x < y <= x + 5
    ensures || (x == e - 2 && y == e + 1) || (x == e + 1 && y == 121 + leap)
            || (x == 186 + leap && y == 187 + leap)
            || (358 + leap <= x && y <= 360 + leap)
  {
  }

  predicate IsHoliday(d: Date) {
    d in CzechHolidays(d.year)
  }

  /** No holiday is within five days of one in the next year. */
  lemma HolidayAhead(x: Date, y: Date)
    requires Valid(x) && Valid(y) && Ordinal(x) < Ordinal(y) <= Ordinal(x) + 5
    requires IsHoliday(x) && IsHoliday(y)
    ensures y.year == x.year && DayOfYear(y) - DayOfYear(x) == Ordinal(y) - Ordinal(x)
  {
    DayAhead(x, y);
    HolidayNumbers(x);
    HolidayNumbers(y);
  }

  /** Holiday numbers `i` and `i + k` are one of the close pairs. */
  predicate Near(leap: int, e: int, i: int, k: int) {
    && 81 + leap <= e <= 115 + leap && 0 <= leap <= 1
    && (|| (i == e - 2 && k == 3) || (i == e + 1 && i + k == 121 + leap)
        || (i == 186 + leap && k == 1)
        || (358 + leap <= i && i + k <= 360 + leap))
  }

  lemma NoThreeNear(leap: int, e: int, i: int, k: int, l: int, m: int)
    requires 0 < k < l < m && Near(leap, e, i, k) && Near(leap, e, i, l)
    ensures !Near(leap, e, i, m)
  {
  }

  lemma NearHolidays(x: Date, y: Date)
    requires Valid(x) && Valid(y) && Ordinal(x) < Ordinal(y) <= Ordinal(x) + 5
    requires IsHoliday(x) && IsHoliday(y)
    ensures Near(LeapDay(x.year), DayOfYear(EasterSunday(x.year)), DayOfYear(x), Ordinal(y) - Ordinal(x))
  {
    HolidayNumbers(x);
    HolidayNumbers(y);
    HolidayAhead(x, y);
    ClosePairs(LeapDay(x.year), DayOfYear(EasterSunday(x.year)), DayOfYear(x), DayOfYear(y));
  }

  /** At most three of any six consecutive days are holidays. */
  lemma NoFourHolidays(w: Date, x: Date, y: Date, z: Date)
    requires Valid(w) && Valid(x) && Valid(y) && Valid(z)
    requires Ordinal(w) < Ordinal(x) < Ordinal(y) < Ordinal(z) <= Ordinal(w) + 5
    requires IsHoliday(w) && IsHoliday(x) && IsHoliday(y)
    ensures !IsHoliday(z)
  {
    if IsHoliday(z) {
      NearHolidays(w, x);
      NearHolidays(w, y);
      NearHolidays(w, z);
      var o := Ordinal(w);
      NoThreeNear(LeapDay(w.year), DayOfYear(EasterSunday(w.year)), DayOfYear(w),
                  Ordinal(x) - o, Ordinal(y) - o, Ordinal(z) - o);
    }
  }

  /** Whether the day `k` days after one of weekday `w` is a weekday. */
  predicate WeekdayAfter(w: int, k: int) {
    w + k < 5 || 7 <= w + k < 12
  }

  lemma SevenDayCycle(o: int, p: int, k: int)
    requires 0 <= k <= 5 && p == o + k
    ensures (p + 6) % 7 < 5 <==> WeekdayAfter((o + 6) % 7, k)
  {
  }

  lemma WeekdayAhead(d: Date, a: Date, k: nat)
    requires Valid(d) && Valid(a) && k <= 5 && Ordinal(a) == Ordinal(d) + k
    ensures Weekday(a) < 5 <==> WeekdayAfter(Weekday(d), k)
  {
    SevenDayCycle(Ordinal(d), Ordinal(a), k);
  }

  /** Of any six consecutive days at least four are weekdays. */
  lemma FourWeekdays(w: int) returns (p: nat, q: nat, r: nat, s: nat)
    requires 0 <= w < 7
    ensures p < q < r < s <= 5
    ensures WeekdayAfter(w, p) && WeekdayAfter(w, q) && WeekdayAfter(w, r) && WeekdayAfter(w, s)
  {
    p := if w == 5 then 2 else if w == 6 then 1 else 0;
    q := if w == 5 then 3 else if w == 6 then 2 else if w == 4 then 3 else 1;
    r := if w == 5 then 4 else if w == 6 then 3 else if w <= 2 then 2 else 4;
    s := if w == 5 then 5 else if w == 6 then 4 else if w <= 1 then 3 else 5;
  }

  /** Any six consecutive days contain a working day. */
  lemma SixDaysContainAWorkingDay(d: Date) returns (a: Date)
    requires Valid(d)
    ensures Valid(a) && Ordinal(d) <= Ordinal(a) <= Ordinal(d) + 5 && IsWorkingDay(a)
  {
    var p, q, r, s := FourWeekdays(Weekday(d));
    var k;
    a, k := NotAllHolidays(d, p, q, r, s);
    WeekdayAhead(d, a, k);
  }

  lemma NotAllHolidays(d: Date, p: nat, q: nat, r: nat, s: nat) returns (a: Date, k: nat)
    requires Valid(d) && p < q < r < s <= 5
    ensures Valid(a) && Ordinal(a) == Ordinal(d) + k && (k == p || k == q || k == r || k == s)
    ensures !IsHoliday(a)
  {
    var w, x, y := AddDays(d, p), AddDays(d, q), AddDays(d, r);
    a, k := AddDays(d, s), s;
    if !IsHoliday(w) {
      a, k := w, p;
    } else if !IsHoliday(x) {
      a, k := x, q;
    } else if !IsHoliday(y) {
      a, k := y, r;
    } else {
      NoFourHolidays(w, x, y, a);
    }
  }

  /** In a year with Christmas Eve on a Wednesday the five days from it are all days off. */
  lemma FiveDaysMayNot(year: int, k: nat)
    requires Weekday(Date(year, 12, 24)) == 2 && k <= 4
    ensures !IsWorkingDay(Date(year, 12, 24 + k))
  {
    if k >= 3 {
      WeekdayAhead(Date(year, 12, 24), Date(year, 12, 24 + k), k);
    } else {
      assert Date(year, 12, 24 + k) in FixedHolidays(year);
    }
  }

  /** So six is the least such number: 24 to 28 December 2025 are all days off. */
  lemma SixIsTheLeast(k: nat)
    requires k <= 4
    ensures var d := Date(2025, 12, 24 + k);
      Valid(d) && Ordinal(d) == Ordinal(Date(2025, 12, 24)) + k && !IsWorkingDay(d)
  {
    assert Weekday(Date(2025, 12, 24)) == 2;
    FiveDaysMayNot(2025, k);
  }
}
