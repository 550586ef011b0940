/** Proleptic Gregorian dates, as the `date` arithmetic of the demo seed uses them. */
module Dates {

  datatype Date = Date(year: int, month: int, day: int)

  predicate IsLeap(year: int) {
    year % 4 == 0 && (year % 100 != 0 || year % 400 == 0)
  }

  function LeapDay(year: int): int {
    if IsLeap(year) then 1 else 0
  }

  function DaysInMonth(year: int, month: int): int {
    if month == 2 then 28 + LeapDay(year)
    else if month == 4 || month == 6 || month == 9 || month == 11 then 30
    else 31
  }

  function DaysBeforeMonth(year: int, month: int): int {
    if month <= 1 then 0
    else if month == 2 then 31
    else if month == 3 then 59 + LeapDay(year)
    else if month == 4 then 90 + LeapDay(year)
    else if month == 5 then 120 + LeapDay(year)
    else if month == 6 then 151 + LeapDay(year)
    else if month == 7 then 181 + LeapDay(year)
    else if month == 8 then 212 + LeapDay(year)
    else if month == 9 then 243 + LeapDay(year)
    else if month == 10 then 273 + LeapDay(year)
    else if month == 11 then 304 + LeapDay(year)
    else 334 + LeapDay(year)
  }

  /** Days from 1 January of year 1 (day 1, a Monday) to the eve of 1 January of `year`. */
  function DaysBeforeYear(year: int): int {
    var y := year - 1;
    365 * y + y / 4 - y / 100 + y / 400
  }

  predicate Valid(d: Date) {
    1 <= d.month <= 12 && 1 <= d.day <= DaysInMonth(d.year, d.month)
  }

  function DayOfYear(d: Date): int {
    DaysBeforeMonth(d.year, d.month) + d.day
  }

  /** The day number of `d`, an ordering of the days that knows nothing of Easter. */
  function Ordinal(d: Date): int {
    DaysBeforeYear(d.year) + DayOfYear(d)
  }

  /** 0 is Monday, 6 is Sunday. */
  function Weekday(d: Date): int {
    (Ordinal(d) + 6) % 7
  }

  function Next(d: Date): (r: Date)
    requires Valid(d)
  {
    if d.day < DaysInMonth(d.year, d.month) then d.(day := d.day + 1)
    else if d.month < 12 then Date(d.year, d.month + 1, 1)
    else Date(d.year + 1, 1, 1)
  }

  function Prev(d: Date): (r: Date)
    requires Valid(d)
  {
    if d.day > 1 then d.(day := d.day - 1)
    else if d.month > 1 then Date(d.year, d.month - 1, DaysInMonth(d.year, d.month - 1))
    else Date(d.year - 1, 12, 31)
  }

  /** The calendar: the lengths of its months, its leap years, and a Saturday to count the weekdays from. */
  lemma CalendarIsGregorian(year: int)
    ensures forall m | m in {1, 3, 5, 7, 8, 10, 12} :: DaysInMonth(year, m) == 31
    ensures forall m | m in {4, 6, 9, 11} :: DaysInMonth(year, m) == 30
    ensures DaysInMonth(year, 2)
         == if year % 400 == 0 || (year % 4 == 0 && year % 100 != 0) then 29 else 28
    ensures Weekday(Date(2000, 1, 1)) == 5
  {
  }

  /** How the three leap-year divisions move from one year to the next. */
  lemma DivisionsStep(y: int)
    ensures (y + 1) / 4 == y / 4 + if (y + 1) % 4 == 0 then 1 else 0
    ensures (y + 1) / 100 == y / 100 + if (y + 1) % 100 == 0 then 1 else 0
    ensures (y + 1) / 400 == y / 400 + if (y + 1) % 400 == 0 then 1 else 0
  {
  }

  lemma LeapDayByDivisions(y: int)
    ensures LeapDay(y) == (if y % 4 == 0 then 1 else 0) - (if y % 100 == 0 then 1 else 0)
                          + (if y % 400 == 0 then 1 else 0)
  {
    if y % 400 == 0 {
      assert y == 100 * (4 * (y / 400));
    }
    if y % 100 == 0 {
      assert y == 4 * (25 * (y / 100));
    }
  }

  lemma YearLength(year: int)
    ensures DaysBeforeYear(year + 1) == DaysBeforeYear(year) + 365 + LeapDay(year)
  {
    DivisionsStep(year - 1);
    LeapDayByDivisions(year);
  }

  lemma NextIsOneLater(d: Date)
    requires Valid(d)
    ensures Valid(Next(d)) && Ordinal(Next(d)) == Ordinal(d) + 1 && Prev(Next(d)) == d
  {
    YearLength(d.year);
  }

  lemma PrevIsOneEarlier(d: Date)
    requires Valid(d)
    ensures Valid(Prev(d)) && Ordinal(Prev(d)) == Ordinal(d) - 1 && Next(Prev(d)) == d
  {
    YearLength(d.year - 1);
  }

  lemma DayOfYearRange(d: Date)
    requires Valid(d)
    ensures 1 <= DayOfYear(d) <= 365 + LeapDay(d.year)
  {
  }

  lemma {:induction false} YearsAreOrdered(a: int, b: int)
    requires a < b
    ensures DaysBeforeYear(a) + 365 + LeapDay(a) <= DaysBeforeYear(b)
    decreases b - a
  {
    YearLength(b - 1);
    if a < b - 1 {
      YearsAreOrdered(a, b - 1);
    }
  }

  /** Two dates with the same day number are the same date. */
  lemma OrdinalIsInjective(a: Date, b: Date)
    requires Valid(a) && Valid(b) && Ordinal(a) == Ordinal(b)
    ensures a == b
  {
    DayOfYearRange(a);
    DayOfYearRange(b);
    if a.year < b.year {
      YearsAreOrdered(a.year, b.year);
    } else if b.year < a.year {
      YearsAreOrdered(b.year, a.year);
    }
  }

  /** `d + timedelta(days=n)` */
  function AddDays(d: Date, n: int): (r: Date)
    requires Valid(d)
    ensures Valid(r) && Ordinal(r) == Ordinal(d) + n
    decreases if n < 0 then -n else n
  {
    if n == 0 then d
    else if n > 0 then
      NextIsOneLater(d);
      AddDays(Next(d), n - 1)
    else
      PrevIsOneEarlier(d);
      AddDays(Prev(d), n + 1)
  }

  ghost predicate IsDay(d: Date, o: int) {
    Valid(d) && Ordinal(d) == o
  }

  /** Every day number is some date's. */
  lemma EveryDayHasADate(d: Date, o: int)
    requires Valid(d)
    ensures exists r :: IsDay(r, o)
  {
    assert IsDay(AddDays(d, o - Ordinal(d)), o);
  }

  /** The date of a day number. */
  ghost function DateOf(o: int): (d: Date)
    ensures Valid(d) && Ordinal(d) == o
  {
    EveryDayHasADate(Date(1, 1, 1), o);
    var d :| IsDay(d, o);
    d
  }

  lemma DateOfOrdinal(d: Date)
    requires Valid(d)
    ensures DateOf(Ordinal(d)) == d
  {
    OrdinalIsInjective(DateOf(Ordinal(d)), d);
  }
}
