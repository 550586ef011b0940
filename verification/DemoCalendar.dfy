/** The demo's calendar: Czech working days by day number, the shifting loop and the anchor day. */
module DemoCalendar {
  import opened Dates
  import opened WorkingDays
  import opened WorkdayShift

  ghost predicate CzechWork(o: int) {
    IsWorkingDay(DateOf(o))
  }

  lemma CzechWorkOnDate(d: Date)
    requires Valid(d)
    ensures CzechWork(Ordinal(d)) == IsWorkingDay(d)
  {
    DateOfOrdinal(d);
  }

  lemma CzechWorkFrom(o: int)
    ensures SomeWorkFrom(CzechWork, o)
  {
    var a := SixDaysContainAWorkingDay(DateOf(o));
    CzechWorkOnDate(a);
    assert CzechWork(Ordinal(a));
  }

  /** Any six consecutive days contain a Czech working day, so the loop below terminates. */
  lemma CzechCalendarIsDense()
    ensures Dense(CzechWork)
  {
    forall o: int ensures SomeWorkFrom(CzechWork, o) {
      CzechWorkFrom(o);
    }
  }
}
