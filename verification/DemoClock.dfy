/** `DemoClock`: events counted in working days back from the anchor day, packed into business hours. */
module DemoClock {
  import opened Wrappers
  import opened Arith
  import opened WorkdayShift
  import T = Timeline

  const DAY_START := 7 * 3600
  const DAY_END := 16 * 3600 + 30 * 60
  const DAY_MINUTES := 9 * 60 + 30
  const SECONDS_PER_DAY := 86400
  /** The most events of one day that still leave every slot a minute to pick. */
  const MOST_PER_DAY := 63

  /** A Prague wall-clock reading: a day number and the seconds since its midnight. */
  datatype Wall = Wall(day: int, second: int)

  /** `offset(d)` is Prague's UTC offset in business hours of day `d`; `nowOffset` is the one at `now`. */
  datatype Clock = Clock(work: Calendar, offset: int -> int, now: Wall, nowOffset: int) {

    ghost predicate Valid() {
      && Dense(work)
      && (forall a, b :: offset(a) - offset(b) <= 3600)
      && (forall a :: -3600 <= nowOffset - offset(a) <= 3600)
      && (work(now.day) ==> nowOffset == offset(now.day))
      && 0 <= now.second < SECONDS_PER_DAY
    }

    function Utc(w: Wall): int {
      w.day * SECONDS_PER_DAY + w.second - offset(w.day)
    }

    function NowUtc(): int {
      now.day * SECONDS_PER_DAY + now.second - nowOffset
    }

    /** The day events are counted back from. */
    ghost function Anchor(): int
      requires Dense(work)
    {
      if work(now.day) && now.second >= DAY_END then now.day else Shifted(work, now.day, -1)
    }

    /** `day`: the working day `wd` working days before the anchor. */
    ghost function Day(wd: int): int
      requires Dense(work)
    {
      Shifted(work, Anchor(), -wd)
    }
  }

  /** A working day whose business hours are over by `now`. */
  predicate Complete(c: Clock, d: int) {
    c.work(d) && (d < c.now.day || (d == c.now.day && c.now.second >= DAY_END))
  }

  lemma AnchorIsWorking(c: Clock)
    requires c.Valid()
    ensures Complete(c, c.Anchor())
  {
    if !(c.work(c.now.day) && c.now.second >= DAY_END) {
      var k := ShiftLands(c.work, c.now.day, -1);
    }
  }

  /** No complete working day comes after the anchor. */
  lemma AnchorIsTheLast(c: Clock, d: int)
    requires c.Valid() && Complete(c, d)
    ensures d <= c.Anchor()
  {
    if d < c.now.day && !(c.work(c.now.day) && c.now.second >= DAY_END) {
      var back: nat := c.now.day - d;
      var k := ShiftLands(c.work, c.now.day, -1);
      assert WorkingAt(c.work, c.now.day, false, back);
      CrossedGrows(c.work, c.now.day, false, 0, back);
      if back < k {
        CrossedGrows(c.work, c.now.day, false, back, k);
      }
    }
  }

  lemma DayIsWorking(c: Clock, wd: int)
    requires c.Valid()
    ensures c.work(c.Day(wd))
    ensures wd >= 0 ==> c.Day(wd) <= c.Anchor()
  {
    AnchorIsWorking(c);
    if wd != 0 {
      var k := ShiftLands(c.work, c.Anchor(), -wd);
    }
  }

  /** `random.randint`: any value of a range, which may not be empty. */
  method RandInt(lo: int, hi: int) returns (r: int)
    requires lo <= hi
    ensures lo <= r <= hi
  {
    r :| lo <= r <= hi;
  }

  datatype SlotError = EmptyRange

  // ------------------------------------------------ the slots of one day

  function SlotEdge(n: nat, k: nat): nat
    requires k > 0
  {
    n * DAY_MINUTES / k
  }

  /** With at most 63 events a day every slot is at least nine minutes wide. */
  lemma SlotsAreWide(n: nat, k: nat)
    requires 0 < k <= MOST_PER_DAY
    ensures SlotEdge(n + 1, k) >= SlotEdge(n, k) + 9
  {
    DivideSum(n * DAY_MINUTES, k, 9);
    assert (n + 1) * DAY_MINUTES == n * DAY_MINUTES + DAY_MINUTES;
    DivisionIsMonotone(n * DAY_MINUTES + 9 * k, (n + 1) * DAY_MINUTES, k);
  }

  lemma LastEdge(n: nat, k: nat)
    requires 0 < k && n <= k
    ensures SlotEdge(n, k) <= DAY_MINUTES && SlotEdge(k, k) == DAY_MINUTES
  {
    DivisionIsUnique(k * DAY_MINUTES, k, DAY_MINUTES, 0);
    assert n * DAY_MINUTES <= k * DAY_MINUTES;
    DivisionIsMonotone(n * DAY_MINUTES, k * DAY_MINUTES, k);
  }

  /** Times of one day: in business hours, in order, 8 minutes and 1 second apart. */
  predicate WellSpaced(ws: seq<Wall>, day: int) {
    && (forall i | 0 <= i < |ws| :: ws[i].day == day)
    && (forall i | 0 <= i < |ws| :: DAY_START + 4 * 60 <= ws[i].second < DAY_END - 4 * 60)
    && (forall i | 0 < i < |ws| :: ws[i].second >= ws[i - 1].second + 8 * 60 + 1)
  }

  /** The inner loop of `slots`: `k` events on one day. */
  method DaySlots(day: int, k: nat) returns (r: Result<seq<Wall>, SlotError>)
    requires k > 0
    ensures r.Failure? <==> k > 63
    ensures r.Success? ==> |r.value| == k && WellSpaced(r.value, day)
    ensures r.Success? ==> forall i | 0 <= i < k ::
      r.value[i].day == day && 7 * 3600 + 4 * 60 <= r.value[i].second < 16 * 3600 + 26 * 60
  {
    var out: seq<Wall> := [];
    LastEdge(0, k);
    DivisionIsUnique(0, k, 0, 0);
    for n := 0 to k
      invariant |out| == n && WellSpaced(out, day)
      invariant SlotEdge(n, k) >= 9 * n
      invariant n > 0 ==> out[n - 1].second < DAY_START + 60 * (SlotEdge(n, k) - 4)
    {
      var lo := SlotEdge(n, k) + 4;
      var hi := SlotEdge(n + 1, k) - 5;
      LastEdge(n + 1, k);
      if k <= MOST_PER_DAY {
        SlotsAreWide(n, k);
      }
      if lo > hi {
        return Failure(EmptyRange);
      }
      var minute := RandInt(lo, hi);
      var second := RandInt(0, 59);
      out := out + [Wall(day, DAY_START + 60 * minute + second)];
    }
    LastEdge(k, k);
    return Success(out);
  }

  // ------------------------------------------------------------- slots

  /** More than 63 consecutive events on one day, from event `i`. */
  ghost predicate LongRunAt(wds: seq<int>, i: int) {
    0 <= i && i + MOST_PER_DAY < |wds| && forall m | i <= m <= i + MOST_PER_DAY :: wds[m] == wds[i]
  }

  ghost predicate LongRun(wds: seq<int>) {
    exists i :: LongRunAt(wds, i)
  }

  /** What `slots` promises of its result, event by event. */
  ghost predicate SlotsOk(c: Clock, wds: seq<int>, out: seq<Wall>)
    requires Dense(c.work)
  {
    && |out| == |wds|
    && (forall i | 0 <= i < |wds| :: out[i].day == c.Day(wds[i]))
    && (forall i | 0 <= i < |wds| :: DAY_START + 4 * 60 <= out[i].second < DAY_END - 4 * 60)
    && (forall i | 0 < i < |wds| && wds[i] == wds[i - 1] :: out[i].second >= out[i - 1].second + 8 * 60 + 1)
  }

  /** `anchor_day`: the last complete working day before `now`. */
  method AnchorDay(c: Clock) returns (d: int)
    requires c.Valid()
    ensures d == c.Anchor()
    ensures Complete(c, d) && forall x | Complete(c, x) :: x <= d
    ensures c.work(d) && (d < c.now.day || (d == c.now.day && c.now.second >= 16 * 3600 + 30 * 60))
  {
    AnchorIsWorking(c);
    forall x | Complete(c, x) ensures x <= c.Anchor() {
      AnchorIsTheLast(c, x);
    }
    if c.work(c.now.day) && c.now.second >= DAY_END {
      return c.now.day;
    }
    d := ShiftWorkingDays(c.work, c.now.day, -1);
  }

  /** `slots` fails exactly when more than 63 consecutive events share a day. */
  method Slots(c: Clock, wds: seq<int>) returns (r: Result<seq<Wall>, SlotError>)
    requires c.Valid()
    ensures r.Failure? <==> LongRun(wds)
    ensures r.Success? ==> SlotsOk(c, wds, r.value)
  {
    var anchor := AnchorDay(c);
    var out: seq<Wall> := [];
    var i := 0;
    while i < |wds|
      invariant 0 <= i <= |wds|
      invariant SlotsOk(c, wds[..i], out)
      invariant 0 < i < |wds| ==> wds[i - 1] != wds[i]
      invariant forall s | 0 <= s < i :: !LongRunAt(wds, s)
    {
      var j := i;
      while j < |wds| && wds[j] == wds[i]
        invariant i <= j <= |wds| && forall m | i <= m < j :: wds[m] == wds[i]
      {
        j := j + 1;
      }
      var day := ShiftWorkingDays(c.work, anchor, -wds[i]);
      var slots := DaySlots(day, j - i);
      if slots.Failure? {
        assert LongRunAt(wds, i);
        return Failure(slots.error);
      }
      RunIsShort(wds, i, j);
      OneMoreDay(c, wds, i, j, out, slots.value);
      out := out + slots.value;
      i := j;
    }
    assert wds[..|wds|] == wds;
    return Success(out);
  }

  /** The slots of the events `i` to `j`, all of one day, join those before. */
  lemma OneMoreDay(c: Clock, wds: seq<int>, i: nat, j: nat, out: seq<Wall>, slots: seq<Wall>)
    requires c.Valid() && i < j <= |wds| && SlotsOk(c, wds[..i], out)
    requires forall m | i <= m < j :: wds[m] == wds[i]
    requires i > 0 ==> wds[i - 1] != wds[i]
    requires |slots| == j - i && WellSpaced(slots, c.Day(wds[i]))
    ensures SlotsOk(c, wds[..j], out + slots)
  {
  }

  /** A run of at most 63 that ends before `j` hides no longer one. */
  lemma RunIsShort(wds: seq<int>, i: nat, j: nat)
    requires i < j <= |wds| && j - i <= MOST_PER_DAY && forall m | i <= m < j :: wds[m] == wds[i]
    requires j < |wds| ==> wds[j] != wds[i]
    ensures forall s | i <= s < j :: !LongRunAt(wds, s)
  {
    forall s | i <= s < j && s + MOST_PER_DAY < |wds| ensures !LongRunAt(wds, s) {
      assert wds[j] != wds[s];
    }
  }

  // -------------------------------------------- what the slots are good for

  /** For a chronological list the times strictly increase, also as instants. */
  lemma SlotsIncrease(c: Clock, wds: seq<int>, out: seq<Wall>, i: nat, j: nat)
    requires c.Valid() && SlotsOk(c, wds, out) && T.Chronological(wds) && i < j < |wds|
    ensures c.Utc(out[i]) < c.Utc(out[j])
    ensures wds[i] == wds[j] ==> out[j].second >= out[i].second + 8 * 60 + 1
    decreases j
  {
    if wds[i] != wds[j] {
      ShiftIsMonotone(c.work, c.Anchor(), -wds[i], -wds[j]);
    } else if i < j - 1 {
      assert wds[j - 1] == wds[j];
      SlotsIncrease(c, wds, out, i, j - 1);
    }
  }

  /** Nothing is stamped in the future: every event lies on a working day before `now`. */
  lemma SlotsAreInThePast(c: Clock, wds: seq<int>, out: seq<Wall>, i: nat)
    requires c.Valid() && SlotsOk(c, wds, out) && i < |wds| && wds[i] >= 0
    ensures c.work(out[i].day) && c.Utc(out[i]) < c.NowUtc()
  {
    AnchorIsWorking(c);
    DayIsWorking(c, wds[i]);
  }
}
