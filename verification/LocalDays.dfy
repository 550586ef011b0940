/** Instants and local calendar days, for any zone given by its offset changes. */
module LocalDays {
  const DAY := 86400

  /** From instant `at` (seconds, UTC) on, local clocks are `offset` seconds ahead of UTC. */
  datatype Transition = Transition(at: int, offset: int)

  datatype Zone = Zone(initial: int, transitions: seq<Transition>)

  function Min(a: int, b: int): int { if a <= b then a else b }

  function Max(a: int, b: int): int { if a <= b then b else a }

  /** The offset in force after the first `n` transitions. */
  function OffsetAfter(z: Zone, n: nat): int
    requires n <= |z.transitions|
  {
    if n == 0 then z.initial else z.transitions[n - 1].offset
  }

  /** The wall readings that the n-th change skips or repeats: from `JumpLow` to `JumpHigh`. */
  function JumpLow(z: Zone, n: nat): int
    requires n < |z.transitions|
  {
    z.transitions[n].at + Min(OffsetAfter(z, n), OffsetAfter(z, n + 1))
  }

  function JumpHigh(z: Zone, n: nat): int
    requires n < |z.transitions|
  {
    z.transitions[n].at + Max(OffsetAfter(z, n), OffsetAfter(z, n + 1))
  }

  /** Changes come in order, and one is over on the wall before the next begins. */
  ghost predicate Settled(z: Zone) {
    && (forall i | 0 <= i < |z.transitions| - 1 :: z.transitions[i].at < z.transitions[i + 1].at)
    && (forall i: nat | i + 1 < |z.transitions| :: JumpHigh(z, i) <= JumpLow(z, i + 1))
  }

  // ------------------------------------------- the conversions, by first n changes

  function OffsetAt(z: Zone, n: nat, t: int): int
    requires n <= |z.transitions|
  {
    if n == 0 then z.initial
    else if t >= z.transitions[n - 1].at then z.transitions[n - 1].offset
    else OffsetAt(z, n - 1, t)
  }

  /** The offset of a wall reading, with fold=0: a repeated or skipped one belongs to the time before. */
  function FoldZeroOffset(z: Zone, n: nat, w: int): int
    requires n <= |z.transitions|
  {
    if n == 0 then z.initial
    else if w >= JumpHigh(z, n - 1) then z.transitions[n - 1].offset
    else FoldZeroOffset(z, n - 1, w)
  }

  function WallAt(z: Zone, n: nat, t: int): int
    requires n <= |z.transitions|
  {
    t + OffsetAt(z, n, t)
  }

  function InstantOf(z: Zone, n: nat, w: int): int
    requires n <= |z.transitions|
  {
    w - FoldZeroOffset(z, n, w)
  }

  function ToLocal(z: Zone, t: int): int {
    WallAt(z, |z.transitions|, t)
  }

  /** `local_date`: days since the epoch. */
  function LocalDate(z: Zone, t: int): int {
    ToLocal(z, t) / DAY
  }

  function LocalDayStart(z: Zone, day: int): int {
    InstantOf(z, |z.transitions|, day * DAY)
  }

  /** A local date is the whole days on the wall, and the wall is ahead of UTC by the offset of the last change, if
      there was one. */
  lemma LocalDateIs(z: Zone, t: int, last: int)
    requires -1 <= last < |z.transitions| && (last >= 0 ==> z.transitions[last].at <= t)
    requires forall j | last < j < |z.transitions| :: t < z.transitions[j].at
    ensures LocalDate(z, t) * 86400 <= ToLocal(z, t) < (LocalDate(z, t) + 1) * 86400
    ensures ToLocal(z, t) == t + if last >= 0 then z.transitions[last].offset else z.initial
  {
    OffsetIsTheLast(z, |z.transitions|, t, last);
  }

  lemma {:induction false} OffsetIsTheLast(z: Zone, n: nat, t: int, last: int)
    requires n <= |z.transitions| && -1 <= last < n && (last >= 0 ==> z.transitions[last].at <= t)
    requires forall j | last < j < n :: t < z.transitions[j].at
    ensures OffsetAt(z, n, t) == if last >= 0 then z.transitions[last].offset else z.initial
  {
    if last < n - 1 {
      OffsetIsTheLast(z, n - 1, t, last);
    }
  }

  // ------------------------------------------------------ walls and changes

  lemma {:induction false} OrderedChanges(z: Zone, i: nat, j: nat)
    requires Settled(z) && i < j < |z.transitions|
    ensures z.transitions[i].at < z.transitions[j].at && JumpHigh(z, i) <= JumpLow(z, j)
    decreases j
  {
    if i < j - 1 {
      OrderedChanges(z, i, j - 1);
      assert JumpHigh(z, j - 1) <= JumpLow(z, j);
    } else {
      assert JumpHigh(z, i) <= JumpLow(z, i + 1);
    }
  }

  /** Past the last change, the last offset applies. */
  lemma PastTheLast(z: Zone, n: nat, t: int)
    requires Settled(z) && n <= |z.transitions|
    requires n > 0 ==> t >= z.transitions[n - 1].at
    ensures OffsetAt(z, n, t) == OffsetAfter(z, n)
  {
  }

  /** Before the n-th change clocks read less than its upper edge. */
  lemma {:induction false} WallBefore(z: Zone, n: nat, t: int)
    requires Settled(z) && n < |z.transitions| && t < z.transitions[n].at
    ensures WallAt(z, n, t) < JumpHigh(z, n)
  {
    if n > 0 && t < z.transitions[n - 1].at {
      WallBefore(z, n - 1, t);
      assert JumpHigh(z, n - 1) <= JumpLow(z, n);
    } else {
      PastTheLast(z, n, t);
    }
  }

  // --------------------------------------------- what the date filter needs

  /** Some midnight lies strictly between the two wall readings of a change. */
  predicate MidnightInside(z: Zone, n: nat)
    requires n < |z.transitions|
  {
    JumpLow(z, n) < (JumpHigh(z, n) - 1) / DAY * DAY
  }

  predicate NoMidnightInside(z: Zone, n: nat)
    requires n <= |z.transitions|
  {
    forall i: nat | i < n :: !MidnightInside(z, i)
  }

  lemma MidnightsOutside(z: Zone, n: nat, day: int)
    requires n < |z.transitions| && !MidnightInside(z, n) && day * DAY < JumpHigh(z, n)
    ensures day * DAY <= JumpLow(z, n)
  {
    assert day <= (JumpHigh(z, n) - 1) / DAY;
  }

  lemma {:induction false} StartSplitsTime(z: Zone, n: nat, day: int, t: int)
    requires Settled(z) && n <= |z.transitions| && NoMidnightInside(z, n)
    ensures InstantOf(z, n, day * DAY) <= t <==> day * DAY <= WallAt(z, n, t)
  {
    if n > 0 {
      var w, m := day * DAY, n - 1;
      var a := z.transitions[m].at;
      if w >= JumpHigh(z, m) {
        if t < a {
          WallBefore(z, m, t);
        }
      } else {
        assert !MidnightInside(z, m);
        MidnightsOutside(z, m, day);
        StartSplitsTime(z, m, day, t);
        if t >= a {
          if m > 0 {
            OrderedChanges(z, m - 1, m);
          }
          PastTheLast(z, m, t);
        }
      }
    }
  }

  ghost predicate FilterAgreesAt(z: Zone, day: int, t: int) {
    LocalDayStart(z, day) <= t <==> day <= LocalDate(z, t)
  }

  /** `created_at >= start(day)` selects exactly the instants whose local date is `day` or later. */
  ghost predicate FilterAgrees(z: Zone) {
    forall day, t :: FilterAgreesAt(z, day, t)
  }

  /** A change later than the reading leaves its fold=0 offset alone. */
  lemma {:induction false} LaterChangesDoNotMatter(z: Zone, i: nat, n: nat, w: int, t: int)
    requires Settled(z) && i < n <= |z.transitions|
    requires w < JumpHigh(z, i) && t == z.transitions[i].at
    ensures FoldZeroOffset(z, n, w) == FoldZeroOffset(z, i, w)
    ensures OffsetAt(z, n, t) == z.transitions[i].offset
    decreases n
  {
    if i + 1 < n {
      OrderedChanges(z, i, n - 1);
      LaterChangesDoNotMatter(z, i, n - 1, w, t);
    }
  }

  /** A midnight strictly inside a change is dated wrongly at the instant of the change. */
  lemma MidnightInsideBreaksTheFilter(z: Zone, i: nat)
    requires Settled(z) && i < |z.transitions| && MidnightInside(z, i)
    ensures !FilterAgreesAt(z, (JumpHigh(z, i) - 1) / DAY, z.transitions[i].at)
  {
    var day, t := (JumpHigh(z, i) - 1) / DAY, z.transitions[i].at;
    var w := day * DAY;
    LaterChangesDoNotMatter(z, i, |z.transitions|, w, t);
    if i > 0 {
      OrderedChanges(z, i - 1, i);
    }
    assert FoldZeroOffset(z, i, w) == OffsetAfter(z, i);
  }

  /** The filter agrees with the local calendar exactly in the zones no change of which jumps over a
      midnight, either way. */
  lemma FilterAgreesIffNoMidnightInside(z: Zone)
    requires Settled(z)
    ensures FilterAgrees(z) <==> NoMidnightInside(z, |z.transitions|)
  {
    if NoMidnightInside(z, |z.transitions|) {
      forall day, t ensures FilterAgreesAt(z, day, t) {
        StartSplitsTime(z, |z.transitions|, day, t);
        DateIsFloor(day, ToLocal(z, t));
      }
    } else {
      var i: nat :| i < |z.transitions| && MidnightInside(z, i);
      MidnightInsideBreaksTheFilter(z, i);
    }
  }

  lemma DateIsFloor(day: int, wall: int)
    ensures day * DAY <= wall <==> day <= wall / DAY
  {
  }

  /** The `from`/`to` filter of the audit log keeps exactly the events dated in [from, to]. */
  lemma DayRangeFilter(z: Zone, first: int, last: int, t: int)
    requires Settled(z) && NoMidnightInside(z, |z.transitions|)
    ensures LocalDayStart(z, first) <= t < LocalDayStart(z, last + 1) <==> first <= LocalDate(z, t) <= last
  {
    FilterAgreesIffNoMidnightInside(z);
    assert FilterAgreesAt(z, first, t);
    assert FilterAgreesAt(z, last + 1, t);
  }

  /** Consecutive days tile the time line: every instant lies in one day and no other. */
  lemma DaysTileTheTimeLine(z: Zone, t: int, day: int)
    requires Settled(z) && NoMidnightInside(z, |z.transitions|)
    ensures LocalDayStart(z, day) <= t < LocalDayStart(z, day + 1) <==> day == LocalDate(z, t)
    ensures LocalDayStart(z, day) <= LocalDayStart(z, day + 1)
  {
    DayRangeFilter(z, day, day, t);
    FilterAgreesIffNoMidnightInside(z);
    var s := LocalDayStart(z, day + 1);
    assert FilterAgreesAt(z, day + 1, s);
    assert FilterAgreesAt(z, day, s);
  }

  /** fold=0 picks the earliest instant whose clocks show a reading, when any do (PEP 495). */
  lemma {:induction false} FoldZeroIsEarliest(z: Zone, n: nat, w: int, t: int)
    requires Settled(z) && n <= |z.transitions| && WallAt(z, n, t) == w
    ensures WallAt(z, n, InstantOf(z, n, w)) == w && InstantOf(z, n, w) <= t
  {
    if n > 0 {
      var m := n - 1;
      var a := z.transitions[m].at;
      if w >= JumpHigh(z, m) {
        if t < a {
          WallBefore(z, m, t);
        }
      } else if t < a {
        FoldZeroIsEarliest(z, m, w, t);
      } else {
        // The reading is repeated: clocks went back, and showed it before the change too.
        var before := w - OffsetAfter(z, m);
        if m > 0 {
          OrderedChanges(z, m - 1, m);
        }
        PastTheLast(z, m, before);
        FoldZeroIsEarliest(z, m, w, before);
      }
    }
  }

  /** A zone that breaks it: clocks go back from 00:01 to 23:01, when the filter's day has begun and the
      local date is the day before again. */
  lemma ClockBackOverMidnight()
    ensures var z := Zone(0, [Transition(DAY + 60, -3600)]);
      && Settled(z) && MidnightInside(z, 0) && !FilterAgrees(z)
      && LocalDayStart(z, 1) <= DAY + 60 && LocalDate(z, DAY + 60) == 0
  {
    var z := Zone(0, [Transition(DAY + 60, -3600)]);
    assert |z.transitions| == 1 && OffsetAfter(z, 0) == 0 && OffsetAfter(z, 1) == -3600;
    assert JumpLow(z, 0) == DAY - 3540 && JumpHigh(z, 0) == DAY + 60;
    assert MidnightInside(z, 0);
    FilterAgreesIffNoMidnightInside(z);
    assert FoldZeroOffset(z, 1, DAY) == FoldZeroOffset(z, 0, DAY) == 0;
    assert OffsetAt(z, 1, DAY + 60) == -3600;
  }
}
