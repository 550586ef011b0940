/** Moving a day by a number of working days, over any calendar whose days off never run to six. */
module WorkdayShift {

  /** A calendar says of each day number whether it is a working day. */
  type Calendar = int -> bool

  function Along(d: int, ahead: bool, k: nat): int {
    if ahead then d + k else d - k
  }

  predicate WorkingAt(work: Calendar, d: int, ahead: bool, k: nat) {
    work(Along(d, ahead, k))
  }

  ghost predicate SomeWorkFrom(work: Calendar, d: int) {
    exists x :: d <= x <= d + 5 && work(x)
  }

  /** Any six consecutive days contain a working day. */
  ghost predicate Dense(work: Calendar) {
    forall d :: SomeWorkFrom(work, d)
  }

  lemma WorkWithinSix(work: Calendar, d: int, ahead: bool)
    requires Dense(work)
    ensures exists k :: 1 <= k <= 6 && WorkingAt(work, d, ahead, k)
  {
    var first := if ahead then d + 1 else d - 6;
    assert SomeWorkFrom(work, first);
    var x :| first <= x <= first + 5 && work(x);
    assert WorkingAt(work, d, ahead, Abs(x - d));
  }

  /** How far the next working day is, which is what bounds the loop. */
  ghost function Gap(work: Calendar, d: int, ahead: bool): (g: nat)
    requires Dense(work)
    ensures 1 <= g <= 6 && WorkingAt(work, d, ahead, g)
    ensures forall j | 1 <= j < g :: !WorkingAt(work, d, ahead, j)
  {
    WorkWithinSix(work, d, ahead);
    FirstWork(work, d, ahead, 1)
  }

  ghost function FirstWork(work: Calendar, d: int, ahead: bool, from: nat): (g: nat)
    requires 1 <= from <= 6
    requires exists j :: from <= j <= 6 && WorkingAt(work, d, ahead, j)
    requires forall j | 1 <= j < from :: !WorkingAt(work, d, ahead, j)
    ensures from <= g <= 6 && WorkingAt(work, d, ahead, g)
    ensures forall j | 1 <= j < g :: !WorkingAt(work, d, ahead, j)
    decreases 6 - from
  {
    if WorkingAt(work, d, ahead, from) then from else FirstWork(work, d, ahead, from + 1)
  }

  ghost function NextWork(work: Calendar, d: int, ahead: bool): int
    requires Dense(work)
  {
    Along(d, ahead, Gap(work, d, ahead))
  }

  function Abs(n: int): nat {
    if n < 0 then -n else n
  }

  ghost function Shifted(work: Calendar, d: int, n: int): int
    requires Dense(work)
    decreases Abs(n)
  {
    if n == 0 then d
    else if n > 0 then Shifted(work, NextWork(work, d, true), n - 1)
    else Shifted(work, NextWork(work, d, false), n + 1)
  }

  /** A step that lands on a day off leaves the next working day where it was. */
  lemma StepOverDayOff(work: Calendar, d: int, ahead: bool)
    requires Dense(work) && !WorkingAt(work, d, ahead, 1)
    ensures var s := Along(d, ahead, 1);
            Gap(work, s, ahead) == Gap(work, d, ahead) - 1 && NextWork(work, s, ahead) == NextWork(work, d, ahead)
  {
    var s, g := Along(d, ahead, 1), Gap(work, d, ahead);
    forall j: nat ensures WorkingAt(work, s, ahead, j) == WorkingAt(work, d, ahead, j + 1) {
    }
    assert g >= 2 && WorkingAt(work, s, ahead, g - 1);
    assert WorkingAt(work, d, ahead, Gap(work, s, ahead) + 1);
    assert forall j | 1 <= j < g - 1 :: !WorkingAt(work, s, ahead, j);
  }

  lemma StepOntoWorkingDay(work: Calendar, d: int, ahead: bool)
    requires Dense(work) && WorkingAt(work, d, ahead, 1)
    ensures NextWork(work, d, ahead) == Along(d, ahead, 1)
  {
  }

  /** `shift_working_days`, with dates as day numbers. A calendar without a run of six days off is
      what makes it terminate. */
  method ShiftWorkingDays(work: Calendar, start: int, count: int) returns (d: int)
    requires Dense(work)
    ensures d == Shifted(work, start, count)
  {
    d := start;
    var n := count;
    var step := if n > 0 then 1 else -1;
    while n != 0
      invariant if step == 1 then n >= 0 else step == -1 && n <= 0
      invariant Shifted(work, d, n) == Shifted(work, start, count)
      decreases Abs(n), Gap(work, d, step == 1)
    {
      ghost var before := d;
      d := d + step;
      assert d == Along(before, step == 1, 1);
      if work(d) {
        StepOntoWorkingDay(work, before, step == 1);
        n := n - step;
      } else {
        StepOverDayOff(work, before, step == 1);
      }
    }
  }

  // ---------------------------------------------- what the shift means

  /** Working days among the `k` days that follow `d`, ahead or back. */
  function Crossed(work: Calendar, d: int, ahead: bool, k: nat): nat {
    if k == 0 then 0
    else Crossed(work, d, ahead, k - 1) + if WorkingAt(work, d, ahead, k) then 1 else 0
  }

  lemma {:induction false} CrossedInTwoLegs(work: Calendar, d: int, ahead: bool, j: nat, k: nat)
    ensures Crossed(work, d, ahead, j + k)
            == Crossed(work, d, ahead, j) + Crossed(work, Along(d, ahead, j), ahead, k)
  {
    if k > 0 {
      CrossedInTwoLegs(work, d, ahead, j, k - 1);
      assert WorkingAt(work, d, ahead, j + k) == WorkingAt(work, Along(d, ahead, j), ahead, k);
    }
  }

  lemma {:induction false} CrossedDaysOff(work: Calendar, d: int, ahead: bool, k: nat)
    requires forall j | 1 <= j <= k :: !WorkingAt(work, d, ahead, j)
    ensures Crossed(work, d, ahead, k) == 0
  {
    if k > 0 {
      CrossedDaysOff(work, d, ahead, k - 1);
    }
  }

  /** The shift lands on a working day after crossing exactly |n| working days. */
  lemma {:induction false} ShiftLands(work: Calendar, d: int, n: int) returns (k: nat)
    requires Dense(work) && n != 0
    ensures Along(d, n > 0, k) == Shifted(work, d, n)
    ensures k > 0 && WorkingAt(work, d, n > 0, k) && Crossed(work, d, n > 0, k) == Abs(n)
    decreases Abs(n)
  {
    var ahead := n > 0;
    var g := Gap(work, d, ahead);
    CrossedDaysOff(work, d, ahead, g - 1);
    var rest: nat := 0;
    var m := if ahead then n - 1 else n + 1;
    if m != 0 {
      rest := ShiftLands(work, Along(d, ahead, g), m);
    }
    k := g + rest;
    CrossedInTwoLegs(work, d, ahead, g, rest);
  }

  lemma {:induction false} CrossedGrows(work: Calendar, d: int, ahead: bool, j: nat, k: nat)
    requires j <= k
    ensures Crossed(work, d, ahead, j) <= Crossed(work, d, ahead, k)
    ensures j < k && WorkingAt(work, d, ahead, k) ==> Crossed(work, d, ahead, j) < Crossed(work, d, ahead, k)
    decreases k
  {
    if j < k {
      CrossedGrows(work, d, ahead, j, k - 1);
    }
  }

  /** It is the only such day, so landing and crossing together define the shift. */
  lemma ShiftIsTheNthWorkingDay(work: Calendar, d: int, n: int, k: nat)
    requires Dense(work) && n != 0
    ensures Along(d, n > 0, k) == Shifted(work, d, n)
            <==> WorkingAt(work, d, n > 0, k) && Crossed(work, d, n > 0, k) == Abs(n)
  {
    var j := ShiftLands(work, d, n);
    if j < k {
      CrossedGrows(work, d, n > 0, j, k);
    } else if k < j {
      CrossedGrows(work, d, n > 0, k, j);
    }
  }

  /** Shifts of the same sign add. */
  lemma {:induction false} ShiftsAdd(work: Calendar, d: int, a: int, b: int)
    requires Dense(work) && ((a >= 0 && b >= 0) || (a <= 0 && b <= 0))
    ensures Shifted(work, Shifted(work, d, a), b) == Shifted(work, d, a + b)
    decreases Abs(a)
  {
    if a > 0 {
      ShiftsAdd(work, NextWork(work, d, true), a - 1, b);
    } else if a < 0 {
      ShiftsAdd(work, NextWork(work, d, false), a + 1, b);
    }
  }

  /** The way back crosses the start instead of the end. */
  lemma {:induction false} CrossedBackwards(work: Calendar, d: int, ahead: bool, k: nat)
    ensures var r := Along(d, ahead, k);
            Crossed(work, r, !ahead, k) + (if work(r) then 1 else 0)
            == Crossed(work, d, ahead, k) + if work(d) then 1 else 0
  {
    if k > 0 {
      var r, s := Along(d, ahead, k), Along(d, ahead, k - 1);
      CrossedBackwards(work, d, ahead, k - 1);
      CrossedInTwoLegs(work, r, !ahead, 1, k - 1);
      assert Along(r, !ahead, 1) == s;
      assert Crossed(work, r, !ahead, 1) == if work(s) then 1 else 0 by {
        assert WorkingAt(work, r, !ahead, 1) == work(s);
        assert Crossed(work, r, !ahead, 0) == 0;
      }
      assert WorkingAt(work, d, ahead, k) == work(r);
    }
  }

  /** Shifting a working day by n and then by -n returns it. */
  lemma ShiftAndBack(work: Calendar, d: int, n: int)
    requires Dense(work) && work(d)
    ensures Shifted(work, Shifted(work, d, n), -n) == d
  {
    if n != 0 {
      var k := ShiftLands(work, d, n);
      CrossedBackwards(work, d, n > 0, k);
      ShiftIsTheNthWorkingDay(work, Shifted(work, d, n), -n, k);
    }
  }

  /** A longer shift lands strictly further, whatever the signs. */
  lemma ShiftIsMonotone(work: Calendar, d: int, a: int, b: int)
    requires Dense(work) && a < b
    ensures Shifted(work, d, a) < Shifted(work, d, b)
  {
    if a >= 0 {
      ShiftsAdd(work, d, a, b - a);
      var k := ShiftLands(work, Shifted(work, d, a), b - a);
    } else if b <= 0 {
      ShiftsAdd(work, d, b, a - b);
      var k := ShiftLands(work, Shifted(work, d, b), a - b);
    } else {
      var j := ShiftLands(work, d, a);
      var k := ShiftLands(work, d, b);
    }
  }
}
