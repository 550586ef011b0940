/** `plan_orders`: every seeded order with its times, numbered by creation. */
module OrderPlan {
  import opened Wrappers
  import opened Dates
  import opened DemoClock
  import opened Digits
  import opened Sorting
  import opened Timeline

  /** `created` is the first event's wall reading. */
  datatype Planned = Planned(spec: OrderSpec, created: Wall, times: seq<Wall>,
                             requested: Option<int>, promised: Option<int>)

  /** An order number, printed as `f"{year}-{serial:06d}"`. */
  datatype Number = Number(year: int, serial: nat)

  datatype PlanError = DuplicateTitle | BadTimeline(rule: Implausible) | NoRoom

  // ------------------------------------------------------------- numbering

  /** A calendar's year of a day number, and what `_number_base` says of it. */
  datatype YearOf = YearOf(year: int -> int, base: int -> nat)

  ghost function CzechYears(): YearOf {
    YearOf(o => DateOf(o).year, o => NumberBase(o))
  }

  ghost function NumberBase(o: int): nat {
    DayOfYearRange(DateOf(o));
    DayOfYear(DateOf(o)) * 2 / 5
  }

  /** Numbers carry the local year, grow with creation within a year, and never repeat. */
  predicate NumberedByCreation(y: YearOf, ps: seq<Planned>, numbers: seq<Number>) {
    && |numbers| == |ps|
    && (forall i | 0 <= i < |ps| :: numbers[i].year == y.year(ps[i].created.day))
    && (forall i, j | 0 <= i < j < |ps| && numbers[i].year == numbers[j].year ::
          numbers[i].serial < numbers[j].serial)
  }

  /** How many of the first `n` orders are created in `year`. */
  function YearCount(y: YearOf, ps: seq<Planned>, n: nat, year: int): nat
    requires n <= |ps|
  {
    if n == 0 then 0 else YearCount(y, ps, n - 1, year) + if y.year(ps[n - 1].created.day) == year then 1 else 0
  }

  /** The base of the day whose order was the first of `year`. */
  function YearBase(y: YearOf, ps: seq<Planned>, n: nat, year: int): nat
    requires n <= |ps|
  {
    if n == 0 then 0
    else if YearCount(y, ps, n - 1, year) > 0 then YearBase(y, ps, n - 1, year)
    else y.base(ps[n - 1].created.day)
  }

  /** Order `i` counts on from the base of its year. */
  function SerialOf(y: YearOf, ps: seq<Planned>, i: nat): nat
    requires i < |ps|
  {
    var year := y.year(ps[i].created.day);
    YearBase(y, ps, i + 1, year) + YearCount(y, ps, i + 1, year)
  }

  /** The serial last given in each year that has one. */
  ghost predicate LastSerials(y: YearOf, ps: seq<Planned>, serial: map<int, nat>, n: nat) {
    && n <= |ps|
    && forall year ::
         (year in serial <==> YearCount(y, ps, n, year) > 0)
         && (year in serial ==> serial[year] == YearBase(y, ps, n, year) + YearCount(y, ps, n, year))
  }

  lemma NextSerial(y: YearOf, ps: seq<Planned>, serial: map<int, nat>, n: nat)
    requires n < |ps| && LastSerials(y, ps, serial, n)
    ensures var day := ps[n].created.day; var year := y.year(day);
      var next := (if year in serial then serial[year] else y.base(day)) + 1;
      next == SerialOf(y, ps, n) && LastSerials(y, ps, serial[year := next], n + 1)
  {
  }

  /** Within a year the base stays and the count grows. */
  lemma {:induction false} SerialsGrow(y: YearOf, ps: seq<Planned>, i: nat, j: nat, year: int)
    requires i < j <= |ps| && YearCount(y, ps, i, year) > 0
    ensures YearBase(y, ps, j, year) == YearBase(y, ps, i, year)
    ensures YearCount(y, ps, j, year) >= YearCount(y, ps, i, year)
    decreases j - i
  {
    if i < j - 1 {
      SerialsGrow(y, ps, i, j - 1, year);
    }
  }

  lemma NumbersGrow(y: YearOf, ps: seq<Planned>, i: nat, j: nat)
    requires i < j < |ps| && y.year(ps[i].created.day) == y.year(ps[j].created.day)
    ensures SerialOf(y, ps, i) < SerialOf(y, ps, j)
  {
    var year := y.year(ps[i].created.day);
    SerialsGrow(y, ps, i + 1, j + 1, year);
    if i + 1 < j {
      SerialsGrow(y, ps, i + 1, j, year);
    }
  }

  /** In the Czech calendar the first order of a year on its n-th day is numbered 2n/5 + 1, so never above
      147. */
  lemma SeasonStartsTheSerials(ps: seq<Planned>, i: nat)
    requires i < |ps| && YearCount(CzechYears(), ps, i, DateOf(ps[i].created.day).year) == 0
    ensures SerialOf(CzechYears(), ps, i) == DayOfYear(DateOf(ps[i].created.day)) * 2 / 5 + 1
    ensures 1 <= SerialOf(CzechYears(), ps, i) <= 147
  {
    DayOfYearRange(DateOf(ps[i].created.day));
  }

  /** Between two orders of a year that none of the same year lies between serials count on by one. */
  lemma SerialsCountOn(y: YearOf, ps: seq<Planned>, i: nat, j: nat)
    requires i < j < |ps| && y.year(ps[i].created.day) == y.year(ps[j].created.day)
    requires forall m | i < m < j :: y.year(ps[m].created.day) != y.year(ps[j].created.day)
    ensures SerialOf(y, ps, j) == SerialOf(y, ps, i) + 1
  {
    var year := y.year(ps[j].created.day);
    NoneCounted(y, ps, i + 1, j, year);
    SerialsGrow(y, ps, i + 1, j + 1, year);
  }

  lemma {:induction false} NoneCounted(y: YearOf, ps: seq<Planned>, i: nat, j: nat, year: int)
    requires i <= j <= |ps| && forall m | i <= m < j :: y.year(ps[m].created.day) != year
    ensures YearCount(y, ps, j, year) == YearCount(y, ps, i, year)
    decreases j - i
  {
    if i < j {
      NoneCounted(y, ps, i, j - 1, year);
    }
  }

  function NumberOf(y: YearOf, ps: seq<Planned>, i: nat): Number
    requires i < |ps|
  {
    Number(y.year(ps[i].created.day), SerialOf(y, ps, i))
  }

  method NumberOrders(y: YearOf, ps: seq<Planned>) returns (numbers: seq<Number>)
    ensures |numbers| == |ps| && forall i | 0 <= i < |ps| :: numbers[i] == NumberOf(y, ps, i)
    ensures NumberedByCreation(y, ps, numbers)
  {
    numbers := [];
    var serial: map<int, nat> := map[];
    for n := 0 to |ps|
      invariant LastSerials(y, ps, serial, n)
      invariant |numbers| == n && forall i | 0 <= i < n :: numbers[i] == NumberOf(y, ps, i)
    {
      NextSerial(y, ps, serial, n);
      var day := ps[n].created.day;
      var year := y.year(day);
      serial := serial[year := (if year in serial then serial[year] else y.base(day)) + 1];
      numbers := numbers + [Number(year, serial[year])];
    }
    forall i, j | 0 <= i < j < |ps| && numbers[i].year == numbers[j].year
      ensures numbers[i].serial < numbers[j].serial
    {
      NumbersGrow(y, ps, i, j);
    }
  }

  /** The printed number. */
  function NumberText(n: Number): string
    requires n.year >= 0
  {
    DigitsOf(n.year) + ("-" + Pad(n.serial, 6))
  }

  /** A number of up to six digits is the year, a dash and six digits. */
  lemma NumberAsPrinted(n: Number)
    requires n.year >= 0
    ensures var year, text := DigitsOf(n.year), NumberText(n);
      && |text| >= |year| + 7 && text[..|year|] == year && text[|year|] == '-'
      && Value(text[|year| + 1..]) == n.serial && AllDigits(text[|year| + 1..])
      && (n.serial < Pow10(6) ==> |text| == |year| + 7)
  {
    var year, serial, text := DigitsOf(n.year), Pad(n.serial, 6), NumberText(n);
    assert text[|year| + 1..] == serial;
    PadReadsBack(n.serial, 6);
    DigitsBound(n.serial, 6);
  }

  lemma DashIsWhereTheYearEnds(s: string, rest: string, t: string, tail: string)
    requires AllDigits(s) && AllDigits(t) && s + ("-" + rest) == t + ("-" + tail)
    ensures s == t && rest == tail
  {
    var a, b := s + ("-" + rest), t + ("-" + tail);
    assert forall i | 0 <= i < |s| :: a[i] == s[i];
    assert forall i | 0 <= i < |t| :: b[i] == t[i];
    assert a[|s|] == '-' && b[|t|] == '-';
    assert |s| == |t|;
    assert a[..|s|] == s && b[..|t|] == t && a[|s| + 1..] == rest && b[|t| + 1..] == tail;
  }

  /** Different numbers print differently, however many digits they have. */
  lemma NumberTextsDiffer(a: Number, b: Number)
    requires a.year >= 0 && b.year >= 0 && NumberText(a) == NumberText(b)
    ensures a == b
  {
    DashIsWhereTheYearEnds(DigitsOf(a.year), Pad(a.serial, 6), DigitsOf(b.year), Pad(b.serial, 6));
    DigitsReadBack(a.year);
    DigitsReadBack(b.year);
    PadReadsBack(a.serial, 6);
    PadReadsBack(b.serial, 6);
  }

  // -------------------------------------------------------------- the plan

  predicate UniqueTitles(specs: seq<OrderSpec>) {
    forall i, j | 0 <= i < j < |specs| :: specs[i].title != specs[j].title
  }

  ghost predicate Fits(spec: OrderSpec, cast: Cast) {
    Plausible(spec, cast) && !LongRun(Wds(spec.timeline))
  }

  /** One order with concrete times and dates. */
  ghost predicate PlannedFrom(c: Clock, p: Planned)
    requires c.Valid()
  {
    && SlotsOk(c, Wds(p.spec.timeline), p.times)
    && p.times != [] && p.created == p.times[0]
    && p.requested == (if p.spec.requested.Some? then Some(c.Day(-p.spec.requested.value)) else None)
    && p.promised == (if p.spec.promised.Some? then Some(c.Day(-p.spec.promised.value)) else None)
  }

  /** A requested or promised date `wd` working days off is a working day, after the anchor when `wd` is positive and
      before it when it is negative, with just that many working days on the way. */
  lemma DatesAreOff(c: Clock, p: Planned, wd: int) returns (k: nat)
    requires c.Valid() && PlannedFrom(c, p) && wd != 0
    requires p.spec.requested == Some(wd) || p.spec.promised == Some(wd)
    ensures var day := if p.spec.requested == Some(wd) then p.requested else p.promised;
            && day == Some(if wd > 0 then c.Anchor() + k else c.Anchor() - k)
            && k > 0 && c.work(day.value)
            && WorkdayShift.Crossed(c.work, c.Anchor(), wd > 0, k) == if wd > 0 then wd else 0 - wd
  {
    k := WorkdayShift.ShiftLands(c.work, c.Anchor(), wd);
    assert c.Day(-wd) == WorkdayShift.Shifted(c.work, c.Anchor(), wd);
  }

  /** The events' times as instants. */
  function Instants(c: Clock, p: Planned): (times: seq<int>)
    ensures |times| == |p.times|
  {
    seq(|p.times|, i requires 0 <= i < |p.times| => c.Utc(p.times[i]))
  }

  /** Every order planned from an accepted timeline has its milestones in order: its slots increase. */
  lemma PlannedMilestonesInOrder(c: Clock, p: Planned, cast: Cast)
    requires c.Valid() && PlannedFrom(c, p) && Plausible(p.spec, cast)
    ensures Ascending(Instants(c, p)) && InPipelineOrder(p.spec.timeline, Instants(c, p))
  {
    forall i, j | 0 <= i < j < |p.times| ensures c.Utc(p.times[i]) < c.Utc(p.times[j]) {
      SlotsIncrease(c, Wds(p.spec.timeline), p.times, i, j);
    }
    MilestonesInOrder(p.spec, cast, Instants(c, p));
  }

  method PlanOne(c: Clock, spec: OrderSpec, cast: Cast) returns (r: Result<Planned, PlanError>)
    requires c.Valid()
    ensures r.Success? <==> Fits(spec, cast)
    ensures r.Success? ==> r.value.spec == spec && PlannedFrom(c, r.value)
  {
    var ok := Validate(spec, cast);
    if ok.Fail? {
      return Failure(BadTimeline(ok.error));
    }
    var times := Slots(c, Wds(spec.timeline));
    if times.Failure? {
      return Failure(NoRoom);
    }
    var requested := DayIn(c, spec.requested);
    var promised := DayIn(c, spec.promised);
    return Success(Planned(spec, times.value[0], times.value, requested, promised));
  }

  /** `clock.day(-wd)` for a date counted in working days from the anchor. */
  method DayIn(c: Clock, wd: Option<int>) returns (day: Option<int>)
    requires c.Valid()
    ensures day == if wd.Some? then Some(c.Day(-wd.value)) else None
  {
    if wd.None? {
      return None;
    }
    var anchor := AnchorDay(c);
    var d := WorkdayShift.ShiftWorkingDays(c.work, anchor, wd.value);
    return Some(d);
  }

  method TitlesAreUnique(specs: seq<OrderSpec>) returns (unique: bool)
    ensures unique <==> UniqueTitles(specs)
  {
    for i := 0 to |specs|
      invariant forall a, b | 0 <= a < i && a < b < |specs| :: specs[a].title != specs[b].title
    {
      for j := i + 1 to |specs|
        invariant forall b | i < b < j :: specs[i].title != specs[b].title
      {
        if specs[i].title == specs[j].title {
          return false;
        }
      }
    }
    return true;
  }

  method PlanEach(c: Clock, specs: seq<OrderSpec>, cast: Cast) returns (r: Result<seq<Planned>, PlanError>)
    requires c.Valid()
    ensures r.Success? <==> forall i | 0 <= i < |specs| :: Fits(specs[i], cast)
    ensures r.Success? ==>
              |r.value| == |specs|
              && forall i | 0 <= i < |specs| :: r.value[i].spec == specs[i] && PlannedFrom(c, r.value[i])
  {
    var planned: seq<Planned> := [];
    for n := 0 to |specs|
      invariant |planned| == n && forall i | 0 <= i < n :: Fits(specs[i], cast)
      invariant forall i | 0 <= i < n :: planned[i].spec == specs[i] && PlannedFrom(c, planned[i])
    {
      var p := PlanOne(c, specs[n], cast);
      if p.Failure? {
        return Failure(p.error);
      }
      planned := planned + [p.value];
    }
    return Success(planned);
  }

  function ByCreation(c: Clock): Planned -> int {
    (p: Planned) => c.Utc(p.created)
  }

  /** Orders created at one instant stay in the order in which they are specified. */
  ghost predicate StableFrom(c: Clock, specs: seq<OrderSpec>, planned: seq<Planned>, ps: seq<Planned>) {
    && |planned| == |specs| && (forall i | 0 <= i < |specs| :: planned[i].spec == specs[i])
    && forall at :: WithKey(ByCreation(c), ps, at) == WithKey(ByCreation(c), planned, at)
  }

  /** The plan has every order, in order of creation, then of specification, numbered in that order. */
  ghost predicate IsPlan(c: Clock, y: YearOf, specs: seq<OrderSpec>, ps: seq<Planned>, numbers: seq<Number>)
    requires c.Valid()
  {
    && |ps| == |specs|
    && (forall p | p in ps :: PlannedFrom(c, p) && p.spec in specs)
    && (forall s | s in specs :: exists p :: p in ps && p.spec == s)
    && SortedBy(ByCreation(c), ps)
    && (exists planned :: StableFrom(c, specs, planned, ps))
    && NumberedByCreation(y, ps, numbers)
    && forall i | 0 <= i < |ps| :: numbers[i] == NumberOf(y, ps, i)
  }

  method PlanOrders(c: Clock, y: YearOf, specs: seq<OrderSpec>, cast: Cast)
    returns (r: Result<(seq<Planned>, seq<Number>), PlanError>)
    requires c.Valid()
    ensures r.Success? <==> UniqueTitles(specs) && forall i | 0 <= i < |specs| :: Fits(specs[i], cast)
    ensures r.Success? ==> IsPlan(c, y, specs, r.value.0, r.value.1)
  {
    var unique := TitlesAreUnique(specs);
    if !unique {
      return Failure(DuplicateTitle);
    }
    var planned := PlanEach(c, specs, cast);
    if planned.Failure? {
      return Failure(planned.error);
    }
    var ps := Sort(ByCreation(c), planned.value);
    var numbers := NumberOrders(y, ps);
    SortSorts(ByCreation(c), planned.value);
    forall at ensures WithKey(ByCreation(c), ps, at) == WithKey(ByCreation(c), planned.value, at) {
      SortIsStable(ByCreation(c), planned.value, at);
    }
    assert StableFrom(c, specs, planned.value, ps);
    SamePlans(planned.value, ps);
    AllPlanned(c, specs, planned.value, ps);
    return Success((ps, numbers));
  }

  lemma AllPlanned(c: Clock, specs: seq<OrderSpec>, planned: seq<Planned>, ps: seq<Planned>)
    requires c.Valid() && |planned| == |specs|
    requires forall i | 0 <= i < |specs| :: planned[i].spec == specs[i] && PlannedFrom(c, planned[i])
    requires forall p :: p in planned <==> p in ps
    ensures forall p | p in ps :: PlannedFrom(c, p) && p.spec in specs
    ensures forall s | s in specs :: exists p :: p in ps && p.spec == s
  {
    forall s | s in specs ensures exists p :: p in ps && p.spec == s {
      var i :| 0 <= i < |specs| && specs[i] == s;
      assert planned[i] in ps;
    }
  }

  lemma SamePlans(a: seq<Planned>, b: seq<Planned>)
    requires multiset(a) == multiset(b)
    ensures |a| == |b| && (forall p :: p in a <==> p in b)
  {
    assert |multiset(a)| == |multiset(b)|;
    forall p ensures p in a <==> p in b {
      assert p in a <==> p in multiset(a);
      assert p in b <==> p in multiset(b);
    }
  }
}
