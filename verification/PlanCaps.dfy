/** Plan caps: count usage, then insert, by any interleaving of one tenant's transactions. */
module PlanCaps {
  import opened Wrappers

  const MIB := 1024 * 1024

  datatype Metric = Users | Contacts | Orders | StorageMb

  /** Raw usage: rows for the first three metrics, bytes for storage. */
  datatype Usage = Usage(users: nat, contacts: nat, orders: nat, storageBytes: nat) {

    function At(m: Metric): nat {
      match m
      case Users => users
      case Contacts => contacts
      case Orders => orders
      case StorageMb => storageBytes
    }

    function With(m: Metric, n: nat): (u: Usage)
      ensures u.At(m) == n && forall o: Metric :: o != m ==> u.At(o) == At(o)
    {
      match m
      case Users => this.(users := n)
      case Contacts => this.(contacts := n)
      case Orders => this.(orders := n)
      case StorageMb => this.(storageBytes := n)
    }
  }

  const NOTHING := Usage(0, 0, 0, 0)

  function Scale(m: Metric): nat {
    if m.StorageMb? then MIB else 1
  }

  /** What the plan's limit is compared with: whole rows, or whole MiB rounded down. */
  function Metered(m: Metric, raw: nat): nat {
    raw / Scale(m)
  }

  function Max(a: int, b: int): int {
    if a >= b then a else b
  }

  /** `delta`: one for a row, and for a file of `size` bytes its MiB rounded up, at least one. */
  function Delta(m: Metric, size: nat): nat {
    if m.StorageMb? then Max(1, (size + MIB - 1) / MIB) else size
  }

  /** Usage counts rows, or whole MiB rounded down; a request counts its rows, or its MiB rounded up, at least one. */
  lemma UnitsOf(m: Metric, raw: nat, size: nat)
    ensures m.StorageMb? ==> Metered(m, raw) * 1048576 <= raw < (Metered(m, raw) + 1) * 1048576
    ensures m.StorageMb? && size > 0 ==> (Delta(m, size) - 1) * 1048576 < size <= Delta(m, size) * 1048576
    ensures m.StorageMb? && size == 0 ==> Delta(m, size) == 1
    ensures !m.StorageMb? ==> Metered(m, raw) == raw && Delta(m, size) == size
  {
  }

  /** Rounding usage down and the request up leaves less than one MiB above the limit. */
  lemma RoundingNeverExceedsByAMebibyte(m: Metric, raw: nat, size: nat, limit: nat)
    requires Metered(m, raw) + Delta(m, size) <= limit
    ensures raw + size < (limit + 1) * Scale(m) && Metered(m, raw + size) <= limit
  {
  }

  // ------------------------------------------------------------ the system

  type Tx = int

  /** `cap` is the limit the transaction read, if one applies to it. */
  datatype Request = Request(metric: Metric, size: nat, soft: bool, cap: Option<nat>)

  /** `Checked` remembers the raw usage counted, and what had been inserted without a cap and released
      by then. */
  datatype Phase =
    | Started(req: Request)
    | Locked(req: Request)
    | Checked(req: Request, counted: nat, bypassedBefore: nat, releasedBefore: nat)

  /** `bypassed` totals what transactions without a cap have inserted, `released` what was freed. */
  datatype System = System(usage: Usage, bypassed: Usage, released: Usage, holder: Option<Tx>,
                           open: map<Tx, Phase>)

  function Start(usage: Usage): System {
    System(usage, NOTHING, NOTHING, None, map[])
  }

  datatype Action =
    | Begin(tx: Tx, metric: Metric, size: nat, soft: bool, limit: Option<int>)
    | Lock(tx: Tx)
    | Check(tx: Tx)
    | Commit(tx: Tx)
    | Rollback(tx: Tx)
    | Release(metric: Metric, amount: nat)

  /** A missing or non-positive limit means no cap. */
  function CapOf(limit: Option<int>): Option<nat> {
    if limit.None? || limit.value <= 0 then None else Some(limit.value)
  }

  function Close(s: System, tx: Tx): System {
    s.(open := s.open - {tx}, holder := if s.holder == Some(tx) then None else s.holder)
  }

  predicate Over(req: Request, counted: nat) {
    req.cap.Some? && Metered(req.metric, counted) + Delta(req.metric, req.size) > req.cap.value
  }

  function Step(s: System, a: Action): System {
    match a
    case Begin(tx, metric, size, soft, limit) =>
      if tx in s.open || size == 0 then s
      else s.(open := s.open[tx := Started(Request(metric, size, soft, CapOf(limit)))])
    case Lock(tx) =>
      if tx in s.open && s.open[tx].Started? && s.open[tx].req.cap.Some? && s.holder.None?
      then s.(holder := Some(tx), open := s.open[tx := Locked(s.open[tx].req)])
      else s
    case Check(tx) =>
      if tx in s.open && s.open[tx].Locked? then
        var req := s.open[tx].req;
        var counted := s.usage.At(req.metric);
        if Over(req, counted) && !req.soft then Close(s, tx)
        else s.(open := s.open[tx := Checked(req, counted, s.bypassed.At(req.metric), s.released.At(req.metric))])
      else s
    case Commit(tx) =>
      if tx in s.open && (s.open[tx].Checked? || s.open[tx].req.cap.None?) then
        var req := s.open[tx].req;
        var m := req.metric;
        var after := s.usage.With(m, s.usage.At(m) + req.size);
        var bypassed := if req.cap.None? then s.bypassed.With(m, s.bypassed.At(m) + req.size) else s.bypassed;
        Close(s.(usage := after, bypassed := bypassed), tx)
      else s
    case Rollback(tx) =>
      if tx in s.open then Close(s, tx) else s
    case Release(metric, amount) =>
      var raw := s.usage.At(metric);
      var freed := if amount <= raw then amount else raw;
      s.(usage := s.usage.With(metric, raw - freed), released := s.released.With(metric, s.released.At(metric) + freed))
  }

  function Run(usage: Usage, actions: seq<Action>): System {
    if actions == [] then Start(usage)
    else Step(Run(usage, actions[..|actions| - 1]), actions[|actions| - 1])
  }

  /** What was inserted without a cap since `p` counted. */
  function Bypassed(s: System, p: Phase): int
    requires p.Checked?
  {
    s.bypassed.At(p.req.metric) - p.bypassedBefore
  }

  /** What was freed since `p` counted. */
  function Released(s: System, p: Phase): int
    requires p.Checked?
  {
    s.released.At(p.req.metric) - p.releasedBefore
  }

  /** A transaction that has counted holds the lock, and since it counted usage has changed only by
      inserts that took no lock and by what was freed. */
  ghost predicate CountIsCurrent(s: System) {
    forall tx | tx in s.open && !s.open[tx].Started? ::
      && s.holder == Some(tx) && s.open[tx].req.cap.Some?
      && (s.open[tx].Checked? ==>
            var p := s.open[tx];
            && (Over(p.req, p.counted) ==> p.req.soft)
            && p.bypassedBefore <= s.bypassed.At(p.req.metric) && p.releasedBefore <= s.released.At(p.req.metric)
            && s.usage.At(p.req.metric) == p.counted + Bypassed(s, p) - Released(s, p))
  }

  lemma StepKeepsCount(s: System, a: Action)
    requires CountIsCurrent(s)
    ensures CountIsCurrent(Step(s, a))
  {
  }

  lemma {:induction false} RunKeepsCount(usage: Usage, actions: seq<Action>)
    ensures CountIsCurrent(Run(usage, actions))
  {
    if actions != [] {
      RunKeepsCount(usage, actions[..|actions| - 1]);
      StepKeepsCount(Run(usage, actions[..|actions| - 1]), actions[|actions| - 1]);
    }
  }

  /** The step commits a hard request that was counted within its cap. */
  ghost predicate CommitsHard(s: System, tx: Tx) {
    tx in s.open && s.open[tx].Checked? && !s.open[tx].req.soft
  }

  /** In every interleaving a hard request commits within the limit it read exactly when the uncapped
      inserts since its count, less what was freed, fit the room its own insert leaves. Without any they
      do. Whatever they are, they are all that comes above the limit and one unit. */
  lemma HardRequestCommitsWithinItsLimit(usage: Usage, actions: seq<Action>, tx: Tx)
    requires CommitsHard(Run(usage, actions), tx)
    ensures var s := Run(usage, actions);
            var p := s.open[tx];
            var after := Step(s, Commit(tx)).usage.At(p.req.metric);
            && p.req.cap.Some?
            && (Metered(p.req.metric, after) <= p.req.cap.value
                <==> p.counted + p.req.size + Bypassed(s, p) - Released(s, p)
                     < (p.req.cap.value + 1) * Scale(p.req.metric))
            && (Bypassed(s, p) == 0 ==> Metered(p.req.metric, after) <= p.req.cap.value)
            && after < (p.req.cap.value + 1) * Scale(p.req.metric) + Bypassed(s, p)
  {
    RunKeepsCount(usage, actions);
    var s := Run(usage, actions);
    var p := s.open[tx];
    CommittedWithinLimit(p.req.metric, p.counted, p.req.size, p.req.cap.value, Bypassed(s, p), Released(s, p));
  }

  lemma MeteredWithin(m: Metric, raw: nat, limit: nat)
    ensures Metered(m, raw) <= limit <==> raw < (limit + 1) * Scale(m)
  {
  }

  lemma CommittedWithinLimit(m: Metric, counted: nat, size: nat, limit: nat, bypassed: nat, released: nat)
    requires Metered(m, counted) + Delta(m, size) <= limit && released <= counted + size + bypassed
    ensures var after := counted + size + bypassed - released;
      && (Metered(m, after) <= limit <==> after < (limit + 1) * Scale(m))
      && (bypassed == 0 ==> Metered(m, after) <= limit)
      && after < (limit + 1) * Scale(m) + bypassed
  {
    RoundingNeverExceedsByAMebibyte(m, counted, size, limit);
    MeteredWithin(m, counted + size + bypassed - released, limit);
  }

  lemma RunOneMore(usage: Usage, actions: seq<Action>, a: Action)
    ensures Run(usage, actions + [a]) == Step(Run(usage, actions), a)
  {
    assert (actions + [a])[..|actions|] == actions;
  }

  /** The allowance for uncapped inserts is needed: one between the count and the commit breaks the cap. */
  lemma UncappedInsertBreaksTheCap() returns (actions: seq<Action>)
    ensures actions == [Begin(1, Users, 1, false, Some(3)), Begin(2, Users, 1, false, None)]
                       + [Lock(1)] + [Check(1)] + [Commit(2)]
    ensures CommitsHard(Run(Usage(2, 0, 0, 0), actions), 1)
    ensures Metered(Users, Step(Run(Usage(2, 0, 0, 0), actions), Commit(1)).usage.At(Users)) == 4
  {
    var u := Usage(2, 0, 0, 0);
    var r1, r2 := Request(Users, 1, false, Some(3)), Request(Users, 1, false, None);
    RunOneMore(u, [], Begin(1, Users, 1, false, Some(3)));
    actions := [Begin(1, Users, 1, false, Some(3))];
    assert [] + actions == actions;
    RunOneMore(u, actions, Begin(2, Users, 1, false, None));
    actions := actions + [Begin(2, Users, 1, false, None)];
    assert Run(u, actions) == System(u, NOTHING, NOTHING, None, map[1 := Started(r1), 2 := Started(r2)]);
    RunOneMore(u, actions, Lock(1));
    actions := actions + [Lock(1)];
    assert Run(u, actions) == System(u, NOTHING, NOTHING, Some(1), map[1 := Locked(r1), 2 := Started(r2)]);
    RunOneMore(u, actions, Check(1));
    actions := actions + [Check(1)];
    assert Run(u, actions) == System(u, NOTHING, NOTHING, Some(1), map[1 := Checked(r1, 2, 0, 0), 2 := Started(r2)]);
    RunOneMore(u, actions, Commit(2));
    actions := actions + [Commit(2)];
    assert Run(u, actions) == System(Usage(3, 0, 0, 0), Usage(1, 0, 0, 0), NOTHING, Some(1),
                                      map[1 := Checked(r1, 2, 0, 0)]);
  }

  /** What a check decides: a hard request goes on exactly when it fits the limit, and a soft one always. */
  lemma CheckDecides(s: System, tx: Tx)
    requires tx in s.open && s.open[tx].Locked? && s.open[tx].req.cap.Some?
    ensures var req := s.open[tx].req;
            var raw := s.usage.At(req.metric);
            tx in Step(s, Check(tx)).open
            <==> req.soft || Metered(req.metric, raw) + Delta(req.metric, req.size) <= req.cap.value
  {
  }

  /** A hard request that nobody interferes with is inserted exactly when it fits the limit, and one without a limit,
      or with one that is not positive, always; and the lock is free again. */
  lemma LoneRequest(usage: Usage, m: Metric, size: nat, limit: Option<int>)
    requires size > 0
    ensures var capped := limit.Some? && limit.value > 0;
            var actions := [Begin(0, m, size, false, limit), Lock(0), Check(0), Commit(0)];
            var s := Run(usage, actions);
            && s.usage == (if !capped || Metered(m, usage.At(m)) + Delta(m, size) <= limit.value
                           then usage.With(m, usage.At(m) + size) else usage)
            && s.holder.None? && 0 !in s.open
  {
    var a, b, c, d := Begin(0, m, size, false, limit), Lock(0), Check(0), Commit(0);
    assert Run(usage, []) == Start(usage);
    RunOneMore(usage, [], a);
    RunOneMore(usage, [a], b);
    RunOneMore(usage, [a, b], c);
    RunOneMore(usage, [a, b, c], d);
    assert [] + [a] == [a] && [a] + [b] == [a, b] && [a, b] + [c] == [a, b, c] && [a, b, c] + [d] == [a, b, c, d];
    LoneSteps(usage, m, size, limit);
  }

  lemma LoneSteps(usage: Usage, m: Metric, size: nat, limit: Option<int>)
    requires size > 0
    ensures var capped := limit.Some? && limit.value > 0;
            var locked := Step(Step(Start(usage), Begin(0, m, size, false, limit)), Lock(0));
            var s := Step(Step(locked, Check(0)), Commit(0));
            && s.usage == (if !capped || Metered(m, usage.At(m)) + Delta(m, size) <= limit.value
                           then usage.With(m, usage.At(m) + size) else usage)
            && s.holder.None? && 0 !in s.open
  {
    var begun := Step(Start(usage), Begin(0, m, size, false, limit));
    assert begun.open == map[0 := Started(Request(m, size, false, CapOf(limit)))];
    var locked := Step(begun, Lock(0));
    var checked := Step(locked, Check(0));
    assert checked.usage == usage;
  }

  // ---------------------------------------------------- one limit throughout

  /** Every request for `m` is hard and reads the limit `limit`. */
  ghost predicate AllHard(actions: seq<Action>, m: Metric, limit: nat) {
    forall a | a in actions && a.Begin? && a.metric == m :: !a.soft && a.limit == Some(limit)
  }

  ghost predicate Capped(s: System, m: Metric, limit: nat) {
    forall tx | tx in s.open && s.open[tx].req.metric == m ::
      !s.open[tx].req.soft && s.open[tx].req.cap == Some(limit)
  }

  lemma CappedStep(s: System, a: Action, m: Metric, limit: nat)
    requires CountIsCurrent(s) && Capped(s, m, limit) && limit > 0
    requires s.bypassed.At(m) == 0 && s.usage.At(m) < (limit + 1) * Scale(m)
    requires a.Begin? && a.metric == m ==> !a.soft && a.limit == Some(limit)
    ensures var t := Step(s, a);
            Capped(t, m, limit) && t.bypassed.At(m) == 0 && t.usage.At(m) < (limit + 1) * Scale(m)
  {
    if a.Commit? && a.tx in s.open && s.open[a.tx].Checked? && s.open[a.tx].req.metric == m {
      var p := s.open[a.tx];
      RoundingNeverExceedsByAMebibyte(m, p.counted, p.req.size, limit);
    }
  }

  /** With one limit L and hard requests only, stored bytes stay strictly below (L + 1) MiB and rows
      at most L, at every moment of every interleaving, whatever the other metrics do. */
  lemma {:induction false} UsageStaysWithinTheLimit(usage: Usage, actions: seq<Action>, m: Metric, limit: nat)
    requires limit > 0 && AllHard(actions, m, limit) && usage.At(m) < (limit + 1) * Scale(m)
    ensures var s := Run(usage, actions);
            && Capped(s, m, limit) && s.bypassed.At(m) == 0
            && s.usage.At(m) < (limit + 1) * Scale(m)
  {
    if actions != [] {
      var init := actions[..|actions| - 1];
      UsageStaysWithinTheLimit(usage, init, m, limit);
      RunKeepsCount(usage, init);
      CappedStep(Run(usage, init), actions[|actions| - 1], m, limit);
    }
  }
}
