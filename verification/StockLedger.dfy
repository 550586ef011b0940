/** Stock of customer material: one booking, and any interleaving of booking transactions.
    Totals and movements are stored in thousandths; what a user enters may be finer. */
module StockLedger {
  import opened DecimalContext
  import opened Digits
  import opened Money
  import opened Numbers
  import opened StockRounding
  import opened Wrappers

  datatype MovementType = Receive | Issue | Consume | Adjust

  /** A decimal as the caller gives it, or none. */
  datatype Quantity = Missing | Finite(amount: Decimal) | PlusInfinity | MinusInfinity | NaN

  /** `ComparisonRaises` is the decimal module's own error, `ColumnOverflow` the database's; the others
      are the service's. */
  datatype Refusal =
    | QuantityRequired | NotPositive | ComparisonRaises | NotANumber | ForeignOrder | InsufficientStock
    | ColumnOverflow

  /** `_signed_quantity`: only the minus of a withdrawal goes through the decimal context. */
  function Signed(kind: MovementType, raw: Decimal): (signed: Decimal)
    ensures signed.exp >= raw.exp
  {
    match kind
    case Adjust => raw
    case Receive => raw.(neg := false)
    case _ => Fix(raw.(neg := raw.coeff > 0))
  }

  /** An audit row's totals are the numbers computed, not the ones stored. */
  datatype Audit = Audit(before: nat, after: Decimal, signed: Decimal)

  /** What `add_movement` writes: the movement row, the new total and the audit row. */
  datatype Booking = Booking(movement: int, total: nat, audit: Audit)

  /** `qty <= 0`, which raises for a NaN. */
  predicate AtMostZero(quantity: Quantity)
    requires !quantity.Missing? && !quantity.NaN?
  {
    match quantity
    case Finite(amount) => amount.neg || amount.coeff == 0
    case MinusInfinity => true
    case _ => false
  }

  /** The checks made before the row is locked. */
  function Accepted(kind: MovementType, quantity: Quantity, foreign: bool): Result<Decimal, Refusal> {
    if quantity.Missing? then Failure(QuantityRequired)
    else if quantity.NaN? && !kind.Adjust? then Failure(ComparisonRaises)
    else if !kind.Adjust? && AtMostZero(quantity) then Failure(NotPositive)
    else if !quantity.Finite? then Failure(NotANumber)
    else if foreign then Failure(ForeignOrder)
    else Success(Signed(kind, quantity.amount))
  }

  predicate Overflows(stored: int) {
    stored <= 0 - LIMIT || stored >= LIMIT
  }

  /** The booking made from the total read under the lock. */
  function Book(current: nat, signed: Decimal): Result<Booking, Refusal> {
    var total := NewTotal(current, signed);
    if BelowZero(total) then Failure(InsufficientStock)
    else if Overflows(Stored(signed)) || Overflows(Stored(total)) then Failure(ColumnOverflow)
    else Success(Booking(Stored(signed), StoredSize(total), Audit(current, total, signed)))
  }

  /** A booking is refused exactly when more is withdrawn than there is, in any unit 10^u fine enough, or when the
      movement or the new total needs ten digits before the point. */
  lemma BookRefusesExactly(current: nat, signed: Decimal, u: int)
    requires u <= UnitOf(signed)
    ensures var short := signed.neg && Scaled(signed, u) > current * Pow10(-3 - u);
            var full := !(-1_000_000_000_000 < Stored(signed) < 1_000_000_000_000)
                        || !(-1_000_000_000_000 < Stored(NewTotal(current, signed)) < 1_000_000_000_000);
            && (Book(current, signed) == Failure(InsufficientStock) <==> short)
            && (Book(current, signed) == Failure(ColumnOverflow) <==> !short && full)
            && (Book(current, signed).Success? <==> !short && !full)
  {
    ShortIff(current, signed, u);
    LimitIs();
  }

  /** A booking that succeeds stores its total as the column does. */
  lemma BookingFits(current: nat, signed: Decimal)
    requires current < LIMIT && Book(current, signed).Success?
    ensures Fitting(current, signed)
    ensures Book(current, signed).value.total == Stored(NewTotal(current, signed)) < LIMIT
  {
    BookingDrift(current, signed);
  }

  // ---------------------------------------------------------- one ledger

  datatype Ledger = Ledger(total: nat, movements: seq<int>, trail: seq<Audit>)

  const NEW_ASSET := Ledger(0, [], [])

  function Post(l: Ledger, b: Booking): Ledger {
    Ledger(b.total, l.movements + [b.movement], l.trail + [b.audit])
  }

  function Sum(xs: seq<int>): int {
    if xs == [] then 0 else Sum(xs[..|xs| - 1]) + xs[|xs| - 1]
  }

  function DriftCount(trail: seq<Audit>): nat {
    if trail == [] then 0
    else
      var last := trail[|trail| - 1];
      DriftCount(trail[..|trail| - 1]) + if Drifts(last.before, last.signed) then 1 else 0
  }

  /** The total that the audit trail alone gives. */
  function TrailTotal(trail: seq<Audit>): int {
    if trail == [] then 0 else Stored(trail[|trail| - 1].after)
  }

  /** Each audit row starts from what the one before left, ends in the sum the decimal context makes, and the
      movement is what it signed for. */
  predicate Chained(trail: seq<Audit>, movements: seq<int>) {
    |trail| == |movements| &&
    (trail == [] ||
     var n := |trail| - 1;
     && trail[n].before == TrailTotal(trail[..n])
     && trail[n].after == NewTotal(trail[n].before, trail[n].signed)
     && Fitting(trail[n].before, trail[n].signed)
     && movements[n] == Stored(trail[n].signed)
     && Chained(trail[..n], movements[..n]))
  }

  predicate Balanced(l: Ledger) {
    && l.total < LIMIT
    && l.total == Sum(l.movements) + DriftCount(l.trail)
    && l.total == TrailTotal(l.trail)
    && Chained(l.trail, l.movements)
  }

  /** One booking keeps the ledger in balance. */
  lemma PostingKeepsBalance(l: Ledger, signed: Decimal)
    requires Balanced(l) && Book(l.total, signed).Success?
    ensures Balanced(Post(l, Book(l.total, signed).value))
  {
    var b := Book(l.total, signed).value;
    var p := Post(l, b);
    BookingFits(l.total, signed);
    BookingDrift(l.total, signed);
    assert p.movements[..|l.movements|] == l.movements && p.trail[..|l.trail|] == l.trail;
  }

  /** What a booking of `raw` does: withdrawals take their magnitude and never raise the stock, receipts add theirs
      and never lower it, and a correction is booked with its own sign; the movement and an audit row are added. */
  ghost predicate BookedAs(kind: MovementType, raw: Decimal, before: Ledger, after: Ledger, movement: int) {
    && after.movements == before.movements + [movement]
    && 0 <= after.total - (before.total + movement) <= 1
    && |after.trail| == |before.trail| + 1 && after.trail[..|before.trail|] == before.trail
    && (var last := after.trail[|before.trail|];
        last.before == before.total && Stored(last.after) == after.total && Stored(last.signed) == movement)
    && (kind.Issue? || kind.Consume? ==>
          && after.total <= before.total && movement <= 0
          && (|DigitsOf(raw.coeff)| <= 28 ==> movement == 0 - StoredSize(raw)))
    && (kind.Receive? ==> after.total >= before.total && movement == StoredSize(raw))
    && (kind.Adjust? ==> movement == if raw.neg then 0 - StoredSize(raw) else StoredSize(raw))
  }

  lemma BookingMoves(l: Ledger, kind: MovementType, raw: Decimal)
    requires l.total < LIMIT && Book(l.total, Signed(kind, raw)).Success?
    requires kind.Adjust? || (!raw.neg && raw.coeff > 0)
    ensures var b := Book(l.total, Signed(kind, raw)).value;
            BookedAs(kind, raw, l, Post(l, b), b.movement)
  {
    var signed := Signed(kind, raw);
    BookingFits(l.total, signed);
    BookingDrift(l.total, signed);
    MovementIs(kind, raw);
    if kind.Issue? || kind.Consume? {
      WithdrawalDoesNotGrow(l.total, signed);
    }
  }

  lemma MovementIs(kind: MovementType, raw: Decimal)
    requires kind.Adjust? || (!raw.neg && raw.coeff > 0)
    ensures var movement := Stored(Signed(kind, raw));
            && (kind.Issue? || kind.Consume? ==>
                  movement <= 0 && (|DigitsOf(raw.coeff)| <= 28 ==> movement == 0 - StoredSize(raw)))
            && (kind.Receive? ==> movement == StoredSize(raw))
            && (kind.Adjust? ==> movement == if raw.neg then 0 - StoredSize(raw) else StoredSize(raw))
  {
    if kind.Issue? || kind.Consume? {
      if |DigitsOf(raw.coeff)| <= 28 {
        ShortIsKept(raw.(neg := true));
      }
    }
  }

  // ------------------------------------------------- `add_movement` in place

  class AssetRow {
    var currentQuantity: nat
    var movements: seq<int>
    var trail: seq<Audit>

    function View(): Ledger
      reads this
    {
      Ledger(currentQuantity, movements, trail)
    }

    constructor ()
      ensures View() == NEW_ASSET && Balanced(View())
    {
      currentQuantity := 0;
      movements := [];
      trail := [];
    }

    /** `add_movement`: the checks of what is asked for, then the booking. */
    method AddMovement(kind: MovementType, quantity: Quantity, foreign: bool) returns (r: Result<int, Refusal>)
      requires Balanced(View())
      modifies this
      ensures Balanced(View())
      ensures var checked := Accepted(kind, quantity, foreign);
              if checked.Failure? then r == Failure(checked.error) && View() == old(View())
              else
                var booked := Book(old(currentQuantity), checked.value);
                if booked.Failure? then r == Failure(booked.error) && View() == old(View())
                else r == Success(booked.value.movement) && View() == Post(old(View()), booked.value)
      ensures quantity.Missing? ==> r == Failure(QuantityRequired)
      ensures quantity.NaN? ==> r == Failure(if kind.Adjust? then NotANumber else ComparisonRaises)
      ensures quantity.MinusInfinity? ==> r == Failure(if kind.Adjust? then NotANumber else NotPositive)
      ensures quantity.PlusInfinity? ==> r == Failure(NotANumber)
      ensures quantity.Finite? && !kind.Adjust? && (quantity.amount.neg || quantity.amount.coeff == 0) ==>
        r == Failure(NotPositive)
      ensures quantity.Finite? && (kind.Adjust? || (!quantity.amount.neg && quantity.amount.coeff > 0)) ==>
        if foreign then r == Failure(ForeignOrder)
        else r.Success? || r.error == InsufficientStock || r.error == ColumnOverflow
      ensures r.Success? ==> BookedAs(kind, quantity.amount, old(View()), View(), r.value)
    {
      if quantity.Missing? {
        return Failure(QuantityRequired);
      }
      if !kind.Adjust? {
        if quantity.NaN? {
          return Failure(ComparisonRaises);
        }
        if AtMostZero(quantity) {
          return Failure(NotPositive);
        }
      }
      if !quantity.Finite? {
        return Failure(NotANumber);
      }
      if foreign {
        return Failure(ForeignOrder);
      }
      r := BookLocked(kind, quantity.amount);
    }

    /** The rest of `add_movement`, on the row read again under its lock. */
    method BookLocked(kind: MovementType, raw: Decimal) returns (r: Result<int, Refusal>)
      requires Balanced(View()) && (kind.Adjust? || (!raw.neg && raw.coeff > 0))
      modifies this
      ensures Balanced(View())
      ensures var booked := Book(old(currentQuantity), Signed(kind, raw));
              if booked.Failure? then r == Failure(booked.error) && View() == old(View())
              else r == Success(booked.value.movement) && View() == Post(old(View()), booked.value)
      ensures r.Success? ==> BookedAs(kind, raw, old(View()), View(), r.value)
    {
      var signed := Signed(kind, raw);
      var newTotal := NewTotal(currentQuantity, signed);
      if BelowZero(newTotal) {
        return Failure(InsufficientStock);
      }
      var movement := Stored(signed);
      if Overflows(movement) || Overflows(Stored(newTotal)) {
        return Failure(ColumnOverflow);
      }
      PostingKeepsBalance(View(), signed);
      BookingMoves(View(), kind, raw);
      movements := movements + [movement];
      var before := currentQuantity;
      currentQuantity := StoredSize(newTotal);
      trail := trail + [Audit(before, newTotal, signed)];
      return Success(movement);
    }
  }

  // ----------------------------------------------------- interleavings

  type Tx = int

  /** Where a booking transaction is. `Locked` and `Written` carry what it read and wrote. */
  datatype Phase = Waiting(signed: Decimal) | Locked(signed: Decimal, read: nat) | Written(booking: Booking)

  datatype System = System(committed: Ledger, holder: Option<Tx>, open: map<Tx, Phase>)

  const START := System(NEW_ASSET, None, map[])

  datatype Action =
    | Begin(tx: Tx, kind: MovementType, quantity: Quantity, foreign: bool)
    | Lock(tx: Tx)
    | Write(tx: Tx)
    | Commit(tx: Tx)
    | Rollback(tx: Tx)

  function Close(s: System, tx: Tx): System {
    s.(open := s.open - {tx}, holder := if s.holder == Some(tx) then None else s.holder)
  }

  /** One step of one transaction; a step that cannot happen changes nothing. A write overwrites
      the total with a number computed from what was read, so only the lock stands between two
      transactions and a lost update. */
  function Step(s: System, a: Action): System {
    match a
    case Begin(tx, kind, quantity, foreign) =>
      var checked := Accepted(kind, quantity, foreign);
      if tx in s.open || checked.Failure? then s
      else s.(open := s.open[tx := Waiting(checked.value)])
    case Lock(tx) =>
      if tx in s.open && s.open[tx].Waiting? && s.holder.None?
      then s.(holder := Some(tx), open := s.open[tx := Locked(s.open[tx].signed, s.committed.total)])
      else s
    case Write(tx) =>
      if tx in s.open && s.open[tx].Locked? then
        var booked := Book(s.open[tx].read, s.open[tx].signed);
        if booked.Failure? then Close(s, tx) else s.(open := s.open[tx := Written(booked.value)])
      else s
    case Commit(tx) =>
      if tx in s.open && s.open[tx].Written?
      then Close(s.(committed := Post(s.committed, s.open[tx].booking)), tx)
      else s
    case Rollback(tx) =>
      if tx in s.open then Close(s, tx) else s
  }

  function Run(actions: seq<Action>): System {
    if actions == [] then START
    else Step(Run(actions[..|actions| - 1]), actions[|actions| - 1])
  }

  /** Only the holder has read the row, and what it read is still the committed total. */
  ghost predicate LockIsExclusive(s: System) {
    forall tx | tx in s.open && !s.open[tx].Waiting? ::
      s.holder == Some(tx) &&
      match s.open[tx]
      case Locked(_, read) => read == s.committed.total
      case Written(b) => Book(s.committed.total, b.audit.signed) == Success(b)
      case Waiting(_) => true
  }

  lemma CommitKeepsBalance(s: System, tx: Tx)
    requires Balanced(s.committed) && LockIsExclusive(s) && tx in s.open && s.open[tx].Written?
    ensures var t := Step(s, Commit(tx)); Balanced(t.committed) && LockIsExclusive(t)
  {
    PostingKeepsBalance(s.committed, s.open[tx].booking.audit.signed);
  }

  /** A step that commits nothing. */
  lemma OthersKeepLock(s: System, a: Action)
    requires LockIsExclusive(s) && !a.Commit?
    ensures Step(s, a).committed == s.committed && LockIsExclusive(Step(s, a))
  {
  }

  lemma StepKeepsBalance(s: System, a: Action)
    requires Balanced(s.committed) && LockIsExclusive(s)
    ensures Balanced(Step(s, a).committed) && LockIsExclusive(Step(s, a))
  {
    if !a.Commit? {
      OthersKeepLock(s, a);
    } else if a.tx in s.open && s.open[a.tx].Written? {
      CommitKeepsBalance(s, a.tx);
    }
  }

  lemma {:induction false} RunKeepsBalance(actions: seq<Action>)
    ensures Balanced(Run(actions).committed) && LockIsExclusive(Run(actions))
  {
    if actions != [] {
      RunKeepsBalance(actions[..|actions| - 1]);
      StepKeepsBalance(Run(actions[..|actions| - 1]), actions[|actions| - 1]);
    }
  }

  /** In every interleaving stock is never negative, fits its column, and the trail alone rebuilds it. */
  lemma StockIsNeverNegativeAndTraceable(actions: seq<Action>)
    ensures var l := Run(actions).committed;
            && 0 <= l.total < LIMIT
            && Chained(l.trail, l.movements)
            && l.total == TrailTotal(l.trail)
  {
    RunKeepsBalance(actions);
  }

  /** In every interleaving stock equals the sum of its movements exactly when no committed booking
      drifted: no withdrawal had a fourth decimal of exactly 5, and no sum was lifted to such a half by
      the rounding to 28 digits. */
  lemma StockIsSumOfMovementsIff(actions: seq<Action>)
    ensures var l := Run(actions).committed;
            l.total == Sum(l.movements)
            <==> forall i | 0 <= i < |l.trail| :: !Drifts(l.trail[i].before, l.trail[i].signed)
  {
    RunKeepsBalance(actions);
    NoDriftIff(Run(actions).committed.trail);
  }

  lemma {:induction false} NoDriftIff(trail: seq<Audit>)
    ensures DriftCount(trail) == 0 <==> forall i | 0 <= i < |trail| :: !Drifts(trail[i].before, trail[i].signed)
  {
    if trail != [] {
      NoDriftIff(trail[..|trail| - 1]);
    }
  }

  // --------------------------------------------- quantities with few decimals

  predicate AtMostDecimals(a: Action, k: nat) {
    a.Begin? && a.quantity.Finite? ==> a.quantity.amount.exp >= 0 - k
  }

  predicate EnteredWith(actions: seq<Action>, k: nat) {
    forall i | 0 <= i < |actions| :: AtMostDecimals(actions[i], k)
  }

  function SignedOf(p: Phase): Decimal {
    if p.Written? then p.booking.audit.signed else p.signed
  }

  predicate FewDecimals(s: System, k: nat) {
    && (forall tx | tx in s.open :: SignedOf(s.open[tx]).exp >= 0 - k)
    && (forall i | 0 <= i < |s.committed.trail| :: s.committed.trail[i].signed.exp >= 0 - k)
  }

  lemma StepKeepsDecimals(s: System, a: Action, k: nat)
    requires FewDecimals(s, k) && AtMostDecimals(a, k)
    ensures FewDecimals(Step(s, a), k)
  {
  }

  lemma {:induction false} RunKeepsDecimals(actions: seq<Action>, k: nat)
    requires EnteredWith(actions, k)
    ensures FewDecimals(Run(actions), k)
  {
    if actions != [] {
      RunKeepsDecimals(actions[..|actions| - 1], k);
      StepKeepsDecimals(Run(actions[..|actions| - 1]), actions[|actions| - 1], k);
    }
  }

  lemma {:induction false} ChainFits(trail: seq<Audit>, movements: seq<int>, i: nat)
    requires Chained(trail, movements) && i < |trail|
    ensures Fitting(trail[i].before, trail[i].signed)
  {
    if i < |trail| - 1 {
      ChainFits(trail[..|trail| - 1], movements[..|trail| - 1], i);
    }
  }

  /** When no quantity is entered with more than 19 decimals, stock equals the sum of its movements exactly
      when no committed withdrawal had a fourth decimal of exactly 5 and no other after it. */
  lemma StockIsSumWithFewDecimals(actions: seq<Action>)
    requires EnteredWith(actions, 19)
    ensures var l := Run(actions).committed;
            l.total == Sum(l.movements) <==> forall i | 0 <= i < |l.trail| :: !HalfWithdrawal(l.trail[i].signed)
  {
    StockIsSumOfMovementsIff(actions);
    RunKeepsBalance(actions);
    RunKeepsDecimals(actions, 19);
    var l := Run(actions).committed;
    forall i | 0 <= i < |l.trail| ensures !LiftedToHalf(l.trail[i].before, l.trail[i].signed) {
      ChainFits(l.trail, l.movements, i);
      FewDecimalsAreExact(l.trail[i].before, l.trail[i].signed);
    }
  }

  /** With at most three decimals, as the columns have, it always does. */
  lemma StockIsSumOfThousandths(actions: seq<Action>)
    requires EnteredWith(actions, 3)
    ensures Run(actions).committed.total == Sum(Run(actions).committed.movements)
  {
    StockIsSumWithFewDecimals(actions);
    RunKeepsDecimals(actions, 3);
  }

  // ------------------------------------------------- runs whose stock drifts

  function OneBooking(tx: Tx, kind: MovementType, amount: Decimal): seq<Action> {
    [Begin(tx, kind, Finite(amount), false), Lock(tx), Write(tx), Commit(tx)]
  }

  lemma RunStep(actions: seq<Action>, s: System, a: Action, t: System)
    requires Run(actions) == s && Step(s, a) == t
    ensures Run(actions + [a]) == t
  {
    assert (actions + [a])[..|actions|] == actions;
  }

  lemma RunFour(actions: seq<Action>, s: System, a: Action, t: System, b: Action, u: System, c: Action, v: System,
                d: Action, w: System)
    requires Run(actions) == s && Step(s, a) == t && Step(t, b) == u && Step(u, c) == v && Step(v, d) == w
    ensures Run(actions + [a, b, c, d]) == w
  {
    RunStep(actions, s, a, t);
    RunStep(actions + [a], t, b, u);
    RunStep(actions + [a] + [b], u, c, v);
    RunStep(actions + [a] + [b] + [c], v, d, w);
    assert actions + [a] + [b] + [c] + [d] == actions + [a, b, c, d];
  }

  /** A booking made while nobody else is at work. */
  lemma BookedAlone(actions: seq<Action>, tx: Tx, kind: MovementType, amount: Decimal)
    requires Run(actions).holder.None? && Run(actions).open == map[]
    requires kind.Adjust? || (!amount.neg && amount.coeff > 0)
    requires Book(Run(actions).committed.total, Signed(kind, amount)).Success?
    ensures Run(actions + OneBooking(tx, kind, amount))
         == System(Post(Run(actions).committed, Book(Run(actions).committed.total, Signed(kind, amount)).value),
                   None, map[])
  {
    var s := Run(actions);
    var signed := Signed(kind, amount);
    var b := Book(s.committed.total, signed).value;
    var started := s.(open := map[tx := Waiting(signed)]);
    var locked := System(s.committed, Some(tx), map[tx := Locked(signed, s.committed.total)]);
    var written := System(s.committed, Some(tx), map[tx := Written(b)]);
    var done := System(Post(s.committed, b), None, map[]);
    assert Step(s, Begin(tx, kind, Finite(amount), false)) == started;
    assert Step(started, Lock(tx)) == locked;
    assert Step(locked, Write(tx)) == written;
    assert map[tx := Written(b)] - {tx} == map[];
    assert Step(written, Commit(tx)) == done;
    RunFour(actions, s, Begin(tx, kind, Finite(amount), false), started, Lock(tx), locked, Write(tx), written,
            Commit(tx), done);
  }

  const HALF_A_THOUSANDTH := Decimal(false, 5, -4)

  function Thousandths(c: nat): Decimal {
    Decimal(false, c, -3)
  }

  lemma ThousandthsAreKept(c: nat)
    requires c < LIMIT
    ensures NewTotal(0, Thousandths(c)) == Thousandths(c) && Stored(Thousandths(c)) == c
  {
    Pow10Grows(12, PRECISION);
    DigitsBound(c, PRECISION);
    assert Scaled(Thousandths(c), -3) == c * Pow10(0) == c;
  }

  lemma FirstReceiptBooks(c: nat)
    requires 0 < c < LIMIT
    ensures Book(0, Signed(Receive, Thousandths(c))).Success?
    ensures var b := Book(0, Signed(Receive, Thousandths(c))).value; b.movement == c && b.total == c
  {
    ThousandthsAreKept(c);
  }

  /** From one piece consume half a thousandth: the row says -0.001 and the total stays 1.000. */
  lemma HalfWithdrawalBooks()
    ensures Book(1000, Signed(Consume, HALF_A_THOUSANDTH)).Success?
    ensures var b := Book(1000, Signed(Consume, HALF_A_THOUSANDTH)).value; b.movement == -1 && b.total == 1000
  {
    assert ExactSum(1000, Signed(Consume, HALF_A_THOUSANDTH)) == Decimal(false, 9995, -4);
  }

  /** A receipt just below half a thousandth: the row says 0.000 and the total grows by 0.001. */
  lemma LiftedReceiptBooks(c: nat, k: nat)
    requires 0 < c < LIMIT - 1 && k > 0 && |DigitsOf(c)| + k == PRECISION
    ensures Book(c, Signed(Receive, AlmostHalf(k))).Success?
    ensures var b := Book(c, Signed(Receive, AlmostHalf(k))).value; b.movement == 0 && b.total == c + 1
  {
    ReceiptIsLifted(c, k);
  }

  /** Two bookings, one after the other. */
  lemma TwoBookings(first: MovementType, a: Decimal, second: MovementType, b: Decimal)
    requires first.Receive? && !a.neg && a.coeff > 0 && !b.neg && b.coeff > 0
    requires Book(0, Signed(first, a)).Success?
    requires Book(Book(0, Signed(first, a)).value.total, Signed(second, b)).Success?
    ensures var x := Book(0, Signed(first, a)).value;
            var y := Book(x.total, Signed(second, b)).value;
            var l := Run(OneBooking(0, first, a) + OneBooking(1, second, b)).committed;
            && l.total == y.total && l.movements == [x.movement, y.movement]
            && Sum(l.movements) == x.movement + y.movement
  {
    var x := Book(0, Signed(first, a)).value;
    var y := Book(x.total, Signed(second, b)).value;
    assert Run([]) == START;
    BookedAlone([], 0, first, a);
    assert [] + OneBooking(0, first, a) == OneBooking(0, first, a);
    BookedAlone(OneBooking(0, first, a), 1, second, b);
    SumOneMore([], x.movement);
    SumOneMore([x.movement], y.movement);
    assert [] + [x.movement] == [x.movement] && [x.movement] + [y.movement] == [x.movement, y.movement];
  }

  /** One piece received and half a thousandth of it consumed leave a stock of 1.000 and movements that
      sum to 0.999. */
  lemma HalfWithdrawalDrifts()
    ensures var l := Run(OneBooking(0, Receive, Thousandths(1000))
                    + OneBooking(1, Consume, HALF_A_THOUSANDTH)).committed;
            l.total == 1000 && l.movements == [1000, -1] && Sum(l.movements) == 999
  {
    FirstReceiptBooks(1000);
    HalfWithdrawalBooks();
    TwoBookings(Receive, Thousandths(1000), Consume, HALF_A_THOUSANDTH);
  }

  /** Any stock drifts by a receipt just below half a thousandth that brings the sum to 29 digits. With one
      piece in stock that is 0.0004999999999999999999999999; with twelve digits in stock, 20 decimals do. */
  lemma LiftedReceiptDrifts(c: nat, k: nat)
    requires 0 < c < LIMIT - 1 && k > 0 && |DigitsOf(c)| + k == PRECISION
    ensures var l := Run(OneBooking(0, Receive, Thousandths(c)) + OneBooking(1, Receive, AlmostHalf(k))).committed;
            l.total == c + 1 && l.movements == [c, 0] && Sum(l.movements) == c
  {
    FirstReceiptBooks(c);
    LiftedReceiptBooks(c, k);
    TwoBookings(Receive, Thousandths(c), Receive, AlmostHalf(k));
  }

  lemma SumOneMore(xs: seq<int>, x: int)
    ensures Sum(xs + [x]) == Sum(xs) + x
  {
    assert (xs + [x])[..|xs|] == xs;
  }
}
