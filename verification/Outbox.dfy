/** The e-mail outbox, one row at a time: backoff, outcomes, the retry job and its purge.
    Times are seconds. */
module Outbox {
  import opened Wrappers

  const MAX_ATTEMPTS: nat := 12
  const BACKOFF_BASE := 60
  const BACKOFF_CAP := 4 * 3600
  const INLINE_GRACE := 2 * 60
  const SENT_RETENTION := 7 * 86400
  const FAILED_RETENTION := 30 * 86400

  type Context = string

  datatype Row = Row(context: Option<Context>, attempts: nat, nextAttemptAt: int,
                     sentAt: Option<int>, failedAt: Option<int>) {

    predicate Pending() {
      sentAt.None? && failedAt.None?
    }

    predicate Due(now: int) {
      Pending() && nextAttemptAt <= now
    }

    predicate Purgeable(now: int) {
      || (sentAt.Some? && sentAt.value < now - SENT_RETENTION)
      || (failedAt.Some? && failedAt.value < now - FAILED_RETENTION)
    }

    /** Pending with its context, sent without it, or failed; and never two of these. */
    predicate Orderly() {
      && (Pending() ==> context.Some? && attempts < MAX_ATTEMPTS)
      && (sentAt.Some? ==> context.None?)
      && (sentAt.None? || failedAt.None?)
    }
  }

  function Pow2(n: nat): (p: nat)
    ensures p >= 1
  {
    if n == 0 then 1 else 2 * Pow2(n - 1)
  }

  function Min(a: int, b: int): int { if a <= b then a else b }

  function Max(a: int, b: int): int { if a <= b then b else a }

  /** `backoff_after` */
  function BackoffAfter(attempts: int): int {
    Min(BACKOFF_BASE * Pow2(Min(Max(0, attempts - 1), 20)), BACKOFF_CAP)
  }

  lemma {:induction false} Pow2Grows(m: nat, n: nat)
    requires m <= n
    ensures Pow2(m) <= Pow2(n)
    decreases n
  {
    if m < n {
      Pow2Grows(m, n - 1);
    }
  }

  /** The waits are positive, never shrink, and are capped at four hours. */
  lemma BackoffGrowsToTheCap(a: int, b: int)
    requires a <= b
    ensures 60 <= BackoffAfter(a) <= BackoffAfter(b) <= 4 * 3600
    ensures b >= 9 ==> BackoffAfter(b) == 4 * 3600
  {
    Pow2Grows(0, Min(Max(0, a - 1), 20));
    Pow2Grows(Min(Max(0, a - 1), 20), Min(Max(0, b - 1), 20));
    if b >= 9 {
      Pow2Grows(8, Min(Max(0, b - 1), 20));
    }
  }

  function NewRow(context: Context, now: int): Row {
    Row(Some(context), 0, now + INLINE_GRACE, None, None)
  }

  /** `_record_outcome` */
  function Recorded(row: Row, sent: bool, tries: nat, now: int): Row {
    var attempts := row.attempts + tries;
    if sent then row.(sentAt := Some(now), attempts := attempts, context := None)
    else if attempts >= MAX_ATTEMPTS then row.(failedAt := Some(now), attempts := attempts)
    else row.(attempts := attempts, nextAttemptAt := now + BackoffAfter(attempts))
  }

  /** `_drop_if_public_demo` */
  function Dropped(row: Row, now: int): Row {
    row.(failedAt := Some(now), context := None)
  }

  /** An outcome, field by field: the tries made are added in every case, a failed try waits by their sum, and
      the twelfth gives up. */
  lemma RecordedFields(row: Row, sent: bool, tries: nat, now: int)
    requires row.Pending()
    ensures var r := Recorded(row, sent, tries, now);
            && r.attempts == row.attempts + tries
            && r.sentAt == (if sent then Some(now) else None)
            && r.failedAt == (if !sent && row.attempts + tries >= 12 then Some(now) else None)
            && r.context == (if sent then None else row.context)
            && (r.sentAt.None? && r.failedAt.None? ==> r.nextAttemptAt == now + BackoffAfter(row.attempts + tries))
  {
  }

  /** A mail that is dropped is failed at once and loses its context. */
  lemma DroppedFields(row: Row, now: int)
    ensures var r := Dropped(row, now);
            && r.failedAt == Some(now) && r.context.None?
            && r.attempts == row.attempts && r.sentAt == row.sentAt
  {
  }

  /** An outcome leaves the row in exactly one state, and a failure uses up attempts and waits. */
  lemma OutcomesAreOrderly(row: Row, sent: bool, tries: nat, now: int)
    requires row.Pending() && row.Orderly() && tries >= 1
    ensures var r := Recorded(row, sent, tries, now);
            && r.Orderly() && Dropped(row, now).Orderly()
            && (sent <==> r.sentAt.Some?)
            && (r.Pending() <==> !sent && row.attempts + tries < MAX_ATTEMPTS)
            && r.attempts > row.attempts
            && (r.Pending() ==> r.context == row.context && r.nextAttemptAt >= now + 60)
            && !r.Purgeable(now) && !Dropped(row, now).Purgeable(now)
  {
    BackoffGrowsToTheCap(row.attempts + tries, row.attempts + tries);
  }

  // ------------------------------------------ how long the job keeps trying

  /** Seconds of waiting between the deferral at `attempts` and giving up, one try at a time. */
  function WaitUntilGivingUp(attempts: nat): nat
    decreases MAX_ATTEMPTS - attempts
  {
    if attempts >= MAX_ATTEMPTS then 0
    else
      BackoffGrowsToTheCap(attempts, attempts);
      BackoffAfter(attempts) + WaitUntilGivingUp(attempts + 1)
  }

  /** The job's failed tries at `times`, each made when the row was due. */
  predicate FailedTries(row: Row, times: seq<int>)
    decreases |times|
  {
    times == [] || (row.Due(times[0]) && FailedTries(Recorded(row, false, 1, times[0]), times[1..]))
  }

  function AfterTries(row: Row, times: seq<int>): Row
    decreases |times|
  {
    if times == [] then row else AfterTries(Recorded(row, false, 1, times[0]), times[1..])
  }

  lemma {:induction false} GivingUpTakesAllTheWaits(row: Row, deferredAt: int, times: seq<int>)
    requires row.Pending() && row.attempts < MAX_ATTEMPTS
    requires row.nextAttemptAt == deferredAt + BackoffAfter(row.attempts)
    requires FailedTries(row, times) && AfterTries(row, times).failedAt.Some?
    ensures AfterTries(row, times).failedAt.value >= deferredAt + WaitUntilGivingUp(row.attempts)
    decreases |times|
  {
    var next := Recorded(row, false, 1, times[0]);
    if next.Pending() {
      GivingUpTakesAllTheWaits(next, times[0], times[1..]);
    } else {
      assert times[1..] == [];
      assert WaitUntilGivingUp(row.attempts + 1) == 0;
    }
  }

  /** The waits, attempt by attempt: they double from one minute to the cap of four hours. */
  lemma BackoffTable()
    ensures forall a | a <= 1 :: BackoffAfter(a) == 60
    ensures BackoffAfter(2) == 2 * 60
    ensures BackoffAfter(3) == 4 * 60 && BackoffAfter(4) == 8 * 60 && BackoffAfter(5) == 16 * 60
    ensures BackoffAfter(6) == 32 * 60 && BackoffAfter(7) == 64 * 60 && BackoffAfter(8) == 128 * 60
    ensures forall a | a >= 9 :: BackoffAfter(a) == 240 * 60
  {
    assert Pow2(0) == 1 && Pow2(1) == 2 && Pow2(2) == 4;
    assert Pow2(3) == 8 && Pow2(4) == 16 && Pow2(5) == 32 && Pow2(6) == 64 && Pow2(7) == 128;
    forall a | a >= 9 ensures BackoffAfter(a) == 240 * 60 {
      BackoffGrowsToTheCap(a, a);
    }
  }

  lemma WaitAfterThree()
    ensures WaitUntilGivingUp(3) == 972 * 60
  {
    BackoffTable();
    assert WaitUntilGivingUp(9) == 3 * 240 * 60 by {
      assert WaitUntilGivingUp(12) == 0;
      assert WaitUntilGivingUp(11) == 240 * 60;
      assert WaitUntilGivingUp(10) == 2 * 240 * 60;
    }
    assert WaitUntilGivingUp(6) == (32 + 64 + 128) * 60 + WaitUntilGivingUp(9) by {
      assert WaitUntilGivingUp(8) == 128 * 60 + WaitUntilGivingUp(9);
      assert WaitUntilGivingUp(7) == 64 * 60 + WaitUntilGivingUp(8);
    }
    assert WaitUntilGivingUp(3) == (4 + 8 + 16) * 60 + WaitUntilGivingUp(6) by {
      assert WaitUntilGivingUp(5) == 16 * 60 + WaitUntilGivingUp(6);
      assert WaitUntilGivingUp(4) == 8 * 60 + WaitUntilGivingUp(5);
    }
  }

  /** After three inline tries the job does not give up earlier than 972 minutes later. */
  lemma JobKeepsTryingForSixteenHours(row: Row, deferredAt: int, times: seq<int>)
    requires row.Pending() && row.attempts == 3
    requires row.nextAttemptAt == deferredAt + BackoffAfter(3)
    requires FailedTries(row, times) && AfterTries(row, times).failedAt.Some?
    ensures AfterTries(row, times).failedAt.value >= deferredAt + 972 * 60
  {
    WaitAfterThree();
    GivingUpTakesAllTheWaits(row, deferredAt, times);
  }

  /** Given up on by the job; a mail that was dropped has lost its context too. */
  predicate GivenUp(row: Row) {
    row.failedAt.Some? && row.context.Some?
  }

  /** The waits still due put giving up off until `goal` or later. */
  predicate Patient(row: Row, goal: int) {
    && (row.Pending() ==> row.nextAttemptAt + WaitUntilGivingUp(row.attempts + 1) >= goal)
    && (GivenUp(row) ==> row.failedAt.value >= goal)
  }

  /** One try of a due row, whatever comes of it, leaves its remaining waits. */
  lemma OneTryIsPatient(row: Row, sent: bool, now: int, goal: int)
    requires row.Due(now) && Patient(row, goal)
    ensures Patient(Recorded(row, sent, 1, now), goal) && Patient(Dropped(row, now), goal)
  {
  }

  // ------------------------------------------------ the job on its own

  datatype Stats = Stats(sent: nat, deferred: nat, purged: nat)

  /** How the mailer answers each try of a mail, counted from 0; it may answer in any way. */
  type Answers = nat -> bool

  /** `_send_with_retries`: it stops at the first success. */
  method SendWithRetries(answers: Answers, maxTries: nat) returns (sent: bool, tries: nat)
    requires maxTries >= 1
    ensures sent <==> exists i: nat | i < maxTries :: answers(i)
    ensures sent ==> 1 <= tries <= maxTries && answers(tries - 1) && forall i: nat | i < tries - 1 :: !answers(i)
    ensures !sent ==> tries == maxTries
  {
    sent, tries := false, 0;
    while !sent && tries < maxTries
      invariant tries <= maxTries && (sent ==> tries >= 1 && answers(tries - 1))
      invariant forall i: nat | i < (if sent then tries - 1 else tries) :: !answers(i)
      decreases maxTries - tries
    {
      sent := answers(tries);
      tries := tries + 1;
    }
  }

  /** `_attempt`: a mail that cannot be rendered counts as one failed try. */
  method Attempt(rendered: bool, answers: Answers, maxTries: nat) returns (sent: bool, tries: nat)
    requires maxTries >= 1
    ensures sent <==> rendered && exists i: nat | i < maxTries :: answers(i)
    ensures sent ==> 1 <= tries <= maxTries && answers(tries - 1) && forall i: nat | i < tries - 1 :: !answers(i)
    ensures !sent ==> tries == if rendered then maxTries else 1
  {
    if !rendered {
      return false, 1;
    }
    sent, tries := SendWithRetries(answers, maxTries);
  }

  type Table = map<string, Row>

  ghost predicate AllOrderly(rows: Table) {
    forall id | id in rows :: rows[id].Orderly()
  }

  /** Which mails are to be dropped, and which one try of the mailer would get through. */
  datatype Mailer = Mailer(suppressed: set<string>, reached: set<string>)

  /** What one job run at `now` may make of a row: nothing, or one outcome if it was due. */
  ghost predicate OneTry(before: Row, after: Row, now: int, suppressed: bool, reached: bool) {
    || after == before
    || (before.Due(now) && after == if suppressed then Dropped(before, now) else Recorded(before, reached, 1, now))
  }

  ghost predicate TriedAtMostOnce(before: Table, after: Table, now: int, mailer: Mailer) {
    && after.Keys == before.Keys
    && forall id | id in before :: OneTry(before[id], after[id], now, id in mailer.suppressed, id in mailer.reached)
  }

  /** The rows a batch has dealt with. */
  function Handled(before: Table, after: Table): set<string> {
    set id | id in before && id in after && after[id] != before[id]
  }

  function SentAmong(ids: set<string>, after: Table): set<string> {
    set id | id in ids && id in after && after[id].sentAt.Some?
  }

  /** No row of `rest` was due before one of `handled`. */
  ghost predicate EarliestFirst(rows: Table, handled: set<string>, rest: set<string>) {
    forall h, d | h in handled && d in rest && h in rows && d in rows :: rows[h].nextAttemptAt <= rows[d].nextAttemptAt
  }

  /** The rows that the query of the job could return: due ones, earliest first. */
  predicate IsNext(rows: Table, id: string, now: int) {
    id in rows && rows[id].Due(now)
    && forall other | other in rows && rows[other].Due(now) :: rows[id].nextAttemptAt <= rows[other].nextAttemptAt
  }

  lemma {:induction false} EarliestExists(rows: Table, ids: set<string>, now: int)
    requires ids != {} && forall id | id in ids :: id in rows
    ensures exists id :: id in ids && forall o | o in ids :: rows[id].nextAttemptAt <= rows[o].nextAttemptAt
  {
    var x :| x in ids;
    if ids != {x} {
      EarliestExists(rows, ids - {x}, now);
      var y :| y in ids - {x} && forall o | o in ids - {x} :: rows[y].nextAttemptAt <= rows[o].nextAttemptAt;
      var best := if rows[x].nextAttemptAt <= rows[y].nextAttemptAt then x else y;
      assert best in ids && forall o | o in ids :: rows[best].nextAttemptAt <= rows[o].nextAttemptAt by {
        forall o | o in ids ensures rows[best].nextAttemptAt <= rows[o].nextAttemptAt {
          if o != x {
            assert o in ids - {x};
          }
        }
      }
    }
  }

  function DueRows(rows: Table, now: int): set<string> {
    set id | id in rows && rows[id].Due(now)
  }

  function Expired(rows: Table, now: int): set<string> {
    set id | id in rows && rows[id].Purgeable(now)
  }

  lemma NextExists(rows: Table, now: int)
    requires DueRows(rows, now) != {}
    ensures exists id :: id in DueRows(rows, now) && IsNext(rows, id, now)
  {
    var due := DueRows(rows, now);
    EarliestExists(rows, due, now);
    var id :| id in due && forall o | o in due :: rows[id].nextAttemptAt <= rows[o].nextAttemptAt;
    assert IsNext(rows, id, now);
  }

  /** A batch under way: `n` rows dealt with, earliest first, and counted. */
  ghost predicate Batch(start: Table, rows: Table, now: int, mailer: Mailer, n: nat, stats: Stats) {
    && AllOrderly(rows) && TriedAtMostOnce(start, rows, now, mailer)
    && var handled := Handled(start, rows);
    && DueRows(rows, now) == DueRows(start, now) - handled && handled <= DueRows(start, now)
    && EarliestFirst(start, handled, DueRows(rows, now))
    && |handled| == n && stats.purged == 0
    && stats.sent == |SentAmong(handled, rows)|
    && stats.deferred == |handled - mailer.suppressed - SentAmong(handled, rows)|
  }

  lemma BatchStarts(rows: Table, now: int, mailer: Mailer)
    requires AllOrderly(rows)
    ensures Batch(rows, rows, now, mailer, 0, Stats(0, 0, 0))
  {
    assert Handled(rows, rows) == {};
    assert SentAmong({}, rows) == {};
    assert {} - mailer.suppressed - {} == {};
  }

  /** The row dealt with next leaves the due ones and joins the handled ones, and no other row moves. */
  lemma BatchMovesOn(start: Table, rows: Table, now: int, mailer: Mailer, id: string, after: Row)
    requires AllOrderly(rows) && TriedAtMostOnce(start, rows, now, mailer)
    requires DueRows(rows, now) == DueRows(start, now) - Handled(start, rows)
    requires Handled(start, rows) <= DueRows(start, now)
    requires IsNext(rows, id, now) && after != rows[id] && after.Orderly() && !after.Due(now)
    requires OneTry(rows[id], after, now, id in mailer.suppressed, id in mailer.reached)
    ensures var next := rows[id := after];
      && AllOrderly(next) && TriedAtMostOnce(start, next, now, mailer)
      && Handled(start, next) == Handled(start, rows) + {id} && id !in Handled(start, rows)
      && DueRows(next, now) == DueRows(rows, now) - {id} && id in DueRows(start, now)
  {
    assert id in DueRows(rows, now);
  }

  lemma DueAfter(due: set<string>, handled: set<string>, id: string, n: nat)
    requires handled <= due && id in due && id !in handled && |handled| == n
    ensures (due - handled) - {id} == due - (handled + {id})
    ensures handled + {id} <= due && |handled + {id}| == n + 1
  {
  }

  lemma BatchStaysInOrder(start: Table, rows: Table, now: int, mailer: Mailer, id: string)
    requires TriedAtMostOnce(start, rows, now, mailer)
    requires DueRows(rows, now) == DueRows(start, now) - Handled(start, rows)
    requires IsNext(rows, id, now) && EarliestFirst(start, Handled(start, rows), DueRows(rows, now))
    ensures EarliestFirst(start, Handled(start, rows) + {id}, DueRows(rows, now) - {id})
  {
    forall h, d | h in Handled(start, rows) + {id} && d in DueRows(rows, now) - {id} && h in start && d in start
      ensures start[h].nextAttemptAt <= start[d].nextAttemptAt
    {
      assert d in DueRows(rows, now) && d !in Handled(start, rows);
      assert start[d] == rows[d];
      if h == id {
        assert id in DueRows(rows, now) && start[id] == rows[id];
      }
    }
  }

  function JustIf(b: bool, id: string): set<string> {
    if b then {id} else {}
  }

  lemma OneMoreMember(s: set<string>, id: string, b: bool)
    requires id !in s
    ensures |s + JustIf(b, id)| == |s| + if b then 1 else 0
  {
    assert !b ==> s + {} == s;
  }

  lemma SentAmongMore(handled: set<string>, rows: Table, id: string, after: Row)
    requires id in rows && id !in handled
    ensures SentAmong(handled + {id}, rows[id := after]) == SentAmong(handled, rows) + JustIf(after.sentAt.Some?, id)
  {
  }

  lemma DeferredMore(handled: set<string>, suppressed: set<string>, sent: set<string>, id: string, isSent: bool)
    requires id !in handled && sent <= handled
    ensures handled + {id} - suppressed - (sent + JustIf(isSent, id))
         == (handled - suppressed - sent) + JustIf(!isSent && id !in suppressed, id)
  {
  }

  /** Counting the row: as sent, as deferred, or not at all when it was suppressed. */
  lemma BatchCounts(handled: set<string>, rows: Table, suppressed: set<string>, id: string, after: Row, stats: Stats)
    requires id in rows && id !in handled
    requires stats.sent == |SentAmong(handled, rows)|
    requires stats.deferred == |handled - suppressed - SentAmong(handled, rows)|
    ensures var next := rows[id := after];
      && |SentAmong(handled + {id}, next)| == stats.sent + (if after.sentAt.Some? then 1 else 0)
      && |handled + {id} - suppressed - SentAmong(handled + {id}, next)|
         == stats.deferred + (if after.sentAt.None? && id !in suppressed then 1 else 0)
  {
    var sent := SentAmong(handled, rows);
    SentAmongMore(handled, rows, id, after);
    DeferredMore(handled, suppressed, sent, id, after.sentAt.Some?);
    OneMoreMember(sent, id, after.sentAt.Some?);
    OneMoreMember(handled - suppressed - sent, id, after.sentAt.None? && id !in suppressed);
  }

  /** What an outcome is to its batch. */
  ghost predicate Settles(row: Row, after: Row, now: int, suppressed: bool, reached: bool) {
    && after != row && after.Orderly() && !after.Due(now) && OneTry(row, after, now, suppressed, reached)
    && (suppressed ==> after.sentAt.None?)
  }

  lemma OutcomeSettles(row: Row, now: int, sent: bool)
    requires row.Due(now) && row.Orderly()
    ensures Settles(row, Recorded(row, sent, 1, now), now, false, sent)
    ensures Settles(row, Dropped(row, now), now, true, sent)
  {
    OutcomesAreOrderly(row, sent, 1, now);
  }

  function Counted(stats: Stats, after: Row, suppressed: bool): Stats {
    if suppressed then stats
    else if after.sentAt.Some? then stats.(sent := stats.sent + 1)
    else stats.(deferred := stats.deferred + 1)
  }

  lemma BatchStep(start: Table, rows: Table, now: int, mailer: Mailer, n: nat, stats: Stats, id: string, after: Row)
    requires Batch(start, rows, now, mailer, n, stats) && IsNext(rows, id, now)
    requires Settles(rows[id], after, now, id in mailer.suppressed, id in mailer.reached)
    ensures Batch(start, rows[id := after], now, mailer, n + 1, Counted(stats, after, id in mailer.suppressed))
  {
    var handled := Handled(start, rows);
    BatchMovesOn(start, rows, now, mailer, id, after);
    BatchStaysInOrder(start, rows, now, mailer, id);
    BatchCounts(handled, rows, mailer.suppressed, id, after, stats);
    DueAfter(DueRows(start, now), handled, id, n);
  }

  lemma BatchSize(start: Table, rows: Table, now: int, n: nat, limit: nat)
    requires |Handled(start, rows)| == n <= limit && Handled(start, rows) <= DueRows(start, now)
    requires DueRows(rows, now) == DueRows(start, now) - Handled(start, rows)
    requires n == limit || DueRows(rows, now) == {}
    ensures n == Min(limit, |DueRows(start, now)|)
  {
    var due, handled := DueRows(start, now), Handled(start, rows);
    assert due == (due - handled) + handled;
    assert |due| == |due - handled| + |handled|;
  }

  class Outbox {
    var rows: Table

    constructor ()
      ensures rows == map[]
    {
      rows := map[];
    }

    method Enqueue(id: string, context: Context, now: int)
      requires id !in rows && AllOrderly(rows)
      modifies this
      ensures rows == old(rows)[id := NewRow(context, now)] && AllOrderly(rows)
      ensures rows[id] == Row(Some(context), 0, now + 120, None, None)
    {
      rows := rows[id := Row(Some(context), 0, now + INLINE_GRACE, None, None)];
    }

    method RecordOutcome(id: string, sent: bool, tries: nat, now: int)
      requires id in rows && rows[id].Pending() && tries >= 1 && AllOrderly(rows)
      modifies this
      ensures rows == old(rows)[id := Recorded(old(rows)[id], sent, tries, now)] && AllOrderly(rows)
      ensures id in rows && rows[id].attempts == old(rows)[id].attempts + tries
      ensures sent ==> rows[id].sentAt == Some(now) && rows[id].failedAt.None? && rows[id].context.None?
      ensures !sent ==> rows[id].sentAt.None? && rows[id].context == old(rows)[id].context
      ensures !sent ==> rows[id].failedAt == if old(rows)[id].attempts + tries >= 12 then Some(now) else None
      ensures !sent && old(rows)[id].attempts + tries < 12 ==>
        rows[id].nextAttemptAt == now + BackoffAfter(old(rows)[id].attempts + tries)
    {
      var row := rows[id];
      OutcomesAreOrderly(row, sent, tries, now);
      var attempts := row.attempts + tries;
      if sent {
        row := row.(sentAt := Some(now), attempts := attempts, context := None);
      } else if attempts >= MAX_ATTEMPTS {
        row := row.(failedAt := Some(now), attempts := attempts);
      } else {
        row := row.(attempts := attempts, nextAttemptAt := now + BackoffAfter(attempts));
      }
      rows := rows[id := row];
    }

    /** `deliver_row` with nobody else at work: a row that is not pending is left alone. */
    method DeliverRow(id: string, suppressed: bool, rendered: bool, answers: Answers, maxTries: nat, now: int)
        returns (sent: bool)
      requires AllOrderly(rows) && maxTries >= 1
      modifies this
      ensures AllOrderly(rows)
      ensures id !in old(rows) || !old(rows)[id].Pending() ==> rows == old(rows) && !sent
      ensures id in old(rows) && old(rows)[id].Pending() && suppressed ==>
        rows == old(rows)[id := Dropped(old(rows)[id], now)] && !sent
      ensures id in old(rows) && old(rows)[id].Pending() && !suppressed ==>
        && (sent <==> rendered && exists i: nat | i < maxTries :: answers(i))
        && exists tries: nat :: rows == old(rows)[id := Recorded(old(rows)[id], sent, tries, now)]
             && (sent ==> 1 <= tries <= maxTries && answers(tries - 1) && forall i: nat | i < tries - 1 :: !answers(i))
             && (!sent ==> tries == if rendered then maxTries else 1)
    {
      if id !in rows || !rows[id].Pending() {
        return false;
      }
      if suppressed {
        OutcomesAreOrderly(rows[id], false, 1, now);
        rows := rows[id := Dropped(rows[id], now)];
        return false;
      }
      var tries;
      sent, tries := Attempt(rendered, answers, maxTries);
      RecordOutcome(id, sent, tries, now);
    }

    /** The job's single try of a due row. */
    method TryOnce(id: string, mailer: Mailer, now: int, stats: Stats) returns (counted: Stats)
      requires AllOrderly(rows) && id in rows && rows[id].Due(now)
      modifies this
      ensures id in rows && rows == old(rows)[id := rows[id]]
      ensures Settles(old(rows)[id], rows[id], now, id in mailer.suppressed, id in mailer.reached)
      ensures counted == Counted(stats, rows[id], id in mailer.suppressed)
    {
      OutcomeSettles(rows[id], now, id in mailer.reached);
      if id in mailer.suppressed {
        rows := rows[id := Dropped(rows[id], now)];
        counted := stats;
      } else {
        var answers: Answers := _ => id in mailer.reached;
        assert answers(0) == (id in mailer.reached);
        var sent, tries := Attempt(true, answers, 1);
        RecordOutcome(id, sent, tries, now);
        counted := if sent then stats.(sent := stats.sent + 1) else stats.(deferred := stats.deferred + 1);
      }
    }

    /** The loop of `_drain_blocking`, with nobody else at work: at most `limit` due rows, earliest first,
        each tried once; it stops short only when nothing is due. */
    method DrainBatch(mailer: Mailer, now: int, limit: nat) returns (stats: Stats)
      requires AllOrderly(rows)
      modifies this
      ensures AllOrderly(rows) && TriedAtMostOnce(old(rows), rows, now, mailer)
      ensures forall id | id in Handled(old(rows), rows) ::
        old(rows)[id].sentAt.None? && old(rows)[id].failedAt.None? && old(rows)[id].nextAttemptAt <= now
      ensures |Handled(old(rows), rows)| == Min(limit, |DueRows(old(rows), now)|)
      ensures |Handled(old(rows), rows)| < limit ==>
        forall id | id in old(rows) && old(rows)[id].Pending() && old(rows)[id].nextAttemptAt <= now ::
          id in Handled(old(rows), rows)
      ensures EarliestFirst(old(rows), Handled(old(rows), rows), DueRows(old(rows), now) - Handled(old(rows), rows))
      ensures stats.purged == 0
      ensures stats.sent == |SentAmong(Handled(old(rows), rows), rows)|
      ensures stats.deferred
           == |Handled(old(rows), rows) - mailer.suppressed - SentAmong(Handled(old(rows), rows), rows)|
    {
      stats := Stats(0, 0, 0);
      ghost var start := rows;
      var n := 0;
      BatchStarts(rows, now, mailer);
      while n < limit
        invariant n <= limit && Batch(start, rows, now, mailer, n, stats)
      {
        var due := DueRows(rows, now);
        if due == {} {
          break;
        }
        NextExists(rows, now);
        var id :| id in due && IsNext(rows, id, now);
        ghost var before := rows;
        var counted := TryOnce(id, mailer, now, stats);
        BatchStep(start, before, now, mailer, n, stats, id, rows[id]);
        stats, n := counted, n + 1;
      }
      BatchSize(start, rows, now, n, limit);
      if n < limit {
        forall id | id in start && start[id].Pending() && start[id].nextAttemptAt <= now
          ensures id in Handled(start, rows)
        {
          assert id in DueRows(start, now) && id !in DueRows(rows, now);
        }
      }
    }

    /** The purge takes sent rows older than 7 days and failed rows older than 30, nothing pending. */
    method Purge(now: int) returns (purged: nat)
      requires AllOrderly(rows)
      modifies this
      ensures AllOrderly(rows) && rows == old(rows) - Expired(old(rows), now)
      ensures forall id :: id in rows <==>
        && id in old(rows)
        && (old(rows)[id].sentAt.Some? ==> now - old(rows)[id].sentAt.value <= 7 * 86400)
        && (old(rows)[id].failedAt.Some? ==> now - old(rows)[id].failedAt.value <= 30 * 86400)
      ensures purged == |Expired(old(rows), now)|
    {
      var gone := Expired(rows, now);
      rows := rows - gone;
      purged := |gone|;
    }

    /** `_drain_blocking`: one batch, then the purge. A row is gone exactly when it was long settled. */
    method Drain(mailer: Mailer, now: int, limit: nat) returns (stats: Stats)
      requires AllOrderly(rows)
      modifies this
      ensures AllOrderly(rows) && rows.Keys == old(rows).Keys - Expired(old(rows), now)
      ensures forall id | id in rows ::
        OneTry(old(rows)[id], rows[id], now, id in mailer.suppressed, id in mailer.reached)
      ensures stats.purged == |Expired(old(rows), now)|
      ensures stats.sent + stats.deferred <= Min(limit, |DueRows(old(rows), now)|)
    {
      stats := DrainBatch(mailer, now, limit);
      SameExpired(old(rows), rows, now, mailer);
      StatsAddUp(Handled(old(rows), rows), rows, mailer.suppressed);
      var purged := Purge(now);
      stats := stats.(purged := purged);
    }
  }

  lemma StatsAddUp(handled: set<string>, rows: Table, suppressed: set<string>)
    ensures |SentAmong(handled, rows)| + |handled - suppressed - SentAmong(handled, rows)| <= |handled|
  {
    var sent := SentAmong(handled, rows);
    var rest := handled - suppressed - sent;
    assert |sent + rest| == |sent| + |rest|;
    SubsetIsSmaller(sent + rest, handled);
  }

  lemma SubsetIsSmaller(a: set<string>, b: set<string>)
    requires a <= b
    ensures |a| <= |b|
  {
    assert b == a + (b - a);
    assert |b| == |a| + |b - a|;
  }

  /** A batch settles rows too recently to be purged with it. */
  lemma SameExpired(before: Table, after: Table, now: int, mailer: Mailer)
    requires AllOrderly(before) && TriedAtMostOnce(before, after, now, mailer)
    ensures Expired(after, now) == Expired(before, now)
  {
    forall id | id in before ensures after[id].Purgeable(now) == before[id].Purgeable(now) {
      assert OneTry(before[id], after[id], now, id in mailer.suppressed, id in mailer.reached);
      if after[id] != before[id] {
        OutcomesAreOrderly(before[id], true, 1, now);
        OutcomesAreOrderly(before[id], false, 1, now);
      }
    }
  }
}
