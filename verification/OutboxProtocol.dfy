/** The outbox under concurrency: inline senders, job workers, rollbacks and purges, interleaved. */
module OutboxProtocol {
  import opened Wrappers
  import opened Outbox

  type Id = string
  type Tx = int
  type RunId = int

  datatype Who = Inline | Job(run: RunId)

  /** `Done` has written its outcome in its transaction, which is not committed yet. */
  datatype Stage = Claimed | Tried(sent: bool, tries: nat) | Done(after: Row, sent: bool)

  /** An open transaction that has claimed mail `id`, and the row it read. */
  datatype Sender = Sender(id: Id, row: Row, who: Who, maxTries: nat, stage: Stage)

  /** A job run works with the time it started at. */
  datatype JobRun = JobRun(now: int, active: bool)

  type Runs = map<RunId, JobRun>

  /** A mail's row (none once purged) and its row lock, with the history the properties speak of:
      the context enqueued, successful sends, those lost to a rollback, failures recorded, the job runs
      that tried it, and whether the row purged was a sent one. */
  datatype Mail = Mail(context: Context, row: Option<Row>, lock: Option<Tx>,
                       delivered: nat, lost: nat, failures: nat, triedIn: set<RunId>, purgedSent: bool)
  {
    predicate Pending() {
      row.Some? && row.value.Pending()
    }

    predicate RecordedSent() {
      if row.Some? then row.value.sentAt.Some? else purgedSent
    }
  }

  datatype System = System(clock: int, mails: map<Id, Mail>, senders: map<Tx, Sender>, runs: Runs)

  const START := System(0, map[], map[], map[])

  datatype Action =
    | Tick(seconds: nat)
    | Enqueue(id: Id, context: Context)
    | StartRun(run: RunId)
    | ClaimInline(tx: Tx, id: Id, maxTries: nat)
    | ClaimDue(tx: Tx, run: RunId, id: Id)
    | Suppress(tx: Tx)
    | Send(tx: Tx, sent: bool, tries: nat)
    | Record(tx: Tx)
    | Commit(tx: Tx)
    | Rollback(tx: Tx)
    | Purge(run: RunId)

  // ------------------------------------------------- what a step does to one mail

  function NewMail(context: Context, now: int): Mail {
    Mail(context, Some(NewRow(context, now)), None, 0, 0, 0, {}, false)
  }

  function SentIn(stage: Stage): bool {
    !stage.Claimed? && stage.sent
  }

  function Attempted(m: Mail, who: Who, sent: bool): Mail {
    m.(delivered := if sent then m.delivered + 1 else m.delivered,
       triedIn := if who.Job? then m.triedIn + {who.run} else m.triedIn)
  }

  function Committed(m: Mail, stage: Stage): Mail
    requires stage.Done?
  {
    m.(lock := None, row := Some(stage.after), failures := if stage.sent then m.failures else m.failures + 1)
  }

  function RolledBack(m: Mail, stage: Stage): Mail {
    m.(lock := None, lost := if SentIn(stage) then m.lost + 1 else m.lost)
  }

  function Purged(m: Mail, now: int): Mail {
    if m.row.Some? && m.row.value.Purgeable(now)
    then m.(row := None, purgedSent := m.row.value.sentAt.Some?)
    else m
  }

  // ------------------------------------------------------------- the system

  /** The time a sender stamps its outcome with: the job's own, or the clock. */
  function NowOf(s: System, who: Who): int {
    if who.Job? && who.run in s.runs then s.runs[who.run].now else s.clock
  }

  /** FOR UPDATE SKIP LOCKED finds the row: pending and not locked. */
  predicate Claimable(s: System, tx: Tx, id: Id) {
    tx !in s.senders && id in s.mails && s.mails[id].Pending() && s.mails[id].lock.None?
  }

  function ClaimedBy(s: System, tx: Tx, id: Id, who: Who, maxTries: nat): System
    requires Claimable(s, tx, id)
  {
    s.(mails := s.mails[id := s.mails[id].(lock := Some(tx))],
       senders := s.senders[tx := Sender(id, s.mails[id].row.value, who, maxTries, Claimed)])
  }

  predicate CanSend(s: System, tx: Tx, tries: nat) {
    tx in s.senders && s.senders[tx].stage.Claimed? && 1 <= tries <= s.senders[tx].maxTries
  }

  function Ended(runs: Runs, run: RunId): Runs {
    if run in runs then runs[run := runs[run].(active := false)] else runs
  }

  /** One step; a step that cannot happen changes nothing. */
  function Step(s: System, a: Action): System {
    match a
    case Tick(seconds) => s.(clock := s.clock + seconds)
    case Enqueue(id, context) =>
      if id in s.mails then s else s.(mails := s.mails[id := NewMail(context, s.clock)])
    case StartRun(run) =>
      if run in s.runs then s else s.(runs := s.runs[run := JobRun(s.clock, true)])
    case ClaimInline(tx, id, maxTries) =>
      if Claimable(s, tx, id) && maxTries >= 1 then ClaimedBy(s, tx, id, Inline, maxTries) else s
    case ClaimDue(tx, run, id) =>
      if Claimable(s, tx, id) && run in s.runs && s.runs[run].active
         && s.mails[id].row.value.Due(s.runs[run].now)
      then ClaimedBy(s, tx, id, Job(run), 1) else s
    case Suppress(tx) =>
      if tx in s.senders && s.senders[tx].stage.Claimed? then
        var w := s.senders[tx];
        s.(senders := s.senders[tx := w.(stage := Done(Dropped(w.row, NowOf(s, w.who)), false))])
      else s
    case Send(tx, sent, tries) =>
      if CanSend(s, tx, tries) && s.senders[tx].id in s.mails then
        var w := s.senders[tx];
        s.(senders := s.senders[tx := w.(stage := Tried(sent, tries))],
           mails := s.mails[w.id := Attempted(s.mails[w.id], w.who, sent)])
      else s
    case Record(tx) =>
      if tx in s.senders && s.senders[tx].stage.Tried? then
        var w := s.senders[tx];
        var after := Recorded(w.row, w.stage.sent, w.stage.tries, NowOf(s, w.who));
        s.(senders := s.senders[tx := w.(stage := Done(after, w.stage.sent))])
      else s
    case Commit(tx) =>
      if tx in s.senders && s.senders[tx].stage.Done? && s.senders[tx].id in s.mails then
        var w := s.senders[tx];
        s.(senders := s.senders - {tx}, mails := s.mails[w.id := Committed(s.mails[w.id], w.stage)])
      else s
    case Rollback(tx) =>
      // A transaction is lost at any point; in a job the exception ends the run.
      if tx in s.senders && s.senders[tx].id in s.mails then
        var w := s.senders[tx];
        s.(senders := s.senders - {tx}, mails := s.mails[w.id := RolledBack(s.mails[w.id], w.stage)],
           runs := if w.who.Job? then Ended(s.runs, w.who.run) else s.runs)
      else s
    case Purge(run) =>
      // The purge is the end of a job run.
      if run in s.runs && s.runs[run].active then
        s.(mails := map id | id in s.mails :: Purged(s.mails[id], s.runs[run].now),
           runs := Ended(s.runs, run))
      else s
  }

  function Run(actions: seq<Action>): System {
    if actions == [] then START
    else Step(Run(actions[..|actions| - 1]), actions[|actions| - 1])
  }

  // ------------------------------------------------------------- invariants

  /** None of the active runs that tried a mail would find it due again at `next`. */
  ghost predicate NotDueAgain(tried: set<RunId>, runs: Runs, next: int, except: Who) {
    forall r | r in tried && r in runs && runs[r].active && except != Job(r) :: next > runs[r].now
  }

  /** Pending with its own context, sent, failed, or purged; with at most twelve failures. */
  ghost predicate Accounted(m: Mail) {
    && (m.row.Some? ==> m.row.value.Orderly())
    && (m.Pending() ==> m.row.value.context == Some(m.context) && m.failures <= m.row.value.attempts)
    && m.failures <= MAX_ATTEMPTS
  }

  /** A mail nobody holds: its sends are the lost ones, plus one if it is recorded sent. */
  ghost predicate RestsSoundly(m: Mail, runs: Runs) {
    && Accounted(m)
    && m.delivered == m.lost + (if m.RecordedSent() then 1 else 0)
    && (m.Pending() ==> NotDueAgain(m.triedIn, runs, m.row.value.nextAttemptAt, Inline))
  }

  /** A mail that `w` holds: still pending as `w` read it, and sent at most once more. */
  ghost predicate HeldSoundly(m: Mail, w: Sender, runs: Runs) {
    && Accounted(m) && m.Pending() && m.row.value == w.row
    && m.delivered == m.lost + (if SentIn(w.stage) then 1 else 0)
    && NotDueAgain(m.triedIn, runs, w.row.nextAttemptAt, w.who)
    && (w.who.Job? ==> w.who.run in runs && w.row.nextAttemptAt <= runs[w.who.run].now)
    && StageSound(m, w, runs)
  }

  ghost predicate StageSound(m: Mail, w: Sender, runs: Runs) {
    match w.stage
    case Claimed => w.who.Job? ==> w.who.run !in m.triedIn
    case Tried(_, tries) => tries >= 1
    case Done(after, sent) =>
      && after.Orderly() && (sent <==> after.sentAt.Some?)
      && (after.Pending() ==>
            && after.context == w.row.context && after.attempts > w.row.attempts
            && NotDueAgain(m.triedIn, runs, after.nextAttemptAt, Inline))
  }

  ghost predicate MailSound(s: System, id: Id)
    requires id in s.mails
  {
    var m := s.mails[id];
    && (forall r | r in m.triedIn :: r in s.runs)
    && (if m.lock.None? then RestsSoundly(m, s.runs)
        else
          && m.lock.value in s.senders && s.senders[m.lock.value].id == id
          && (s.senders[m.lock.value].who.Job? ==> s.senders[m.lock.value].who.run in s.runs)
          && HeldSoundly(m, s.senders[m.lock.value], s.runs))
  }

  ghost predicate Sound(s: System) {
    && (forall r | r in s.runs :: s.runs[r].now <= s.clock)
    && (forall tx | tx in s.senders ::
          s.senders[tx].id in s.mails && s.mails[s.senders[tx].id].lock == Some(tx))
    && (forall id | id in s.mails :: MailSound(s, id))
  }

  // --------------------------------------------- one mail through one step

  lemma AttemptIsSound(m: Mail, w: Sender, runs: Runs, sent: bool, tries: nat)
    requires HeldSoundly(m, w, runs) && w.stage.Claimed? && tries >= 1
    ensures HeldSoundly(Attempted(m, w.who, sent), w.(stage := Tried(sent, tries)), runs)
  {
  }

  lemma RecordIsSound(m: Mail, w: Sender, runs: Runs, now: int)
    requires HeldSoundly(m, w, runs) && w.stage.Tried?
    requires forall r | r in runs :: w.who == Inline ==> runs[r].now <= now
    requires w.who.Job? ==> now == runs[w.who.run].now
    ensures HeldSoundly(m, w.(stage := Done(Recorded(w.row, w.stage.sent, w.stage.tries, now), w.stage.sent)), runs)
  {
    OutcomesAreOrderly(w.row, w.stage.sent, w.stage.tries, now);
  }

  lemma SuppressIsSound(m: Mail, w: Sender, runs: Runs, now: int)
    requires HeldSoundly(m, w, runs) && w.stage.Claimed?
    ensures HeldSoundly(m, w.(stage := Done(Dropped(w.row, now), false)), runs)
  {
  }

  lemma CommitIsSound(m: Mail, w: Sender, runs: Runs)
    requires HeldSoundly(m, w, runs) && w.stage.Done?
    ensures RestsSoundly(Committed(m, w.stage), runs)
  {
  }

  lemma RollbackIsSound(m: Mail, w: Sender, runs: Runs)
    requires HeldSoundly(m, w, runs)
    ensures RestsSoundly(RolledBack(m, w.stage), if w.who.Job? then Ended(runs, w.who.run) else runs)
  {
  }

  lemma PurgeIsSound(m: Mail, runs: Runs, now: int)
    requires RestsSoundly(m, runs)
    ensures RestsSoundly(Purged(m, now), runs)
  {
  }

  /** Runs start, and end; neither makes a mail due again for one that tried it. */
  ghost predicate RunsMoveOn(runs: Runs, later: Runs) {
    forall r | r in runs :: r in later && later[r].now == runs[r].now && (later[r].active ==> runs[r].active)
  }

  lemma RestsAsRunsMoveOn(m: Mail, runs: Runs, later: Runs)
    requires RestsSoundly(m, runs) && RunsMoveOn(runs, later) && forall r | r in m.triedIn :: r in runs
    ensures RestsSoundly(m, later)
  {
  }

  lemma HeldAsRunsMoveOn(m: Mail, w: Sender, runs: Runs, later: Runs)
    requires HeldSoundly(m, w, runs) && RunsMoveOn(runs, later) && forall r | r in m.triedIn :: r in runs
    ensures HeldSoundly(m, w, later)
  {
  }

  // ---------------------------------------------------- every step is sound

  /** A mail that the step leaves alone stays sound. */
  lemma Untouched(s: System, t: System, id: Id)
    requires Sound(s) && id in s.mails && id in t.mails && t.mails[id] == s.mails[id]
    requires RunsMoveOn(s.runs, t.runs)
    requires var lock := s.mails[id].lock;
             lock.Some? ==> lock.value in t.senders && t.senders[lock.value] == s.senders[lock.value]
    ensures MailSound(t, id)
  {
    assert MailSound(s, id);
    var m := s.mails[id];
    if m.lock.None? {
      RestsAsRunsMoveOn(m, s.runs, t.runs);
    } else {
      HeldAsRunsMoveOn(m, s.senders[m.lock.value], s.runs, t.runs);
    }
  }

  /** The sender `tx` holds the mail it claimed. */
  lemma Holds(s: System, tx: Tx)
    requires Sound(s) && tx in s.senders
    ensures var w := s.senders[tx];
            && w.id in s.mails && s.mails[w.id].lock == Some(tx)
            && HeldSoundly(s.mails[w.id], w, s.runs)
            && (forall r | r in s.mails[w.id].triedIn :: r in s.runs)
  {
    assert MailSound(s, s.senders[tx].id);
  }

  lemma WorldMovesOn(s: System, a: Action)
    requires Sound(s) && (a.Tick? || a.StartRun? || a.Enqueue?)
    ensures Sound(Step(s, a))
  {
    var t := Step(s, a);
    forall id | id in t.mails ensures MailSound(t, id) {
      if id in s.mails {
        Untouched(s, t, id);
      }
    }
  }

  lemma ClaimIsSound(s: System, tx: Tx, id: Id, who: Who, maxTries: nat)
    requires Sound(s) && Claimable(s, tx, id)
    requires who.Job? ==> who.run in s.runs && s.runs[who.run].active && s.mails[id].row.value.Due(s.runs[who.run].now)
    ensures Sound(ClaimedBy(s, tx, id, who, maxTries))
  {
    var t := ClaimedBy(s, tx, id, who, maxTries);
    assert MailSound(s, id);
    forall i | i in t.mails ensures MailSound(t, i) {
      if i != id {
        Untouched(s, t, i);
      }
    }
  }

  lemma StageMovesOn(s: System, a: Action)
    requires Sound(s) && (a.Suppress? || a.Record? || a.Send?)
    ensures Sound(Step(s, a))
  {
    var t := Step(s, a);
    if t != s {
      var w := s.senders[a.tx];
      Holds(s, a.tx);
      if a.Suppress? {
        SuppressIsSound(s.mails[w.id], w, s.runs, NowOf(s, w.who));
      } else if a.Record? {
        RecordIsSound(s.mails[w.id], w, s.runs, NowOf(s, w.who));
      } else {
        AttemptIsSound(s.mails[w.id], w, s.runs, a.sent, a.tries);
      }
      forall i | i in t.mails ensures MailSound(t, i) {
        if i != w.id {
          assert MailSound(s, i);
          Untouched(s, t, i);
        }
      }
    }
  }

  lemma TransactionEnds(s: System, a: Action)
    requires Sound(s) && (a.Commit? || a.Rollback?)
    ensures Sound(Step(s, a))
  {
    var t := Step(s, a);
    if t != s {
      var w := s.senders[a.tx];
      Holds(s, a.tx);
      if a.Commit? {
        CommitIsSound(s.mails[w.id], w, s.runs);
      } else {
        RollbackIsSound(s.mails[w.id], w, s.runs);
      }
      forall i | i in t.mails ensures MailSound(t, i) {
        if i != w.id {
          assert MailSound(s, i);
          Untouched(s, t, i);
        }
      }
    }
  }

  lemma PurgeStepIsSound(s: System, run: RunId)
    requires Sound(s)
    ensures Sound(Step(s, Purge(run)))
  {
    var t := Step(s, Purge(run));
    if t != s {
      forall i | i in t.mails ensures MailSound(t, i) {
        assert MailSound(s, i);
        var m := s.mails[i];
        if m.lock.None? {
          RestsAsRunsMoveOn(m, s.runs, t.runs);
          PurgeIsSound(m, t.runs, s.runs[run].now);
        } else {
          Untouched(s, t, i);
        }
      }
    }
  }

  lemma StepIsSound(s: System, a: Action)
    requires Sound(s)
    ensures Sound(Step(s, a))
  {
    match a
    case Tick(_) => WorldMovesOn(s, a);
    case Enqueue(_, _) => WorldMovesOn(s, a);
    case StartRun(_) => WorldMovesOn(s, a);
    case ClaimInline(tx, id, maxTries) =>
      if Claimable(s, tx, id) {
        ClaimIsSound(s, tx, id, Inline, maxTries);
      }
    case ClaimDue(tx, run, id) =>
      if Claimable(s, tx, id) && run in s.runs && s.runs[run].active && s.mails[id].row.value.Due(s.runs[run].now) {
        ClaimIsSound(s, tx, id, Job(run), 1);
      }
    case Suppress(_) => StageMovesOn(s, a);
    case Send(_, _, _) => StageMovesOn(s, a);
    case Record(_) => StageMovesOn(s, a);
    case Commit(_) => TransactionEnds(s, a);
    case Rollback(_) => TransactionEnds(s, a);
    case Purge(run) => PurgeStepIsSound(s, run);
  }

  lemma {:induction false} RunIsSound(actions: seq<Action>)
    ensures Sound(Run(actions))
  {
    if actions != [] {
      RunIsSound(actions[..|actions| - 1]);
      StepIsSound(Run(actions[..|actions| - 1]), actions[|actions| - 1]);
    }
  }

  // ------------------------------------------------------------ the promises

  /** No row is held by two senders at once. */
  lemma NoRowHasTwoSenders(actions: seq<Action>, t: Tx, u: Tx)
    requires var s := Run(actions); t in s.senders && u in s.senders && s.senders[t].id == s.senders[u].id
    ensures t == u
  {
    RunIsSound(actions);
  }

  /** A sender that may still send holds a row that is recorded neither sent nor failed, and the job run
      it works for, if any, has not tried this row before. */
  lemma NothingIsSentTwiceOrLate(actions: seq<Action>, tx: Tx, tries: nat)
    requires CanSend(Run(actions), tx, tries)
    ensures var s := Run(actions);
            var w := s.senders[tx];
            && w.id in s.mails && s.mails[w.id].Pending() && !s.mails[w.id].RecordedSent()
            && (w.who.Job? ==> w.who.run !in s.mails[w.id].triedIn)
  {
    RunIsSound(actions);
    Holds(Run(actions), tx);
  }

  /** Successful sends of a mail: one for each transaction lost after sending, and at most one more,
      which is the one recorded or about to be. */
  lemma SendsAreOnePlusTheLost(actions: seq<Action>, id: Id)
    requires id in Run(actions).mails
    ensures var s := Run(actions);
            var m := s.mails[id];
            && m.delivered <= 1 + m.lost
            && (m.lock.None? ==> m.delivered == m.lost + if m.RecordedSent() then 1 else 0)
  {
    RunIsSound(actions);
    assert MailSound(Run(actions), id);
  }

  /** A mail is at all times exactly one of pending with its context, sent, failed or purged, and has
      at most twelve recorded failures. */
  lemma EveryMailIsAccountedFor(actions: seq<Action>, id: Id)
    requires id in Run(actions).mails
    ensures var m := Run(actions).mails[id];
            && (m.row.Some? ==>
                  var r := m.row.value;
                  || (r.sentAt.None? && r.failedAt.None? && r.context == Some(m.context))
                  || (r.sentAt.Some? && r.failedAt.None? && r.context.None?)
                  || (r.sentAt.None? && r.failedAt.Some?))
            && m.failures <= 12
  {
    RunIsSound(actions);
    assert MailSound(Run(actions), id);
  }

  /** No step forgets a mail. */
  lemma {:induction false} MailsRemain(actions: seq<Action>, n: nat, id: Id)
    requires n <= |actions| && id in Run(actions[..n]).mails
    ensures id in Run(actions).mails
    decreases |actions|
  {
    if n < |actions| {
      assert actions[..|actions| - 1][..n] == actions[..n];
      MailsRemain(actions[..|actions| - 1], n, id);
    } else {
      assert actions[..n] == actions;
    }
  }

  /** The run's state after its first `n` actions, where the row of `id` is past its retention and the
      purge of a job run comes next. */
  predicate PurgedAt(actions: seq<Action>, n: nat, id: Id)
    requires n < |actions|
  {
    var s := Run(actions[..n]);
    && id in s.mails && s.mails[id].row.Some? && s.mails[id].lock.None?
    && actions[n].Purge? && actions[n].run in s.runs && s.runs[actions[n].run].active
    && s.mails[id].row.value.Purgeable(s.runs[actions[n].run].now)
    && !s.mails[id].Pending()
  }

  lemma RowGoesInAPurge(s: System, a: Action, id: Id)
    requires Sound(s) && id in Step(s, a).mails && Step(s, a).mails[id].row.None?
    ensures id in s.mails
    ensures s.mails[id].row.Some? ==>
      && a.Purge? && a.run in s.runs && s.runs[a.run].active
      && s.mails[id].row.value.Purgeable(s.runs[a.run].now)
      && !s.mails[id].Pending() && s.mails[id].lock.None?
  {
    if id in s.mails {
      assert MailSound(s, id);
    }
  }

  /** A row is gone only by a purge that found it settled, nobody's, and past its retention: in no run is
      a pending row purged. */
  lemma {:induction false} PendingIsNeverPurged(actions: seq<Action>, id: Id) returns (n: nat)
    requires id in Run(actions).mails && Run(actions).mails[id].row.None?
    ensures n < |actions| && PurgedAt(actions, n, id)
  {
    var init, last := actions[..|actions| - 1], actions[|actions| - 1];
    RunIsSound(init);
    RowGoesInAPurge(Run(init), last, id);
    if Run(init).mails[id].row.Some? {
      n := |init|;
    } else {
      n := PendingIsNeverPurged(init, id);
      assert init[..n] == actions[..n];
    }
  }

  // --------------------------------------------- how long the jobs keep trying

  /** A sender that will not shorten the waits of the row it holds. */
  predicate SenderIsPatient(w: Sender, goal: int) {
    && w.who.Job? && w.maxTries == 1
    && (w.stage.Tried? ==> w.stage.tries == 1)
    && (w.stage.Done? ==> Patient(w.stage.after, goal))
  }

  /** The mail is not given up on before `goal`, nor will be by whoever holds it. */
  predicate MailIsPatient(s: System, id: Id, goal: int) {
    && id in s.mails
    && (s.mails[id].row.Some? ==> Patient(s.mails[id].row.value, goal))
    && (s.mails[id].lock.Some? ==>
          s.mails[id].lock.value in s.senders && SenderIsPatient(s.senders[s.mails[id].lock.value], goal))
  }

  lemma SenderStaysPatient(s: System, a: Action, id: Id, goal: int)
    requires Sound(s) && MailIsPatient(s, id, goal) && (a.Suppress? || a.Send? || a.Record?)
    ensures MailIsPatient(Step(s, a), id, goal)
  {
    if a.tx in s.senders && s.senders[a.tx].id == id {
      var w := s.senders[a.tx];
      Holds(s, a.tx);
      OneTryIsPatient(w.row, a.Record? && w.stage.Tried? && w.stage.sent, NowOf(s, w.who), goal);
    }
  }

  lemma StepIsPatient(s: System, a: Action, id: Id, goal: int)
    requires Sound(s) && MailIsPatient(s, id, goal) && !(a.ClaimInline? && a.id == id)
    ensures MailIsPatient(Step(s, a), id, goal)
  {
    if a.Suppress? || a.Send? || a.Record? {
      SenderStaysPatient(s, a, id, goal);
    } else if (a.Commit? || a.Rollback?) && a.tx in s.senders {
      Holds(s, a.tx);
    }
  }

  /** Nobody claims `id` inline from action `n` on. */
  predicate OnlyJobsClaim(actions: seq<Action>, n: nat, id: Id) {
    forall i | n <= i < |actions| :: !(actions[i].ClaimInline? && actions[i].id == id)
  }

  lemma {:induction false} RunIsPatient(actions: seq<Action>, n: nat, id: Id, goal: int)
    requires n <= |actions| && MailIsPatient(Run(actions[..n]), id, goal) && OnlyJobsClaim(actions, n, id)
    ensures MailIsPatient(Run(actions), id, goal)
    decreases |actions|
  {
    if n < |actions| {
      var init := actions[..|actions| - 1];
      assert init[..n] == actions[..n];
      RunIsPatient(init, n, id, goal);
      RunIsSound(init);
      StepIsPatient(Run(init), actions[|actions| - 1], id, goal);
    } else {
      assert actions[..n] == actions;
    }
  }

  /** `id` is deferred: pending, nobody's, and next due when the wait for its attempts is over. */
  predicate DeferredSince(s: System, id: Id, at: int) {
    && id in s.mails && s.mails[id].Pending() && s.mails[id].lock.None?
    && s.mails[id].row.value.nextAttemptAt == at + BackoffAfter(s.mails[id].row.value.attempts)
  }

  /** In every interleaving, a mail left to the jobs is given up on no earlier than all its waits later. */
  lemma JobsWaitBeforeGivingUp(actions: seq<Action>, n: nat, id: Id, at: int)
    requires n <= |actions| && DeferredSince(Run(actions[..n]), id, at) && OnlyJobsClaim(actions, n, id)
    ensures var m := Run(actions).mails;
            id in m && (m[id].row.Some? && GivenUp(m[id].row.value) ==>
              m[id].row.value.failedAt.value
              >= at + WaitUntilGivingUp(Run(actions[..n]).mails[id].row.value.attempts))
  {
    var s := Run(actions[..n]);
    RunIsSound(actions[..n]);
    assert MailSound(s, id);
    RunIsPatient(actions, n, id, at + WaitUntilGivingUp(s.mails[id].row.value.attempts));
  }

  /** Deferred after three inline tries and left to the jobs, a mail is not given up on in the next
      972 minutes, whatever runs, rollbacks and purges come between. */
  lemma JobsKeepTryingForSixteenHours(actions: seq<Action>, n: nat, id: Id, at: int)
    requires n <= |actions| && DeferredSince(Run(actions[..n]), id, at) && OnlyJobsClaim(actions, n, id)
    requires Run(actions[..n]).mails[id].row.value.attempts == 3
    ensures var m := Run(actions).mails;
            id in m && (m[id].row.Some? && GivenUp(m[id].row.value) ==>
              m[id].row.value.failedAt.value >= at + 972 * 60)
  {
    JobsWaitBeforeGivingUp(actions, n, id, at);
    WaitAfterThree();
  }

  // ------------------------------------------------ what a delivery comes to

  /** The transaction that an action belongs to. */
  function TxOf(a: Action): Option<Tx> {
    match a
    case ClaimInline(tx, _, _) => Some(tx)
    case ClaimDue(tx, _, _) => Some(tx)
    case Suppress(tx) => Some(tx)
    case Send(tx, _, _) => Some(tx)
    case Record(tx) => Some(tx)
    case Commit(tx) => Some(tx)
    case Rollback(tx) => Some(tx)
    case _ => None
  }

  /** Between the steps `m` and `n` nothing is done in `tx`. */
  predicate QuietBetween(actions: seq<Action>, m: nat, n: nat, tx: Tx)
    requires n <= |actions|
  {
    forall i | m < i < n :: TxOf(actions[i]) != Some(tx)
  }

  lemma OthersLeaveTheSender(s: System, a: Action, tx: Tx)
    requires tx in s.senders && TxOf(a) != Some(tx)
    ensures tx in Step(s, a).senders && Step(s, a).senders[tx] == s.senders[tx]
  {
  }

  lemma RunAt(actions: seq<Action>, i: nat)
    requires i < |actions|
    ensures Run(actions[..i + 1]) == Step(Run(actions[..i]), actions[i])
  {
    assert actions[..i + 1][..i] == actions[..i];
  }

  /** The sender is after step `m` what it still is before step `n`. */
  lemma {:induction false} SenderStays(actions: seq<Action>, m: nat, n: nat, tx: Tx)
    requires m < n <= |actions| && QuietBetween(actions, m, n, tx) && tx in Run(actions[..m + 1]).senders
    ensures tx in Run(actions[..n]).senders && Run(actions[..n]).senders[tx] == Run(actions[..m + 1]).senders[tx]
    decreases n
  {
    if m + 1 < n {
      SenderStays(actions, m, n - 1, tx);
      RunAt(actions, n - 1);
      OthersLeaveTheSender(Run(actions[..n - 1]), actions[n - 1], tx);
    }
  }

  /** Steps `i`, `j`, `k` and `l` claim a mail inline, try it, record the outcome and commit, with anything else
      but other steps of that transaction between them. */
  predicate Delivery(actions: seq<Action>, i: nat, j: nat, k: nat, l: nat, tx: Tx, id: Id, maxTries: nat, sent: bool,
                     tries: nat)
  {
    && i < j < k < l < |actions|
    && actions[i] == ClaimInline(tx, id, maxTries) && actions[j] == Send(tx, sent, tries)
    && actions[k] == Record(tx) && actions[l] == Commit(tx)
    && QuietBetween(actions, i, j, tx) && QuietBetween(actions, j, k, tx) && QuietBetween(actions, k, l, tx)
    && Claimable(Run(actions[..i]), tx, id) && 1 <= tries <= maxTries
  }

  /** The sender before its commit: with the row it claimed, and the outcome recorded at the clock of step `k`. */
  lemma DeliveryIsDone(actions: seq<Action>, i: nat, j: nat, k: nat, l: nat, tx: Tx, id: Id, maxTries: nat, sent: bool,
                       tries: nat)
    requires Delivery(actions, i, j, k, l, tx, id, maxTries, sent, tries)
    ensures var row := Run(actions[..i]).mails[id].row.value;
            var s := Run(actions[..l]);
            && tx in s.senders
            && s.senders[tx] == Sender(id, row, Inline, maxTries,
                                       Done(Recorded(row, sent, tries, Run(actions[..k]).clock), sent))
  {
    RunAt(actions, i);
    ClaimGives(Run(actions[..i]), tx, id, maxTries);
    SenderStays(actions, i, j, tx);
    RunIsSound(actions[..j]);
    Holds(Run(actions[..j]), tx);
    RunAt(actions, j);
    SendGives(Run(actions[..j]), tx, sent, tries);
    SenderStays(actions, j, k, tx);
    RunAt(actions, k);
    RecordGives(Run(actions[..k]), tx);
    SenderStays(actions, k, l, tx);
  }

  lemma ClaimGives(s: System, tx: Tx, id: Id, maxTries: nat)
    requires Claimable(s, tx, id) && maxTries >= 1
    ensures var t := Step(s, ClaimInline(tx, id, maxTries));
            tx in t.senders && t.senders[tx] == Sender(id, s.mails[id].row.value, Inline, maxTries, Claimed)
  {
  }

  lemma SendGives(s: System, tx: Tx, sent: bool, tries: nat)
    requires CanSend(s, tx, tries) && s.senders[tx].id in s.mails
    ensures var t := Step(s, Send(tx, sent, tries));
            tx in t.senders && t.senders[tx] == s.senders[tx].(stage := Tried(sent, tries))
  {
  }

  lemma RecordGives(s: System, tx: Tx)
    requires tx in s.senders && s.senders[tx].stage.Tried? && s.senders[tx].who.Inline?
    ensures var t, w := Step(s, Record(tx)), s.senders[tx];
            && tx in t.senders
            && t.senders[tx] == w.(stage := Done(Recorded(w.row, w.stage.sent, w.stage.tries, s.clock), w.stage.sent))
  {
  }

  /** In every interleaving a committed delivery leaves the row with the tries added, and sent, given up on or
      deferred by the wait for their sum. */
  lemma DeliveryTakesEffect(actions: seq<Action>, i: nat, j: nat, k: nat, l: nat, tx: Tx, id: Id, maxTries: nat,
                            sent: bool, tries: nat)
    requires Delivery(actions, i, j, k, l, tx, id, maxTries, sent, tries)
    ensures var before := Run(actions[..i]).mails[id].row.value;
            var now := Run(actions[..k]).clock;
            var s := Run(actions[..l + 1]);
            && id in s.mails && s.mails[id].row.Some? && s.mails[id].lock.None?
            && var r := s.mails[id].row.value;
            && r.attempts == before.attempts + tries
            && r.sentAt == (if sent then Some(now) else None)
            && r.failedAt == (if !sent && before.attempts + tries >= 12 then Some(now) else None)
            && r.context == (if sent then None else before.context)
            && (r.Pending() ==> r.nextAttemptAt == now + BackoffAfter(before.attempts + tries))
  {
    DeliveryIsDone(actions, i, j, k, l, tx, id, maxTries, sent, tries);
    RunIsSound(actions[..l]);
    Holds(Run(actions[..l]), tx);
    RunAt(actions, l);
    RecordedFields(Run(actions[..i]).mails[id].row.value, sent, tries, Run(actions[..k]).clock);
  }

  /** A new mail whose three inline tries fail is deferred, and if the jobs are left with it, not given up on
      before 972 minutes after the third. */
  lemma FailedDeliveryKeepsTrying(actions: seq<Action>, i: nat, j: nat, k: nat, l: nat, tx: Tx, id: Id)
    requires Delivery(actions, i, j, k, l, tx, id, 3, false, 3)
    requires Run(actions[..i]).mails[id].row.value.attempts == 0 && OnlyJobsClaim(actions, l + 1, id)
    ensures var now := Run(actions[..k]).clock;
            && DeferredSince(Run(actions[..l + 1]), id, now)
            && Run(actions[..l + 1]).mails[id].row.value.attempts == 3
            && id in Run(actions).mails
            && var row := Run(actions).mails[id].row;
               row.Some? && GivenUp(row.value) ==> row.value.failedAt.value >= now + 972 * 60
  {
    DeliveryTakesEffect(actions, i, j, k, l, tx, id, 3, false, 3);
    JobsKeepTryingForSixteenHours(actions, l + 1, id, Run(actions[..k]).clock);
  }

  /** The purge of an active job run takes the rows sent more than 7 and failed more than 30 days before it
      started, and leaves every other. */
  lemma PurgeTakesTheExpired(s: System, run: RunId, id: Id)
    requires id in s.mails && s.mails[id].row.Some? && run in s.runs && s.runs[run].active
    ensures var row, now := s.mails[id].row.value, s.runs[run].now;
            var m := Step(s, Purge(run)).mails;
            && id in m
            && m[id].row == if (row.sentAt.Some? && now - row.sentAt.value > 7 * 86400)
                               || (row.failedAt.Some? && now - row.failedAt.value > 30 * 86400)
                            then None else Some(row)
  {
  }

  /** A transaction that is lost leaves the row as it was and free for others, and ends the job run it was for. */
  lemma RollbackFreesTheRow(s: System, tx: Tx)
    requires Sound(s) && tx in s.senders
    ensures var t, w := Step(s, Rollback(tx)), s.senders[tx];
            && tx !in t.senders && w.id in t.mails && t.mails[w.id].lock.None?
            && t.mails[w.id].row == s.mails[w.id].row
            && (w.who.Job? && w.who.run in s.runs ==> w.who.run in t.runs && !t.runs[w.who.run].active)
  {
    Holds(s, tx);
  }

  /** A claimed mail that is to be dropped is failed by the commit, without its context and without a try. */
  lemma SuppressedMailIsDropped(s: System, tx: Tx)
    requires Sound(s) && tx in s.senders && s.senders[tx].stage.Claimed?
    ensures var w := s.senders[tx];
            var t := Step(Step(s, Suppress(tx)), Commit(tx));
            && w.id in t.mails && t.mails[w.id].lock.None? && t.mails[w.id].row.Some?
            && t.mails[w.id].row.value.failedAt.Some? && t.mails[w.id].row.value.context.None?
            && t.mails[w.id].row.value.attempts == s.mails[w.id].row.value.attempts
            && t.mails[w.id].delivered == s.mails[w.id].delivered
  {
    Holds(s, tx);
  }

  /** A job run may claim a row that waits for nobody from the moment it is due, and tries it once. */
  lemma DueRowsAreClaimed(s: System, tx: Tx, run: RunId, id: Id)
    requires tx !in s.senders && run in s.runs && s.runs[run].active && id in s.mails
    requires s.mails[id].lock.None? && s.mails[id].row.Some?
    ensures var t := Step(s, ClaimDue(tx, run, id));
            var row := s.mails[id].row.value;
            && (tx in t.senders
                <==> row.sentAt.None? && row.failedAt.None? && row.nextAttemptAt <= s.runs[run].now)
            && (tx in t.senders ==> t.senders[tx] == Sender(id, row, Job(run), 1, Claimed))
  {
  }
}
