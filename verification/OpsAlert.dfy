/** The limiter of operations alerts: at most one alert per error signature and interval. */
module OpsAlert {
  import opened Wrappers

  const INTERVAL := 900.0

  /** Seconds of the alert last sent for a signature, and the calls it has suppressed since. */
  datatype Entry = Entry(time: real, suppressed: nat)

  datatype Decision = Decision(send: bool, suppressed: nat)

  /** A call and what was decided. */
  datatype Call = Call(signature: string, now: real, decision: Decision)

  // ------------------------------------------------------- the log of all calls

  function LastAlert(log: seq<Call>, signature: string): Option<real> {
    if log == [] then None
    else
      var last := log[|log| - 1];
      if last.signature == signature && last.decision.send then Some(last.now)
      else LastAlert(log[..|log| - 1], signature)
  }

  /** Calls since the last alert of the signature. */
  function Unreported(log: seq<Call>, signature: string): nat {
    if log == [] then 0
    else
      var last := log[|log| - 1];
      if last.signature != signature then Unreported(log[..|log| - 1], signature)
      else if last.decision.send then 0
      else 1 + Unreported(log[..|log| - 1], signature)
  }

  function Calls(log: seq<Call>, signature: string): nat {
    if log == [] then 0
    else Calls(log[..|log| - 1], signature) + if log[|log| - 1].signature == signature then 1 else 0
  }

  /** What the alerts of a signature account for: each itself and the calls it reports as suppressed. */
  function Reported(log: seq<Call>, signature: string): nat {
    if log == [] then 0
    else
      var last := log[|log| - 1];
      Reported(log[..|log| - 1], signature)
      + if last.signature == signature && last.decision.send then 1 + last.decision.suppressed else 0
  }

  /** What the limiter promises of a call, by the log alone. */
  predicate Follows(log: seq<Call>, c: Call) {
    var last := LastAlert(log, c.signature);
    && c.decision.send == (last.None? || c.now - last.value >= INTERVAL)
    && c.decision.suppressed == if c.decision.send then Unreported(log, c.signature) else 0
  }

  predicate Limited(log: seq<Call>) {
    log == [] || (Limited(log[..|log| - 1]) && Follows(log[..|log| - 1], log[|log| - 1]))
  }

  /** No call is forgotten: all are sent, reported as suppressed, or still waiting to be. */
  lemma {:induction false} NothingIsForgotten(log: seq<Call>, signature: string)
    requires Limited(log)
    ensures Calls(log, signature) == Reported(log, signature) + Unreported(log, signature)
    ensures LastAlert(log, signature).None? ==> Calls(log, signature) == 0
  {
    if log != [] {
      NothingIsForgotten(log[..|log| - 1], signature);
    }
  }

  predicate Alerted(log: seq<Call>, i: nat, signature: string)
    requires i < |log|
  {
    log[i].signature == signature && log[i].decision.send
  }

  /** The last alert is the time of an alert after which there is none, and there is none only without any. */
  lemma {:induction false} LastAlertIs(log: seq<Call>, signature: string)
    ensures LastAlert(log, signature).None? <==> forall i | 0 <= i < |log| :: !Alerted(log, i, signature)
    ensures LastAlert(log, signature).Some? ==>
      exists i | 0 <= i < |log| && Alerted(log, i, signature) ::
        log[i].now == LastAlert(log, signature).value && forall j | i < j < |log| :: !Alerted(log, j, signature)
  {
    if log != [] {
      var init, n := log[..|log| - 1], |log| - 1;
      LastAlertIs(init, signature);
      forall i | 0 <= i < n ensures Alerted(log, i, signature) == Alerted(init, i, signature) {
      }
      if Alerted(log, n, signature) {
        assert log[n].now == LastAlert(log, signature).value;
      } else if LastAlert(log, signature).Some? {
        var i :| 0 <= i < n && Alerted(init, i, signature) && init[i].now == LastAlert(init, signature).value
                 && forall j | i < j < n :: !Alerted(init, j, signature);
        assert Alerted(log, i, signature) && log[i].now == LastAlert(log, signature).value;
      }
    }
  }

  /** The last alert is no earlier than any before it. */
  lemma {:induction false} LastIsLatest(log: seq<Call>, i: nat, signature: string)
    requires Limited(log) && i < |log| && Alerted(log, i, signature)
    ensures LastAlert(log, signature).Some? && LastAlert(log, signature).value >= log[i].now
  {
    var init := log[..|log| - 1];
    if i < |init| {
      assert init[i] == log[i];
      LastIsLatest(init, i, signature);
    }
  }

  /** Two alerts of one signature are an interval apart. */
  lemma {:induction false} AlertsAreApart(log: seq<Call>, i: nat, j: nat, signature: string)
    requires Limited(log) && i < j < |log| && Alerted(log, i, signature) && Alerted(log, j, signature)
    ensures log[j].now - log[i].now >= 900.0
    decreases |log|
  {
    var init := log[..|log| - 1];
    assert init[i] == log[i];
    if j < |init| {
      assert init[j] == log[j];
      AlertsAreApart(init, i, j, signature);
    } else {
      LastIsLatest(init, i, signature);
    }
  }

  // ------------------------------------------------------------------ the limiter

  function EntryOf(log: seq<Call>, signature: string): Option<Entry> {
    if LastAlert(log, signature).None? then None
    else Some(Entry(LastAlert(log, signature).value, Unreported(log, signature)))
  }

  function Lookup(lastSent: map<string, Entry>, signature: string): Option<Entry> {
    if signature in lastSent then Some(lastSent[signature]) else None
  }

  /** The table knows of every signature what the log says. */
  ghost predicate Agrees(lastSent: map<string, Entry>, log: seq<Call>) {
    forall signature :: Lookup(lastSent, signature) == EntryOf(log, signature)
  }

  lemma AgreesAfter(lastSent: map<string, Entry>, log: seq<Call>, c: Call, entry: Entry)
    requires Agrees(lastSent, log)
    requires EntryOf(log + [c], c.signature) == Some(entry)
    ensures Agrees(lastSent[c.signature := entry], log + [c])
  {
    assert (log + [c])[..|log|] == log;
    forall signature
      ensures Lookup(lastSent[c.signature := entry], signature) == EntryOf(log + [c], signature)
    {
      assert Lookup(lastSent, signature) == EntryOf(log, signature);
    }
  }

  class AlertLimiter {
    var lastSent: map<string, Entry>
    ghost var log: seq<Call>

    ghost predicate Valid()
      reads this
    {
      Limited(log) && Agrees(lastSent, log)
    }

    constructor ()
      ensures Valid() && log == []
    {
      lastSent, log := map[], [];
    }

    method ShouldSend(signature: string, now: real) returns (d: Decision)
      requires Valid()
      modifies this
      ensures Valid() && log == old(log) + [Call(signature, now, d)]
      ensures Follows(old(log), Call(signature, now, d))
      ensures d.send <==>
        LastAlert(old(log), signature).None? || now - LastAlert(old(log), signature).value >= 900.0
      ensures d.suppressed == if d.send then Unreported(old(log), signature) else 0
    {
      assert Lookup(lastSent, signature) == EntryOf(log, signature);
      if signature in lastSent && now - lastSent[signature].time < INTERVAL {
        var previous := lastSent[signature];
        d := Decision(false, 0);
        RecordCall(signature, now, d, Entry(previous.time, previous.suppressed + 1));
      } else {
        d := Decision(true, if signature in lastSent then lastSent[signature].suppressed else 0);
        assert Unreported(log, signature) == d.suppressed by {
          if signature !in lastSent {
            NothingIsForgotten(log, signature);
          }
        }
        RecordCall(signature, now, d, Entry(now, 0));
      }
    }

    /** Stores the entry, and in the log the call. */
    method RecordCall(signature: string, now: real, d: Decision, entry: Entry)
      requires Valid() && Follows(log, Call(signature, now, d))
      requires EntryOf(log + [Call(signature, now, d)], signature) == Some(entry)
      modifies this
      ensures Valid() && log == old(log) + [Call(signature, now, d)]
      ensures lastSent == old(lastSent)[signature := entry]
    {
      var c := Call(signature, now, d);
      AgreesAfter(lastSent, log, c, entry);
      assert (log + [c])[..|log|] == log;
      lastSent, log := lastSent[signature := entry], log + [c];
    }
  }
}
