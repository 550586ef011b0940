/** `ensure_open_quote`: callers that lock, look for an open quote and create one, interleaved with each
    other and with everything else that opens and closes quotes. */
module QuoteRearm {
  import opened Wrappers

  type Id = int
  type Tx = int

  /** `Found` saw an open quote, or nobody to create one for; `Creating` has its new quote uncommitted. */
  datatype Stage = Waiting | Holding | Found | Creating(quote: Id)

  /** The client's quotes that are committed and open, every order id used so far, the holder of the
      tenant's advisory lock, and the callers' transactions. */
  datatype System = System(open: set<Id>, used: set<Id>, holder: Option<Tx>, callers: map<Tx, Stage>)

  const START := System({}, {}, None, map[])

  /** `Change` is any other committed transaction that opens or closes a quote, old or new. */
  datatype Action =
    | Call(tx: Tx)
    | Lock(tx: Tx)
    | Check(tx: Tx, quote: Id, people: bool)
    | Commit(tx: Tx)
    | Rollback(tx: Tx)
    | Change(id: Id, isOpen: bool)

  /** The lock is held until its transaction ends. */
  function Ended(s: System, tx: Tx): System {
    s.(callers := s.callers - {tx}, holder := if s.holder == Some(tx) then None else s.holder)
  }

  /** One step; a step that cannot happen changes nothing. */
  function Step(s: System, a: Action): System {
    match a
    case Call(tx) => if tx in s.callers then s else s.(callers := s.callers[tx := Waiting])
    case Lock(tx) =>
      if tx in s.callers && s.callers[tx].Waiting? && s.holder.None?
      then s.(holder := Some(tx), callers := s.callers[tx := Holding])
      else s
    case Check(tx, quote, people) =>
      if !(tx in s.callers && s.callers[tx].Holding?) then s
      else if s.open != {} || !people then s.(callers := s.callers[tx := Found])
      else if quote in s.used then s
      else s.(callers := s.callers[tx := Creating(quote)], used := s.used + {quote})
    case Commit(tx) =>
      if tx in s.callers && s.callers[tx].Creating?
      then Ended(s.(open := s.open + {s.callers[tx].quote}), tx)
      else Ended(s, tx)
    case Rollback(tx) => Ended(s, tx)
    case Change(id, isOpen) =>
      s.(open := if isOpen then s.open + {id} else s.open - {id}, used := s.used + {id})
  }

  function Run(actions: seq<Action>): System {
    if actions == [] then START
    else Step(Run(actions[..|actions| - 1]), actions[|actions| - 1])
  }

  /** Step `i` commits a quote that `ensure_open_quote` created. */
  predicate Rearms(actions: seq<Action>, i: nat)
    requires i < |actions|
  {
    var s, a := Run(actions[..i]), actions[i];
    a.Commit? && a.tx in s.callers && s.callers[a.tx].Creating?
  }

  predicate LockIsExclusive(s: System) {
    forall tx | tx in s.callers && !s.callers[tx].Waiting? :: s.holder == Some(tx)
  }

  lemma StepKeepsLock(s: System, a: Action)
    requires LockIsExclusive(s)
    ensures LockIsExclusive(Step(s, a))
  {
  }

  lemma {:induction false} RunKeepsLock(actions: seq<Action>)
    ensures LockIsExclusive(Run(actions))
  {
    if actions != [] {
      RunKeepsLock(actions[..|actions| - 1]);
      StepKeepsLock(Run(actions[..|actions| - 1]), actions[|actions| - 1]);
    }
  }

  /** Step `m` is the check of `tx`, made when no quote was open. */
  predicate CheckedAt(actions: seq<Action>, m: nat, tx: Tx)
    requires m < |actions|
  {
    actions[m].Check? && actions[m].tx == tx && Run(actions[..m]).open == {}
  }

  /** Nothing is re-armed between the steps `m` and `n`. */
  ghost predicate NoneRearmedBetween(actions: seq<Action>, m: nat, n: nat)
    requires n <= |actions|
  {
    forall i: nat | m < i < n :: !Rearms(actions, i)
  }

  lemma CreatingStays(s: System, a: Action, tx: Tx)
    requires LockIsExclusive(s) && tx in Step(s, a).callers && Step(s, a).callers[tx].Creating?
    requires !(a.Check? && a.tx == tx && s.open == {})
    ensures tx in s.callers && s.callers[tx].Creating?
    ensures !(a.Commit? && a.tx in s.callers && s.callers[a.tx].Creating?)
  {
  }

  lemma {:induction false} CheckOf(actions: seq<Action>, tx: Tx) returns (m: nat)
    requires tx in Run(actions).callers && Run(actions).callers[tx].Creating?
    ensures m < |actions| && CheckedAt(actions, m, tx) && NoneRearmedBetween(actions, m, |actions|)
  {
    var init, last := actions[..|actions| - 1], actions[|actions| - 1];
    if last.Check? && last.tx == tx && Run(init).open == {} {
      m := |init|;
    } else {
      RunKeepsLock(init);
      CreatingStays(Run(init), last, tx);
      m := CheckOf(init, tx);
      assert init[..m] == actions[..m];
      forall i: nat | m < i < |actions| ensures !Rearms(actions, i) {
        if i < |init| {
          assert init[..i] == actions[..i];
          assert !Rearms(init, i);
        }
      }
    }
  }

  /** In every run a quote is re-armed only by a caller that, under the lock, saw no quote open; and no
      other caller re-arms one between that check and the commit. */
  lemma RearmedOnlyWhenNoneWasOpen(actions: seq<Action>, j: nat) returns (m: nat)
    requires j < |actions| && Rearms(actions, j)
    ensures m < j && CheckedAt(actions, m, actions[j].tx) && NoneRearmedBetween(actions, m, j)
  {
    var before := actions[..j];
    m := CheckOf(before, actions[j].tx);
    assert before[..m] == actions[..m];
    forall i: nat | m < i < j ensures !Rearms(actions, i) {
      assert before[..i] == actions[..i];
      assert !Rearms(before, i);
    }
  }

  /** Concurrent callers never re-arm twice: the quote of the first was open once it was committed, and was
      closed, like every other, before the second looked. */
  lemma NeverTwiceWithoutClosing(actions: seq<Action>, i: nat, j: nat) returns (m: nat)
    requires i < j < |actions| && Rearms(actions, i) && Rearms(actions, j)
    ensures Run(actions[..i]).callers[actions[i].tx].quote in Run(actions[..i + 1]).open
    ensures i < m < j && Run(actions[..m]).open == {}
  {
    m := RearmedOnlyWhenNoneWasOpen(actions, j);
    assert actions[..i + 1][..i] == actions[..i];
    assert m != i;
  }

  /** A caller that nobody interferes with gets a fresh quote exactly when none was open and the people of the seed
      are there; otherwise it changes nothing. */
  lemma LoneCaller(s: System, tx: Tx, quote: Id, people: bool)
    requires tx !in s.callers && s.holder.None? && quote !in s.used
    ensures var t := Step(Step(Step(Step(s, Call(tx)), Lock(tx)), Check(tx, quote, people)), Commit(tx));
            && t.open == (if s.open == {} && people then {quote} else s.open)
            && t.callers == s.callers && t.holder.None?
  {
    var called := Step(s, Call(tx));
    assert called.callers == s.callers[tx := Waiting];
    var locked := Step(called, Lock(tx));
    var checked := Step(locked, Check(tx, quote, people));
    assert checked.callers - {tx} == s.callers;
  }
}
