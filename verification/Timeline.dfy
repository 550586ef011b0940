/** An order's story: the rules a seeded timeline must meet, and the history rows built from it. */
module Timeline {
  import opened Wrappers

  datatype Status =
    Draft | Submitted | Quoted | Confirmed | InProduction | Ready | Delivered | Closed | Cancelled

  /** `PIPELINE.index`, for the statuses in the pipeline. */
  function Rank(s: Status): nat
    requires !s.Cancelled?
  {
    match s
    case Draft => 0
    case Submitted => 1
    case Quoted => 2
    case Confirmed => 3
    case InProduction => 4
    case Ready => 5
    case Delivered => 6
    case Closed => 7
  }

  /** The pipeline, and that ranks are its places. */
  lemma RankIsThePlace(s: Status)
    requires !s.Cancelled?
    ensures var pipeline := [Draft, Submitted, Quoted, Confirmed, InProduction, Ready, Delivered, Closed];
            Rank(s) < 8 && pipeline[Rank(s)] == s
  {
  }

  datatype Event =
    | Step(status: Status, wd: int, who: string, note: Option<string>)
    | Comment(anchor: Status, wd: int, who: string, body: string, internal: bool)
    | Upload(file: string, wd: int, who: string)

  datatype OrderSpec = OrderSpec(title: string, timeline: seq<Event>, requested: Option<int>, promised: Option<int>)

  /** Who counts as staff, and the files an upload may name. */
  datatype Cast = Cast(staff: set<string>, files: set<string>)

  datatype Implausible =
    NotStartingWithDraft | NotChronological | AfterCancelled | NotForward | ConfirmedByStaff
    | CommentBeforeAnchor | InternalByClient | UploadTooRecent | UnknownFile | QuoteWithoutPromise

  // ------------------------------------------------------------ the rules

  predicate StartsWithDraft(tl: seq<Event>) {
    |tl| > 0 && tl[0].Step? && tl[0].status.Draft?
  }

  predicate Chronological(wds: seq<int>) {
    forall i, j | 0 <= i < j < |wds| :: wds[j] <= wds[i]
  }

  function Wds(tl: seq<Event>): (wds: seq<int>)
    ensures |wds| == |tl|
  {
    seq(|tl|, i requires 0 <= i < |tl| => tl[i].wd)
  }

  predicate NothingAfterCancelled(tl: seq<Event>) {
    forall i, j | 0 <= i < j < |tl| && tl[i].Step? && tl[j].Step? :: !tl[i].status.Cancelled?
  }

  /** Of two steps that are not cancellations, the later is strictly further down the pipeline. */
  predicate MovesForward(tl: seq<Event>) {
    forall i, j | 0 <= i < j < |tl| && tl[i].Step? && tl[j].Step?
                  && !tl[i].status.Cancelled? && !tl[j].status.Cancelled? ::
      Rank(tl[i].status) < Rank(tl[j].status)
  }

  predicate ClientConfirms(tl: seq<Event>, cast: Cast) {
    forall i | 0 <= i < |tl| && tl[i].Step? && tl[i].status.Confirmed? :: tl[i].who !in cast.staff
  }

  predicate Reached(tl: seq<Event>, upTo: nat, s: Status)
    requires upTo <= |tl|
  {
    exists i :: 0 <= i < upTo && tl[i].Step? && tl[i].status == s
  }

  predicate CommentsFollowAnchors(tl: seq<Event>) {
    forall j | 0 <= j < |tl| && tl[j].Comment? :: Reached(tl, j, tl[j].anchor)
  }

  predicate StaffWriteInternals(tl: seq<Event>, cast: Cast) {
    forall i | 0 <= i < |tl| && tl[i].Comment? && tl[i].internal :: tl[i].who in cast.staff
  }

  predicate UploadsAreOld(tl: seq<Event>) {
    forall i | 0 <= i < |tl| && tl[i].Upload? :: tl[i].wd >= 1
  }

  predicate FilesAreKnown(tl: seq<Event>, cast: Cast) {
    forall i | 0 <= i < |tl| && tl[i].Upload? :: tl[i].file in cast.files
  }

  /** The status of the last step. */
  function LastStatus(tl: seq<Event>): Status
    requires StartsWithDraft(tl)
    decreases |tl|
  {
    var e := tl[|tl| - 1];
    if e.Step? then e.status else LastStatus(tl[..|tl| - 1])
  }

  /** That is a step's status, and no step comes after it. */
  lemma {:induction false} LastStatusIs(tl: seq<Event>) returns (i: nat)
    requires StartsWithDraft(tl)
    ensures i < |tl| && tl[i].Step? && tl[i].status == LastStatus(tl)
    ensures forall j | i < j < |tl| :: !tl[j].Step?
    decreases |tl|
  {
    var n := |tl| - 1;
    if tl[n].Step? {
      i := n;
    } else {
      i := LastStatusIs(tl[..n]);
    }
  }

  /** From a quote on an order must promise a date. */
  lemma QuotesPromiseIs(spec: OrderSpec)
    requires StartsWithDraft(spec.timeline)
    ensures QuotesPromise(spec)
            <==> LastStatus(spec.timeline) in {Draft, Submitted, Cancelled} || spec.promised.Some?
  {
  }

  predicate QuotesPromise(spec: OrderSpec)
    requires StartsWithDraft(spec.timeline)
  {
    var s := LastStatus(spec.timeline);
    !s.Cancelled? && Rank(s) >= 2 ==> spec.promised.Some?
  }

  predicate Plausible(spec: OrderSpec, cast: Cast) {
    var tl := spec.timeline;
    && StartsWithDraft(tl) && Chronological(Wds(tl)) && NothingAfterCancelled(tl) && MovesForward(tl)
    && ClientConfirms(tl, cast) && CommentsFollowAnchors(tl) && StaffWriteInternals(tl, cast)
    && UploadsAreOld(tl) && FilesAreKnown(tl, cast) && QuotesPromise(spec)
  }

  /** The rule that an error raised at an event reports. */
  predicate BreaksEventRule(tl: seq<Event>, cast: Cast, error: Implausible) {
    match error
    case AfterCancelled => !NothingAfterCancelled(tl)
    case NotForward => !MovesForward(tl)
    case ConfirmedByStaff => !ClientConfirms(tl, cast)
    case CommentBeforeAnchor => !CommentsFollowAnchors(tl)
    case InternalByClient => !StaffWriteInternals(tl, cast)
    case UploadTooRecent => !UploadsAreOld(tl)
    case UnknownFile => !FilesAreKnown(tl, cast)
    case _ => false
  }

  /** The rule that an error reports. */
  predicate Breaks(spec: OrderSpec, cast: Cast, error: Implausible) {
    match error
    case NotStartingWithDraft => !StartsWithDraft(spec.timeline)
    case NotChronological => !Chronological(Wds(spec.timeline))
    case QuoteWithoutPromise => StartsWithDraft(spec.timeline) && !QuotesPromise(spec)
    case _ => BreaksEventRule(spec.timeline, cast, error)
  }

  /** Everything the loop checks of the events it has seen. */
  predicate PlausibleSoFar(tl: seq<Event>, cast: Cast) {
    && NothingAfterCancelled(tl) && MovesForward(tl) && ClientConfirms(tl, cast)
    && CommentsFollowAnchors(tl) && StaffWriteInternals(tl, cast)
    && UploadsAreOld(tl) && FilesAreKnown(tl, cast)
  }

  /** `seen` lists the statuses of the steps of `tl`, in order. */
  predicate Lists(seen: seq<Status>, tl: seq<Event>) {
    && (forall i | 0 <= i < |tl| && tl[i].Step? :: tl[i].status in seen)
    && (forall s | s in seen :: Reached(tl, |tl|, s))
    && (seen == [] ==> forall i | 0 <= i < |tl| :: !tl[i].Step?)
    && (StartsWithDraft(tl) ==> seen != [] && seen[|seen| - 1] == LastStatus(tl))
  }

  /** The last step's status is the furthest reached. */
  lemma {:induction false} LastIsFurthest(tl: seq<Event>, i: nat)
    requires StartsWithDraft(tl) && NothingAfterCancelled(tl) && MovesForward(tl)
    requires i < |tl| && tl[i].Step?
    ensures tl[i].status == LastStatus(tl)
            || (!tl[i].status.Cancelled?
                && (LastStatus(tl).Cancelled? || Rank(tl[i].status) < Rank(LastStatus(tl))))
    decreases |tl|
  {
    var n := |tl| - 1;
    if !tl[n].Step? {
      LastIsFurthest(tl[..n], i);
    }
  }

  lemma ListsOneMore(tl: seq<Event>, e: Event, seen: seq<Status>)
    requires Lists(seen, tl) && (if tl == [] then e.Step? && e.status.Draft? else StartsWithDraft(tl))
    ensures Lists(if e.Step? then seen + [e.status] else seen, tl + [e])
  {
    var more := tl + [e];
    var next := if e.Step? then seen + [e.status] else seen;
    assert more[..|more| - 1] == tl;
    forall s | s in next ensures Reached(more, |more|, s) {
      if s in seen {
        var i :| 0 <= i < |tl| && tl[i].Step? && tl[i].status == s;
        assert more[i] == tl[i];
      } else {
        assert more[|tl|] == e;
      }
    }
    assert more[0] == if tl == [] then e else tl[0];
  }

  /** The test on a step is the rules for the timeline the step ends. */
  lemma StepRules(tl: seq<Event>, e: Event, cast: Cast, seen: seq<Status>)
    requires PlausibleSoFar(tl, cast) && Lists(seen, tl) && (tl == [] || StartsWithDraft(tl))
    requires e.Step?
    ensures seen != [] && seen[|seen| - 1].Cancelled? ==> !NothingAfterCancelled(tl + [e])
    ensures !(seen != [] && seen[|seen| - 1].Cancelled?) ==>
              && NothingAfterCancelled(tl + [e])
              && (MovesForward(tl + [e])
                  <==> e.status.Cancelled? || seen == [] || Rank(e.status) > Rank(seen[|seen| - 1]))
    ensures ClientConfirms(tl + [e], cast) <==> !(e.status.Confirmed? && e.who in cast.staff)
  {
    var more := tl + [e];
    assert forall i | 0 <= i < |tl| :: more[i] == tl[i];
    assert more[|tl|] == e;
    if seen != [] {
      var last := seen[|seen| - 1];
      assert Reached(tl, |tl|, last);
      var k :| 0 <= k < |tl| && tl[k].Step? && tl[k].status == last;
      assert more[k] == tl[k];
      forall i | 0 <= i < |tl| && tl[i].Step?
        ensures last.Cancelled? || (!tl[i].status.Cancelled? && Rank(tl[i].status) <= Rank(last))
      {
        LastIsFurthest(tl, i);
      }
    }
  }

  lemma StepKeepsRest(tl: seq<Event>, e: Event, cast: Cast)
    requires PlausibleSoFar(tl, cast) && e.Step?
    ensures CommentsFollowAnchors(tl + [e]) && StaffWriteInternals(tl + [e], cast)
    ensures UploadsAreOld(tl + [e]) && FilesAreKnown(tl + [e], cast)
  {
    CommentsCarryOver(tl, e);
  }

  /** Comments already checked stay after their anchors. */
  lemma CommentsCarryOver(tl: seq<Event>, e: Event)
    requires CommentsFollowAnchors(tl)
    ensures CommentsFollowAnchors(tl + [e]) <==> (e.Comment? ==> Reached(tl, |tl|, e.anchor))
  {
    var more := tl + [e];
    forall j, s | 0 <= j <= |tl| ensures Reached(more, j, s) == Reached(tl, j, s) {
      if Reached(tl, j, s) {
        var i :| 0 <= i < j && tl[i].Step? && tl[i].status == s;
        assert more[i] == tl[i];
      }
    }
    forall j | 0 <= j < |tl| && more[j].Comment? ensures Reached(more, j, more[j].anchor) {
      assert more[j] == tl[j];
    }
    assert more[|tl|] == e;
    if CommentsFollowAnchors(more) && e.Comment? {
      assert Reached(more, |tl|, more[|tl|].anchor);
    }
  }

  /** The test on a comment is the rules for the timeline the comment ends. */
  lemma CommentRules(tl: seq<Event>, e: Event, cast: Cast, seen: seq<Status>)
    requires PlausibleSoFar(tl, cast) && Lists(seen, tl) && e.Comment?
    ensures CommentsFollowAnchors(tl + [e]) <==> e.anchor in seen
    ensures StaffWriteInternals(tl + [e], cast) <==> (e.internal ==> e.who in cast.staff)
    ensures NothingAfterCancelled(tl + [e]) && MovesForward(tl + [e]) && ClientConfirms(tl + [e], cast)
    ensures UploadsAreOld(tl + [e]) && FilesAreKnown(tl + [e], cast)
  {
    CommentsCarryOver(tl, e);
    assert (tl + [e])[|tl|] == e;
  }

  lemma UploadRules(tl: seq<Event>, e: Event, cast: Cast)
    requires PlausibleSoFar(tl, cast) && e.Upload?
    ensures UploadsAreOld(tl + [e]) <==> e.wd >= 1
    ensures FilesAreKnown(tl + [e], cast) <==> e.file in cast.files
    ensures NothingAfterCancelled(tl + [e]) && MovesForward(tl + [e]) && ClientConfirms(tl + [e], cast)
    ensures CommentsFollowAnchors(tl + [e]) && StaffWriteInternals(tl + [e], cast)
  {
    CommentsCarryOver(tl, e);
    assert (tl + [e])[|tl|] == e;
  }

  /** A rule broken by a beginning of the timeline is broken by the timeline. */
  lemma BrokenEarly(tl: seq<Event>, n: nat, cast: Cast, error: Implausible)
    requires n <= |tl| && BreaksEventRule(tl[..n], cast, error)
    ensures BreaksEventRule(tl, cast, error)
  {
    var part := tl[..n];
    forall j, s | 0 <= j <= n ensures Reached(tl, j, s) == Reached(part, j, s) {
      if Reached(tl, j, s) {
        var i :| 0 <= i < j && tl[i].Step? && tl[i].status == s;
        assert part[i] == tl[i];
      }
    }
  }

  lemma {:induction false} PairwiseIsChronological(wds: seq<int>)
    requires forall i | 0 <= i < |wds| - 1 :: wds[i + 1] <= wds[i]
    ensures Chronological(wds)
  {
    if |wds| > 1 {
      var init := wds[..|wds| - 1];
      PairwiseIsChronological(init);
      forall i, j | 0 <= i < j < |wds| ensures wds[j] <= wds[i] {
        if j == |wds| - 1 && i < j - 1 {
          assert init[j - 1] <= init[i];
        }
      }
    }
  }

  /** The body of the loop: the tests on one more event `e`. */
  method CheckEvent(ghost tl: seq<Event>, e: Event, cast: Cast, seen: seq<Status>)
    returns (r: Outcome<Implausible>, now: seq<Status>)
    requires PlausibleSoFar(tl, cast) && Lists(seen, tl)
    requires if tl == [] then e.Step? && e.status.Draft? else StartsWithDraft(tl)
    ensures r.Pass? ==> PlausibleSoFar(tl + [e], cast) && Lists(now, tl + [e]) && StartsWithDraft(tl + [e])
    ensures r.Fail? ==> BreaksEventRule(tl + [e], cast, r.error)
  {
    now := seen;
    ListsOneMore(tl, e, seen);
    match e {
    case Step(status, _, who, _) =>
      StepRules(tl, e, cast, seen);
      StepKeepsRest(tl, e, cast);
      if seen != [] && seen[|seen| - 1].Cancelled? {
        return Fail(AfterCancelled), now;
      }
      var forward := status.Cancelled? || seen == [];
      if !forward && Rank(status) <= Rank(seen[|seen| - 1]) {
        return Fail(NotForward), now;
      }
      if status.Confirmed? && who in cast.staff {
        return Fail(ConfirmedByStaff), now;
      }
      now := seen + [status];
    case Comment(anchor, _, who, _, internal) =>
      CommentRules(tl, e, cast, seen);
      if anchor !in seen {
        return Fail(CommentBeforeAnchor), now;
      }
      if internal && who !in cast.staff {
        return Fail(InternalByClient), now;
      }
    case Upload(file, wd, _) =>
      UploadRules(tl, e, cast);
      if wd < 1 {
        return Fail(UploadTooRecent), now;
      }
      if file !in cast.files {
        return Fail(UnknownFile), now;
      }
    }
    return Pass, now;
  }

  /** The loop of `_validate`. */
  method CheckEvents(tl: seq<Event>, cast: Cast) returns (r: Outcome<Implausible>)
    requires StartsWithDraft(tl)
    ensures r.Pass? ==> PlausibleSoFar(tl, cast)
    ensures r.Fail? ==> BreaksEventRule(tl, cast, r.error)
  {
    var seen: seq<Status> := [];
    for n := 0 to |tl|
      invariant PlausibleSoFar(tl[..n], cast) && Lists(seen, tl[..n])
      invariant n > 0 ==> StartsWithDraft(tl[..n])
    {
      assert tl[..n + 1] == tl[..n] + [tl[n]];
      var ok, now := CheckEvent(tl[..n], tl[n], cast, seen);
      if ok.Fail? {
        BrokenEarly(tl, n + 1, cast, ok.error);
        return ok;
      }
      seen := now;
    }
    assert tl[..|tl|] == tl;
    return Pass;
  }

  /** `_validate`: a timeline passes exactly when it is plausible, and an error names a broken rule. */
  method Validate(spec: OrderSpec, cast: Cast) returns (r: Outcome<Implausible>)
    ensures r.Pass? <==> Plausible(spec, cast)
    ensures r.Fail? ==> Breaks(spec, cast, r.error)
  {
    var tl := spec.timeline;
    if |tl| == 0 || !tl[0].Step? || !tl[0].status.Draft? {
      return Fail(NotStartingWithDraft);
    }
    var wds := Wds(tl);
    for k := 0 to |wds| - 1
      invariant forall i | 0 <= i < k :: wds[i + 1] <= wds[i]
    {
      if wds[k + 1] > wds[k] {
        return Fail(NotChronological);
      }
    }
    PairwiseIsChronological(wds);
    var ok := CheckEvents(tl, cast);
    if ok.Fail? {
      return ok;
    }
    var last := LastStatus(tl);
    var quoted := !last.Cancelled? && Rank(last) >= 2;
    if quoted && spec.promised.None? {
      return Fail(QuoteWithoutPromise);
    }
    return Pass;
  }

  // -------------------------------------------------- the rows built from it

  datatype History = History(from: Option<Status>, to: Status, at: int)

  /** What an order's trail must be: each row starts where the one before ended. */
  predicate Chain(rows: seq<History>) {
    && (|rows| > 0 ==> rows[0].from.None?)
    && forall k | 0 < k < |rows| :: rows[k].from == Some(rows[k - 1].to)
  }

  predicate Ascending(times: seq<int>) {
    forall i, j | 0 <= i < j < |times| :: times[i] < times[j]
  }

  /** The history row of each step, in order, and nothing else. */
  predicate RowsOfSteps(rows: seq<History>, tl: seq<Event>, times: seq<int>)
    requires |times| == |tl|
    decreases |tl|
  {
    if tl == [] then rows == []
    else
      var n := |tl| - 1;
      if tl[n].Step? then
        |rows| > 0 && rows[|rows| - 1].to == tl[n].status && rows[|rows| - 1].at == times[n]
        && RowsOfSteps(rows[..|rows| - 1], tl[..n], times[..n])
      else RowsOfSteps(rows, tl[..n], times[..n])
  }

  /** The history part of `_build_order`. */
  method BuildHistory(tl: seq<Event>, times: seq<int>) returns (rows: seq<History>)
    requires |times| == |tl|
    ensures Chain(rows) && RowsOfSteps(rows, tl, times)
  {
    rows := [];
    var prev: Option<Status> := None;
    for n := 0 to |tl|
      invariant Chain(rows) && RowsOfSteps(rows, tl[..n], times[..n])
      invariant prev == if rows == [] then None else Some(rows[|rows| - 1].to)
    {
      assert tl[..n + 1][..n] == tl[..n] && times[..n + 1][..n] == times[..n];
      match tl[n]
      case Step(status, _, _, _) =>
        ghost var before := rows;
        rows := rows + [History(prev, status, times[n])];
        assert rows[..|rows| - 1] == before;
        prev := Some(status);
      case Comment(_, _, _, _, _) =>
      case Upload(_, _, _) =>
    }
    assert tl[..|tl|] == tl && times[..|tl|] == times;
  }

  /** How many of the first `n` events are steps. */
  function StepsAmong(tl: seq<Event>, n: nat): nat
    requires n <= |tl|
  {
    if n == 0 then 0 else StepsAmong(tl, n - 1) + if tl[n - 1].Step? then 1 else 0
  }

  lemma {:induction false} StepsOfPrefix(tl: seq<Event>, m: nat, n: nat)
    requires n <= m <= |tl|
    ensures StepsAmong(tl[..m], n) == StepsAmong(tl, n)
  {
    if n > 0 {
      StepsOfPrefix(tl, m, n - 1);
    }
  }

  /** Each step has its own row, in its place among the steps, with its status and its time, and there is no other. */
  lemma {:induction false} RowOfStep(rows: seq<History>, tl: seq<Event>, times: seq<int>, i: nat)
    requires |times| == |tl| && RowsOfSteps(rows, tl, times) && i < |tl| && tl[i].Step?
    ensures |rows| == StepsAmong(tl, |tl|) && StepsAmong(tl, i) < |rows|
    ensures rows[StepsAmong(tl, i)].to == tl[i].status && rows[StepsAmong(tl, i)].at == times[i]
    decreases |tl|
  {
    var n := |tl| - 1;
    RowsAreCounted(rows, tl, times);
    if i < n {
      var before := if tl[n].Step? then rows[..|rows| - 1] else rows;
      RowOfStep(before, tl[..n], times[..n], i);
      StepsOfPrefix(tl, n, i);
    }
  }

  lemma {:induction false} RowsAreCounted(rows: seq<History>, tl: seq<Event>, times: seq<int>)
    requires |times| == |tl| && RowsOfSteps(rows, tl, times)
    ensures |rows| == StepsAmong(tl, |tl|)
    decreases |tl|
  {
    if tl != [] {
      var n := |tl| - 1;
      RowsAreCounted(if tl[n].Step? then rows[..|rows| - 1] else rows, tl[..n], times[..n]);
      StepsOfPrefix(tl, n, n);
    }
  }

  /** The trail of an accepted order ends in the order's status. */
  lemma {:induction false} HistoryEndsInStatus(rows: seq<History>, tl: seq<Event>, times: seq<int>)
    requires |times| == |tl| && StartsWithDraft(tl) && RowsOfSteps(rows, tl, times)
    ensures |rows| > 0 && rows[|rows| - 1].to == LastStatus(tl)
    decreases |tl|
  {
    var n := |tl| - 1;
    if !tl[n].Step? {
      HistoryEndsInStatus(rows, tl[..n], times[..n]);
    }
  }

  // ------------------------------------------------------------ milestones

  /** `step_time`: when the first step into a status happened. */
  function StepTime(tl: seq<Event>, times: seq<int>, s: Status): (at: Option<int>)
    requires |times| == |tl|
    ensures at.None? <==> !Reached(tl, |tl|, s)
    ensures at.Some? ==> exists i :: 0 <= i < |tl| && tl[i].Step? && tl[i].status == s && times[i] == at.value
  {
    if tl == [] then None
    else if tl[0].Step? && tl[0].status == s then Some(times[0])
    else
      var rest := StepTime(tl[1..], times[1..], s);
      assert Reached(tl, |tl|, s) <==> Reached(tl[1..], |tl| - 1, s) by {
        if Reached(tl, |tl|, s) {
          var i :| 0 <= i < |tl| && tl[i].Step? && tl[i].status == s;
          assert tl[1..][i - 1] == tl[i];
        }
      }
      rest
  }

  /** The second step, from which a skipped submission takes its time. */
  function StepAfter(tl: seq<Event>, skip: nat): (e: Option<Event>)
    ensures e.Some? ==> e.value in tl && e.value.Step?
  {
    if tl == [] then None
    else if tl[0].Step? then (if skip == 0 then Some(tl[0]) else StepAfter(tl[1..], skip - 1))
    else StepAfter(tl[1..], skip)
  }

  function SubmittedAt(tl: seq<Event>, times: seq<int>): Option<int>
    requires |times| == |tl|
  {
    var direct := StepTime(tl, times, Submitted);
    if direct.Some? then direct
    else
      var afterDraft := StepAfter(tl, 1);
      if afterDraft.Some? && !afterDraft.value.status.Cancelled?
      then StepTime(tl, times, afterDraft.value.status)
      else None
  }

  /** `k` is the first step. */
  predicate IsFirstStep(tl: seq<Event>, k: nat) {
    k < |tl| && tl[k].Step? && forall j | 0 <= j < k :: !tl[j].Step?
  }

  /** `i` is the only step before `k`. */
  predicate OnlyStepBefore(tl: seq<Event>, k: nat, i: nat) {
    i < k <= |tl| && tl[i].Step? && forall j | 0 <= j < k && j != i :: !tl[j].Step?
  }

  /** `k` is the second step. */
  ghost predicate IsSecondStep(tl: seq<Event>, k: nat) {
    k < |tl| && tl[k].Step? && exists i: nat :: OnlyStepBefore(tl, k, i)
  }

  lemma {:induction false} StepAfterIsFirst(tl: seq<Event>, k: nat)
    requires IsFirstStep(tl, k)
    ensures StepAfter(tl, 0) == Some(tl[k])
  {
    if k > 0 {
      assert !tl[0].Step?;
      assert IsFirstStep(tl[1..], k - 1);
      StepAfterIsFirst(tl[1..], k - 1);
    }
  }

  lemma {:induction false} StepAfterIsSecond(tl: seq<Event>, k: nat)
    requires IsSecondStep(tl, k)
    ensures StepAfter(tl, 1) == Some(tl[k])
  {
    var i: nat :| OnlyStepBefore(tl, k, i);
    var rest := tl[1..];
    if i == 0 {
      assert IsFirstStep(rest, k - 1);
      StepAfterIsFirst(rest, k - 1);
    } else {
      assert !tl[0].Step?;
      assert OnlyStepBefore(rest, k - 1, i - 1);
      StepAfterIsSecond(rest, k - 1);
    }
  }

  lemma {:induction false} FirstStepExists(tl: seq<Event>) returns (k: nat)
    requires StepAfter(tl, 0).Some?
    ensures IsFirstStep(tl, k)
  {
    if tl[0].Step? {
      k := 0;
    } else {
      var m := FirstStepExists(tl[1..]);
      k := m + 1;
    }
  }

  lemma {:induction false} SecondStepExists(tl: seq<Event>) returns (k: nat)
    requires StepAfter(tl, 1).Some?
    ensures IsSecondStep(tl, k)
  {
    if tl[0].Step? {
      var m := FirstStepExists(tl[1..]);
      k := m + 1;
      assert OnlyStepBefore(tl, k, 0);
    } else {
      var m := SecondStepExists(tl[1..]);
      k := m + 1;
      var i: nat :| OnlyStepBefore(tl[1..], m, i);
      assert OnlyStepBefore(tl, k, i + 1);
    }
  }

  /** The time of a step of an accepted timeline, whose statuses never repeat. */
  lemma StepTimeIs(tl: seq<Event>, times: seq<int>, k: nat)
    requires |times| == |tl| && MovesForward(tl) && k < |tl| && tl[k].Step? && !tl[k].status.Cancelled?
    ensures StepTime(tl, times, tl[k].status) == Some(times[k])
  {
    assert Reached(tl, |tl|, tl[k].status);
    var i :| 0 <= i < |tl| && tl[i].Step? && tl[i].status == tl[k].status
             && times[i] == StepTime(tl, times, tl[k].status).value;
    assert i == k;
  }

  /** When an order was submitted: at its step into that status; without one at its second step, unless that
      cancels it; and otherwise never. */
  lemma SubmittedIs(tl: seq<Event>, times: seq<int>)
    requires |times| == |tl| && MovesForward(tl)
    ensures forall k: nat | k < |tl| && tl[k].Step? && tl[k].status.Submitted? ::
      SubmittedAt(tl, times) == Some(times[k])
    ensures !Reached(tl, |tl|, Submitted) ==>
      && (forall k: nat | IsSecondStep(tl, k) ::
            SubmittedAt(tl, times) == if tl[k].status.Cancelled? then None else Some(times[k]))
      && ((forall k: nat :: !IsSecondStep(tl, k)) ==> SubmittedAt(tl, times).None?)
  {
    forall k: nat | k < |tl| && tl[k].Step? && tl[k].status.Submitted?
      ensures SubmittedAt(tl, times) == Some(times[k])
    {
      StepTimeIs(tl, times, k);
    }
    if !Reached(tl, |tl|, Submitted) {
      forall k: nat | IsSecondStep(tl, k)
        ensures SubmittedAt(tl, times) == if tl[k].status.Cancelled? then None else Some(times[k])
      {
        StepAfterIsSecond(tl, k);
        if !tl[k].status.Cancelled? {
          StepTimeIs(tl, times, k);
        }
      }
      if StepAfter(tl, 1).Some? {
        var k := SecondStepExists(tl);
      }
    }
  }

  predicate NotLater(a: Option<int>, b: Option<int>) {
    a.Some? && b.Some? ==> a.value <= b.value
  }

  /** The k-th step of an accepted timeline is not later than any step it precedes in the pipeline. */
  lemma PipelineOrder(tl: seq<Event>, times: seq<int>, s: Status, t: Status)
    requires |times| == |tl| && Ascending(times) && NothingAfterCancelled(tl) && MovesForward(tl)
    requires !s.Cancelled? && (t.Cancelled? || Rank(s) <= Rank(t))
    ensures NotLater(StepTime(tl, times, s), StepTime(tl, times, t))
  {
    if StepTime(tl, times, s).Some? && StepTime(tl, times, t).Some? {
      var i := StepPlace(tl, times, s);
      var j := StepPlace(tl, times, t);
      PlacesInOrder(tl, i, j);
      assert times[i] <= times[j];
    }
  }

  lemma StepPlace(tl: seq<Event>, times: seq<int>, s: Status) returns (i: nat)
    requires |times| == |tl| && StepTime(tl, times, s).Some?
    ensures i < |tl| && tl[i].Step? && tl[i].status == s && times[i] == StepTime(tl, times, s).value
  {
    i :| i < |tl| && tl[i].Step? && tl[i].status == s && times[i] == StepTime(tl, times, s).value;
  }

  lemma PlacesInOrder(tl: seq<Event>, i: nat, j: nat)
    requires NothingAfterCancelled(tl) && MovesForward(tl) && i < |tl| && j < |tl| && tl[i].Step? && tl[j].Step?
    requires !tl[i].status.Cancelled?
    requires tl[j].status.Cancelled? || Rank(tl[i].status) <= Rank(tl[j].status)
    ensures i <= j
  {
  }

  /** After the draft, every step but a cancellation is at or past the second step. */
  lemma {:induction false} SecondStepIsLeast(tl: seq<Event>, skip: nat, j: nat)
    requires MovesForward(tl) && NothingAfterCancelled(tl)
    requires j < |tl| && tl[j].Step? && !tl[j].status.Cancelled?
    requires skip == 1 ==> StartsWithDraft(tl) && !tl[j].status.Draft?
    requires skip <= 1
    ensures var e := StepAfter(tl, skip);
            e.Some? && !e.value.status.Cancelled? && Rank(e.value.status) <= Rank(tl[j].status)
  {
    if tl[0].Step? && skip == 0 {
      if j > 0 {
        assert !tl[0].status.Cancelled?;
      }
    } else {
      var rest := tl[1..];
      assert rest[j - 1] == tl[j];
      SecondStepIsLeast(rest, if tl[0].Step? then 0 else skip, j - 1);
    }
  }

  /** Milestones follow the pipeline, where present: submitted <= quoted <= confirmed <= delivered <= closed,
      whichever are skipped, and a cancellation comes last. */
  ghost predicate InPipelineOrder(tl: seq<Event>, times: seq<int>)
    requires |times| == |tl|
  {
    && (forall s: Status, t: Status | !s.Cancelled? && (t.Cancelled? || Rank(s) <= Rank(t)) ::
          NotLater(StepTime(tl, times, s), StepTime(tl, times, t)))
    && (forall t: Status | t.Cancelled? || Rank(t) >= Rank(Submitted) ::
          NotLater(SubmittedAt(tl, times), StepTime(tl, times, t)))
  }

  lemma MilestonesInOrder(spec: OrderSpec, cast: Cast, times: seq<int>)
    requires |times| == |spec.timeline| && Ascending(times) && Plausible(spec, cast)
    ensures InPipelineOrder(spec.timeline, times)
  {
    forall s: Status, t: Status | !s.Cancelled? && (t.Cancelled? || Rank(s) <= Rank(t))
      ensures NotLater(StepTime(spec.timeline, times, s), StepTime(spec.timeline, times, t))
    {
      PipelineOrder(spec.timeline, times, s, t);
    }
    forall t: Status | t.Cancelled? || Rank(t) >= Rank(Submitted)
      ensures NotLater(SubmittedAt(spec.timeline, times), StepTime(spec.timeline, times, t))
    {
      SubmittedFirst(spec, cast, times, t);
    }
  }

  lemma SubmittedFirst(spec: OrderSpec, cast: Cast, times: seq<int>, t: Status)
    requires |times| == |spec.timeline| && Ascending(times) && Plausible(spec, cast)
    requires t.Cancelled? || Rank(t) >= 1
    ensures NotLater(SubmittedAt(spec.timeline, times), StepTime(spec.timeline, times, t))
  {
    var tl := spec.timeline;
    var second := StepAfter(tl, 1);
    PipelineOrder(tl, times, Submitted, t);
    if Reached(tl, |tl|, t) && second.Some? && !second.value.status.Cancelled? {
      if !t.Cancelled? {
        var j :| 0 <= j < |tl| && tl[j].Step? && tl[j].status == t;
        SecondStepIsLeast(tl, 1, j);
      }
      PipelineOrder(tl, times, second.value.status, t);
    }
  }
}
