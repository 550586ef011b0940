/** The sliding-window limiter: per-address deques that must answer as a plain log would. */
module EmailThrottle {
  import opened Wrappers

  /** An accepted attempt. */
  datatype Attempt = Attempt(key: string, at: real)

  /** Accepted attempts for `key` with a time in [lo, hi], by the plain log. */
  function Accepted(log: seq<Attempt>, key: string, lo: real, hi: real): nat {
    if log == [] then 0
    else
      var last := log[|log| - 1];
      Accepted(log[..|log| - 1], key, lo, hi) + if last.key == key && lo <= last.at <= hi then 1 else 0
  }

  /** Times of the attempts for one key, oldest first. */
  function TimesOf(log: seq<Attempt>, key: string): seq<real> {
    if log == [] then []
    else
      var last := log[|log| - 1];
      TimesOf(log[..|log| - 1], key) + if last.key == key then [last.at] else []
  }

  /** Logged in order, and not after `now`. */
  predicate Chronological(log: seq<Attempt>, now: real) {
    log == [] ||
    var last := log[|log| - 1];
    last.at <= now && Chronological(log[..|log| - 1], last.at)
  }

  lemma ChronologicalLater(log: seq<Attempt>, now: real, later: real)
    requires Chronological(log, now) && now <= later
    ensures Chronological(log, later)
  {
  }

  predicate Ascending(ts: seq<real>, now: real) {
    && (forall i, j | 0 <= i < j < |ts| :: ts[i] <= ts[j])
    && (forall i | 0 <= i < |ts| :: ts[i] <= now)
  }

  lemma {:induction false} TimesAscend(log: seq<Attempt>, key: string, now: real)
    requires Chronological(log, now)
    ensures Ascending(TimesOf(log, key), now)
  {
    if log != [] {
      var last := log[|log| - 1];
      TimesAscend(log[..|log| - 1], key, last.at);
    }
  }

  /** `ts` splits at `cut` into times before the window and times inside it. */
  lemma {:induction false} WindowIsTail(log: seq<Attempt>, key: string, lo: real, hi: real, cut: nat)
    requires Chronological(log, hi)
    requires var ts := TimesOf(log, key);
             && cut <= |ts|
             && (forall i | 0 <= i < cut :: ts[i] < lo)
             && (forall i | cut <= i < |ts| :: lo <= ts[i])
    ensures Accepted(log, key, lo, hi) == |TimesOf(log, key)| - cut
  {
    if log != [] {
      var init, last := log[..|log| - 1], log[|log| - 1];
      var ts := TimesOf(log, key);
      TimesAscend(log, key, hi);
      var before := TimesOf(init, key);
      assert ts == before + if last.key == key then [last.at] else [];
      assert forall i | 0 <= i < |before| :: before[i] == ts[i];
      assert last.key == key ==> ts[|before|] == last.at;
      WindowIsTail(init, key, lo, hi, if cut > |before| then |before| else cut);
    }
  }

  /** The places of the accepted attempts for `key` in [lo, hi]. */
  function PlacesIn(log: seq<Attempt>, key: string, lo: real, hi: real): set<nat> {
    set i: nat | i < |log| && log[i].key == key && lo <= log[i].at <= hi
  }

  lemma PlacesOneMore(log: seq<Attempt>, key: string, lo: real, hi: real)
    requires log != []
    ensures var n := |log| - 1; var before := PlacesIn(log[..n], key, lo, hi);
            PlacesIn(log, key, lo, hi)
            == if log[n].key == key && lo <= log[n].at <= hi then before + {n} else before
  {
  }

  lemma {:induction false} AcceptedIsTheCount(log: seq<Attempt>, key: string, lo: real, hi: real)
    ensures Accepted(log, key, lo, hi) == |PlacesIn(log, key, lo, hi)|
  {
    if log == [] {
      assert PlacesIn(log, key, lo, hi) == {};
    } else {
      var n := |log| - 1;
      AcceptedIsTheCount(log[..n], key, lo, hi);
      PlacesOneMore(log, key, lo, hi);
      if log[n].key == key && lo <= log[n].at <= hi {
        assert n !in PlacesIn(log[..n], key, lo, hi);
      }
    }
  }

  // -------------------------------------------------- what the log obeys

  /** Every attempt was accepted with fewer than `max` in the window that ends at it. */
  predicate Disciplined(log: seq<Attempt>, max: nat, win: real) {
    log == [] ||
    var init, last := log[..|log| - 1], log[|log| - 1];
    Disciplined(init, max, win) && Accepted(init, last.key, last.at - win, last.at) < max
  }

  lemma {:induction false} AcceptedGrows(log: seq<Attempt>, key: string, lo: real, hi: real, lo': real, hi': real)
    requires lo' <= lo && Chronological(log, hi')
    ensures Accepted(log, key, lo, hi) <= Accepted(log, key, lo', hi')
  {
    if log != [] {
      ChronologicalLater(log[..|log| - 1], log[|log| - 1].at, hi');
      AcceptedGrows(log[..|log| - 1], key, lo, hi, lo', hi');
    }
  }

  /** Any closed window of the log, wherever it starts, holds at most `max` acceptances of a key. */
  lemma {:induction false} NoWindowOverflows(log: seq<Attempt>, max: nat, win: real, key: string,
      start: real, now: real)
    requires Disciplined(log, max, win) && Chronological(log, now)
    ensures Accepted(log, key, start, start + win) <= max
  {
    if log != [] {
      var init, last := log[..|log| - 1], log[|log| - 1];
      NoWindowOverflows(init, max, win, key, start, now);
      if last.key == key && start <= last.at <= start + win {
        AcceptedGrows(init, key, start, start + win, last.at - win, last.at);
      }
    }
  }

  /** Keys with an accepted attempt in [lo, hi]. */
  function KeysAlive(log: seq<Attempt>, lo: real, hi: real): set<string> {
    set a | a in log && lo <= a.at <= hi :: a.key
  }

  lemma {:induction false} TimesAreLogged(log: seq<Attempt>, key: string, i: nat)
    requires i < |TimesOf(log, key)|
    ensures Attempt(key, TimesOf(log, key)[i]) in log
  {
    var init, last := log[..|log| - 1], log[|log| - 1];
    if i < |TimesOf(init, key)| {
      TimesAreLogged(init, key, i);
    }
  }

  // -------------------------------------------------------- normalisation

  /** What `str.strip` removes. */
  predicate IsSpace(c: char) {
    || '\t' <= c <= '\r' || '\U{1C}' <= c <= ' ' || c == '\U{85}' || c == '\U{A0}' || c == '\U{1680}'
    || '\U{2000}' <= c <= '\U{200A}' || c == '\U{2028}' || c == '\U{2029}' || c == '\U{202F}'
    || c == '\U{205F}' || c == '\U{3000}'
  }

  function Lower(s: string): (r: string)
    ensures |r| == |s|
  {
    seq(|s|, i requires 0 <= i < |s| =>
      if 'A' <= s[i] <= 'Z' then (s[i] as int + 32) as char else s[i])
  }

  function Strip(s: string): string {
    if s != "" && IsSpace(s[0]) then Strip(s[1..])
    else if s != "" && IsSpace(s[|s| - 1]) then Strip(s[..|s| - 1])
    else s
  }

  /** `(email or "").strip().lower()` */
  function KeyOf(email: Option<string>): string {
    if email.None? then "" else Lower(Strip(email.value))
  }

  predicate Blank(s: string) {
    forall i | 0 <= i < |s| :: IsSpace(s[i])
  }

  lemma {:induction false} LeftPadding(left: string, s: string)
    requires Blank(left)
    ensures Strip(left + s) == Strip(s)
  {
    if left != "" {
      assert (left + s)[1..] == left[1..] + s;
      LeftPadding(left[1..], s);
    } else {
      assert left + s == s;
    }
  }

  lemma {:induction false} RightSpace(s: string, c: char)
    requires IsSpace(c)
    ensures Strip(s + [c]) == Strip(s)
  {
    if s == "" {
      assert (s + [c])[1..] == "";
    } else if IsSpace(s[0]) {
      assert (s + [c])[1..] == s[1..] + [c];
      RightSpace(s[1..], c);
    } else {
      assert (s + [c])[..|s|] == s;
    }
  }

  lemma {:induction false} RightPadding(s: string, right: string)
    requires Blank(right)
    ensures Strip(s + right) == Strip(s)
  {
    if right == "" {
      assert s + right == s;
    } else {
      var init, last := right[..|right| - 1], right[|right| - 1];
      assert s + right == s + init + [last];
      RightSpace(s + init, last);
      RightPadding(s, init);
    }
  }

  /** Padding on either side does not buy a second allowance. */
  lemma PaddingDoesNotMatter(left: string, s: string, right: string)
    requires Blank(left) && Blank(right)
    ensures KeyOf(Some(left + s + right)) == KeyOf(Some(s))
  {
    RightPadding(left + s, right);
    LeftPadding(left, s);
  }

  lemma {:induction false} LowerAndStrip(s: string)
    ensures Lower(Strip(s)) == Strip(Lower(s))
  {
    if s != "" {
      assert IsSpace(Lower(s)[0]) == IsSpace(s[0]) && IsSpace(Lower(s)[|s| - 1]) == IsSpace(s[|s| - 1]);
      if IsSpace(s[0]) {
        LowerAndStrip(s[1..]);
        assert Lower(s)[1..] == Lower(s[1..]);
      } else if IsSpace(s[|s| - 1]) {
        LowerAndStrip(s[..|s| - 1]);
        assert Lower(s)[..|s| - 1] == Lower(s[..|s| - 1]);
      }
    }
  }

  /** The same character, or an ASCII letter and its capital. */
  predicate SameButForCase(a: char, b: char) {
    || a == b
    || (65 <= a as int <= 90 && b as int == a as int + 32)
    || (65 <= b as int <= 90 && a as int == b as int + 32)
  }

  predicate AlikeButForCase(s: string, t: string) {
    |s| == |t| && forall i | 0 <= i < |s| :: SameButForCase(s[i], t[i])
  }

  lemma LowerIsSame(a: char, b: char)
    ensures Lower([a]) == Lower([b]) <==> SameButForCase(a, b)
  {
    assert Lower([a]) == Lower([b]) <==> Lower([a])[0] == Lower([b])[0];
  }

  lemma LowerAt(s: string, i: nat)
    requires i < |s|
    ensures Lower(s)[i] == Lower([s[i]])[0]
  {
  }

  /** Nor do capitals: two texts that differ in nothing else have one key. */
  lemma CapitalsDoNotMatter(s: string, t: string)
    requires AlikeButForCase(s, t)
    ensures KeyOf(Some(s)) == KeyOf(Some(t))
  {
    forall i | 0 <= i < |s| ensures Lower(s)[i] == Lower(t)[i] {
      LowerIsSame(s[i], t[i]);
      LowerAt(s, i);
      LowerAt(t, i);
    }
    assert Lower(s) == Lower(t);
    LowerAndStrip(s);
    LowerAndStrip(t);
  }

  /** What stripping leaves, and that blanks are all it takes. */
  lemma {:induction false} StripIsTheMiddle(s: string) returns (a: nat, b: nat)
    ensures a <= b <= |s| && Strip(s) == s[a..b] && Blank(s[..a]) && Blank(s[b..])
  {
    if s != "" && IsSpace(s[0]) {
      var c, d := StripIsTheMiddle(s[1..]);
      a, b := c + 1, d + 1;
      assert s[..a] == [s[0]] + s[1..][..c] && s[b..] == s[1..][d..];
      assert s[a..b] == s[1..][c..d];
    } else if s != "" && IsSpace(s[|s| - 1]) {
      var init := s[..|s| - 1];
      a, b := StripIsTheMiddle(init);
      assert s[..a] == init[..a] && s[b..] == init[b..] + [s[|s| - 1]];
      assert s[a..b] == init[a..b];
    } else {
      a, b := 0, |s|;
    }
  }

  /** And nothing else is merged: texts of one key are, but for blanks at their ends and capitals, the same. */
  lemma KeysTellAddressesApart(s: string, t: string) returns (a: nat, b: nat, c: nat, d: nat)
    requires KeyOf(Some(s)) == KeyOf(Some(t))
    ensures a <= b <= |s| && Blank(s[..a]) && Blank(s[b..])
    ensures c <= d <= |t| && Blank(t[..c]) && Blank(t[d..])
    ensures AlikeButForCase(s[a..b], t[c..d])
  {
    a, b := StripIsTheMiddle(s);
    c, d := StripIsTheMiddle(t);
    var x, y := s[a..b], t[c..d];
    assert |Lower(x)| == |Lower(y)|;
    forall i | 0 <= i < |x| ensures SameButForCase(x[i], y[i]) {
      LowerAt(x, i);
      LowerAt(y, i);
      LowerIsSame(x[i], y[i]);
    }
  }

  /** White space, by its code points. */
  lemma SpacesByCode(c: char)
    ensures var n := c as int;
            IsSpace(c) <==> 9 <= n <= 13 || 28 <= n <= 32 || n == 133 || n == 160 || n == 5760 || 8192 <= n <= 8202
                            || n == 8232 || n == 8233 || n == 8239 || n == 8287 || n == 12288
  {
  }

  lemma BlankIsStripped(s: string)
    ensures Blank(s) ==> Strip(s) == ""
  {
    if Blank(s) {
      LeftPadding(s, "");
      assert s + "" == s;
    }
  }

  /** Only a missing or a blank address is not throttled. */
  lemma NoKeyIsBlank(email: Option<string>)
    ensures KeyOf(email) == "" <==> email.None? || Blank(email.value)
  {
    if email.Some? {
      var a, b := StripIsTheMiddle(email.value);
      if KeyOf(email) == "" {
        assert email.value[..a] + email.value[b..] == email.value;
      } else {
        BlankIsStripped(email.value);
      }
    }
  }

  // -------------------------------------------------- deques against the log

  type Buckets = map<string, seq<real>>

  function Bucket(buckets: Buckets, key: string): seq<real> {
    if key in buckets then buckets[key] else []
  }

  /** The deque is the end of the key's log; whatever it lacks lies before the window. */
  predicate EndsLike(deque: seq<real>, ts: seq<real>, cutoff: real) {
    && |deque| <= |ts| && deque == ts[|ts| - |deque|..]
    && forall i | 0 <= i < |ts| - |deque| :: ts[i] < cutoff
  }

  predicate Mirrors(buckets: Buckets, log: seq<Attempt>, key: string, cutoff: real) {
    && EndsLike(Bucket(buckets, key), TimesOf(log, key), cutoff)
    && (key in buckets ==> buckets[key] != [])
  }

  ghost predicate AllMirror(buckets: Buckets, log: seq<Attempt>, cutoff: real) {
    forall key :: Mirrors(buckets, log, key, cutoff)
  }

  lemma WindowMovesOn(buckets: Buckets, log: seq<Attempt>, cutoff: real, cutoff': real)
    requires AllMirror(buckets, log, cutoff) && cutoff <= cutoff'
    ensures AllMirror(buckets, log, cutoff')
  {
    forall key ensures Mirrors(buckets, log, key, cutoff') {
      assert Mirrors(buckets, log, key, cutoff);
    }
  }

  /** A popped deque holds exactly the accepted attempts of the window that ends now. */
  lemma PoppedIsWindow(deque: seq<real>, log: seq<Attempt>, key: string, popped: nat, cutoff: real, now: real)
    requires Chronological(log, now) && EndsLike(deque, TimesOf(log, key), cutoff) && popped <= |deque|
    requires forall i | 0 <= i < popped :: deque[i] < cutoff
    requires popped < |deque| ==> deque[popped] >= cutoff
    ensures EndsLike(deque[popped..], TimesOf(log, key), cutoff)
    ensures |deque[popped..]| == Accepted(log, key, cutoff, now)
  {
    var ts := TimesOf(log, key);
    var cut := |ts| - |deque| + popped;
    TimesAscend(log, key, now);
    forall i | 0 <= i < cut ensures ts[i] < cutoff {
      if i >= |ts| - |deque| {
        assert ts[i] == deque[i - (|ts| - |deque|)];
      }
    }
    forall i | cut <= i < |ts| ensures cutoff <= ts[i] {
      assert ts[cut] == deque[popped];
    }
    WindowIsTail(log, key, cutoff, now, cut);
  }

  /** Buckets whose newest entry lies before the cutoff: they answer nothing any more. */
  function StaleKeys(buckets: Buckets, staleCutoff: real): set<string> {
    set k | k in buckets && (buckets[k] == [] || buckets[k][|buckets[k]| - 1] < staleCutoff)
  }

  lemma SweptKeyIsBeforeTheWindow(buckets: Buckets, log: seq<Attempt>, key: string, cutoff: real, now: real)
    requires Chronological(log, now) && Mirrors(buckets, log, key, cutoff)
    requires key in StaleKeys(buckets, cutoff)
    ensures EndsLike([], TimesOf(log, key), cutoff)
  {
    var ts := TimesOf(log, key);
    TimesAscend(log, key, now);
    assert buckets[key][|buckets[key]| - 1] == ts[|ts| - 1] < cutoff;
  }

  lemma SweepKeepsMirrors(buckets: Buckets, log: seq<Attempt>, cutoff: real, staleCutoff: real, now: real)
    requires Chronological(log, now) && AllMirror(buckets, log, cutoff) && staleCutoff <= cutoff
    ensures AllMirror(buckets - StaleKeys(buckets, staleCutoff), log, cutoff)
  {
    var stale := StaleKeys(buckets, staleCutoff);
    var swept := buckets - stale;
    forall key ensures Mirrors(swept, log, key, cutoff) {
      assert Mirrors(buckets, log, key, cutoff);
      if key in stale {
        SweptKeyIsBeforeTheWindow(buckets, log, key, cutoff, now);
      }
    }
  }

  lemma SweepKeepsTheAlive(buckets: Buckets, log: seq<Attempt>, cutoff: real, staleCutoff: real, now: real)
    requires Chronological(log, now) && AllMirror(buckets, log, cutoff)
    ensures (buckets - StaleKeys(buckets, staleCutoff)).Keys <= KeysAlive(log, staleCutoff, now)
  {
    var alive := KeysAlive(log, staleCutoff, now);
    forall key | key in buckets && key !in StaleKeys(buckets, staleCutoff) ensures key in alive {
      assert Mirrors(buckets, log, key, cutoff);
      var ts := TimesOf(log, key);
      TimesAscend(log, key, now);
      TimesAreLogged(log, key, |ts| - 1);
      assert buckets[key][|buckets[key]| - 1] == ts[|ts| - 1];
    }
  }

  function LogAfter(log: seq<Attempt>, key: string, now: real, ok: bool): seq<Attempt> {
    if ok then log + [Attempt(key, now)] else log
  }

  lemma StoredKeyMirrors(log: seq<Attempt>, key: string, q: seq<real>, cutoff: real, now: real, ok: bool)
    requires EndsLike(q, TimesOf(log, key), cutoff)
    ensures EndsLike(if ok then q + [now] else q, TimesOf(LogAfter(log, key, now, ok), key), cutoff)
  {
    if ok {
      var ts := TimesOf(log, key);
      TimesOneMore(log, Attempt(key, now), key);
      assert (ts + [now])[|ts| - |q|..] == q + [now];
    }
  }

  lemma OtherKeyMirrors(buckets: Buckets, log: seq<Attempt>, key: string, cutoff: real, now: real, ok: bool,
                        k: string, stored: seq<real>)
    requires k != key && Mirrors(buckets, log, k, cutoff)
    ensures Mirrors(buckets[key := stored], LogAfter(log, key, now, ok), k, cutoff)
  {
    if ok {
      TimesOneMore(log, Attempt(key, now), k);
    }
  }

  lemma StoreKeepsMirrors(buckets: Buckets, log: seq<Attempt>, key: string, q: seq<real>, cutoff: real,
      now: real, ok: bool)
    requires AllMirror(buckets, log, cutoff) && EndsLike(q, TimesOf(log, key), cutoff)
    requires ok || q != []
    ensures AllMirror(buckets[key := if ok then q + [now] else q], LogAfter(log, key, now, ok), cutoff)
  {
    var stored := if ok then q + [now] else q;
    var buckets' := buckets[key := stored];
    var log' := LogAfter(log, key, now, ok);
    forall k ensures Mirrors(buckets', log', k, cutoff) {
      if k == key {
        StoredKeyMirrors(log, key, q, cutoff, now, ok);
      } else {
        OtherKeyMirrors(buckets, log, key, cutoff, now, ok, k, stored);
      }
    }
  }

  lemma TimesOneMore(log: seq<Attempt>, a: Attempt, key: string)
    ensures TimesOf(log + [a], key) == TimesOf(log, key) + if a.key == key then [a.at] else []
  {
    assert (log + [a])[..|log|] == log;
  }

  lemma LogStaysDisciplined(log: seq<Attempt>, key: string, now: real, ok: bool, max: nat, win: real)
    requires Disciplined(log, max, win) && Chronological(log, now)
    requires ok ==> Accepted(log, key, now - win, now) < max
    ensures Disciplined(LogAfter(log, key, now, ok), max, win)
    ensures Chronological(LogAfter(log, key, now, ok), now)
  {
    if ok {
      assert (log + [Attempt(key, now)])[..|log|] == log;
    }
  }

  /** Every bucket was alive at the last sweep or has been seen since. */
  ghost predicate Covered(buckets: Buckets, log: seq<Attempt>, lo: real, hi: real, seen: set<string>) {
    buckets.Keys <= KeysAlive(log, lo, hi) + seen
  }

  lemma StoreKeepsCover(buckets: Buckets, log: seq<Attempt>, key: string, stored: seq<real>, now: real, ok: bool,
                        lo: real, hi: real, seen: set<string>)
    requires Covered(buckets, log, lo, hi, seen)
    ensures Covered(buckets[key := stored], LogAfter(log, key, now, ok), lo, hi, seen + {key})
  {
    var log' := LogAfter(log, key, now, ok);
    var alive := KeysAlive(log', lo, hi);
    forall b | b in log && lo <= b.at <= hi ensures b.key in alive {
      assert b in log';
    }
  }

  lemma KeysWith(buckets: Buckets, key: string, stored: seq<real>)
    ensures buckets[key := stored].Keys == buckets.Keys + {key}
  {
  }

  lemma OneMoreSeen(seen: set<string>, key: string)
    ensures |seen + {key}| <= |seen| + 1
  {
    if key in seen {
      assert seen + {key} == seen;
    }
  }

  lemma {:induction false} SubsetSize<T>(a: set<T>, b: set<T>)
    requires a <= b
    ensures |a| <= |b|
  {
    if a != {} {
      var x :| x in a;
      SubsetSize(a - {x}, b - {x});
    }
  }

  /** Pop the front of a deque while it lies before the window. */
  method PopStale(deque: seq<real>, cutoff: real) returns (q: seq<real>, ghost popped: nat)
    ensures popped <= |deque| && q == deque[popped..]
    ensures forall i | 0 <= i < popped :: deque[i] < cutoff
    ensures popped < |deque| ==> deque[popped] >= cutoff
  {
    q, popped := deque, 0;
    while q != [] && q[0] < cutoff
      invariant popped <= |deque| && q == deque[popped..]
      invariant forall i | 0 <= i < popped :: deque[i] < cutoff
      decreases |q|
    {
      q, popped := q[1..], popped + 1;
    }
  }

  // ------------------------------------------------------------ the class

  const EVICT_EVERY_N := 512

  function NextHit(hits: nat): nat {
    if hits + 1 >= EVICT_EVERY_N then 0 else hits + 1
  }

  /** A bucket whose newest entry is older than this, four windows back, is swept. */
  function StaleCutoff(now: real, win: real): real {
    now - win * 4.0
  }

  /** What holds between calls: the log is orderly and the buckets answer for it. */
  ghost predicate Consistent(max: nat, win: real, buckets: Buckets, log: seq<Attempt>, clock: real,
                             sweptAt: real, seen: set<string>)
  {
    && max > 0 && win > 0.0
    && Chronological(log, clock) && Disciplined(log, max, win)
    && AllMirror(buckets, log, clock - win)
    && sweptAt <= clock && Covered(buckets, log, StaleCutoff(sweptAt, win), sweptAt, seen)
  }

  lemma ClockMovesOn(max: nat, win: real, buckets: Buckets, log: seq<Attempt>, clock: real,
                     sweptAt: real, seen: set<string>, now: real)
    requires Consistent(max, win, buckets, log, clock, sweptAt, seen) && clock <= now
    ensures Consistent(max, win, buckets, log, now, sweptAt, seen)
  {
    WindowMovesOn(buckets, log, clock - win, now - win);
    ChronologicalLater(log, clock, now);
  }

  lemma SweepIsInvisible(max: nat, win: real, buckets: Buckets, log: seq<Attempt>, sweptAt: real,
                         seen: set<string>, now: real)
    requires Consistent(max, win, buckets, log, now, sweptAt, seen)
    ensures Consistent(max, win, buckets - StaleKeys(buckets, StaleCutoff(now, win)), log, now, now, {})
  {
    SweepKeepsMirrors(buckets, log, now - win, StaleCutoff(now, win), now);
    SweepKeepsTheAlive(buckets, log, now - win, StaleCutoff(now, win), now);
  }

  lemma StoreIsConsistent(max: nat, win: real, buckets: Buckets, log: seq<Attempt>, sweptAt: real,
                          seen: set<string>, now: real, key: string, q: seq<real>, ok: bool)
    requires Consistent(max, win, buckets, log, now, sweptAt, seen)
    requires EndsLike(q, TimesOf(log, key), now - win)
    requires if ok then Accepted(log, key, now - win, now) < max else q != []
    ensures Consistent(max, win, buckets[key := if ok then q + [now] else q], LogAfter(log, key, now, ok), now,
                       sweptAt, seen + {key})
  {
    StoreKeepsMirrors(buckets, log, key, q, now - win, now, ok);
    StoreKeepsCover(buckets, log, key, if ok then q + [now] else q, now, ok, StaleCutoff(sweptAt, win), sweptAt, seen);
    LogStaysDisciplined(log, key, now, ok, max, win);
  }

  class EmailThrottle {
    const max: nat
    const win: real
    var buckets: Buckets
    var hitsSinceSweep: nat

    ghost var log: seq<Attempt>
    ghost var clock: real
    /** When the last sweep ran, and the keys seen since. */
    ghost var sweptAt: real
    ghost var seen: set<string>

    ghost predicate Valid()
      reads this
    {
      && Consistent(max, win, buckets, log, clock, sweptAt, seen)
      && hitsSinceSweep < EVICT_EVERY_N && |seen| <= hitsSinceSweep + 1
      && (hitsSinceSweep == 0 ==> sweptAt == clock)
    }

    constructor (maxAttempts: nat, windowSeconds: nat, now: real)
      requires maxAttempts > 0 && windowSeconds > 0
      ensures Valid() && log == [] && buckets == map[] && clock == now
      ensures max == maxAttempts && win == windowSeconds as real && hitsSinceSweep == 0 && sweptAt == now
    {
      max := maxAttempts;
      win := windowSeconds as real;
      buckets := map[];
      hitsSinceSweep := 0;
      log := [];
      clock := now;
      sweptAt := now;
      seen := {};
    }

    /** Count the call and, every 512 calls, sweep. */
    method CountAndSweep(now: real)
      requires Valid() && clock <= now
      modifies `clock, `hitsSinceSweep, `buckets, `sweptAt, `seen
      ensures Valid() && clock == now && |seen| <= hitsSinceSweep
      ensures hitsSinceSweep == NextHit(old(hitsSinceSweep))
      ensures hitsSinceSweep == 0 ==> buckets == old(buckets) - StaleKeys(old(buckets), StaleCutoff(now, win))
      ensures hitsSinceSweep == 0 ==>
        buckets.Keys == old(buckets).Keys - StaleKeys(old(buckets), StaleCutoff(now, win))
      ensures hitsSinceSweep != 0 ==> buckets == old(buckets) && sweptAt == old(sweptAt)
    {
      ClockMovesOn(max, win, buckets, log, clock, sweptAt, seen, now);
      clock := now;
      hitsSinceSweep := hitsSinceSweep + 1;
      if hitsSinceSweep >= EVICT_EVERY_N {
        SweepIsInvisible(max, win, buckets, log, sweptAt, seen, now);
        buckets := buckets - StaleKeys(buckets, StaleCutoff(now, win));
        sweptAt, seen, hitsSinceSweep := now, {}, 0;
      }
    }

    /** Stores the key's deque, with the attempt when it was accepted. */
    method Store(key: string, q: seq<real>, ok: bool, now: real)
      requires Valid() && clock == now && |seen| <= hitsSinceSweep && EndsLike(q, TimesOf(log, key), now - win)
      requires if ok then Accepted(log, key, now - win, now) < max else q != []
      modifies `buckets, `seen, `log
      ensures Valid() && log == LogAfter(old(log), key, now, ok)
      ensures buckets == old(buckets)[key := if ok then q + [now] else q]
    {
      StoreIsConsistent(max, win, buckets, log, sweptAt, seen, now, key, q, ok);
      OneMoreSeen(seen, key);
      buckets := buckets[key := if ok then q + [now] else q];
      seen := seen + {key};
      log := LogAfter(log, key, now, ok);
    }

    /** A call for a key: the answer is the plain log's, and the buckets are those the sweep left, if it
        is its turn, with the key's. */
    method AllowKey(key: string, now: real) returns (ok: bool)
      requires Valid() && clock <= now
      modifies this
      ensures Valid() && clock == now
      ensures (ok <==> Accepted(old(log), key, now - win, now) < max) && log == LogAfter(old(log), key, now, ok)
      ensures hitsSinceSweep == NextHit(old(hitsSinceSweep))
      ensures hitsSinceSweep != 0 ==> buckets.Keys == old(buckets).Keys + {key} && sweptAt == old(sweptAt)
      ensures hitsSinceSweep == 0 ==>
        buckets.Keys == old(buckets).Keys - StaleKeys(old(buckets), StaleCutoff(now, win)) + {key}
    {
      CountAndSweep(now);
      var q := Window(key, now);
      ok := |q| < max;
      KeysWith(buckets, key, if ok then q + [now] else q);
      Store(key, q, ok, now);
    }

    /** `allow`: the answer is the plain log's, whatever the deques and the sweep have dropped. */
    method Allow(email: Option<string>, now: real) returns (ok: bool)
      requires Valid() && clock <= now
      modifies this
      ensures Valid()
      ensures KeyOf(email) == "" ==>
        && ok && log == old(log) && clock == old(clock) && buckets == old(buckets)
        && hitsSinceSweep == old(hitsSinceSweep) && sweptAt == old(sweptAt)
      ensures KeyOf(email) != "" ==>
        && clock == now
        && (ok <==> |PlacesIn(old(log), KeyOf(email), now - win, now)| < max)
        && log == (if ok then old(log) + [Attempt(KeyOf(email), now)] else old(log))
        && hitsSinceSweep == (if old(hitsSinceSweep) + 1 >= 512 then 0 else old(hitsSinceSweep) + 1)
        && (hitsSinceSweep != 0 ==> buckets.Keys == old(buckets).Keys + {KeyOf(email)} && sweptAt == old(sweptAt))
        && (hitsSinceSweep == 0 ==>
              buckets.Keys == old(buckets).Keys - StaleKeys(old(buckets), now - 4.0 * win) + {KeyOf(email)})
    {
      var key := KeyOf(email);
      if key == "" {
        return true;
      }
      AcceptedIsTheCount(log, key, now - win, now);
      ok := AllowKey(key, now);
    }

    /** The key's deque without the entries that have left the window. */
    method Window(key: string, now: real) returns (q: seq<real>)
      requires Valid() && clock == now
      ensures EndsLike(q, TimesOf(log, key), now - win) && |q| == Accepted(log, key, now - win, now)
    {
      ghost var popped;
      q, popped := PopStale(Bucket(buckets, key), now - win);
      assert Mirrors(buckets, log, key, now - win);
      PoppedIsWindow(Bucket(buckets, key), log, key, popped, now - win, now);
    }

    /** Buckets never exceed the keys alive in the four windows before the last sweep plus 512. */
    lemma BucketsAreBounded()
      requires Valid()
      ensures |buckets| <= |KeysAlive(log, StaleCutoff(sweptAt, win), sweptAt)| + EVICT_EVERY_N
    {
      var alive := KeysAlive(log, StaleCutoff(sweptAt, win), sweptAt);
      assert |buckets| == |buckets.Keys|;
      SubsetSize(buckets.Keys, alive + seen);
      assert |alive + seen| <= |alive| + |seen|;
    }

    /** So right after a sweep, as `hitsSinceSweep` tells, the bound holds at the present clock. */
    lemma BucketsAreBoundedAtTheSweep()
      requires Valid() && (hitsSinceSweep == 0 || sweptAt == clock)
      ensures |buckets| <= |KeysAlive(log, clock - 4.0 * win, clock)| + 512
    {
      BucketsAreBounded();
    }

    lemma NothingIsStale(staleCutoff: real)
      requires Valid() && NothingBefore(log, staleCutoff)
      ensures StaleKeys(buckets, staleCutoff) == {}
    {
      NoneIsStale(buckets, log, clock - win, staleCutoff, clock);
    }
  }

  // ---------------------------------------- buckets that outlive their windows

  /** Distinct addresses, their own keys. */
  function Address(n: nat): (s: string)
    ensures |s| == n + 1 && forall i | 0 <= i <= n :: s[i] == 'a'
  {
    if n == 0 then "a" else Address(n - 1) + "a"
  }

  lemma AddressIsItsKey(n: nat)
    ensures KeyOf(Some(Address(n))) == Address(n) != ""
  {
    var s := Address(n);
    assert !IsSpace(s[0]) && !IsSpace(s[|s| - 1]);
    assert Strip(s) == s;
    assert Lower(s) == s;
  }

  function Addresses(n: nat): set<string> {
    if n == 0 then {} else Addresses(n - 1) + {Address(n - 1)}
  }

  lemma OneMoreAddress(n: nat, keys: set<string>)
    requires n > 0 && Addresses(n - 1) <= keys
    ensures Addresses(n) <= keys + {Address(n - 1)}
  {
  }

  lemma {:induction false} AddressesAreDistinct(n: nat)
    ensures |Addresses(n)| == n && forall s | s in Addresses(n) :: |s| <= n
  {
    if n > 0 {
      AddressesAreDistinct(n - 1);
      assert |Address(n - 1)| == n;
    }
  }

  /** Every attempt since `from` was made for `key`. */
  predicate OnlyKeySince(log: seq<Attempt>, from: real, key: string) {
    forall a | a in log && a.at >= from :: a.key == key
  }

  predicate NothingBefore(log: seq<Attempt>, from: real) {
    forall a | a in log :: a.at >= from
  }

  /** While nothing logged is older than the cutoff, the sweep drops nothing. */
  lemma NoneIsStale(buckets: Buckets, log: seq<Attempt>, cutoff: real, staleCutoff: real, now: real)
    requires Chronological(log, now) && AllMirror(buckets, log, cutoff) && NothingBefore(log, staleCutoff)
    ensures StaleKeys(buckets, staleCutoff) == {}
  {
    forall k | k in buckets ensures buckets[k] != [] && buckets[k][|buckets[k]| - 1] >= staleCutoff {
      assert Mirrors(buckets, log, k, cutoff);
      var ts := TimesOf(log, k);
      assert buckets[k][|buckets[k]| - 1] == ts[|ts| - 1];
      TimesAreLogged(log, k, |ts| - 1);
    }
  }

  lemma FewAreAlive(log: seq<Attempt>, lo: real, hi: real, key: string)
    requires OnlyKeySince(log, lo, key)
    ensures |KeysAlive(log, lo, hi)| <= 1
  {
    SubsetSize(KeysAlive(log, lo, hi), {key});
  }

  /** The log before a call for `key` at `now`, or with the attempt. */
  predicate Logged(log: seq<Attempt>, before: seq<Attempt>, key: string, now: real) {
    log == before || log == before + [Attempt(key, now)]
  }

  /** A call while nothing logged is four windows old: no bucket goes. */
  method CallOnce(t: EmailThrottle, n: nat, now: real)
    requires t.Valid() && t.clock <= now && NothingBefore(t.log, StaleCutoff(now, t.win))
    modifies t
    ensures t.Valid() && t.clock == now && t.hitsSinceSweep == NextHit(old(t.hitsSinceSweep))
    ensures t.buckets.Keys == old(t.buckets).Keys + {Address(n)}
    ensures t.hitsSinceSweep != 0 ==> t.sweptAt == old(t.sweptAt)
    ensures Logged(t.log, old(t.log), Address(n), now)
  {
    AddressIsItsKey(n);
    t.NothingIsStale(StaleCutoff(now, t.win));
    var ok := t.Allow(Some(Address(n)), now);
  }

  predicate AllAt(log: seq<Attempt>, now: real) {
    forall a | a in log :: a.at == now
  }

  lemma AllAtGrows(log: seq<Attempt>, before: seq<Attempt>, key: string, now: real)
    requires AllAt(before, now) && Logged(log, before, key, now)
    ensures AllAt(log, now)
  {
  }

  /** The many of time 0, and one address at any later time. */
  predicate OneAfterMany(log: seq<Attempt>) {
    forall a | a in log :: a.at >= 0.0 && (a.at > 0.0 ==> a.key == Address(0))
  }

  lemma OneAfterManyGrows(log: seq<Attempt>, before: seq<Attempt>, now: real)
    requires OneAfterMany(before) && now > 0.0 && Logged(log, before, Address(0), now)
    ensures OneAfterMany(log)
  {
  }

  lemma OneAfterManySees(log: seq<Attempt>, from: real)
    requires OneAfterMany(log)
    ensures NothingBefore(log, 0.0) && (from > 0.0 ==> OnlyKeySince(log, from, Address(0)))
  {
  }

  lemma AtZeroIsFirst(log: seq<Attempt>, from: real)
    requires AllAt(log, 0.0) && from <= 0.0
    ensures NothingBefore(log, from) && OneAfterMany(log)
  {
  }

  /** The count of calls since the last sweep, after `n` calls in all, up to two sweeps. */
  function HitsAfter(n: nat): nat {
    if n < EVICT_EVERY_N then n else if n < 2 * EVICT_EVERY_N then n - EVICT_EVERY_N else 0
  }

  /** At time 0, after one call of each of the first `n` addresses. */
  ghost predicate Filled(buckets: Buckets, log: seq<Attempt>, hits: nat, n: nat) {
    Addresses(n) <= buckets.Keys && AllAt(log, 0.0) && hits == HitsAfter(n)
  }

  lemma FilledOneMore(buckets: Buckets, log: seq<Attempt>, hits: nat, n: nat, after: Buckets, log': seq<Attempt>)
    requires n < 2 * EVICT_EVERY_N && Filled(buckets, log, hits, n) && Logged(log', log, Address(n), 0.0)
    requires after.Keys == buckets.Keys + {Address(n)}
    ensures Filled(after, log', NextHit(hits), n + 1)
  {
    AllAtGrows(log', log, Address(n), 0.0);
    OneMoreAddress(n + 1, buckets.Keys);
  }

  /** Many addresses, once each, at time 0. */
  method FillUp(t: EmailThrottle, many: nat)
    requires many <= 2 * EVICT_EVERY_N && t.Valid() && t.clock == 0.0 && t.win > 0.0
    requires Filled(t.buckets, t.log, t.hitsSinceSweep, 0)
    modifies t
    ensures t.Valid() && t.clock == 0.0 && Filled(t.buckets, t.log, t.hitsSinceSweep, many)
  {
    if many > 0 {
      FillUp(t, many - 1);
      FillOne(t, many - 1);
    }
  }

  method FillOne(t: EmailThrottle, n: nat)
    requires n < 2 * EVICT_EVERY_N && t.Valid() && t.clock == 0.0 && t.win > 0.0
    requires Filled(t.buckets, t.log, t.hitsSinceSweep, n)
    modifies t
    ensures t.Valid() && t.clock == 0.0 && Filled(t.buckets, t.log, t.hitsSinceSweep, n + 1)
  {
    ghost var buckets, log, hits := t.buckets, t.log, t.hitsSinceSweep;
    AtZeroIsFirst(t.log, StaleCutoff(0.0, t.win));
    CallOnce(t, n, 0.0);
    FilledOneMore(buckets, log, hits, n, t.buckets, t.log);
  }

  /** Calls of one address four windows after time 0, `more` of them. */
  method CallFourWindowsLater(t: EmailThrottle, many: nat, more: nat)
    requires many + more <= 2 * EVICT_EVERY_N && t.Valid() && t.clock == 0.0 && t.win > 0.0
    requires t.hitsSinceSweep == HitsAfter(many)
    requires Addresses(many) <= t.buckets.Keys && AllAt(t.log, 0.0)
    modifies t
    ensures t.Valid() && t.clock == (if more > 0 then 4.0 * t.win else 0.0)
    ensures t.hitsSinceSweep == HitsAfter(many + more)
    ensures Addresses(many) <= t.buckets.Keys && OneAfterMany(t.log)
  {
    if more == 0 {
      AtZeroIsFirst(t.log, 0.0);
    } else {
      CallFourWindowsLater(t, many, more - 1);
      ghost var before := t.log;
      OneAfterManySees(t.log, 0.0);
      CallOnce(t, 0, 4.0 * t.win);
      OneAfterManyGrows(t.log, before, t.clock);
    }
  }

  /** The call after that sweep. */
  method CallAfterTheSweep(t: EmailThrottle, many: nat, delta: real)
    requires t.Valid() && t.clock == 4.0 * t.win && t.win > 0.0 && t.hitsSinceSweep == 0 && delta > 0.0
    requires Addresses(many) <= t.buckets.Keys && OneAfterMany(t.log)
    modifies t
    ensures t.Valid() && t.clock == 4.0 * t.win + delta == t.sweptAt + delta
    ensures Addresses(many) <= t.buckets.Keys && OneAfterMany(t.log)
  {
    AddressIsItsKey(0);
    ghost var before := t.log;
    var ok := t.Allow(Some(Address(0)), 4.0 * t.win + delta);
    OneAfterManyGrows(t.log, before, t.clock);
  }

  lemma ManyOutnumber(buckets: Buckets, log: seq<Attempt>, many: nat, lo: real, hi: real)
    requires many > EVICT_EVERY_N + 1 && Addresses(many) <= buckets.Keys && OneAfterMany(log) && lo > 0.0
    ensures |buckets| > |KeysAlive(log, lo, hi)| + EVICT_EVERY_N
  {
    OneAfterManySees(log, lo);
    FewAreAlive(log, lo, hi, Address(0));
    AddressesAreDistinct(many);
    SubsetSize(Addresses(many), buckets.Keys);
    assert |buckets.Keys| == |buckets|;
  }

  /** For every later moment, however close to the sweep, some calls break the bound at that moment: a
      thousand addresses at time 0, a sweep exactly four windows later, and one more call. */
  method OutgrowTheWindows(maxAttempts: nat, windowSeconds: nat, delta: real) returns (t: EmailThrottle)
    requires maxAttempts > 0 && windowSeconds > 0 && delta > 0.0
    ensures fresh(t) && t.Valid() && t.clock == t.sweptAt + delta
    ensures |t.buckets| > |KeysAlive(t.log, t.clock - 4.0 * t.win, t.clock)| + 512
  {
    var many := 1000;
    t := new EmailThrottle(maxAttempts, windowSeconds, 0.0);
    assert Filled(t.buckets, t.log, t.hitsSinceSweep, 0);
    FillUp(t, many);
    CallFourWindowsLater(t, many, 24);
    CallAfterTheSweep(t, many, delta);
    ManyOutnumber(t.buckets, t.log, many, StaleCutoff(t.clock, t.win), t.clock);
  }
}
