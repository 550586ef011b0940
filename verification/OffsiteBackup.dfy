/** Off-site copies of attachments: nightly sync, expiry of copies whose file was deleted, and the
    purge of a tenant. Copies go by the primary bucket's key; their common `attachments/` prefix is
    left implicit. Times are seconds. */
module OffsiteBackup {
  import opened Paths
  import opened Wrappers

  const GRACE := 180 * 86400

  type Key = string
  type Manifest = map<Key, int>

  // ----------------------------------------------------- one run, as a function

  /** Since when each copy without its primary object has been missing. */
  function Tracked(manifest: Manifest, copies: set<Key>, source: set<Key>, now: int): (m: Manifest)
    ensures m.Keys == copies - source
  {
    map k | k in copies - source :: if k in manifest then manifest[k] else now
  }

  function Overdue(tracked: Manifest, now: int): set<Key> {
    set k | k in tracked && now - tracked[k] > GRACE
  }

  // ------------------------------------------------------------ whole histories

  /** The listed copies and the manifest between runs. */
  datatype Backup = Backup(copies: set<Key>, manifest: Manifest)

  /** What happens to the backup bucket. `source` is the listing of the primary bucket, which may
      change in any way between runs. A crashed run has purged some of what it meant to and has not
      stored its manifest. */
  datatype Event =
    | Expire(source: set<Key>, now: int)
    | CrashedExpire(source: set<Key>, now: int, purged: set<Key>)
    | Copied(keys: set<Key>)
    | Removed(keys: set<Key>)

  function Step(b: Backup, e: Event): Backup {
    match e
    case Expire(source, now) =>
      if source == {} then b
      else
        var tracked := Tracked(b.manifest, b.copies, source, now);
        var overdue := Overdue(tracked, now);
        Backup(b.copies - overdue, tracked - overdue)
    case CrashedExpire(source, now, purged) =>
      if source == {} then b
      else b.(copies := b.copies - purged * Overdue(Tracked(b.manifest, b.copies, source, now), now))
    case Copied(keys) => b.(copies := b.copies + keys)
    case Removed(keys) => b.(copies := b.copies - keys)
  }

  function After(events: seq<Event>): Backup {
    if events == [] then Backup({}, map[])
    else Step(After(events[..|events| - 1]), events[|events| - 1])
  }

  function Before(events: seq<Event>, i: nat): Backup
    requires i <= |events|
  {
    After(events[..i])
  }

  /** Run `i` listed a non-empty primary bucket; an empty listing is taken for a fault. */
  predicate Listed(events: seq<Event>, i: nat)
    requires i < |events|
  {
    (events[i].Expire? || events[i].CrashedExpire?) && events[i].source != {}
  }

  predicate Completed(events: seq<Event>, i: nat)
    requires i < |events|
  {
    events[i].Expire? && events[i].source != {}
  }

  /** Run `i` found the copy of `k` without its primary object. */
  predicate SawMissing(events: seq<Event>, i: nat, k: Key)
    requires i < |events|
  {
    Listed(events, i) && k in Before(events, i).copies && k !in events[i].source
  }

  /** Completed run `j` saw `k` missing, and so did every completed run from then until before `n`. */
  ghost predicate MissingSince(events: seq<Event>, j: nat, n: nat, k: Key)
    requires j < n <= |events|
  {
    && Completed(events, j)
    && forall i: nat | j <= i < n && Completed(events, i) :: SawMissing(events, i, k)
  }

  predicate RecordedAt(events: seq<Event>, j: nat, t: int)
    requires j < |events|
  {
    events[j].Expire? && events[j].now == t
  }

  lemma StepAt(events: seq<Event>, i: nat)
    requires i < |events|
    ensures Before(events, i + 1) == Step(Before(events, i), events[i])
  {
    assert events[..i + 1][..i] == events[..i];
  }

  /** A manifest entry dates the first run of an unbroken row of runs that saw the copy missing. */
  lemma {:induction false} ManifestRemembersTheFirst(events: seq<Event>, n: nat, k: Key) returns (j: nat)
    requires n <= |events| && k in Before(events, n).manifest
    ensures j < n && MissingSince(events, j, n, k) && RecordedAt(events, j, Before(events, n).manifest[k])
  {
    assert n > 0;
    StepAt(events, n - 1);
    var b := Before(events, n - 1);
    if Completed(events, n - 1) && k !in b.manifest {
      j := n - 1;
    } else {
      j := ManifestRemembersTheFirst(events, n - 1, k);
    }
  }

  /** Deletion needs a witness: some earlier completed run more than 180 days before saw the copy
      missing, and every completed run since, and this one, saw it missing too. */
  lemma DeletedOnlyAfterTheGracePeriod(events: seq<Event>, i: nat, k: Key) returns (j: nat)
    requires i < |events| && (events[i].Expire? || events[i].CrashedExpire?)
    requires k in Before(events, i).copies && k !in Before(events, i + 1).copies
    ensures SawMissing(events, i, k)
    ensures j < i && MissingSince(events, j, i, k) && events[i].now - events[j].now > 180 * 86400
  {
    StepAt(events, i);
    j := ManifestRemembersTheFirst(events, i, k);
  }

  lemma AfterOneMore(events: seq<Event>, e: Event)
    ensures After(events + [e]) == Step(After(events), e)
  {
    assert (events + [e])[..|events|] == events;
  }

  /** Only completed runs count: a run that listed the file as present and crashed before it stored its
      manifest leaves the old date, and the next run deletes the copy. */
  lemma CrashedSightingDoesNotReset(k: Key, other: Key)
    requires k != other
    ensures var before := [Copied({k}), Expire({other}, 0), CrashedExpire({k, other}, GRACE, {})];
            && k in After(before).copies
            && k !in After(before + [Expire({other}, GRACE + 1)]).copies
  {
    var first := [] + [Copied({k})];
    var second := first + [Expire({other}, 0)];
    var third := second + [CrashedExpire({k, other}, GRACE, {})];
    AfterOneMore([], Copied({k}));
    AfterOneMore(first, Expire({other}, 0));
    AfterOneMore(second, CrashedExpire({k, other}, GRACE, {}));
    AfterOneMore(third, Expire({other}, GRACE + 1));
    assert third == [Copied({k}), Expire({other}, 0), CrashedExpire({k, other}, GRACE, {})];
    assert After([]) == Backup({}, map[]);
    assert After(first).copies == {k};
    assert After(second) == Backup({k}, map[k := 0]);
    assert After(third) == After(second);
  }

  /** Runs happen in the order of their clocks. */
  ghost predicate ClockRuns(events: seq<Event>) {
    forall i, j | 0 <= i < j < |events| && events[i].Expire? && events[j].Expire? :: events[i].now <= events[j].now
  }

  /** While the copy stays, the manifest dates it no later than any run that saw it missing. */
  lemma {:induction false} ManifestKeepsTheDate(events: seq<Event>, j: nat, n: nat, k: Key)
    requires j < n <= |events| && ClockRuns(events) && MissingSince(events, j, n, k)
    requires forall m: nat | j < m <= n :: k in Before(events, m).copies
    ensures k in Before(events, n).manifest && Before(events, n).manifest[k] <= events[j].now
  {
    StepAt(events, n - 1);
    if n - 1 > j {
      ManifestKeepsTheDate(events, j, n - 1, k);
    } else {
      assert SawMissing(events, j, k);
      var b := Before(events, j);
      if k in b.manifest {
        var first := ManifestRemembersTheFirst(events, j, k);
        assert events[first].now <= events[j].now;
      }
    }
    assert Completed(events, n - 1) ==> SawMissing(events, n - 1, k);
  }

  /** A copy that stays missing goes at the first completed run past the grace period. */
  lemma MissingCopyGoesAfterTheGracePeriod(events: seq<Event>, j: nat, i: nat, k: Key)
    requires j < i < |events| && ClockRuns(events) && MissingSince(events, j, i, k)
    requires forall m: nat | j < m <= i :: k in Before(events, m).copies
    requires Completed(events, i) && SawMissing(events, i, k) && events[i].now - events[j].now > 180 * 86400
    ensures k !in Before(events, i + 1).copies && k !in Before(events, i + 1).manifest
  {
    ManifestKeepsTheDate(events, j, i, k);
    StepAt(events, i);
  }

  /** A copy whose file is back in the primary bucket, or was never gone, is safe from the run. */
  lemma PresentFilesAreSafe(b: Backup, source: set<Key>, now: int, k: Key)
    requires k in b.copies && k in source
    ensures k in Step(b, Expire(source, now)).copies && k !in Step(b, Expire(source, now)).manifest
  {
  }

  // ------------------------------------------------------------- the bucket

  /** An object of the versioned bucket, oldest version first; a marker hides what came before. */
  datatype Version = Object(size: nat) | DeleteMarker

  type Objects = map<Key, seq<Version>>

  predicate Visible(objects: Objects, k: Key) {
    k in objects && objects[k] != [] && objects[k][|objects[k]| - 1].Object?
  }

  function Listing(objects: Objects): (l: map<Key, nat>)
    ensures forall k :: k in l <==> Visible(objects, k)
  {
    map k | k in objects && Visible(objects, k) :: objects[k][|objects[k]| - 1].size
  }

  /** Whether the newest version of `k` is an object of `size`. */
  predicate HasCopy(objects: Objects, k: Key, size: nat) {
    Visible(objects, k) && objects[k][|objects[k]| - 1].size == size
  }

  predicate UnderPrefix(k: Key, prefix: string) {
    |prefix| < |k| && k[..|prefix| + 1] == prefix + "/"
  }

  function StripSlashes(s: string): string {
    if s != "" && s[0] == '/' then StripSlashes(s[1..])
    else if s != "" && s[|s| - 1] == '/' then StripSlashes(s[..|s| - 1])
    else s
  }

  lemma {:induction false} StripsBothEnds(s: string)
    ensures var r := StripSlashes(s); r != "" ==> r[0] != '/' && r[|r| - 1] != '/'
    ensures StripSlashes(s) == "" <==> forall c | c in s :: c == '/'
    decreases |s|
  {
    if s != "" && s[0] == '/' {
      StripsBothEnds(s[1..]);
      var rest := s[1..];
      assert s == ['/'] + rest;
      assert forall c :: c in s <==> c == '/' || c in rest;
    } else if s != "" && s[|s| - 1] == '/' {
      StripsBothEnds(s[..|s| - 1]);
      var rest := s[..|s| - 1];
      assert s == rest + ['/'];
      assert forall c :: c in s <==> c == '/' || c in rest;
    } else if s != "" {
      assert s[0] in s;
    }
  }

  /** The prefix of a tenant as it is stored. */
  function TenantPrefix(slug: string): string {
    "tenants/" + slug + "/"
  }

  lemma TenantPrefixIsStripped(slug: string)
    requires slug != "" && HasNoSlash(slug)
    ensures StripSlashes(TenantPrefix(slug)) == "tenants/" + slug
  {
    var bare := "tenants/" + slug;
    assert TenantPrefix(slug)[..|bare|] == bare;
    assert bare[|bare| - 1] == slug[|slug| - 1];
    assert bare[|bare| - 1] in slug;
    assert StripSlashes(bare) == bare;
  }

  /** No object lies under the prefixes of two tenants, even when one slug starts with the other. */
  lemma TenantsAreDisjoint(slug: string, other: string, k: Key)
    requires slug != "" && other != "" && HasNoSlash(slug) && HasNoSlash(other)
    requires UnderPrefix(k, StripSlashes(TenantPrefix(slug)))
    requires UnderPrefix(k, StripSlashes(TenantPrefix(other)))
    ensures slug == other
  {
    TenantPrefixIsStripped(slug);
    TenantPrefixIsStripped(other);
    UnderTenant(slug, k);
    UnderTenant(other, k);
    NextPart("tenants/", slug, other, k[8 + |slug|..], k[8 + |other|..]);
  }

  lemma UnderTenant(slug: string, k: Key)
    requires UnderPrefix(k, "tenants/" + slug)
    ensures k == "tenants/" + (slug + k[8 + |slug|..]) && StartsWithSlash(k[8 + |slug|..])
  {
    var n := |"tenants/" + slug|;
    assert k[..n + 1][..n] == k[..n] == "tenants/" + slug;
    assert k[..n + 1][n] == '/';
    assert k == k[..n] + k[n..];
  }

  datatype PurgeError = WholeTree

  /** The stored versions and delete markers of every key under `prefix`. */
  function VersionsUnder(objects: Objects, prefix: string): set<(Key, nat)> {
    set k, i: nat | k in objects && UnderPrefix(k, prefix) && i < |objects[k]| :: (k, i)
  }

  function VersionsOf(objects: Objects, k: Key): seq<Version> {
    if k in objects then objects[k] else []
  }

  function ListedState(objects: Objects, manifest: Manifest): Backup {
    Backup(Listing(objects).Keys, manifest)
  }

  /** What a sync leaves of key `k`: a new version on top when the newest copy is not of the right size. */
  function Synced(objects: Objects, source: map<Key, nat>, k: Key): seq<Version> {
    if k in source && !HasCopy(objects, k, source[k]) then VersionsOf(objects, k) + [Object(source[k])]
    else VersionsOf(objects, k)
  }

  /** A sync that has still to look at the keys in `todo`. */
  ghost predicate SyncedBut(objects: Objects, before: Objects, source: map<Key, nat>, todo: set<Key>) {
    forall k ::
      VersionsOf(objects, k) == if k in todo then VersionsOf(before, k) else Synced(before, source, k)
  }

  function UpToDate(before: Objects, source: map<Key, nat>): set<Key> {
    set k | k in source && HasCopy(before, k, source[k])
  }

  /** Where the loop of a sync is: what is copied, and how the keys were counted. */
  ghost predicate Syncing(objects: Objects, before: Objects, source: map<Key, nat>, todo: set<Key>,
                          copied: nat, present: nat) {
    && todo <= source.Keys
    && SyncedBut(objects, before, source, todo)
    && present == |UpToDate(before, source) - todo|
    && copied + present + |todo| == |source.Keys|
  }

  lemma SyncStarts(before: Objects, source: map<Key, nat>)
    ensures Syncing(before, before, source, source.Keys, 0, 0)
  {
    assert UpToDate(before, source) - source.Keys == {};
  }

  lemma SyncSkips(objects: Objects, before: Objects, source: map<Key, nat>, todo: set<Key>,
                  copied: nat, present: nat, k: Key)
    requires Syncing(objects, before, source, todo, copied, present) && k in todo
    requires HasCopy(before, k, source[k])
    ensures Syncing(objects, before, source, todo - {k}, copied, present + 1)
  {
    assert UpToDate(before, source) - (todo - {k}) == UpToDate(before, source) - todo + {k};
  }

  lemma SyncedOneMore(objects: Objects, before: Objects, source: map<Key, nat>, todo: set<Key>, k: Key)
    requires SyncedBut(objects, before, source, todo) && k in todo && k in source
    requires !HasCopy(before, k, source[k])
    ensures SyncedBut(objects[k := VersionsOf(objects, k) + [Object(source[k])]], before, source, todo - {k})
  {
    var after := objects[k := VersionsOf(objects, k) + [Object(source[k])]];
    forall q
      ensures VersionsOf(after, q) == if q in todo - {k} then VersionsOf(before, q) else Synced(before, source, q)
    {
      assert VersionsOf(objects, q) == if q in todo then VersionsOf(before, q) else Synced(before, source, q);
    }
  }

  lemma SyncCopies(objects: Objects, before: Objects, source: map<Key, nat>, todo: set<Key>,
                   copied: nat, present: nat, k: Key)
    requires Syncing(objects, before, source, todo, copied, present) && k in todo
    requires !HasCopy(before, k, source[k])
    ensures Syncing(objects[k := VersionsOf(objects, k) + [Object(source[k])]], before, source, todo - {k},
                    copied + 1, present)
  {
    SyncedOneMore(objects, before, source, todo, k);
    assert UpToDate(before, source) - (todo - {k}) == UpToDate(before, source) - todo;
  }

  lemma SyncedHasCopies(objects: Objects, before: Objects, source: map<Key, nat>)
    requires SyncedBut(objects, before, source, {})
    ensures UpToDate(before, source) - {} == UpToDate(before, source)
    ensures forall k | k in source :: HasCopy(objects, k, source[k])
    ensures forall k :: VersionsOf(before, k) <= VersionsOf(objects, k)
  {
    forall k ensures VersionsOf(before, k) <= VersionsOf(objects, k) {
      assert VersionsOf(objects, k) == Synced(before, source, k);
    }
    forall k | k in source ensures HasCopy(objects, k, source[k]) {
      assert VersionsOf(objects, k) == Synced(before, source, k);
    }
  }

  /** Where the loop of an expiry is: the overdue copies outside `todo` are gone. */
  ghost predicate Expiring(objects: Objects, kept: Manifest, before: Objects, found: Manifest, now: int,
                           todo: set<Key>, purged: nat) {
    var gone := Overdue(found, now) - todo;
    todo <= found.Keys && kept == found - gone && objects == before - gone && purged == |gone|
  }

  lemma ExpiryStarts(before: Objects, found: Manifest, now: int)
    ensures Expiring(before, found, before, found, now, found.Keys, 0)
  {
    assert Overdue(found, now) - found.Keys == {};
  }

  lemma ExpiryKeeps(objects: Objects, kept: Manifest, before: Objects, found: Manifest, now: int,
                    todo: set<Key>, purged: nat, k: Key)
    requires Expiring(objects, kept, before, found, now, todo, purged) && k in todo
    ensures k in kept && kept[k] == found[k]
    ensures now - kept[k] <= GRACE ==> Expiring(objects, kept, before, found, now, todo - {k}, purged)
    ensures now - kept[k] > GRACE ==>
      Expiring(objects - {k}, kept - {k}, before, found, now, todo - {k}, purged + 1)
  {
    var gone := Overdue(found, now) - todo;
    if now - kept[k] > GRACE {
      assert Overdue(found, now) - (todo - {k}) == gone + {k};
      assert before - gone - {k} == before - (gone + {k});
      assert found - gone - {k} == found - (gone + {k});
    } else {
      assert Overdue(found, now) - (todo - {k}) == gone;
    }
  }

  /** The bucket and manifest that an expiry leaves are those of its step. */
  lemma ExpiryEnds(objects: Objects, kept: Manifest, before: Objects, manifest: Manifest, source: set<Key>,
                   now: int, purged: nat)
    requires source != {}
    requires Expiring(objects, kept, before, Tracked(manifest, Listing(before).Keys, source, now), now, {}, purged)
    ensures ListedState(objects, kept) == Step(ListedState(before, manifest), Expire(source, now))
    ensures purged == |ListedState(before, manifest).copies - ListedState(objects, kept).copies|
  {
    var gone := Overdue(Tracked(manifest, Listing(before).Keys, source, now), now);
    assert gone - {} == gone;
    assert Listing(objects).Keys == Listing(before).Keys - gone;
    assert Listing(before).Keys - (Listing(before).Keys - gone) == gone;
  }

  /** The copies, newest version an object, whose file is not in the primary bucket. */
  function MissingCopies(objects: Objects, source: set<Key>): set<Key> {
    set k | k in objects && k !in source && objects[k] != [] && objects[k][|objects[k]| - 1].Object?
  }

  function Gone(before: Objects, after: Objects): set<Key> {
    before.Keys - after.Keys
  }

  /** An expiry, key by key: a copy goes when its file has been missing for more than 180 days, by the old manifest,
      and the new one dates those that are missing and stay. */
  ghost predicate ExpiredFrom(before: Objects, manifest: Manifest, after: Objects, kept: Manifest, source: set<Key>,
                              now: int) {
    && (forall k | k in before ::
          k in after <==>
          !(k in MissingCopies(before, source) && now - (if k in manifest then manifest[k] else now) > 180 * 86400))
    && after == before - Gone(before, after) && kept.Keys == MissingCopies(before, source) - Gone(before, after)
    && forall k | k in kept :: kept[k] == if k in manifest then manifest[k] else now
  }

  lemma ExpiryIs(objects: Objects, kept: Manifest, before: Objects, manifest: Manifest, source: set<Key>, now: int,
                 purged: nat)
    requires Expiring(objects, kept, before, Tracked(manifest, Listing(before).Keys, source, now), now, {}, purged)
    ensures ExpiredFrom(before, manifest, objects, kept, source, now)
  {
    var found := Tracked(manifest, Listing(before).Keys, source, now);
    assert found.Keys == MissingCopies(before, source);
    assert Overdue(found, now) - {} == Overdue(found, now);
  }

  /** The bucket the backups go to: its attachment copies and the manifest of missing files. */
  class Bucket {
    var objects: Objects
    var manifest: Manifest

    constructor ()
      ensures objects == map[] && manifest == map[]
    {
      objects, manifest := map[], map[];
    }

    function State(): Backup
      reads this
    {
      ListedState(objects, manifest)
    }

    /** Copies what the backup lacks. Nothing is ever deleted: earlier versions stay below new ones. */
    method SyncAttachments(source: map<Key, nat>) returns (copied: nat, present: nat)
      modifies this`objects
      ensures SyncedBut(objects, old(objects), source, {})
      ensures forall k :: VersionsOf(old(objects), k) <= VersionsOf(objects, k)
      ensures forall k | k in source :: HasCopy(objects, k, source[k])
      ensures forall k | k !in source || HasCopy(old(objects), k, source[k]) ::
        VersionsOf(objects, k) == VersionsOf(old(objects), k)
      ensures forall k | k in source && !HasCopy(old(objects), k, source[k]) ::
        VersionsOf(objects, k) == VersionsOf(old(objects), k) + [Object(source[k])]
      ensures present == |UpToDate(old(objects), source)| && copied + present == |source.Keys|
    {
      var existing := Listing(objects);
      var todo := source.Keys;
      copied, present := 0, 0;
      SyncStarts(objects, source);
      while todo != {}
        invariant Syncing(objects, old(objects), source, todo, copied, present)
        decreases |todo|
      {
        var k :| k in todo;
        if k in existing && existing[k] == source[k] {
          SyncSkips(objects, old(objects), source, todo, copied, present, k);
          present := present + 1;
        } else {
          SyncCopies(objects, old(objects), source, todo, copied, present, k);
          objects := objects[k := VersionsOf(objects, k) + [Object(source[k])]];
          copied := copied + 1;
        }
        todo := todo - {k};
      }
      SyncedHasCopies(objects, old(objects), source);
      assert forall k :: VersionsOf(objects, k) == Synced(old(objects), source, k);
    }

    /** Removes every version of `key`. The listing goes by prefix, so it also names longer keys. */
    method DeleteAllVersions(key: Key)
      modifies this`objects
      ensures objects == old(objects) - {key}
    {
      var listed := set k | k in objects && key <= k;
      while listed != {}
        invariant objects == if key in listed then old(objects) else old(objects) - {key}
        decreases |listed|
      {
        var k :| k in listed;
        if k == key {
          objects := objects - {k};
        }
        listed := listed - {k};
      }
    }

    /** The loop of the expiry: it deletes what has been missing for too long. */
    method PurgeOverdue(found: Manifest, now: int) returns (kept: Manifest, purged: nat)
      modifies this`objects
      ensures Expiring(objects, kept, old(objects), found, now, {}, purged)
    {
      kept := found;
      var todo := found.Keys;
      purged := 0;
      ExpiryStarts(objects, found, now);
      while todo != {}
        invariant Expiring(objects, kept, old(objects), found, now, todo, purged)
        decreases |todo|
      {
        var k :| k in todo;
        ExpiryKeeps(objects, kept, old(objects), found, now, todo, purged, k);
        if now - kept[k] > GRACE {
          DeleteAllVersions(k);
          kept := kept - {k};
          purged := purged + 1;
        }
        todo := todo - {k};
      }
    }

    /** One nightly expiry. */
    method ExpireDeletedCopies(source: set<Key>, now: int) returns (tracked: nat, purged: nat)
      modifies this
      ensures State() == Step(old(State()), Expire(source, now))
      ensures source == {} ==> objects == old(objects) && manifest == old(manifest) && tracked == purged == 0
      ensures source != {} ==> ExpiredFrom(old(objects), old(manifest), objects, manifest, source, now)
      ensures source != {} ==> tracked == |manifest|
      ensures source != {} ==> purged == |old(State()).copies - State().copies|
    {
      if source == {} {
        return 0, 0;
      }
      var kept;
      kept, purged := PurgeOverdue(Tracked(manifest, Listing(objects).Keys, source, now), now);
      ExpiryEnds(objects, kept, old(objects), manifest, source, now, purged);
      ExpiryIs(objects, kept, old(objects), manifest, source, now, purged);
      manifest := kept;
      return |kept|, purged;
    }

    /** Purges the copies of one tenant. An empty prefix would name the whole tree and is refused; a
        dry run only counts. */
    method PurgeTenant(storagePrefix: string, enforce: bool) returns (r: Result<nat, PurgeError>)
      modifies this`objects
      ensures r.Failure? <==> forall c | c in storagePrefix :: c == '/'
      ensures r.Failure? || !enforce ==> objects == old(objects)
      ensures r.Success? ==> r.value == |VersionsUnder(old(objects), StripSlashes(storagePrefix))|
      ensures r.Success? && enforce ==> forall k ::
        VersionsOf(objects, k) ==
          if UnderPrefix(k, StripSlashes(storagePrefix)) then [] else VersionsOf(old(objects), k)
    {
      StripsBothEnds(storagePrefix);
      var prefix := StripSlashes(storagePrefix);
      if prefix == "" {
        return Failure(WholeTree);
      }
      var found := VersionsUnder(objects, prefix);
      if enforce {
        objects := objects - set v | v in found :: v.0;
      }
      assert forall k | k in old(objects) && UnderPrefix(k, prefix) && old(objects)[k] != [] :: (k, 0) in found;
      return Success(|found|);
    }
  }
}
