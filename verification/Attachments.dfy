/** Attachments: rows in the database and objects in the store, kept consistent across failures.
    Requests are served one at a time; thumbnail tasks run in the background, between their steps. */
module Attachments {
  import opened Paths
  import opened Wrappers

  type Id = string

  /** What a key names: the uploaded file of an attachment, or its preview. */
  datatype Key = File(id: Id) | Thumb(id: Id)

  datatype Row = Row(storage: Key, thumb: Option<Key>)

  type Rows = map<Id, Row>

  function KeysOf(r: Row): set<Key> {
    {r.storage} + if r.thumb.Some? then {r.thumb.value} else {}
  }

  /** Whether some row stores or thumbnails `k`. */
  predicate Named(rows: Rows, k: Key) {
    exists id | id in rows :: k in KeysOf(rows[id])
  }

  /** The keys among `keys` that no row uses. */
  function StillUnreferenced(rows: Rows, keys: set<Key>): set<Key> {
    set k | k in keys && !Named(rows, k)
  }

  /** The request being served. `Deleting` still holds its row; `Removing` has committed and has yet
      to delete `keys` from the store. */
  datatype Request =
    | Idle
    | Uploading(id: Id, put: bool)
    | Deleting(id: Id, keys: set<Key>, filtered: bool)
    | Removing(keys: set<Key>)
    | Rearming(id: Id, row: Row)

  /** How far a thumbnail task is. */
  datatype Task = Scheduled | Rendering | Stored | Discarding

  /** The committed rows, the stored objects, the ids handed out so far, the open request and the
      thumbnail tasks. */
  datatype Site = Site(rows: Rows, store: set<Key>, used: set<Id>, request: Request, tasks: map<Id, Task>)

  const EMPTY := Site(map[], {}, {}, Idle, map[])

  datatype Action =
    | BeginUpload(id: Id)
    | Put
    | PutFails(stored: bool)
    | CommitUpload
    | BeginDelete(id: Id)
    | Filter
    | CommitDelete
    | RemoveObject(key: Key)
    | EndRequest
    | BeginRearm(source: Id, id: Id)
    | CommitRearm
    | TaskReads(id: Id)
    | TaskStores(id: Id)
    | TaskStoreFails(id: Id, stored: bool)
    | TaskStamps(id: Id)
    | TaskDiscards(id: Id)
    | TaskDies(id: Id)

  function StepUpload(s: Site, a: Action): Site {
    match a
    case BeginUpload(id) =>
      if s.request.Idle? && id !in s.used then s.(request := Uploading(id, false), used := s.used + {id}) else s
    case Put =>
      if s.request.Uploading? && !s.request.put
      then s.(request := s.request.(put := true), store := s.store + {File(s.request.id)}) else s
    case PutFails(stored) =>
      if s.request.Uploading? && !s.request.put
      then s.(request := Idle, store := if stored then s.store + {File(s.request.id)} else s.store) else s
    case CommitUpload =>
      if s.request.Uploading? && s.request.put
      then s.(rows := s.rows[s.request.id := Row(File(s.request.id), None)], request := Idle,
              tasks := s.tasks[s.request.id := Scheduled]) else s
    case _ => s
  }

  function StepDelete(s: Site, a: Action): Site {
    match a
    case BeginDelete(id) =>
      if s.request.Idle? && id in s.rows then s.(request := Deleting(id, KeysOf(s.rows[id]), false)) else s
    case Filter =>
      if s.request.Deleting? && !s.request.filtered
      then s.(request := Deleting(s.request.id, StillUnreferenced(s.rows - {s.request.id}, s.request.keys), true))
      else s
    case CommitDelete =>
      if s.request.Deleting? && s.request.filtered
      then s.(rows := s.rows - {s.request.id}, request := Removing(s.request.keys)) else s
    case RemoveObject(key) =>
      if s.request.Removing? && key in s.request.keys
      then s.(store := s.store - {key}, request := Removing(s.request.keys - {key})) else s
    case _ => s
  }

  function StepRearm(s: Site, a: Action): Site {
    match a
    case BeginRearm(source, id) =>
      if s.request.Idle? && source in s.rows && id !in s.used
      then s.(request := Rearming(id, s.rows[source]), used := s.used + {id}) else s
    case CommitRearm =>
      if s.request.Rearming? then s.(rows := s.rows[s.request.id := s.request.row], request := Idle) else s
    case _ => s
  }

  predicate At(s: Site, id: Id, task: Task) {
    id in s.tasks && s.tasks[id] == task
  }

  function Stamped(rows: Rows, id: Id): Rows
    requires id in rows
  {
    rows[id := rows[id].(thumb := Some(Thumb(id)))]
  }

  function StepTask(s: Site, a: Action): Site {
    match a
    case TaskReads(id) =>
      if !At(s, id, Scheduled) then s
      else if id in s.rows then s.(tasks := s.tasks[id := Rendering])
      else s.(tasks := s.tasks - {id})
    case TaskStores(id) =>
      if At(s, id, Rendering) then s.(store := s.store + {Thumb(id)}, tasks := s.tasks[id := Stored]) else s
    case TaskStoreFails(id, stored) =>
      if At(s, id, Rendering)
      then s.(store := if stored then s.store + {Thumb(id)} else s.store, tasks := s.tasks - {id}) else s
    case TaskStamps(id) =>
      if !At(s, id, Stored) then s
      else if id in s.rows
      then s.(rows := Stamped(s.rows, id), tasks := s.tasks - {id})
      else s.(tasks := s.tasks[id := Discarding])
    case TaskDiscards(id) =>
      if At(s, id, Discarding) then s.(store := s.store - {Thumb(id)}, tasks := s.tasks - {id}) else s
    case TaskDies(id) => s.(tasks := s.tasks - {id})
    case _ => s
  }

  /** One step; a step that cannot happen changes nothing. `EndRequest` closes the request wherever it
      is: by a crash, by a rollback, or because nothing is left to remove. */
  function Step(s: Site, a: Action): Site {
    match a
    case BeginUpload(_) => StepUpload(s, a)
    case Put => StepUpload(s, a)
    case PutFails(_) => StepUpload(s, a)
    case CommitUpload => StepUpload(s, a)
    case BeginDelete(_) => StepDelete(s, a)
    case Filter => StepDelete(s, a)
    case CommitDelete => StepDelete(s, a)
    case RemoveObject(_) => StepDelete(s, a)
    case EndRequest => s.(request := Idle)
    case BeginRearm(_, _) => StepRearm(s, a)
    case CommitRearm => StepRearm(s, a)
    case _ => StepTask(s, a)
  }

  function Steps(s: Site, actions: seq<Action>): Site {
    if actions == [] then s else Step(Steps(s, actions[..|actions| - 1]), actions[|actions| - 1])
  }

  // ---------------------------------------------------------------- safety

  ghost predicate AllStored(rows: Rows, store: set<Key>) {
    forall id | id in rows :: KeysOf(rows[id]) <= store
  }

  /** No task is at work on a preview that `r` names. */
  predicate Settled(r: Row, tasks: map<Id, Task>) {
    r.storage.File? && (r.thumb.Some? ==> r.thumb.value.Thumb? && r.thumb.value.id !in tasks)
  }

  ghost predicate AllSettled(rows: Rows, tasks: map<Id, Task>) {
    forall id | id in rows :: Settled(rows[id], tasks)
  }

  predicate KeysAreOld(r: Row, used: set<Id>) {
    forall k | k in KeysOf(r) :: k.id in used
  }

  ghost predicate AllKeysAreOld(rows: Rows, used: set<Id>) {
    forall id | id in rows :: KeysAreOld(rows[id], used)
  }

  /** A task about to stamp or to discard its preview has stored it. */
  ghost predicate StoredFirst(s: Site) {
    forall id | At(s, id, Stored) || At(s, id, Discarding) :: Thumb(id) in s.store
  }

  ghost predicate Unnamed(rows: Rows, keys: set<Key>) {
    forall k | k in keys :: !Named(rows, k)
  }

  ghost predicate RequestSound(s: Site) {
    match s.request
    case Idle => true
    case Uploading(id, put) =>
      id in s.used && id !in s.rows && id !in s.tasks && !Named(s.rows, File(id)) && !Named(s.rows, Thumb(id))
      && (put ==> File(id) in s.store)
    case Deleting(id, keys, filtered) =>
      && id in s.rows && keys <= s.store && (forall k | k in keys :: k.id in s.used)
      && (forall k | k in keys && k.Thumb? :: k.id !in s.tasks)
      && (filtered ==> Unnamed(s.rows - {id}, keys))
    case Removing(keys) =>
      && keys <= s.store && (forall k | k in keys :: k.id in s.used)
      && (forall k | k in keys && k.Thumb? :: k.id !in s.tasks)
      && Unnamed(s.rows, keys)
    case Rearming(id, row) =>
      id in s.used && id !in s.rows && id !in s.tasks && KeysOf(row) <= s.store && Settled(row, s.tasks)
      && KeysAreOld(row, s.used)
  }

  /** What every step keeps. Its first line is the promise: a committed row never points at nothing. */
  ghost predicate Sound(s: Site) {
    && AllStored(s.rows, s.store)
    && AllSettled(s.rows, s.tasks)
    && AllKeysAreOld(s.rows, s.used)
    && StoredFirst(s)
    && s.rows.Keys <= s.used && s.tasks.Keys <= s.used
    && RequestSound(s)
  }

  lemma UploadIsSound(s: Site, a: Action)
    requires Sound(s)
    ensures Sound(StepUpload(s, a))
  {
    match a
    case BeginUpload(id) =>
      assert Named(s.rows, File(id)) ==> id in s.used;
      assert Named(s.rows, Thumb(id)) ==> id in s.used;
    case _ =>
  }

  lemma DeleteIsSound(s: Site, a: Action)
    requires Sound(s)
    ensures Sound(StepDelete(s, a))
  {
    match a
    case RemoveObject(key) =>
      if s.request.Removing? && key in s.request.keys {
        forall id | id in s.rows ensures KeysOf(s.rows[id]) <= s.store - {key} {
          assert !Named(s.rows, key);
        }
      }
    case _ =>
  }

  lemma RearmIsSound(s: Site, a: Action)
    requires Sound(s)
    ensures Sound(StepRearm(s, a))
  {
  }

  /** A stamp names its own preview and nothing else that was not named. */
  lemma StampNamesOnlyItsThumb(rows: Rows, id: Id, keys: set<Key>)
    requires id in rows && Thumb(id) !in keys && Unnamed(rows, keys)
    ensures Unnamed(Stamped(rows, id), keys)
  {
    forall k | k in keys ensures !Named(Stamped(rows, id), k) {
      assert !Named(rows, k);
      forall other | other in Stamped(rows, id) ensures k !in KeysOf(Stamped(rows, id)[other]) {
        assert k !in KeysOf(rows[other]);
      }
    }
  }

  lemma StampKeepsTheRequestSound(s: Site, id: Id)
    requires Sound(s) && At(s, id, Stored) && id in s.rows
    ensures RequestSound(StepTask(s, TaskStamps(id)))
  {
    match s.request
    case Deleting(del, keys, true) =>
      if id == del {
        assert Stamped(s.rows, id) - {del} == s.rows - {del};
      } else {
        assert Stamped(s.rows, id) - {del} == Stamped(s.rows - {del}, id);
        StampNamesOnlyItsThumb(s.rows - {del}, id, keys);
      }
    case Removing(keys) => StampNamesOnlyItsThumb(s.rows, id, keys);
    case Uploading(up, _) => StampNamesOnlyItsThumb(s.rows, id, {File(up), Thumb(up)});
    case _ =>
  }

  lemma TaskIsSound(s: Site, a: Action)
    requires Sound(s)
    ensures Sound(StepTask(s, a))
  {
    if a.TaskStamps? && At(s, a.id, Stored) && a.id in s.rows {
      StampKeepsTheRequestSound(s, a.id);
    }
  }

  lemma StepIsSound(s: Site, a: Action)
    requires Sound(s)
    ensures Sound(Step(s, a))
  {
    UploadIsSound(s, a);
    DeleteIsSound(s, a);
    RearmIsSound(s, a);
    TaskIsSound(s, a);
  }

  lemma {:induction false} StepsAreSound(s: Site, actions: seq<Action>)
    requires Sound(s)
    ensures Sound(Steps(s, actions))
  {
    if actions != [] {
      StepsAreSound(s, actions[..|actions| - 1]);
      StepIsSound(Steps(s, actions[..|actions| - 1]), actions[|actions| - 1]);
    }
  }

  /** Whatever fails and wherever, every key that a committed row names is in the store, shared keys
      included. */
  lemma NoRowPointsAtNothing(actions: seq<Action>, id: Id)
    requires id in Steps(EMPTY, actions).rows
    ensures KeysOf(Steps(EMPTY, actions).rows[id]) <= Steps(EMPTY, actions).store
  {
    StepsAreSound(EMPTY, actions);
  }

  // -------------------------------------------------------------- no orphans

  /** The deletion that commits forgets a key of its row: stamped since its keys were read or filtered. */
  predicate Forgets(s: Site)
    requires s.request.Deleting? && s.request.id in s.rows
  {
    exists k | k in KeysOf(s.rows[s.request.id]) :: k !in s.request.keys && !Named(s.rows - {s.request.id}, k)
  }

  /** Steps after which a stored object has nobody left to answer for it: failures behind a put, requests
      and tasks that end too early, and deletions that forget a key. */
  predicate Leaks(s: Site, a: Action) {
    match a
    case PutFails(stored) => stored && s.request.Uploading? && !s.request.put
    case TaskStoreFails(id, stored) => stored && At(s, id, Rendering)
    case TaskDies(id) => At(s, id, Stored) || At(s, id, Discarding)
    case EndRequest => (s.request.Uploading? && s.request.put) || (s.request.Removing? && s.request.keys != {})
    case CommitDelete => s.request.Deleting? && s.request.filtered && s.request.id in s.rows && Forgets(s)
    case _ => false
  }

  predicate LeaksAt(actions: seq<Action>, i: nat)
    requires i < |actions|
  {
    Leaks(Steps(EMPTY, actions[..i]), actions[i])
  }

  /** No step of the run leaks. */
  ghost predicate Tight(actions: seq<Action>) {
    forall i: nat | i < |actions| :: !LeaksAt(actions, i)
  }

  /** An open request or a task answers for `k`: it will name it or remove it. */
  predicate Held(s: Site, k: Key) {
    || (s.request.Uploading? && s.request.put && k == File(s.request.id))
    || (s.request.Removing? && k in s.request.keys)
    || (k.Thumb? && (At(s, k.id, Stored) || At(s, k.id, Discarding)))
  }

  ghost predicate NoOrphans(s: Site) {
    forall k | k in s.store :: Named(s.rows, k) || Held(s, k)
  }

  ghost predicate StampsAreFirst(s: Site) {
    forall id | id in s.rows && id in s.tasks :: s.rows[id].thumb.None?
  }

  ghost predicate Tidy(s: Site) {
    NoOrphans(s) && StampsAreFirst(s)
  }

  lemma NamedByMore(rows: Rows, more: Rows, k: Key)
    requires Named(rows, k) && forall id | id in rows :: id in more && KeysOf(rows[id]) <= KeysOf(more[id])
    ensures Named(more, k)
  {
    var id :| id in rows && k in KeysOf(rows[id]);
    assert k in KeysOf(more[id]);
  }

  lemma UploadIsTidy(s: Site, a: Action)
    requires Sound(s) && Tidy(s) && !Leaks(s, a)
    ensures Tidy(StepUpload(s, a))
  {
    var after := StepUpload(s, a);
    forall k | k in after.store ensures Named(after.rows, k) || Held(after, k) {
      if Named(s.rows, k) {
        NamedByMore(s.rows, after.rows, k);
      } else if a.CommitUpload? && s.request.Uploading? && k == File(s.request.id) && s.request.put {
        assert k in KeysOf(after.rows[s.request.id]);
      }
    }
  }

  lemma CommitDeleteIsTidy(s: Site)
    requires Sound(s) && Tidy(s) && s.request.Deleting? && s.request.filtered && !Forgets(s)
    ensures Tidy(StepDelete(s, CommitDelete))
  {
    var after := StepDelete(s, CommitDelete);
    forall k | k in after.store ensures Named(after.rows, k) || Held(after, k) {
      if Named(s.rows, k) {
        var id :| id in s.rows && k in KeysOf(s.rows[id]);
        if id != s.request.id {
          assert k in KeysOf(after.rows[id]);
        }
      }
    }
  }

  lemma DeleteIsTidy(s: Site, a: Action)
    requires Sound(s) && Tidy(s) && !Leaks(s, a)
    ensures Tidy(StepDelete(s, a))
  {
    if a.CommitDelete? && s.request.Deleting? && s.request.filtered {
      CommitDeleteIsTidy(s);
    }
  }

  lemma RearmIsTidy(s: Site, a: Action)
    requires Sound(s) && Tidy(s)
    ensures Tidy(StepRearm(s, a))
  {
    var after := StepRearm(s, a);
    forall k | k in after.store ensures Named(after.rows, k) || Held(after, k) {
      if Named(s.rows, k) {
        NamedByMore(s.rows, after.rows, k);
      }
    }
  }

  lemma StampIsTidy(s: Site, id: Id)
    requires Sound(s) && Tidy(s) && At(s, id, Stored) && id in s.rows
    ensures Tidy(StepTask(s, TaskStamps(id)))
  {
    var after := StepTask(s, TaskStamps(id));
    forall k | k in after.store ensures Named(after.rows, k) || Held(after, k) {
      if Named(s.rows, k) {
        NamedByMore(s.rows, after.rows, k);
      } else if k == Thumb(id) {
        assert k in KeysOf(after.rows[id]);
      }
    }
  }

  lemma TaskIsTidy(s: Site, a: Action)
    requires Sound(s) && Tidy(s) && !Leaks(s, a)
    ensures Tidy(StepTask(s, a))
  {
    if a.TaskStamps? && At(s, a.id, Stored) && a.id in s.rows {
      StampIsTidy(s, a.id);
    }
  }

  lemma StepIsTidy(s: Site, a: Action)
    requires Sound(s) && Tidy(s) && !Leaks(s, a)
    ensures Tidy(Step(s, a))
  {
    UploadIsTidy(s, a);
    DeleteIsTidy(s, a);
    RearmIsTidy(s, a);
    TaskIsTidy(s, a);
  }

  lemma TightBefore(actions: seq<Action>)
    requires Tight(actions) && actions != []
    ensures Tight(actions[..|actions| - 1]) && !LeaksAt(actions, |actions| - 1)
  {
    var init := actions[..|actions| - 1];
    forall i: nat | i < |init| ensures !LeaksAt(init, i) {
      assert init[..i] == actions[..i];
      assert !LeaksAt(actions, i);
    }
  }

  lemma {:induction false} StepsAreTidy(actions: seq<Action>)
    requires Tight(actions)
    ensures Tidy(Steps(EMPTY, actions))
  {
    if actions != [] {
      var init := actions[..|actions| - 1];
      TightBefore(actions);
      StepsAreTidy(init);
      StepsAreSound(EMPTY, init);
      StepIsTidy(Steps(EMPTY, init), actions[|actions| - 1]);
    }
  }

  /** The open request has `k` in hand. */
  predicate InHand(r: Request, k: Key) {
    match r
    case Idle => false
    case Uploading(id, _) => k.id == id
    case Deleting(_, keys, _) => k in keys
    case Removing(keys) => k in keys
    case Rearming(_, row) => k in KeysOf(row)
  }

  /** A stored object that nothing names, works on or will ever name or remove again. */
  predicate Leaked(s: Site, k: Key) {
    && k in s.store && !Named(s.rows, k) && k.id in s.used
    && (k.Thumb? ==> k.id !in s.tasks)
    && !InHand(s.request, k)
  }

  /** A leaked object stays leaked, whatever happens next. */
  lemma LeakStays(s: Site, a: Action, k: Key)
    requires Sound(s) && Leaked(s, k)
    ensures Leaked(Step(s, a), k)
  {
    LeakStaysInRequests(s, a, k);
    LeakStaysInTasks(s, a, k);
  }

  lemma LeakStaysInRequests(s: Site, a: Action, k: Key)
    requires Sound(s) && Leaked(s, k)
    ensures Leaked(StepUpload(s, a), k) && Leaked(StepDelete(s, a), k) && Leaked(StepRearm(s, a), k)
  {
  }

  lemma LeakStaysInTasks(s: Site, a: Action, k: Key)
    requires Sound(s) && Leaked(s, k)
    ensures Leaked(StepTask(s, a), k)
  {
  }

  lemma LeakStarts(s: Site, a: Action) returns (k: Key)
    requires Sound(s) && Leaks(s, a)
    ensures Leaked(Step(s, a), k)
  {
    match a
    case PutFails(_) => k := File(s.request.id);
    case TaskStoreFails(id, _) => k := Thumb(id);
    case TaskDies(id) => k := Thumb(id);
    case EndRequest =>
      if s.request.Uploading? {
        k := File(s.request.id);
      } else {
        k :| k in s.request.keys;
      }
    case CommitDelete =>
      k :| k in KeysOf(s.rows[s.request.id]) && k !in s.request.keys && !Named(s.rows - {s.request.id}, k);
  }

  lemma {:induction false} LeakIsThereAtTheEnd(actions: seq<Action>, i: nat) returns (k: Key)
    requires i < |actions| && LeaksAt(actions, i)
    ensures Leaked(Steps(EMPTY, actions), k)
  {
    var init, last := actions[..|actions| - 1], actions[|actions| - 1];
    StepsAreSound(EMPTY, init);
    if i == |init| {
      k := LeakStarts(Steps(EMPTY, init), last);
    } else {
      assert init[..i] == actions[..i];
      k := LeakIsThereAtTheEnd(init, i);
      LeakStays(Steps(EMPTY, init), last, k);
    }
  }

  predicate KeptForARow(s: Site, k: Key) {
    k in s.store <==> Named(s.rows, k)
  }

  ghost predicate StoreIsTheRows(s: Site) {
    forall k :: KeptForARow(s, k)
  }

  predicate AtRest(s: Site) {
    s.request.Idle? && s.tasks == map[]
  }

  /** With nothing under way the store holds exactly the keys that rows name, shared ones included, if and
      only if no step of the run leaked. */
  lemma AtRestTheStoreIsTheRows(actions: seq<Action>)
    requires AtRest(Steps(EMPTY, actions))
    ensures StoreIsTheRows(Steps(EMPTY, actions)) <==> Tight(actions)
  {
    var s := Steps(EMPTY, actions);
    StepsAreSound(EMPTY, actions);
    if Tight(actions) {
      StepsAreTidy(actions);
    } else {
      var i: nat :| i < |actions| && LeaksAt(actions, i);
      var k := LeakIsThereAtTheEnd(actions, i);
      assert !KeptForARow(s, k);
    }
  }

  /** A failure; a request may only be closed when it has nothing left to remove. */
  predicate Fails(s: Site, a: Action) {
    a.PutFails? || a.TaskStoreFails? || a.TaskDies? || (a.EndRequest? && s.request != Removing({}))
  }

  predicate Calm(s: Site, actions: seq<Action>) {
    actions == [] ||
    var init := actions[..|actions| - 1];
    Calm(s, init) && !Fails(Steps(s, init), actions[|actions| - 1])
  }

  /** Steps of the machine lead from `s` to `t`; when `calm`, without any failure. */
  ghost predicate Reaches(s: Site, t: Site, calm: bool) {
    exists actions :: Steps(s, actions) == t && (calm ==> Calm(s, actions))
  }

  lemma ReachesItself(s: Site, calm: bool)
    ensures Reaches(s, s, calm)
  {
    assert Steps(s, []) == s;
  }

  lemma ReachesNext(s: Site, t: Site, a: Action, calm: bool)
    requires Reaches(s, t, calm) && (calm ==> !Fails(t, a))
    ensures Reaches(s, Step(t, a), calm)
  {
    var actions :| Steps(s, actions) == t && (calm ==> Calm(s, actions));
    var longer := actions + [a];
    assert longer[..|actions|] == actions;
    assert Steps(s, longer) == Step(t, a);
  }

  lemma ReachesSound(s: Site, t: Site)
    requires Sound(s) && Reaches(s, t, false)
    ensures Sound(t)
  {
    var actions :| Steps(s, actions) == t;
    StepsAreSound(s, actions);
  }

  lemma UploadReaches(s: Site, id: Id, calm: bool)
    requires s.request.Idle? && id !in s.used
    ensures Reaches(s, Site(s.rows[id := Row(File(id), None)], s.store + {File(id)}, s.used + {id}, Idle,
                            s.tasks[id := Scheduled]), calm)
  {
    ReachesItself(s, calm);
    var begun := Site(s.rows, s.store, s.used + {id}, Uploading(id, false), s.tasks);
    ReachesNext(s, s, BeginUpload(id), calm);
    ReachesNext(s, begun, Put, calm);
    ReachesNext(s, Site(s.rows, s.store + {File(id)}, s.used + {id}, Uploading(id, true), s.tasks), CommitUpload, calm);
  }

  lemma FirstUpload(id: Id)
    ensures Reaches(EMPTY, Site(map[id := Row(File(id), None)], {File(id)}, {id}, Idle, map[id := Scheduled]), true)
  {
    UploadReaches(EMPTY, id, true);
    assert EMPTY.store + {File(id)} == {File(id)} && EMPTY.used + {id} == {id};
  }

  lemma PreviewBegins(id: Id)
    ensures Reaches(EMPTY, Site(map[id := Row(File(id), None)], {File(id)}, {id}, Idle, map[id := Rendering]), true)
  {
    FirstUpload(id);
    var uploaded := Site(map[id := Row(File(id), None)], {File(id)}, {id}, Idle, map[id := Scheduled]);
    var begun := Step(uploaded, TaskReads(id));
    assert begun.tasks == map[id := Rendering];
    assert begun == Site(uploaded.rows, uploaded.store, uploaded.used, Idle, map[id := Rendering]);
    ReachesNext(EMPTY, uploaded, TaskReads(id), true);
  }

  lemma UploadToStoredPreview(id: Id)
    ensures Reaches(EMPTY, Site(map[id := Row(File(id), None)], {File(id), Thumb(id)}, {id}, Idle,
                                map[id := Stored]), true)
  {
    PreviewBegins(id);
    var rendering := Site(map[id := Row(File(id), None)], {File(id)}, {id}, Idle, map[id := Rendering]);
    assert rendering.store + {Thumb(id)} == {File(id), Thumb(id)};
    assert Step(rendering, TaskStores(id)).tasks == map[id := Stored];
    ReachesNext(EMPTY, rendering, TaskStores(id), true);
  }

  /** A preview that nothing interferes with is stored, and named by the row of its attachment. */
  lemma PreviewIsStamped(id: Id)
    ensures Reaches(EMPTY, Site(map[id := Row(File(id), Some(Thumb(id)))], {File(id), Thumb(id)}, {id}, Idle, map[]),
                    true)
  {
    UploadToStoredPreview(id);
    var stored := Site(map[id := Row(File(id), None)], {File(id), Thumb(id)}, {id}, Idle, map[id := Stored]);
    var stamped := Step(stored, TaskStamps(id));
    assert stamped.rows == map[id := Row(File(id), Some(Thumb(id)))] && stamped.tasks == map[];
    ReachesNext(EMPTY, stored, TaskStamps(id), true);
  }

  lemma DeletionBeforeTheStamp(id: Id)
    ensures Reaches(EMPTY, Site(map[id := Row(File(id), None)], {File(id), Thumb(id)}, {id},
                                Deleting(id, {File(id)}, false), map[id := Stored]), true)
  {
    UploadToStoredPreview(id);
    assert KeysOf(Row(File(id), None)) == {File(id)};
    ReachesNext(EMPTY, Site(map[id := Row(File(id), None)], {File(id), Thumb(id)}, {id}, Idle, map[id := Stored]),
                BeginDelete(id), true);
  }

  /** From a just stored preview: the deletion has read the row, then the preview is stamped. */
  lemma StampDuringDeletion(id: Id)
    ensures Reaches(EMPTY, Site(map[id := Row(File(id), Some(Thumb(id)))], {File(id), Thumb(id)}, {id},
                                Deleting(id, {File(id)}, false), map[]), true)
  {
    DeletionBeforeTheStamp(id);
    var read := Site(map[id := Row(File(id), None)], {File(id), Thumb(id)}, {id},
                     Deleting(id, {File(id)}, false), map[id := Stored]);
    var stamped := Step(read, TaskStamps(id));
    assert stamped.rows == map[id := Row(File(id), Some(Thumb(id)))] && stamped.tasks == map[];
    ReachesNext(EMPTY, read, TaskStamps(id), true);
  }

  lemma DeletionAfterTheStamp(id: Id)
    ensures Reaches(EMPTY, Site(map[], {File(id), Thumb(id)}, {id}, Removing({File(id)}), map[]), true)
  {
    var rows, store := map[id := Row(File(id), Some(Thumb(id)))], {File(id), Thumb(id)};
    StampDuringDeletion(id);
    assert rows - {id} == map[];
    assert StillUnreferenced(map[], {File(id)}) == {File(id)};
    var read := Site(rows, store, {id}, Deleting(id, {File(id)}, false), map[]);
    var filtered := Site(rows, store, {id}, Deleting(id, {File(id)}, true), map[]);
    assert Step(read, Filter) == filtered;
    ReachesNext(EMPTY, read, Filter, true);
    assert Step(filtered, CommitDelete) == Site(map[], store, {id}, Removing({File(id)}), map[]);
    ReachesNext(EMPTY, filtered, CommitDelete, true);
  }

  lemma RemovalAfterTheStamp(id: Id)
    ensures Reaches(EMPTY, Site(map[], {Thumb(id)}, {id}, Removing({}), map[]), true)
  {
    var s := Site(map[], {File(id), Thumb(id)}, {id}, Removing({File(id)}), map[]);
    DeletionAfterTheStamp(id);
    var removed := Step(s, RemoveObject(File(id)));
    assert removed.store == {Thumb(id)} && removed.request == Removing({});
    ReachesNext(EMPTY, s, RemoveObject(File(id)), true);
  }

  /** Without any failure, a preview stamped between a deletion's first read of the row and its commit
      stays behind in the store. */
  lemma LateStampLeavesAnOrphan(id: Id)
    ensures Reaches(EMPTY, Site(map[], {Thumb(id)}, {id}, Idle, map[]), true)
  {
    RemovalAfterTheStamp(id);
    ReachesNext(EMPTY, Site(map[], {Thumb(id)}, {id}, Removing({}), map[]), EndRequest, true);
  }

  // ------------------------------------------------------------------- keys

  function StripRight(s: string): string {
    if s != "" && s[|s| - 1] == '/' then StripRight(s[..|s| - 1]) else s
  }

  /** What follows the last slash. */
  function LastSegment(s: string): string {
    if s != "" && s[|s| - 1] != '/' then LastSegment(s[..|s| - 1]) + [s[|s| - 1]] else ""
  }

  function SafeName(filename: string): (name: string)
    ensures name != ""
  {
    var base := LastSegment(filename);
    if base == "" then "file" else seq(|base|, i requires 0 <= i < |base| => if base[i] == '\\' then '_' else base[i])
  }

  /** The cleaned name is what follows the last slash, with backslashes turned into underscores; or `file`. */
  lemma SafeNameIs(filename: string) returns (from: nat)
    ensures from <= |filename| && (from > 0 ==> filename[from - 1] == '/')
    ensures forall i | from <= i < |filename| :: filename[i] != '/'
    ensures from == |filename| ==> SafeName(filename) == "file"
    ensures from < |filename| ==>
      && |SafeName(filename)| == |filename| - from
      && forall i | 0 <= i < |SafeName(filename)| ::
           SafeName(filename)[i] == if filename[from + i] == '\\' then '_' else filename[from + i]
  {
    from := LastSegmentStarts(filename);
  }

  lemma {:induction false} LastSegmentStarts(s: string) returns (from: nat)
    ensures from <= |s| && LastSegment(s) == s[from..] && (from > 0 ==> s[from - 1] == '/')
    ensures forall i | from <= i < |s| :: s[i] != '/'
  {
    if s != "" && s[|s| - 1] != '/' {
      var init, last := s[..|s| - 1], s[|s| - 1];
      from := LastSegmentStarts(init);
      assert s[from..] == init[from..] + [last];
    } else {
      from := |s|;
    }
  }

  function StorageKey(prefix: string, order: Id, id: Id, filename: string): string {
    StripRight(prefix) + ("/orders/" + (order + ("/attachments/" + (id + ("/" + SafeName(filename))))))
  }

  function ThumbnailKey(prefix: string, order: Id, id: Id): string {
    StripRight(prefix) + ("/orders/" + (order + ("/thumbnails/" + (id + ".jpg"))))
  }

  /** The keys as they are written, under a tenant's prefix that ends in one slash. */
  lemma KeysAre(tenant: string, order: Id, id: Id, filename: string)
    requires tenant == "" || tenant[|tenant| - 1] != '/'
    ensures StorageKey(tenant + "/", order, id, filename)
         == tenant + ("/orders/" + (order + ("/attachments/" + (id + ("/" + SafeName(filename))))))
    ensures ThumbnailKey(tenant + "/", order, id) == tenant + ("/orders/" + (order + ("/thumbnails/" + (id + ".jpg"))))
  {
    PrefixIsStripped(tenant);
  }

  lemma PrefixIsStripped(tenant: string)
    requires tenant == "" || tenant[|tenant| - 1] != '/'
    ensures StripRight(tenant + "/") == tenant
  {
    var prefix := tenant + "/";
    assert prefix[..|prefix| - 1] == tenant;
  }

  lemma {:induction false} LastSegmentHasNoSlash(s: string)
    ensures HasNoSlash(LastSegment(s))
  {
    if s != "" && s[|s| - 1] != '/' {
      LastSegmentHasNoSlash(s[..|s| - 1]);
    }
  }

  lemma SafeNameHasNoSlash(filename: string)
    ensures HasNoSlash(SafeName(filename))
  {
    LastSegmentHasNoSlash(filename);
    var base := LastSegment(filename);
    assert forall i | 0 <= i < |base| :: base[i] in base;
  }

  /** Within a tenant a storage key tells the attachment, so no two attachments share one unless a row
      was copied. Ids are UUIDs: they hold no slash. */
  lemma StorageKeysTellTheAttachment(prefix: string, o1: Id, id1: Id, f1: string, o2: Id, id2: Id, f2: string)
    requires HasNoSlash(o1) && HasNoSlash(o2) && HasNoSlash(id1) && HasNoSlash(id2)
    requires StorageKey(prefix, o1, id1, f1) == StorageKey(prefix, o2, id2, f2)
    ensures o1 == o2 && id1 == id2 && SafeName(f1) == SafeName(f2)
  {
    var tail1, tail2 := "/" + SafeName(f1), "/" + SafeName(f2);
    var rest1, rest2 := "/attachments/" + (id1 + tail1), "/attachments/" + (id2 + tail2);
    SameTail(StripRight(prefix), "/orders/" + (o1 + rest1), "/orders/" + (o2 + rest2));
    NextPart("/orders/", o1, o2, rest1, rest2);
    NextPart("/attachments/", id1, id2, tail1, tail2);
    SameTail("/", SafeName(f1), SafeName(f2));
  }

  lemma {:induction false} LastSegmentOf(head: string, name: string)
    requires HasNoSlash(name)
    ensures LastSegment(head + ("/" + name)) == name
  {
    var s := head + ("/" + name);
    if name == "" {
      assert s[|s| - 1] == '/';
    } else {
      var init, last := name[..|name| - 1], name[|name| - 1];
      assert s[|s| - 1] == last && last in name;
      assert s[..|s| - 1] == head + ("/" + init);
      assert forall c | c in init :: c in name;
      LastSegmentOf(head, init);
      assert name == init + [last];
    }
  }

  /** A storage key ends in the cleaned file name, one segment of its own whatever the client sent. */
  lemma StorageKeyEndsInTheName(prefix: string, order: Id, id: Id, filename: string)
    ensures LastSegment(StorageKey(prefix, order, id, filename)) == SafeName(filename)
    ensures HasNoSlash(SafeName(filename))
  {
    var name := SafeName(filename);
    var head := StripRight(prefix) + "/orders/" + order + "/attachments/" + id;
    SafeNameHasNoSlash(filename);
    assert StorageKey(prefix, order, id, filename) == head + ("/" + name);
    LastSegmentOf(head, name);
  }

  /** A preview never overwrites an uploaded file, its own or another's. */
  lemma PreviewsAreNotFiles(prefix: string, o1: Id, id1: Id, f: string, o2: Id, id2: Id)
    requires HasNoSlash(o1) && HasNoSlash(o2)
    ensures StorageKey(prefix, o1, id1, f) != ThumbnailKey(prefix, o2, id2)
  {
    var rest1 := "/attachments/" + (id1 + ("/" + SafeName(f)));
    var rest2 := "/thumbnails/" + (id2 + ".jpg");
    assert rest1[1] == 'a' && rest2[1] == 't';
    if StorageKey(prefix, o1, id1, f) == ThumbnailKey(prefix, o2, id2) {
      SameTail(StripRight(prefix), "/orders/" + (o1 + rest1), "/orders/" + (o2 + rest2));
      NextPart("/orders/", o1, o2, rest1, rest2);
      assert false;
    }
  }

  // -------------------------------------------------------------- the routes

  /** `referenced` holds the keys of all rows outside `todo`. */
  ghost predicate Collected(rows: Rows, todo: set<Id>, referenced: set<Key>) {
    && todo <= rows.Keys
    && (forall k | k in referenced :: Named(rows, k))
    && (forall id | id in rows && id !in todo :: KeysOf(rows[id]) <= referenced)
  }

  lemma CollectOne(rows: Rows, todo: set<Id>, referenced: set<Key>, id: Id)
    requires Collected(rows, todo, referenced) && id in todo
    ensures Collected(rows, todo - {id}, referenced + KeysOf(rows[id]))
  {
  }

  lemma CollectedAll(rows: Rows, referenced: set<Key>, keys: set<Key>)
    requires Collected(rows, {}, referenced)
    ensures keys - referenced == StillUnreferenced(rows, keys)
  {
    forall k | k in keys ensures k in referenced <==> Named(rows, k) {
      if Named(rows, k) {
        var id :| id in rows && k in KeysOf(rows[id]);
      }
    }
  }

  /** How the store answers a put: a failed one may have stored the object all the same. */
  datatype PutOutcome = PutDone | PutLost(stored: bool)

  lemma LostUploadReaches(s: Site, id: Id, stored: bool)
    requires s.request.Idle? && id !in s.used
    ensures Reaches(s, Site(s.rows, if stored then s.store + {File(id)} else s.store, s.used + {id}, Idle, s.tasks),
                    false)
  {
    ReachesItself(s, false);
    ReachesNext(s, s, BeginUpload(id), false);
    ReachesNext(s, Site(s.rows, s.store, s.used + {id}, Uploading(id, false), s.tasks), PutFails(stored), false);
  }

  lemma RearmReaches(s: Site, source: Id, id: Id)
    requires s.request.Idle? && source in s.rows && id !in s.used
    ensures Reaches(s, Site(s.rows[id := s.rows[source]], s.store, s.used + {id}, Idle, s.tasks), false)
  {
    ReachesItself(s, false);
    ReachesNext(s, s, BeginRearm(source, id), false);
    ReachesNext(s, Site(s.rows, s.store, s.used + {id}, Rearming(id, s.rows[source]), s.tasks), CommitRearm, false);
  }

  /** Where a deletion of `id` is: its row is gone, and so are its free keys outside `todo` and `stuck`. */
  ghost predicate Deletion(s: Site, id: Id, store: set<Key>, todo: set<Key>, stuck: set<Key>) {
    && id in s.rows
    && var keys := StillUnreferenced(s.rows - {id}, KeysOf(s.rows[id]));
    && todo <= keys
    && store == s.store - (keys - todo - stuck)
    && Reaches(s, Site(s.rows - {id}, store, s.used, Removing(todo + keys * stuck), s.tasks), false)
  }

  lemma DeleteBegins(s: Site, id: Id, stuck: set<Key>)
    requires s.request.Idle? && id in s.rows
    ensures Deletion(s, id, s.store, StillUnreferenced(s.rows - {id}, KeysOf(s.rows[id])), stuck)
  {
    var keys := KeysOf(s.rows[id]);
    var free := StillUnreferenced(s.rows - {id}, keys);
    ReachesItself(s, false);
    ReachesNext(s, s, BeginDelete(id), false);
    ReachesNext(s, Site(s.rows, s.store, s.used, Deleting(id, keys, false), s.tasks), Filter, false);
    ReachesNext(s, Site(s.rows, s.store, s.used, Deleting(id, free, true), s.tasks), CommitDelete, false);
    assert free + free * stuck == free;
    assert s.store - (free - free - stuck) == s.store;
  }

  /** One key's turn: it is removed, unless the store is stuck on it. */
  lemma DeleteOne(s: Site, id: Id, store: set<Key>, todo: set<Key>, stuck: set<Key>, k: Key)
    requires Deletion(s, id, store, todo, stuck) && k in todo
    ensures Deletion(s, id, if k in stuck then store else store - {k}, todo - {k}, stuck)
  {
    var keys := StillUnreferenced(s.rows - {id}, KeysOf(s.rows[id]));
    if k in stuck {
      assert (todo - {k}) + keys * stuck == todo + keys * stuck;
      assert keys - (todo - {k}) - stuck == keys - todo - stuck;
    } else {
      assert (todo - {k}) + keys * stuck == (todo + keys * stuck) - {k};
      assert s.store - (keys - (todo - {k}) - stuck) == store - {k};
      ReachesNext(s, Site(s.rows - {id}, store, s.used, Removing(todo + keys * stuck), s.tasks), RemoveObject(k),
                  false);
    }
  }

  lemma DeleteEnds(s: Site, id: Id, store: set<Key>, stuck: set<Key>)
    requires Deletion(s, id, store, {}, stuck)
    ensures Reaches(s, Site(s.rows - {id}, store, s.used, Idle, s.tasks), false)
    ensures store == s.store - (StillUnreferenced(s.rows - {id}, KeysOf(s.rows[id])) - stuck)
  {
    var keys := StillUnreferenced(s.rows - {id}, KeysOf(s.rows[id]));
    assert keys - {} - stuck == keys - stuck;
    ReachesNext(s, Site(s.rows - {id}, store, s.used, Removing({} + keys * stuck), s.tasks), EndRequest, false);
  }

  /** The routes over the committed rows and the store, one request at a time. */
  class Files {
    var rows: Rows
    var store: set<Key>
    var used: set<Id>
    var tasks: map<Id, Task>

    function State(): Site
      reads this
    {
      Site(rows, store, used, Idle, tasks)
    }

    ghost predicate Valid()
      reads this
    {
      Sound(State())
    }

    constructor ()
      ensures Valid() && State() == EMPTY
    {
      rows, store, used, tasks := map[], {}, {}, map[];
    }

    /** The row is inserted first, and committed only when the object is stored. */
    method Upload(id: Id, outcome: PutOutcome) returns (ok: bool)
      requires Valid() && id !in used
      modifies this
      ensures Valid() && Reaches(old(State()), State(), false)
      ensures ok == outcome.PutDone? && used == old(used) + {id}
      ensures rows == if ok then old(rows)[id := Row(File(id), None)] else old(rows)
      ensures store == old(store) + (if ok || outcome.stored then {File(id)} else {})
      ensures tasks == if ok then old(tasks)[id := Scheduled] else old(tasks)
    {
      ghost var s := State();
      used := used + {id};
      match outcome
      case PutDone =>
        UploadReaches(s, id, false);
        store := store + {File(id)};
        rows, tasks := rows[id := Row(File(id), None)], tasks[id := Scheduled];
        ReachesSound(s, State());
        ok := true;
      case PutLost(stored) =>
        LostUploadReaches(s, id, stored);
        if stored {
          store := store + {File(id)};
        }
        ReachesSound(s, State());
        ok := false;
    }

    /** Drops the keys that a row still stores or thumbnails. */
    method KeysStillUnreferenced(keys: set<Key>) returns (free: set<Key>)
      ensures free == StillUnreferenced(rows, keys)
      ensures forall k :: k in free <==>
        k in keys && forall id | id in rows :: k != rows[id].storage && rows[id].thumb != Some(k)
    {
      var current := rows;
      var referenced: set<Key> := {};
      var todo := current.Keys;
      while todo != {}
        invariant Collected(current, todo, referenced)
        decreases |todo|
      {
        var id :| id in todo;
        CollectOne(current, todo, referenced, id);
        referenced := referenced + KeysOf(current[id]);
        todo := todo - {id};
      }
      free := keys - referenced;
      CollectedAll(current, referenced, keys);
    }

    /** Deletes row `id`, then the objects no other row uses. The store may fail on some, `stuck`. */
    method Delete(id: Id, stuck: set<Key>) returns (found: bool)
      requires Valid()
      modifies this
      ensures Valid() && Reaches(old(State()), State(), false)
      ensures found == (id in old(rows)) && rows == old(rows) - {id}
      ensures used == old(used) && tasks == old(tasks)
      ensures found ==>
        store == old(store) - (StillUnreferenced(old(rows) - {id}, KeysOf(old(rows)[id])) - stuck)
      ensures !found ==> store == old(store)
      ensures found ==> forall k :: k in store <==>
        && k in old(store)
        && (k in stuck || (k != old(rows)[id].storage && old(rows)[id].thumb != Some(k))
            || exists other | other in rows :: k == rows[other].storage || rows[other].thumb == Some(k))
    {
      ghost var s := State();
      if id !in rows {
        ReachesItself(s, false);
        assert rows - {id} == rows;
        return false;
      }
      var keys := KeysOf(rows[id]);
      rows := rows - {id};
      keys := KeysStillUnreferenced(keys);
      DeleteBegins(s, id, stuck);
      RemoveObjects(id, keys, stuck, s);
      ReachesSound(s, State());
      found := true;
    }

    /** Deletes `keys` from the store, after the commit. */
    method RemoveObjects(id: Id, keys: set<Key>, stuck: set<Key>, ghost s: Site)
      requires Deletion(s, id, store, keys, stuck)
      modifies this`store
      ensures Reaches(s, Site(s.rows - {id}, store, s.used, Idle, s.tasks), false)
      ensures store == s.store - (StillUnreferenced(s.rows - {id}, KeysOf(s.rows[id])) - stuck)
    {
      var todo := keys;
      while todo != {}
        invariant Deletion(s, id, store, todo, stuck)
        decreases |todo|
      {
        var k :| k in todo;
        DeleteOne(s, id, store, todo, stuck, k);
        if k !in stuck {
          store := store - {k};
        }
        todo := todo - {k};
      }
      DeleteEnds(s, id, store, stuck);
    }

    /** A new row that shares the objects of another. */
    method Rearm(source: Id, id: Id)
      requires Valid() && source in rows && id !in used
      modifies this`rows, this`used
      ensures Valid() && Reaches(old(State()), State(), false)
      ensures rows == old(rows)[id := old(rows)[source]] && used == old(used) + {id}
    {
      ghost var s := State();
      RearmReaches(s, source, id);
      rows, used := rows[id := rows[source]], used + {id};
      ReachesSound(s, State());
    }
  }
}
