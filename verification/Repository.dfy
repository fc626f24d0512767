/**
 What create, prune, hold and unhold do to one repository, under its lock, with anything
 failing at any moment: packages/backup/src/backups, rotation and lock together.
 */
module Repository {
  // A world is the lock protocol's state and the keys of the repository. A writer decides what
  // to do while it holds the lock, then puts or deletes one key after the other, each one begun
  // only while `held()`; what it began lands later, or fails. Its listing and its reads take time, but
  // nobody changes the store meanwhile (`ReadsAreOfOneStore`). Two things are assumed of the store.
  // What was begun while held has landed, or never will, once the deadline is past by more than the
  // lock's slack: `Ticks`. What was reported as failed changes nothing any more: `final` of the lock's
  // configuration, without which it may land as long as the slack lasts. The first is what the grace
  // is for; that the second is needed is shown at the end.

  import Lock
  import opened Wrappers

  /** A backup's id: ids sort as the times they start with do. */
  type Id = nat

  datatype Key =
    | ManifestKey(id: Id)
    | SignatureKey(id: Id)
    | CatalogKey(id: Id)
    | ObjectKey(id: Id, n: nat)
    | HoldKey(id: Id)

  /**
   What is stored under a key. `Unreadable` is a manifest this version cannot read, or part of a
   put that was refused; `hint` is the parent its bytes name, if they name one.
   */
  datatype Value =
    | Manifest(parent: Option<Id>, objects: nat, signed: bool)
    | Unreadable(hint: Option<Id>)
    | Blob

  type Store = map<Key, Value>

  datatype Op = Put(key: Key, value: Value) | Del(key: Key)

  datatype Job =
    | Create(id: Id, parent: Option<Id>, objects: nat, signed: bool)
    | Prune(listing: seq<Key>, removed: seq<Id>, incomplete: seq<Id>)
    | Hold(id: Id)
    | Unhold(id: Id)

  /**
   A writer at work: what it has begun, what is left after that, what it was told had failed and may
   still land, and whether anything failed.
   */
  datatype Session = Session(job: Job, flight: Option<Op>, todo: seq<Op>, late: Option<Op>, failed: bool) {
    function Rest(): seq<Op> {
      if flight.Some? then [flight.value] + todo else todo
    }
  }

  /** `written`: the ids whose manifest a create here put. `pinned`: what a held backup had when hold resolved. */
  datatype World = World(
    lock: Lock.State,
    store: Store,
    sessions: map<Lock.Key, Session>,
    used: set<Id>,
    written: set<Id>,
    pinned: map<Id, Store>)

  datatype Step =
    | LockStep(step: Lock.Step)
    | Decide(w: Lock.Key, job: Job)
    | Begin(w: Lock.Key)
    | Land(w: Lock.Key)
    | Fail(w: Lock.Key, landed: bool, part: bool, later: bool)
    | LandLate(w: Lock.Key)

  function Apply(store: Store, op: Op): Store {
    match op
    case Put(key, value) => store[key := value]
    case Del(key) => store - {key}
  }

  function ParentOf(v: Value): Option<Id> {
    match v
    case Manifest(parent, _, _) => parent
    case Unreadable(hint) => hint
    case Blob => None
  }

  function ParentAt(store: Store, id: Id): Option<Id> {
    if ManifestKey(id) in store then ParentOf(store[ManifestKey(id)]) else None
  }

  predicate Readable(store: Store, id: Id) {
    ManifestKey(id) in store && store[ManifestKey(id)].Manifest?
  }

  /** What `chainOf` walks without failing: every manifest down to a full backup, each older than its child. */
  predicate Chain(store: Store, id: Id) {
    Readable(store, id) &&
    var parent := store[ManifestKey(id)].parent;
    parent.Some? ==> parent.value < id && Chain(store, parent.value)
  }

  /** A backup that can be restored from here: what it lists, and every manifest it builds on. */
  predicate Whole(store: Store, id: Id) {
    && Chain(store, id)
    && (forall i | 0 <= i < store[ManifestKey(id)].objects ::
          ObjectKey(id, i) in store && store[ObjectKey(id, i)] == Blob)
    && CatalogKey(id) in store && store[CatalogKey(id)] == Blob
    && (store[ManifestKey(id)].signed ==> SignatureKey(id) in store && store[SignatureKey(id)] == Blob)
  }

  // ----- what each call does, in order

  /** Objects, catalog, signature when there is a key, and the manifest last. */
  function CreateOps(id: Id, parent: Option<Id>, objects: nat, signed: bool): seq<Op> {
    seq(objects, i requires 0 <= i < objects => Put(ObjectKey(id, i), Blob))
    + [Put(CatalogKey(id), Blob)]
    + (if signed then [Put(SignatureKey(id), Blob)] else [])
    + [Put(ManifestKey(id), Manifest(parent, objects, signed))]
  }

  function KeysOf(listing: seq<Key>, id: Id): seq<Key> {
    if listing == [] then []
    else (if listing[0].id == id && !listing[0].HoldKey? then [listing[0]] else []) + KeysOf(listing[1..], id)
  }

  function Without(keys: seq<Key>, key: Key): seq<Op> {
    if keys == [] then []
    else (if keys[0] != key then [Del(keys[0])] else []) + Without(keys[1..], key)
  }

  /** The manifest first, then whatever else is under the id. */
  function RemoveOps(listing: seq<Key>, id: Id): seq<Op> {
    (if ManifestKey(id) in listing then [Del(ManifestKey(id))] else [])
    + Without(KeysOf(listing, id), ManifestKey(id))
  }

  function PruneOps(listing: seq<Key>, ids: seq<Id>): seq<Op> {
    if ids == [] then [] else RemoveOps(listing, ids[0]) + PruneOps(listing, ids[1..])
  }

  function Program(job: Job): seq<Op> {
    match job
    case Create(id, parent, objects, signed) => CreateOps(id, parent, objects, signed)
    case Prune(listing, removed, incomplete) => PruneOps(listing, removed + incomplete)
    case Hold(id) => [Put(HoldKey(id), Blob)]
    case Unhold(id) => [Del(HoldKey(id))]
  }

  /**
   What a prune's plan promises of the backups it removes: each reads and is not held, nothing
   kept builds on one, and of two that go a child goes before its parent.
   */
  predicate Decision(store: Store, removed: seq<Id>) {
    && (forall id | id in removed :: Readable(store, id) && HoldKey(id) !in store)
    && (forall k | k in store && k.ManifestKey? && k.id !in removed ::
          ParentOf(store[k]).Some? ==> ParentOf(store[k]).value !in removed)
    && (forall i, j | 0 <= i <= j < |removed| :: ParentAt(store, removed[j]) != Some(removed[i]))
  }

  /** What a writer may decide on: what it checks, under the lock, before its first write. */
  ghost predicate MayDecide(x: World, job: Job) {
    match job
    case Create(id, parent, _, _) =>
      && id !in x.used
      && (forall k | k in x.store :: k.id != id)
      && (parent.Some? ==> parent.value < id && Chain(x.store, parent.value))
    case Prune(listing, removed, incomplete) =>
      && (forall k :: k in listing <==> k in x.store)
      && Decision(x.store, removed)
      && (forall id | id in incomplete :: ManifestKey(id) !in x.store)
    case Hold(id) => Readable(x.store, id)
    case Unhold(_) => true
  }

  // ----- the steps

  predicate InFlight(x: World, w: Lock.Key) {
    w in x.sessions && x.sessions[w].flight.Some?
  }

  /** What was begun while held has landed once the deadline is past by the slack. */
  predicate Ticks(c: Lock.Config, x: World, to: real) {
    forall w | w in x.sessions ::
      InFlight(x, w) && w in x.lock.writers ==> to <= x.lock.writers[w].lease.deadline + c.Slack()
  }

  ghost predicate Enabled(c: Lock.Config, x: World, step: Step) {
    match step
    case LockStep(l) =>
      && Lock.Enabled(c, x.lock, l)
      && (l.Tick? ==> Ticks(c, x, l.to))
      // A release waits for the write under way; a writer that dies takes no more steps.
      && (l.By? && (l.action.Release? || l.action.Crash?) ==> !InFlight(x, l.id))
    case Decide(w, job) => Lock.Holding(x.lock, w) && w !in x.sessions && MayDecide(x, job)
    case Begin(w) =>
      w in x.sessions && Lock.Holding(x.lock, w) && x.sessions[w].flight.None? && x.sessions[w].todo != []
    case Land(w) => InFlight(x, w)
    case Fail(w, landed, part, later) => InFlight(x, w) && (later ==> !c.final && !landed && !part)
    case LandLate(w) =>
      w in x.sessions && x.sessions[w].late.Some? && w in x.lock.writers
      && x.lock.time <= x.lock.writers[w].lease.deadline + c.Slack()
  }

  /** The bytes a refused put may leave behind. */
  function Remains(op: Op): Op {
    match op
    case Put(key, value) => Put(key, Unreadable(None))
    case Del(_) => op
  }

  function Recorded(written: set<Id>, op: Op): set<Id> {
    if op.Put? && op.key.ManifestKey? then written + {op.key.id} else written
  }

  function OwnKeys(store: Store, id: Id): Store {
    map k | k in store && k.id == id :: store[k]
  }

  function Do(c: Lock.Config, x: World, step: Step): World
    requires Enabled(c, x, step)
  {
    match step
    case LockStep(l) => x.(lock := Lock.Do(c, x.lock, l))
    case Decide(w, job) =>
      x.(sessions := x.sessions[w := Session(job, None, Program(job), None, false)],
         used := if job.Create? then x.used + {job.id} else x.used)
    case Begin(w) =>
      var s := x.sessions[w];
      x.(sessions := x.sessions[w := s.(flight := Some(s.todo[0]), todo := s.todo[1..])],
         pinned := if s.job.Unhold? then x.pinned - {s.job.id} else x.pinned)
    case Land(w) =>
      var s := x.sessions[w];
      var store := Apply(x.store, s.flight.value);
      x.(store := store,
         sessions := x.sessions[w := s.(flight := None)],
         written := Recorded(x.written, s.flight.value),
         pinned := if s.job.Hold? then x.pinned[s.job.id := OwnKeys(store, s.job.id)] else x.pinned)
    case Fail(w, landed, part, later) =>
      var s := x.sessions[w];
      var op := s.flight.value;
      // Whatever failed, nothing more is begun.
      x.(store := if landed then Apply(x.store, op) else if part
        && op.Put? then Apply(x.store, Remains(op)) else x.store,
         sessions := x.sessions[w :=
           s.(flight := None, todo := [], late := if later then Some(op) else None, failed := true)],
         written := if landed then Recorded(x.written, op) else x.written)
    case LandLate(w) =>
      var op := x.sessions[w].late.value;
      x.(store := Apply(x.store, op),
         sessions := x.sessions[w := x.sessions[w].(late := None)],
         written := Recorded(x.written, op))
  }

  predicate Initial(x: World) {
    Lock.Initial(x.lock) && x.sessions == map[] && x.written == {} && x.pinned == map[]
  }

  ghost predicate IsRun(c: Lock.Config, x: World, steps: seq<Step>)
    decreases |steps|
  {
    steps == [] || (Enabled(c, x, steps[0]) && IsRun(c, Do(c, x, steps[0]), steps[1..]))
  }

  function End(c: Lock.Config, x: World, steps: seq<Step>): World
    requires IsRun(c, x, steps)
    decreases |steps|
  {
    if steps == [] then x else End(c, Do(c, x, steps[0]), steps[1..])
  }

  // ----- the invariant

  /** A writer whose puts and deletes may still land. */
  predicate Active(x: World, w: Lock.Key) {
    w in x.sessions && (InFlight(x, w) || Lock.Holding(x.lock, w))
  }

  /** The deletes left, in order: a manifest after those of its children, the rest after its manifest. */
  predicate SafeDeletes(store: Store, pinned: map<Id, Store>, rest: seq<Op>) {
    forall i | 0 <= i < |rest| :: SafeDelete(store, pinned, rest, i)
  }

  predicate SafeDelete(store: Store, pinned: map<Id, Store>, rest: seq<Op>, i: nat)
    requires i < |rest|
  {
    && rest[i].Del? && !rest[i].key.HoldKey? && rest[i].key.id !in pinned
    && (if rest[i].key.ManifestKey?
        then forall k | k in store && k.ManifestKey? && ParentOf(store[k]) == Some(rest[i].key.id) ::
          Del(k) in rest[..i]
        else ManifestKey(rest[i].key.id) in store ==> Del(ManifestKey(rest[i].key.id)) in rest[..i])
  }

  predicate CreateOk(store: Store, job: Job, rest: seq<Op>)
    requires job.Create?
  {
    var ops := Program(job);
    && |rest| <= |ops| && rest == ops[|ops| - |rest|..]
    && (forall i | 0 <= i < |ops| - |rest| :: ops[i].key in store && store[ops[i].key] == ops[i].value)
    && (forall i | 0 <= i < |rest| :: rest[i].key !in store)
    && (rest != [] && job.parent.Some? ==> job.parent.value < job.id && Chain(store, job.parent.value))
  }

  ghost predicate SessionOk(x: World, s: Session) {
    match s.job
    case Create(id, _, _, _) =>
      s.Rest() != [] ==> CreateOk(x.store, s.job, s.Rest()) && id in x.used && id !in x.written
    case Prune(_, _, _) => SafeDeletes(x.store, x.pinned, s.Rest())
    case Hold(id) => s.Rest() == [] || (s.Rest() == Program(s.job) && Readable(x.store, id))
    case Unhold(id) => s.Rest() == [] || (s.Rest() == Program(s.job) && (s.flight.Some? ==> id !in x.pinned))
  }

  /** What is stored is what the theorem says: every backup written and still standing is whole, every hold is kept. */
  ghost predicate StoreOk(x: World) {
    && (forall id | id in x.written && ManifestKey(id) in x.store :: Whole(x.store, id))
    && (forall id | id in x.pinned :: PinKept(x, id))
    && x.written <= x.used
  }

  ghost predicate PinKept(x: World, id: Id)
    requires id in x.pinned
  {
    && (forall k | k in x.pinned[id] :: k.id == id && k in x.store && (k.HoldKey? || x.store[k] == x.pinned[id][k]))
    && HoldKey(id) in x.pinned[id]
    && ManifestKey(id) in x.pinned[id] && x.pinned[id][ManifestKey(id)].Manifest?
  }

  /**
   A session's writer acquired the lock; with a write under way it is not past its deadline by more than the slack.
   */
  predicate SessionInLock(c: Lock.Config, x: World, w: Lock.Key) {
    && w in x.lock.writers
    && (x.lock.writers[w].phase.Acquired? || x.lock.writers[w].phase.Releasing? || x.lock.writers[w].phase.Gone?)
    && (InFlight(x, w) ==>
          x.lock.writers[w].phase.Acquired? && x.lock.time <= x.lock.writers[w].lease.deadline + c.Slack())
  }

  ghost predicate Inv(c: Lock.Config, x: World) {
    && Lock.Inv(c, x.lock)
    && (forall w | w in x.sessions :: SessionInLock(c, x, w))
    && (forall w | w in x.sessions && Active(x, w) :: SessionOk(x, x.sessions[w]))
    && (c.final ==> forall w | w in x.sessions :: x.sessions[w].late.None?)
    && StoreOk(x)
  }

  /** By the lock: at most one writer's puts and deletes can still land. */
  lemma OneActive(c: Lock.Config, x: World, v: Lock.Key, w: Lock.Key)
    requires c.Safe() && Inv(c, x) && Active(x, v) && Active(x, w)
    ensures v == w
  {
    assert Lock.PairOk(c, x.lock, v, w);
  }

  // ----- lock steps

  /** No lock step makes a session active that was not. */
  lemma LockStepKeepsActive(c: Lock.Config, x: World, l: Lock.Step, w: Lock.Key)
    requires c.Safe() && Inv(c, x) && Enabled(c, x, LockStep(l))
    requires w in x.sessions && Active(Do(c, x, LockStep(l)), w)
    ensures Active(x, w)
  {
    assert SessionInLock(c, x, w);
    Lock.AfterAcquiring(c, x.lock, l, w);
  }

  lemma LockStepKeepsSession(c: Lock.Config, x: World, l: Lock.Step, w: Lock.Key)
    requires c.Safe() && Inv(c, x) && Enabled(c, x, LockStep(l)) && w in x.sessions
    ensures SessionInLock(c, Do(c, x, LockStep(l)), w)
  {
    assert SessionInLock(c, x, w);
    Lock.AfterAcquiring(c, x.lock, l, w);
  }

  lemma LockStepKeepsInv(c: Lock.Config, x: World, l: Lock.Step)
    requires c.Safe() && Inv(c, x) && Enabled(c, x, LockStep(l))
    ensures Inv(c, Do(c, x, LockStep(l)))
  {
    var y := Do(c, x, LockStep(l));
    Lock.StepKeepsInv(c, x.lock, l);
    forall w | w in y.sessions ensures SessionInLock(c, y, w) {
      LockStepKeepsSession(c, x, l, w);
    }
    forall w | w in y.sessions && Active(y, w) ensures SessionOk(y, y.sessions[w]) {
      LockStepKeepsActive(c, x, l, w);
    }
    assert StoreOk(y) by {
      forall id | id in y.pinned ensures PinKept(y, id) { assert PinKept(x, id); }
    }
  }

  // ----- what a prune decided is safe to carry out

  lemma {:induction false} WithoutAre(keys: seq<Key>, key: Key, op: Op)
    ensures op in Without(keys, key) <==> op.Del? && op.key in keys && op.key != key
  {
    if keys != [] { WithoutAre(keys[1..], key, op); }
  }

  lemma {:induction false} KeysOfAre(listing: seq<Key>, id: Id, key: Key)
    ensures key in KeysOf(listing, id) <==> key in listing && key.id == id && !key.HoldKey?
  {
    if listing != [] { KeysOfAre(listing[1..], id, key); }
  }

  lemma RemovesAre(listing: seq<Key>, id: Id, op: Op)
    ensures op in RemoveOps(listing, id) <==> op.Del? && op.key in listing && op.key.id == id && !op.key.HoldKey?
    ensures ManifestKey(id) in listing ==>
              RemoveOps(listing, id)[..1] == [Del(ManifestKey(id))]
                && Del(ManifestKey(id)) !in RemoveOps(listing, id)[1..]
  {
    WithoutAre(KeysOf(listing, id), ManifestKey(id), op);
    WithoutAre(KeysOf(listing, id), ManifestKey(id), Del(ManifestKey(id)));
    if op.Del? { KeysOfAre(listing, id, op.key); }
  }

  lemma {:induction false} PrunesAre(listing: seq<Key>, ids: seq<Id>, op: Op)
    ensures op in PruneOps(listing, ids) <==> op.Del? && op.key in listing && op.key.id in ids && !op.key.HoldKey?
  {
    if ids != [] {
      RemovesAre(listing, ids[0], op);
      PrunesAre(listing, ids[1..], op);
    }
  }

  lemma ManifestGoesFirst(listing: seq<Key>, id: Id, i: nat)
    requires i < |RemoveOps(listing, id)|
    ensures RemoveOps(listing, id)[i].Del? && RemoveOps(listing, id)[i].key.id == id
    ensures !RemoveOps(listing, id)[i].key.ManifestKey? && ManifestKey(id) in listing ==>
              Del(ManifestKey(id)) in RemoveOps(listing, id)[..i]
  {
    var ops := RemoveOps(listing, id);
    RemovesAre(listing, id, ops[i]);
    if i > 0 && ManifestKey(id) in listing {
      assert ops[..i][0] == ops[..1][0];
    }
  }

  /** Each op of the program is one of the backup at some place of the order, after all of those before it. */
  lemma {:induction false} PlaceOf(listing: seq<Key>, ids: seq<Id>, i: nat) returns (j: nat)
    requires i < |PruneOps(listing, ids)|
    ensures j < |ids| && PruneOps(listing, ids)[i].Del? && PruneOps(listing, ids)[i].key.id == ids[j]
    ensures forall op | op in PruneOps(listing, ids[..j]) :: op in PruneOps(listing, ids)[..i]
    ensures !PruneOps(listing, ids)[i].key.ManifestKey? && ManifestKey(ids[j]) in listing ==>
              Del(ManifestKey(ids[j])) in PruneOps(listing, ids)[..i]
  {
    var ops, first := PruneOps(listing, ids), RemoveOps(listing, ids[0]);
    if i < |first| {
      j := 0;
      assert ops[i] == first[i];
      ManifestGoesFirst(listing, ids[0], i);
      assert ops[..i] == first[..i];
    } else {
      var k := PlaceOf(listing, ids[1..], i - |first|);
      j := k + 1;
      assert ops[..i] == first + PruneOps(listing, ids[1..])[..i - |first|];
      assert ids[1..][..k] == ids[..j][1..];
    }
  }

  lemma DecisionIsSafe(x: World, listing: seq<Key>, removed: seq<Id>, incomplete: seq<Id>)
    requires MayDecide(x, Prune(listing, removed, incomplete))
    requires forall id | id in x.pinned :: ManifestKey(id) in x.store && HoldKey(id) in x.store
    ensures SafeDeletes(x.store, x.pinned, PruneOps(listing, removed + incomplete))
  {
    var ids := removed + incomplete;
    var rest := PruneOps(listing, ids);
    forall i | 0 <= i < |rest| ensures SafeDelete(x.store, x.pinned, rest, i) {
      PrunesAre(listing, ids, rest[i]);
      var j := PlaceOf(listing, ids, i);
      var id := ids[j];
      if rest[i].key.ManifestKey? {
        assert j < |removed| && id == removed[j];
        forall k | k in x.store && k.ManifestKey? && ParentOf(x.store[k]) == Some(id) ensures Del(k) in rest[..i] {
          assert k.id in removed;
          var n :| 0 <= n < |removed| && removed[n] == k.id;
          assert n < j;
          assert ids[..j][n] == k.id;
          PrunesAre(listing, ids[..j], Del(k));
        }
      }
    }
  }

  // ----- one put or delete

  /** What makes one operation harmless: it overwrites nothing but a hold, and takes nothing still needed. */
  predicate SafeOp(x: World, op: Op) {
    match op
    case Put(key, value) => key.HoldKey? || key !in x.store
    case Del(key) =>
      && key.id !in x.pinned
      && (key.ManifestKey? ==> forall k | k in x.store && k.ManifestKey? :: ParentOf(x.store[k]) != Some(key.id))
      && (!key.ManifestKey? && !key.HoldKey? ==> ManifestKey(key.id) !in x.store)
  }

  /** Between two stores, no standing manifest changed or lost the one it builds on. */
  predicate ParentsKept(before: Store, after: Store) {
    forall k | k in before && k in after && k.ManifestKey? ::
      && after[k] == before[k]
      && (ParentOf(before[k]).Some? && ManifestKey(ParentOf(before[k]).value) in before ==>
            ManifestKey(ParentOf(before[k]).value) in after)
  }

  /** A manifest that says so, or bytes that do not read and name it. */
  predicate Names(v: Value, parent: Id) {
    v == Unreadable(Some(parent)) || (v.Manifest? && v.parent == Some(parent))
  }

  lemma {:induction false} ChainKept(before: Store, after: Store, id: Id)
    requires ParentsKept(before, after) && Chain(before, id) && ManifestKey(id) in after
    ensures Chain(after, id)
    decreases id
  {
    var parent := before[ManifestKey(id)].parent;
    if parent.Some? { ChainKept(before, after, parent.value); }
  }

  lemma SafeOpKeepsStore(x: World, op: Op, y: World)
    requires StoreOk(x) && SafeOp(x, op) && (op.Put? && op.key.ManifestKey? ==> op.key.id !in x.written)
    requires y.store == Apply(x.store, op) && y.written == x.written && y.pinned == x.pinned && y.used == x.used
    ensures StoreOk(y)
  {
    forall id | id in y.written && ManifestKey(id) in y.store ensures Whole(y.store, id) {
      assert Whole(x.store, id);
      ChainKept(x.store, y.store, id);
    }
    forall id | id in y.pinned ensures PinKept(y, id) {
      assert PinKept(x, id);
    }
  }

  // ----- a writer's own steps

  lemma CreateOpsAreOwn(id: Id, parent: Option<Id>, objects: nat, signed: bool)
    ensures var ops := CreateOps(id, parent, objects, signed);
            && (forall i | 0 <= i < |ops| :: ops[i].Put? && ops[i].key.id == id && !ops[i].key.HoldKey?)
            && (forall i, j | 0 <= i < j < |ops| :: ops[i].key != ops[j].key)
            && (forall i | 0 <= i < |ops| - 1 :: !ops[i].key.ManifestKey?)
            && |ops| > objects && ops[|ops| - 1] == Put(ManifestKey(id), Manifest(parent, objects, signed))
            && (forall i | 0 <= i < objects :: ops[i] == Put(ObjectKey(id, i), Blob))
            && ops[objects] == Put(CatalogKey(id), Blob)
            && (signed ==> |ops| > objects + 2 && ops[objects + 1] == Put(SignatureKey(id), Blob))
  {
  }

  lemma DecidedIsOk(c: Lock.Config, x: World, w: Lock.Key, job: Job)
    requires StoreOk(x) && Enabled(c, x, Decide(w, job))
    ensures SessionOk(Do(c, x, Decide(w, job)), Session(job, None, Program(job), None, false))
  {
    match job
    case Create(id, parent, objects, signed) =>
      CreateOpsAreOwn(id, parent, objects, signed);
    case Prune(listing, removed, incomplete) =>
      forall id | id in x.pinned ensures ManifestKey(id) in x.store && HoldKey(id) in x.store {
        assert PinKept(x, id);
      }
      DecisionIsSafe(x, listing, removed, incomplete);
    case Hold(_) =>
    case Unhold(_) =>
  }

  lemma DecideKeepsInv(c: Lock.Config, x: World, w: Lock.Key, job: Job)
    requires c.Safe() && Inv(c, x) && Enabled(c, x, Decide(w, job))
    ensures Inv(c, Do(c, x, Decide(w, job)))
  {
    var y := Do(c, x, Decide(w, job));
    forall v | v in y.sessions && Active(y, v) ensures SessionOk(y, y.sessions[v]) {
      if v != w {
        assert false;
      }
      DecidedIsOk(c, x, w, job);
    }
    forall id | id in y.pinned ensures PinKept(y, id) { assert PinKept(x, id); }
    forall v | v in y.sessions ensures SessionInLock(c, y, v) {
      if v in x.sessions { assert SessionInLock(c, x, v); }
    }
  }

  lemma BeginKeepsInv(c: Lock.Config, x: World, w: Lock.Key)
    requires c.Safe() && Inv(c, x) && Enabled(c, x, Begin(w))
    ensures Inv(c, Do(c, x, Begin(w)))
  {
    var y := Do(c, x, Begin(w));
    assert y.sessions[w].Rest() == x.sessions[w].Rest();
    assert Active(x, w);
    forall v | v in y.sessions && Active(y, v) ensures SessionOk(y, y.sessions[v]) {
      if v != w {
        assert Active(x, v);
        OneActive(c, x, v, w);
      }
      assert SessionOk(x, x.sessions[w]);
    }
    forall id | id in y.pinned ensures PinKept(y, id) { assert PinKept(x, id); }
    forall v | v in y.sessions ensures SessionInLock(c, y, v) { assert SessionInLock(c, x, v); }
  }

  /** What a session that is in order has begun is harmless. */
  lemma FlightIsSafe(c: Lock.Config, x: World, w: Lock.Key)
    requires c.Safe() && Inv(c, x) && InFlight(x, w)
    ensures var op := x.sessions[w].flight.value;
            SafeOp(x, op) && (op.Put? && op.key.ManifestKey? ==> op.key.id !in x.written)
  {
    var s := x.sessions[w];
    assert SessionOk(x, s);
    assert s.Rest()[0] == s.flight.value;
    match s.job
    case Create(id, parent, objects, signed) =>
      CreateOpsAreOwn(id, parent, objects, signed);
    case Prune(_, _, _) =>
      assert SafeDelete(x.store, x.pinned, s.Rest(), 0);
    case Hold(_) =>
    case Unhold(_) =>
  }

  /** Once the manifest has landed, what it lists had landed before it. */
  lemma LastPutMakesWhole(x: World, job: Job, rest: seq<Op>)
    requires job.Create? && |rest| == 1 && CreateOk(x.store, job, rest)
    ensures Whole(Apply(x.store, rest[0]), job.id)
  {
    var ops := Program(job);
    CreateOpsAreOwn(job.id, job.parent, job.objects, job.signed);
    assert rest[0] == ops[|ops| - 1];
    var after := Apply(x.store, rest[0]);
    assert ParentsKept(x.store, after);
    if job.parent.Some? { ChainKept(x.store, after, job.parent.value); }
    forall i | 0 <= i < job.objects ensures ObjectKey(job.id, i) in after && after[ObjectKey(job.id, i)] == Blob {
      assert ops[i] == Put(ObjectKey(job.id, i), Blob);
    }
    assert ops[job.objects] == Put(CatalogKey(job.id), Blob);
    assert job.signed ==> ops[job.objects + 1] == Put(SignatureKey(job.id), Blob);
  }

  lemma CreateGoesOn(store: Store, job: Job, rest: seq<Op>)
    requires job.Create? && |rest| > 1 && CreateOk(store, job, rest)
    ensures CreateOk(Apply(store, rest[0]), job, rest[1..])
  {
    var ops := Program(job);
    CreateOpsAreOwn(job.id, job.parent, job.objects, job.signed);
    var n := |ops| - |rest|;
    assert forall i | 0 <= i < |rest| :: rest[i] == ops[n + i];
    var after := Apply(store, rest[0]);
    assert ParentsKept(store, after);
    if job.parent.Some? { ChainKept(store, after, job.parent.value); }
    forall i | 0 <= i <= n ensures ops[i].key in after && after[ops[i].key] == ops[i].value {
      assert i < n ==> ops[i].key != ops[n].key;
    }
    forall i | 0 <= i < |rest[1..]| ensures rest[1..][i].key !in after {
      assert rest[1..][i] == rest[i + 1] == ops[n + i + 1] && ops[n].key != ops[n + i + 1].key;
    }
  }

  lemma DeletesGoOn(store: Store, pinned: map<Id, Store>, rest: seq<Op>)
    requires rest != [] && SafeDeletes(store, pinned, rest)
    ensures SafeDeletes(Apply(store, rest[0]), pinned, rest[1..])
  {
    var after, more := Apply(store, rest[0]), rest[1..];
    assert SafeDelete(store, pinned, rest, 0);
    forall i | 0 <= i < |more| ensures SafeDelete(after, pinned, more, i) {
      assert SafeDelete(store, pinned, rest, i + 1);
      assert rest[..i + 1] == [rest[0]] + more[..i];
    }
  }

  lemma LandKeepsSession(c: Lock.Config, x: World, w: Lock.Key)
    requires c.Safe() && Inv(c, x) && InFlight(x, w)
    ensures SessionOk(Do(c, x, Land(w)), Do(c, x, Land(w)).sessions[w])
  {
    var s := x.sessions[w];
    var y := Do(c, x, Land(w));
    assert SessionOk(x, s);
    assert s.Rest()[0] == s.flight.value && s.Rest()[1..] == s.todo == y.sessions[w].Rest();
    match s.job
    case Create(id, parent, objects, signed) =>
      if s.todo != [] {
        CreateGoesOn(x.store, s.job, s.Rest());
        CreateOpsAreOwn(id, parent, objects, signed);
      }
    case Prune(_, _, _) => DeletesGoOn(x.store, x.pinned, s.Rest());
    case Hold(_) =>
    case Unhold(_) =>
  }

  lemma SafeDeletesDelete(x: World, s: Session)
    requires s.flight.Some? && SafeDeletes(x.store, x.pinned, s.Rest())
    ensures s.flight.value.Del?
  {
    assert SafeDelete(x.store, x.pinned, s.Rest(), 0);
  }

  /** Only the last put of a create puts a manifest. */
  lemma ManifestGoesLast(c: Lock.Config, x: World, w: Lock.Key)
    requires c.Safe() && Inv(c, x) && InFlight(x, w)
    requires x.sessions[w].flight.value.Put? && x.sessions[w].flight.value.key.ManifestKey?
    ensures x.sessions[w].job.Create? && x.sessions[w].flight.value.key.id == x.sessions[w].job.id
    ensures |x.sessions[w].Rest()| == 1 && CreateOk(x.store, x.sessions[w].job, x.sessions[w].Rest())
    ensures x.sessions[w].job.id in x.used
  {
    var s := x.sessions[w];
    assert SessionOk(x, s);
    assert s.Rest()[0] == s.flight.value;
    match s.job
    case Create(id, parent, objects, signed) =>
      CreateOpsAreOwn(id, parent, objects, signed);
      assert s.Rest()[0] == Program(s.job)[|Program(s.job)| - |s.Rest()|];
    case Prune(_, _, _) =>
      SafeDeletesDelete(x, s);
      assert false;
    case Hold(_) =>
    case Unhold(_) =>
  }

  /** After a put or delete has landed, in full: what is stored is still in order. */
  lemma LandedKeepsStore(c: Lock.Config, x: World, w: Lock.Key, y: World)
    requires c.Safe() && Inv(c, x) && InFlight(x, w)
    requires var op := x.sessions[w].flight.value;
             y.store == Apply(x.store, op) && y.written == Recorded(x.written, op) && y.pinned == x.pinned
               && y.used == x.used
    ensures StoreOk(y)
  {
    var s := x.sessions[w];
    FlightIsSafe(c, x, w);
    var z := x.(store := y.store);
    SafeOpKeepsStore(x, s.flight.value, z);
    if s.flight.value.Put? && s.flight.value.key.ManifestKey? {
      ManifestGoesLast(c, x, w);
      LastPutMakesWhole(x, s.job, s.Rest());
      assert s.Rest()[0] == s.flight.value;
    }
    forall id | id in y.pinned ensures PinKept(y, id) {
      assert PinKept(z, id);
    }
  }

  lemma LandKeepsStore(c: Lock.Config, x: World, w: Lock.Key)
    requires c.Safe() && Inv(c, x) && InFlight(x, w)
    ensures StoreOk(Do(c, x, Land(w)))
  {
    var s := x.sessions[w];
    var y := Do(c, x, Land(w));
    var z := y.(pinned := x.pinned);
    LandedKeepsStore(c, x, w, z);
    if s.job.Hold? {
      assert SessionOk(x, s) && s.Rest()[0] == s.flight.value;
    }
    forall id | id in y.pinned ensures PinKept(y, id) {
      if !(s.job.Hold? && id == s.job.id) { assert PinKept(z, id); }
    }
  }

  lemma FailKeepsStore(c: Lock.Config, x: World, w: Lock.Key, landed: bool, part: bool, later: bool)
    requires c.Safe() && Inv(c, x) && Enabled(c, x, Fail(w, landed, part, later))
    ensures StoreOk(Do(c, x, Fail(w, landed, part, later)))
  {
    var y := Do(c, x, Fail(w, landed, part, later));
    var op := x.sessions[w].flight.value;
    if landed {
      LandedKeepsStore(c, x, w, y);
    } else if part && op.Put? {
      FlightIsSafe(c, x, w);
      SafeOpKeepsStore(x, Remains(op), y);
    } else {
      forall id | id in y.pinned ensures PinKept(y, id) { assert PinKept(x, id); }
    }
  }

  lemma EndOfOpKeepsInv(c: Lock.Config, x: World, step: Step)
    requires c.Safe() && Inv(c, x) && Enabled(c, x, step) && (step.Land? || step.Fail?)
    ensures Inv(c, Do(c, x, step))
  {
    var w := step.w;
    var y := Do(c, x, step);
    if step.Land? {
      LandKeepsStore(c, x, w);
      LandKeepsSession(c, x, w);
    } else {
      FailKeepsStore(c, x, w, step.landed, step.part, step.later);
    }
    forall v | v in y.sessions && Active(y, v) ensures SessionOk(y, y.sessions[v]) {
      if v != w {
        assert Active(x, v) && Active(x, w);
        OneActive(c, x, v, w);
      }
    }
    forall v | v in y.sessions ensures SessionInLock(c, y, v) { assert SessionInLock(c, x, v); }
  }

  lemma StepKeepsInv(c: Lock.Config, x: World, step: Step)
    requires c.Safe() && Inv(c, x) && Enabled(c, x, step)
    ensures Inv(c, Do(c, x, step))
  {
    match step
    case LockStep(l) => LockStepKeepsInv(c, x, l);
    case Decide(w, job) => DecideKeepsInv(c, x, w, job);
    case Begin(w) => BeginKeepsInv(c, x, w);
    case Land(_) => EndOfOpKeepsInv(c, x, step);
    case Fail(_, _, _, _) => EndOfOpKeepsInv(c, x, step);
    case LandLate(_) =>
  }

  lemma {:induction false} RunKeepsInv(c: Lock.Config, x: World, steps: seq<Step>)
    requires c.Safe() && Inv(c, x) && IsRun(c, x, steps)
    ensures Inv(c, End(c, x, steps))
    decreases |steps|
  {
    if steps != [] {
      StepKeepsInv(c, x, steps[0]);
      RunKeepsInv(c, Do(c, x, steps[0]), steps[1..]);
    }
  }

  /** What is under way while a writer holds the lock is that writer's. */
  lemma FlightIsOfTheHolder(c: Lock.Config, x: World, v: Lock.Key, w: Lock.Key)
    requires c.Safe() && Inv(c, x) && InFlight(x, v) && Lock.Holding(x.lock, w)
    ensures v == w
  {
    assert SessionInLock(c, x, v) && Lock.PairOk(c, x.lock, v, w);
  }

  /** While a writer holds the lock and has begun nothing, nobody changes the store. */
  lemma NobodyElse(c: Lock.Config, x: World, step: Step, w: Lock.Key)
    requires c.Safe() && Inv(c, x) && Enabled(c, x, step) && Lock.Holding(x.lock, w) && w !in x.sessions
    ensures Do(c, x, step).store == x.store
  {
    if step.Land? || step.Fail? { FlightIsOfTheHolder(c, x, step.w, w); }
  }

  /**
   So what a writer lists and reads one after the other, from its acquiring the lock to its decision,
   is of one store: the decision may be taken as one step.
   */
  lemma {:induction false} ReadsAreOfOneStore(c: Lock.Config, x: World, steps: seq<Step>, w: Lock.Key)
    requires c.Safe() && Inv(c, x) && IsRun(c, x, steps) && w in x.lock.writers
    requires var phase := x.lock.writers[w].phase; phase.Acquired? || phase.Releasing? || phase.Gone?
    requires Lock.Holding(End(c, x, steps).lock, w) && w !in End(c, x, steps).sessions
    ensures End(c, x, steps).store == x.store && Lock.Holding(x.lock, w) && w !in x.sessions
    decreases |steps|
  {
    if steps != [] {
      var y := Do(c, x, steps[0]);
      StepKeepsInv(c, x, steps[0]);
      if steps[0].LockStep? { Lock.AfterAcquiring(c, x.lock, steps[0].step, w); }
      ReadsAreOfOneStore(c, y, steps[1..], w);
      NobodyElse(c, x, steps[0], w);
    }
  }

  // ----- what a repository promises

  /** In every run, every backup a create wrote and that still stands can be restored from here. */
  lemma StandingIsWhole(c: Lock.Config, x: World, steps: seq<Step>, id: Id)
    requires c.Safe() && Initial(x) && IsRun(c, x, steps)
    requires id in End(c, x, steps).written && ManifestKey(id) in End(c, x, steps).store
    ensures Whole(End(c, x, steps).store, id)
    ensures var store := End(c, x, steps).store;
            && Chain(store, id) && CatalogKey(id) in store && store[CatalogKey(id)] == Blob
            && (forall i | 0 <= i < store[ManifestKey(id)].objects ::
                  ObjectKey(id, i) in store && store[ObjectKey(id, i)] == Blob)
            && (store[ManifestKey(id)].signed ==> SignatureKey(id) in store && store[SignatureKey(id)] == Blob)
  {
    RunKeepsInv(c, x, steps);
  }

  /** No step of the run begins to lift the hold of this backup. */
  ghost predicate NoUnhold(c: Lock.Config, x: World, steps: seq<Step>, id: Id)
    requires IsRun(c, x, steps)
    decreases |steps|
  {
    steps == [] ||
    (!(steps[0].Begin? && x.sessions[steps[0].w].job == Unhold(id)) && NoUnhold(c, Do(c, x, steps[0]), steps[1..], id))
  }

  predicate Keeps(store: Store, had: Store) {
    forall k | k in had :: k in store && (k.HoldKey? || store[k] == had[k])
  }

  lemma HoldAgainKeeps(c: Lock.Config, x: World, w: Lock.Key, id: Id, had: Store)
    requires Inv(c, x) && InFlight(x, w) && x.sessions[w].job == Hold(id)
    requires id in x.pinned && Keeps(x.pinned[id], had) && (forall k | k in had :: k.id == id)
    ensures Keeps(OwnKeys(Apply(x.store, x.sessions[w].flight.value), id), had)
  {
    var s := x.sessions[w];
    assert SessionOk(x, s) && s.Rest()[0] == s.flight.value;
    assert PinKept(x, id);
  }

  lemma PinOutlivesStep(c: Lock.Config, x: World, step: Step, id: Id, had: Store)
    requires c.Safe() && Inv(c, x) && Enabled(c, x, step)
    requires !(step.Begin? && x.sessions[step.w].job == Unhold(id))
    requires id in x.pinned && Keeps(x.pinned[id], had) && (forall k | k in had :: k.id == id)
    ensures id in Do(c, x, step).pinned && Keeps(Do(c, x, step).pinned[id], had)
  {
    assert PinKept(x, id);
    if step.Land? && x.sessions[step.w].job == Hold(id) {
      HoldAgainKeeps(c, x, step.w, id, had);
    }
  }

  lemma {:induction false} PinOutlivesRun(c: Lock.Config, x: World, steps: seq<Step>, id: Id, had: Store)
    requires c.Safe() && Inv(c, x) && IsRun(c, x, steps) && NoUnhold(c, x, steps, id)
    requires id in x.pinned && Keeps(x.pinned[id], had) && (forall k | k in had :: k.id == id)
    ensures Keeps(End(c, x, steps).store, had)
    decreases |steps|
  {
    if steps != [] {
      StepKeepsInv(c, x, steps[0]);
      PinOutlivesStep(c, x, steps[0], id, had);
      PinOutlivesRun(c, Do(c, x, steps[0]), steps[1..], id, had);
    } else {
      assert PinKept(x, id);
    }
  }

  /**
   From the moment a hold resolved until an unhold begins, in every run and whatever the others
   do, nothing the backup had is deleted or changed.
   */
  lemma HeldIsKept(c: Lock.Config, x: World, steps: seq<Step>, w: Lock.Key, more: seq<Step>, id: Id)
    requires c.Safe() && Initial(x) && IsRun(c, x, steps) && InFlight(End(c, x, steps), w)
    requires End(c, x, steps).sessions[w].job == Hold(id)
    requires IsRun(c, Do(c, End(c, x, steps), Land(w)), more) && NoUnhold(c, Do(c, End(c, x, steps), Land(w)), more, id)
    ensures Keeps(End(c, Do(c, End(c, x, steps), Land(w)), more).store,
            OwnKeys(Do(c, End(c, x, steps), Land(w)).store, id))
  {
    RunKeepsInv(c, x, steps);
    var y := Do(c, End(c, x, steps), Land(w));
    StepKeepsInv(c, End(c, x, steps), Land(w));
    PinOutlivesRun(c, y, more, id, OwnKeys(y.store, id));
  }

  /**
   Whatever step is taken, in any run: no manifest that stays, an unreadable one included, loses
   the one it builds on. So a prune stopped after any of its deletes leaves no orphan.
   */
  lemma NoOrphanIsMade(c: Lock.Config, x: World, steps: seq<Step>, step: Step)
    requires c.Safe() && Initial(x) && IsRun(c, x, steps) && Enabled(c, End(c, x, steps), step)
    ensures ParentsKept(End(c, x, steps).store, Do(c, End(c, x, steps), step).store)
    ensures var before, after := End(c, x, steps).store, Do(c, End(c, x, steps), step).store;
            forall id, parent | ManifestKey(id) in before && ManifestKey(id) in after && ManifestKey(parent) in before
                                && Names(before[ManifestKey(id)], parent) :: ManifestKey(parent) in after
  {
    RunKeepsInv(c, x, steps);
    if step.Land? || step.Fail? {
      FlightIsSafe(c, End(c, x, steps), step.w);
    }
  }

  // ----- that a reported failure is final is needed, and so is the lock

  function Lifted(steps: seq<Lock.Step>): seq<Step> {
    seq(|steps|, i requires 0 <= i < |steps| => LockStep(steps[i]))
  }

  lemma {:induction false} Lift(c: Lock.Config, x: World, steps: seq<Lock.Step>)
    requires Lock.IsRun(c, x.lock, steps) && forall w | w in x.sessions :: x.sessions[w].flight.None?
    ensures IsRun(c, x, Lifted(steps)) && End(c, x, Lifted(steps)) == x.(lock := Lock.End(c, x.lock, steps))
    decreases |steps|
  {
    if steps != [] {
      var y := Do(c, x, LockStep(steps[0]));
      Lift(c, y, steps[1..]);
      assert Lifted(steps)[1..] == Lifted(steps[1..]);
    }
  }

  lemma {:induction false} EndOfConcat(c: Lock.Config, x: World, first: seq<Step>, second: seq<Step>)
    requires IsRun(c, x, first) && IsRun(c, End(c, x, first), second)
    ensures IsRun(c, x, first + second)
    ensures End(c, x, first + second) == End(c, End(c, x, first), second)
    decreases |first|
  {
    if first == [] {
      assert first + second == second;
    } else {
      EndOfConcat(c, Do(c, x, first[0]), first[1..], second);
      assert (first + second)[1..] == first[1..] + second;
    }
  }

  lemma Extend(c: Lock.Config, x: World, steps: seq<Step>, step: Step) returns (longer: seq<Step>, y: World)
    requires IsRun(c, x, steps) && Enabled(c, End(c, x, steps), step)
    ensures longer == steps + [step] && IsRun(c, x, longer) && y == End(c, x, longer) == Do(c, End(c, x, steps), step)
  {
    longer := steps + [step];
    y := Do(c, End(c, x, steps), step);
    assert IsRun(c, End(c, x, steps), [step]) && End(c, End(c, x, steps), [step]) == y by {
      assert IsRun(c, y, []) && [step][1..] == [];
    }
    EndOfConcat(c, x, steps, [step]);
  }

  lemma ExtendLock(c: Lock.Config, x: World, steps: seq<Step>, l: seq<Lock.Step>) returns (longer: seq<Step>, y: World)
    requires IsRun(c, x, steps) && Lock.IsRun(c, End(c, x, steps).lock, l)
    requires forall w | w in End(c, x, steps).sessions :: End(c, x, steps).sessions[w].flight.None?
    ensures IsRun(c, x, longer) && y == End(c, x, longer)
    ensures y == End(c, x, steps).(lock := Lock.End(c, End(c, x, steps).lock, l))
  {
    Lift(c, End(c, x, steps), l);
    EndOfConcat(c, x, steps, Lifted(l));
    longer, y := steps + Lifted(l), End(c, x, steps + Lifted(l));
  }

  const FIRST: Lock.Key := Lock.Own(0)
  const SECOND: Lock.Key := Lock.Own(1)

  /** A repository with one full backup in it, and nobody there. */
  const START: World := World(Lock.START, map[ManifestKey(1) := Manifest(None, 0, false)], map[], {}, {}, map[])

  const REMOVE: Op := Del(ManifestKey(1))

  /** A prune that goes by the whole of it. */
  const PRUNE: Job := Job.Prune([ManifestKey(1)], [1], [])

  /** The second writer holds the lock, and the first's delete of the backup's manifest can still come. */
  ghost predicate Poised(c: Lock.Config, y: World) {
    && Lock.Holding(y.lock, SECOND) && SECOND !in y.sessions && y == START.(lock := y.lock, sessions := y.sessions)
    && FIRST in y.sessions && MayStrike(c, y)
  }

  /** Late, or, when both hold the lock, still to be begun. */
  ghost predicate MayStrike(c: Lock.Config, y: World) {
    && FIRST in y.sessions && FIRST in y.lock.writers && y.sessions[FIRST].job == PRUNE
      && y.sessions[FIRST].flight.None?
    && ((y.sessions[FIRST].late == Some(REMOVE) && y.lock.time <= y.lock.writers[FIRST].lease.deadline + c.Slack())
        || (y.sessions[FIRST].todo == [REMOVE] && Lock.Holding(y.lock, FIRST)))
  }

  lemma PruneProgram()
    ensures Program(PRUNE) == [REMOVE]
  {
    assert KeysOf([ManifestKey(1)], 1) == [ManifestKey(1)];
    assert RemoveOps([ManifestKey(1)], 1) == [REMOVE];
    assert [1] + [] == [1] && PruneOps([ManifestKey(1)], [1]) == [REMOVE];
  }

  /** Whatever was done in between, the delete can come next: begun first, if it has yet to be. */
  lemma Strikes(c: Lock.Config, z: World) returns (before: seq<Step>, step: Step)
    requires MayStrike(c, z)
    ensures (before == [] || before == [Begin(FIRST)]) && (step == Land(FIRST) || step == LandLate(FIRST))
            && IsRun(c, z, before)
    ensures var y := End(c, z, before);
            && y.store == z.store && y.written == z.written && Enabled(c, y, step)
            && Do(c, y, step).store == z.store - {ManifestKey(1)} && Do(c, y, step).written == z.written
  {
    if z.sessions[FIRST].late == Some(REMOVE) && z.lock.time <= z.lock.writers[FIRST].lease.deadline + c.Slack() {
      before, step := [], LandLate(FIRST);
    } else {
      before, step := [Begin(FIRST)], Land(FIRST);
      assert [Begin(FIRST)][1..] == [];
    }
  }

  /** The first writer decides on the prune. */
  lemma DecidesPrune(c: Lock.Config, steps: seq<Step>) returns (longer: seq<Step>, y: World)
    requires IsRun(c, START, steps) && Lock.Holding(End(c, START, steps).lock, FIRST)
    requires End(c, START, steps) == START.(lock := End(c, START, steps).lock)
    ensures IsRun(c, START, longer) && y == End(c, START, longer)
    ensures y == End(c, START, steps).(sessions := map[FIRST := Session(PRUNE, None, [REMOVE], None, false)])
  {
    PruneProgram();
    longer, y := Extend(c, START, steps, Decide(FIRST, PRUNE));
  }

  lemma HoldsToPrune(c: Lock.Config) returns (steps: seq<Step>, y: World)
    requires c.Valid()
    ensures IsRun(c, START, steps) && y == End(c, START, steps)
    ensures var holder := Lock.Writer(c.lease, Lock.Lease(c.lease, false), Lock.Acquired(Lock.Idle));
            y == START.(lock := Lock.State(0.0, map[FIRST := Lock.Record(c.lease)], map[FIRST := holder], {}),
                        sessions := map[FIRST := Session(PRUNE, None, [REMOVE], None, false)])
  {
    var l, s := Lock.HoldsAlone(c, FIRST);
    steps, y := ExtendLock(c, START, [], l);
    steps, y := DecidesPrune(c, steps);
  }

  /** Its delete is reported failed. */
  lemma FailsToDelete(c: Lock.Config) returns (steps: seq<Step>, y: World)
    requires c.Valid() && !c.final
    ensures IsRun(c, START, steps) && y == End(c, START, steps)
    ensures var holder := Lock.Writer(c.lease, Lock.Lease(c.lease, false), Lock.Acquired(Lock.Idle));
            y == START.(lock := Lock.State(0.0, map[FIRST := Lock.Record(c.lease)], map[FIRST := holder], {}),
                        sessions := map[FIRST := Session(PRUNE, None, [], Some(REMOVE), true)])
  {
    steps, y := HoldsToPrune(c);
    steps, y := Extend(c, START, steps, Begin(FIRST));
    steps, y := Extend(c, START, steps, Fail(FIRST, false, false, true));
  }

  /** It lets go of the lock, as a prune that threw does. */
  lemma FailsAndReleases(c: Lock.Config) returns (steps: seq<Step>, y: World)
    requires c.Valid() && !c.final
    ensures IsRun(c, START, steps) && y == End(c, START, steps)
    ensures var gone := Lock.Writer(c.lease, Lock.Lease(c.lease, false), Lock.Gone);
            y == START.(lock := Lock.State(0.0, map[], map[FIRST := gone], {}),
                        sessions := map[FIRST := Session(PRUNE, None, [], Some(REMOVE), true)])
  {
    steps, y := FailsToDelete(c);
    steps, y := Extend(c, START, steps, LockStep(Lock.By(FIRST, Lock.Release)));
    steps, y := Extend(c, START, steps, LockStep(Lock.By(FIRST, Lock.RemoveOwn(true))));
    assert y.lock.files == map[];
  }

  lemma PoisedLate(c: Lock.Config) returns (steps: seq<Step>)
    requires c.Valid() && !c.final && c.Slack() >= 0.0
    ensures IsRun(c, START, steps) && Poised(c, End(c, START, steps))
  {
    var y: World;
    steps, y := FailsAndReleases(c);
    var l, s := Lock.PutsItsLock(c, y.lock, [], SECOND, 0.0, 0.0, 0.0);
    l, s := Lock.TakesTheLock(c, y.lock, l, SECOND, {});
    steps, y := ExtendLock(c, START, steps, l);
  }

  lemma PoisedTwice(c: Lock.Config) returns (steps: seq<Step>)
    requires c.Valid() && c.Slack() < 0.0
    ensures IsRun(c, START, steps) && Poised(c, End(c, START, steps))
  {
    var l := Lock.TwoHolders(c);
    var y: World;
    steps, y := ExtendLock(c, START, [], l);
    steps, y := DecidesPrune(c, steps);
  }

  lemma BecomesPoised(c: Lock.Config) returns (steps: seq<Step>)
    requires c.Valid() && !c.Safe()
    ensures IsRun(c, START, steps) && Poised(c, End(c, START, steps))
  {
    if c.Slack() < 0.0 { steps := PoisedTwice(c); } else { steps := PoisedLate(c); }
  }

  const BUILD: Job := Create(2, Some(1), 0, false)

  /** The second writer builds a backup on the one in the repository, and it is there. */
  lemma Builds(c: Lock.Config, steps: seq<Step>) returns (longer: seq<Step>, y: World)
    requires IsRun(c, START, steps) && Poised(c, End(c, START, steps))
    ensures IsRun(c, START, longer) && y == End(c, START, longer) && MayStrike(c, y)
    ensures y.written == {2}
    ensures y.store == START.store[CatalogKey(2) := Blob][ManifestKey(2) := Manifest(Some(1), 0, false)]
  {
    var z := End(c, START, steps);
    assert Chain(z.store, 1);
    var catalog, manifest := Put(CatalogKey(2), Blob), Put(ManifestKey(2), Manifest(Some(1), 0, false));
    assert Program(BUILD) == [catalog, manifest];
    longer, y := Extend(c, START, steps, Decide(SECOND, BUILD));
    longer, y := Extend(c, START, longer, Begin(SECOND));
    longer, y := Extend(c, START, longer, Land(SECOND));
    longer, y := Extend(c, START, longer, Begin(SECOND));
    longer, y := Extend(c, START, longer, Land(SECOND));
  }

  /** A step of a run that takes a standing manifest's parent, and leaves a backup written that cannot be restored. */
  lemma Orphans(c: Lock.Config) returns (steps: seq<Step>, step: Step)
    requires c.Valid() && !c.Safe()
    ensures IsRun(c, START, steps) && Enabled(c, End(c, START, steps), step)
    ensures var y := Do(c, End(c, START, steps), step);
            !ParentsKept(End(c, START, steps).store, y.store) && 2 in y.written && ManifestKey(2) in y.store
              && !Whole(y.store, 2)
  {
    var poised := BecomesPoised(c);
    var built, z := Builds(c, poised);
    var before;
    before, step := Strikes(c, z);
    steps := built + before;
    EndOfConcat(c, START, built, before);
    var t := Do(c, End(c, START, steps), step);
    assert ManifestKey(2) in z.store && ManifestKey(2) in t.store && ManifestKey(1) in z.store
      && ManifestKey(1) !in t.store;
    assert !Chain(t.store, 1);
  }

  /** In every run, every backup written and standing is whole. */
  ghost predicate AlwaysWhole(c: Lock.Config) {
    forall x, steps, id ::
      Initial(x) && IsRun(c, x, steps)
      && id in End(c, x, steps).written && ManifestKey(id) in End(c, x, steps).store ==>
      Whole(End(c, x, steps).store, id)
  }

  /** No step of any run takes the parent of a standing manifest. */
  ghost predicate NeverOrphans(c: Lock.Config) {
    forall x, steps, step :: Initial(x) && IsRun(c, x, steps) && Enabled(c, End(c, x, steps), step) ==>
      ParentsKept(End(c, x, steps).store, Do(c, End(c, x, steps), step).store)
  }

  /** Both hold exactly when failures are final and the clocks take at most one lease. */
  lemma WholeExactly(c: Lock.Config)
    requires c.Valid()
    ensures AlwaysWhole(c) <==> c.Safe()
    ensures NeverOrphans(c) <==> c.Safe()
  {
    if c.Safe() {
      forall x, steps, id | Initial(x) && IsRun(c, x, steps) && id in End(c, x, steps).written
        && ManifestKey(id) in End(c, x, steps).store
        ensures Whole(End(c, x, steps).store, id)
      {
        StandingIsWhole(c, x, steps, id);
      }
      forall x, steps, step | Initial(x) && IsRun(c, x, steps) && Enabled(c, End(c, x, steps), step)
        ensures ParentsKept(End(c, x, steps).store, Do(c, End(c, x, steps), step).store)
      {
        NoOrphanIsMade(c, x, steps, step);
      }
    } else {
      var steps, step := Orphans(c);
      var longer, y := Extend(c, START, steps, step);
      assert Initial(START);
    }
  }

  /** A hold that resolves, and what is done after it, without an unhold. */
  ghost predicate HeldRun(c: Lock.Config, x: World, steps: seq<Step>, w: Lock.Key, more: seq<Step>, id: Id) {
    && Initial(x) && IsRun(c, x, steps) && InFlight(End(c, x, steps), w) && End(c, x, steps).sessions[w].job == Hold(id)
    && IsRun(c, Do(c, End(c, x, steps), Land(w)), more) && NoUnhold(c, Do(c, End(c, x, steps), Land(w)), more, id)
  }

  ghost predicate AlwaysHeld(c: Lock.Config) {
    forall x, steps, w, more, id :: HeldRun(c, x, steps, w, more, id) ==>
      Keeps(End(c, Do(c, End(c, x, steps), Land(w)), more).store, OwnKeys(Do(c, End(c, x, steps), Land(w)).store, id))
  }

  /** The second writer holds the backup; what it had is taken all the same. */
  lemma TakesTheHeld(c: Lock.Config) returns (steps: seq<Step>, more: seq<Step>)
    requires c.Valid() && !c.Safe()
    ensures HeldRun(c, START, steps, SECOND, more, 1)
    ensures var y := Do(c, End(c, START, steps), Land(SECOND)); !Keeps(End(c, y, more).store, OwnKeys(y.store, 1))
  {
    steps := BecomesPoised(c);
    var z: World;
    steps, z := Extend(c, START, steps, Decide(SECOND, Hold(1)));
    steps, z := Extend(c, START, steps, Begin(SECOND));
    var y := Do(c, z, Land(SECOND));
    var before, step := Strikes(c, y);
    var t: World;
    more, t := Extend(c, y, before, step);
    assert ManifestKey(1) in OwnKeys(y.store, 1) && ManifestKey(1) !in t.store;
    NothingUnheld(c, y, before, step);
  }

  lemma NothingUnheld(c: Lock.Config, y: World, before: seq<Step>, step: Step)
    requires (before == [] || before == [Begin(FIRST)]) && IsRun(c, y, before) && IsRun(c, y, before + [step])
    requires FIRST in y.sessions && y.sessions[FIRST].job == PRUNE && !step.Begin?
    ensures NoUnhold(c, y, before + [step], 1)
  {
    assert [step][1..] == [];
    if before != [] { assert (before + [step])[1..] == [step]; }
  }

  /** Nor is what is held kept without either. */
  lemma HeldExactly(c: Lock.Config)
    requires c.Valid()
    ensures AlwaysHeld(c) <==> c.Safe()
  {
    if c.Safe() {
      forall x, steps, w, more, id | HeldRun(c, x, steps, w, more, id)
        ensures Keeps(End(c, Do(c, End(c, x, steps), Land(w)), more).store,
                OwnKeys(Do(c, End(c, x, steps), Land(w)).store, id))
      {
        HeldIsKept(c, x, steps, w, more, id);
      }
    } else {
      var steps, more := TakesTheHeld(c);
    }
  }
}
