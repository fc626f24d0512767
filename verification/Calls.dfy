/**
 What each call on a repository is for, and that it does that and nothing else.
 */
module Calls {
  // create.ts, prune.ts and holds.ts under packages/backup/src, on the state machine of `Repository`.
  // That module says what no call may ever do; here is what a call that failed nowhere has done.

  import Lock
  import opened Repository
  import opened Wrappers

  /** What the store shows once a call is over. */
  predicate Achieved(x: World, job: Job) {
    match job
    case Create(id, parent, objects, signed) =>
      && id in x.written && Whole(x.store, id)
      && x.store[ManifestKey(id)] == Manifest(parent, objects, signed)
    case Prune(_, removed, incomplete) =>
      forall k | k in x.store && (k.id in removed || k.id in incomplete) :: k.HoldKey?
    case Hold(id) => HoldKey(id) in x.store
    case Unhold(id) => HoldKey(id) !in x.store
  }

  /** The keys a call is about. */
  predicate Concerns(job: Job, k: Key) {
    match job
    case Create(id, _, _, _) => k.id == id && !k.HoldKey?
    case Prune(_, removed, incomplete) => (k.id in removed || k.id in incomplete) && !k.HoldKey?
    case Hold(id) => k == HoldKey(id)
    case Unhold(id) => k == HoldKey(id)
  }

  /** Nothing under way, nothing left, and nothing failed. */
  predicate Over(s: Session) {
    s.flight.None? && s.todo == [] && !s.failed
  }

  // ----- what a call has done so far

  /** A session on its way: what is not done yet is still to come. */
  predicate OnItsWay(x: World, s: Session) {
    match s.job
    case Prune(_, removed, incomplete) =>
      forall k | k in x.store && (k.id in removed || k.id in incomplete) && !k.HoldKey? :: Del(k) in s.Rest()
    case _ => s.Rest() == [] ==> Achieved(x, s.job)
  }

  ghost predicate AllOnTheirWay(x: World) {
    forall w | w in x.sessions && Active(x, w) && !x.sessions[w].failed :: OnItsWay(x, x.sessions[w])
  }

  lemma DecidedIsOnItsWay(c: Lock.Config, x: World, w: Lock.Key, job: Job)
    requires Enabled(c, x, Decide(w, job))
    ensures OnItsWay(Do(c, x, Decide(w, job)), Do(c, x, Decide(w, job)).sessions[w])
  {
    if job.Prune? {
      forall k | k in x.store && (k.id in job.removed || k.id in job.incomplete) && !k.HoldKey?
        ensures Del(k) in Program(job)
      {
        PrunesAre(job.listing, job.removed + job.incomplete, Del(k));
      }
    }
  }

  lemma LastPutIsTheManifest(x: World, job: Job, rest: seq<Op>)
    requires job.Create? && |rest| == 1 && CreateOk(x.store, job, rest)
    ensures rest[0] == Put(ManifestKey(job.id), Manifest(job.parent, job.objects, job.signed))
    ensures Whole(Apply(x.store, rest[0]), job.id)
  {
    LastPutMakesWhole(x, job, rest);
    CreateOpsAreOwn(job.id, job.parent, job.objects, job.signed);
    assert rest[0] == Program(job)[|Program(job)| - 1];
  }

  /** What has landed is done: by then the last put has made the backup, the last delete lifted the hold. */
  lemma LandedIsOnItsWay(c: Lock.Config, x: World, w: Lock.Key)
    requires c.Safe() && Inv(c, x) && InFlight(x, w) && OnItsWay(x, x.sessions[w])
    ensures OnItsWay(Do(c, x, Land(w)), Do(c, x, Land(w)).sessions[w])
  {
    var s, y := x.sessions[w], Do(c, x, Land(w));
    assert SessionOk(x, s);
    assert s.Rest() == [s.flight.value] + s.todo && y.sessions[w].Rest() == s.todo;
    match s.job
    case Create(_, _, _, _) =>
      if s.todo == [] {
        LastPutIsTheManifest(x, s.job, s.Rest());
        assert s.flight.value == s.Rest()[0];
        assert Achieved(y, s.job);
      }
    case Prune(_, _, _) => assert SafeDelete(x.store, x.pinned, s.Rest(), 0);
    case Hold(_) => assert s.flight.value == Program(s.job)[0];
    case Unhold(_) => assert s.flight.value == Program(s.job)[0];
  }

  lemma StepKeepsOnTheWay(c: Lock.Config, x: World, step: Step)
    requires c.Safe() && Inv(c, x) && Enabled(c, x, step) && AllOnTheirWay(x)
    ensures AllOnTheirWay(Do(c, x, step))
  {
    var y := Do(c, x, step);
    forall w | w in y.sessions && Active(y, w) && !y.sessions[w].failed ensures OnItsWay(y, y.sessions[w]) {
      match step
      case LockStep(l) => LockStepKeepsActive(c, x, l, w);
      case Decide(v, job) =>
        if v == w { DecidedIsOnItsWay(c, x, v, job); }
      case Begin(v) =>
        assert v == w ==> y.sessions[w].Rest() == x.sessions[w].Rest();
      case Land(v) =>
        if v == w { LandedIsOnItsWay(c, x, w); } else { OneActive(c, x, v, w); }
      case Fail(v, _, _, _) =>
        if v != w { OneActive(c, x, v, w); }
      case LandLate(_) =>
    }
  }

  lemma {:induction false} RunKeepsOnTheWay(c: Lock.Config, x: World, steps: seq<Step>)
    requires c.Safe() && Inv(c, x) && IsRun(c, x, steps) && AllOnTheirWay(x)
    ensures Inv(c, End(c, x, steps)) && AllOnTheirWay(End(c, x, steps))
    decreases |steps|
  {
    if steps != [] {
      StepKeepsInv(c, x, steps[0]);
      StepKeepsOnTheWay(c, x, steps[0]);
      RunKeepsOnTheWay(c, Do(c, x, steps[0]), steps[1..]);
    }
  }

  /**
   In every run: as a call's last operation lands, or it decides that there is nothing to do, and for
   as long after that as it holds the lock, the store shows what the call is for, unless it failed.
   */
  lemma DoesItsWork(c: Lock.Config, x: World, steps: seq<Step>, step: Step, w: Lock.Key)
    requires c.Safe() && Initial(x) && IsRun(c, x, steps) && Enabled(c, End(c, x, steps), step)
    requires var y := Do(c, End(c, x, steps), step);
             && w in y.sessions && Over(y.sessions[w])
             && (step == Land(w) || (step.Decide? && step.w == w) || Lock.Holding(y.lock, w))
    ensures var y := Do(c, End(c, x, steps), step); Achieved(y, y.sessions[w].job)
  {
    RunKeepsOnTheWay(c, x, steps);
    var z := End(c, x, steps);
    var y := Do(c, z, step);
    StepKeepsOnTheWay(c, z, step);
    if step == Land(w) { LandedIsOnItsWay(c, z, w); }
    if step.Decide? && step.w == w { DecidedIsOnItsWay(c, z, w, step.job); }
    assert OnItsWay(y, y.sessions[w]) && y.sessions[w].Rest() == [];
  }

  // ----- and nothing else

  ghost predicate Minds(s: Session) {
    && (forall op | op in s.Rest() :: Concerns(s.job, op.key))
    && (s.late.Some? ==> Concerns(s.job, s.late.value.key))
  }

  lemma ProgramMinds(job: Job)
    ensures forall op | op in Program(job) :: Concerns(job, op.key)
  {
    match job
    case Create(id, parent, objects, signed) => CreateOpsAreOwn(id, parent, objects, signed);
    case Prune(listing, removed, incomplete) =>
      forall op | op in Program(job) ensures Concerns(job, op.key) { PrunesAre(listing, removed + incomplete, op); }
    case _ =>
  }

  lemma StepMinds(c: Lock.Config, x: World, step: Step)
    requires Enabled(c, x, step) && forall w | w in x.sessions :: Minds(x.sessions[w])
    ensures forall w | w in Do(c, x, step).sessions :: Minds(Do(c, x, step).sessions[w])
  {
    var y := Do(c, x, step);
    forall w | w in y.sessions ensures Minds(y.sessions[w]) {
      if step.Decide? && step.w == w { ProgramMinds(step.job); } else { assert Minds(x.sessions[w]); }
      if step.Begin? && step.w == w { assert y.sessions[w].Rest() == x.sessions[w].Rest(); }
      if step.Fail? && step.w == w { assert x.sessions[w].Rest()[0] == x.sessions[w].flight.value; }
    }
  }

  lemma {:induction false} RunMinds(c: Lock.Config, x: World, steps: seq<Step>)
    requires IsRun(c, x, steps) && forall w | w in x.sessions :: Minds(x.sessions[w])
    ensures forall w | w in End(c, x, steps).sessions :: Minds(End(c, x, steps).sessions[w])
    decreases |steps|
  {
    if steps != [] {
      StepMinds(c, x, steps[0]);
      RunMinds(c, Do(c, x, steps[0]), steps[1..]);
    }
  }

  /** Whatever fails and whatever is assumed of the store: a key only changes by a call that is about it. */
  lemma ChangesNothingElse(c: Lock.Config, x: World, steps: seq<Step>, step: Step, k: Key)
    requires Initial(x) && IsRun(c, x, steps) && Enabled(c, End(c, x, steps), step)
    requires var z := End(c, x, steps);
             var y := Do(c, z, step);
             !(k in z.store <==> k in y.store) || (k in z.store && z.store[k] != y.store[k])
    ensures step.Land? || step.Fail? || step.LandLate?
    ensures step.w in End(c, x, steps).sessions && Concerns(End(c, x, steps).sessions[step.w].job, k)
  {
    RunMinds(c, x, steps);
    var z := End(c, x, steps);
    if step.Land? || step.Fail? || step.LandLate? {
      assert Minds(z.sessions[step.w]);
      if !step.LandLate? { assert z.sessions[step.w].Rest()[0] == z.sessions[step.w].flight.value; }
    }
  }

  // ----- and that it can

  /** While its writer holds the lock, a call goes on to its end by its own steps alone. */
  lemma {:induction false} GoesOn(c: Lock.Config, x: World, w: Lock.Key) returns (steps: seq<Step>, y: World)
    requires Lock.Holding(x.lock, w) && w in x.sessions && !x.sessions[w].failed
    ensures IsRun(c, x, steps) && y == End(c, x, steps) && y.lock == x.lock
    ensures forall step | step in steps :: step == Begin(w) || step == Land(w)
    ensures w in y.sessions && Over(y.sessions[w]) && y.sessions[w].job == x.sessions[w].job
    decreases |x.sessions[w].todo|, x.sessions[w].flight.Some?
  {
    var s := x.sessions[w];
    if s.flight.None? && s.todo == [] {
      steps, y := [], x;
    } else {
      var step := if s.flight.Some? then Land(w) else Begin(w);
      var more;
      more, y := GoesOn(c, Do(c, x, step), w);
      steps := [step] + more;
      assert steps[1..] == more;
    }
  }

  /** What each call asks for before it does anything. */
  ghost predicate Asked(x: World, job: Job) {
    match job
    case Create(id, parent, _, _) =>
      && id !in x.used && (forall k | k in x.store :: k.id != id)
      && (parent.Some? ==> parent.value < id && Chain(x.store, parent.value))
    case Prune(listing, removed, incomplete) =>
      && (forall k :: k in listing <==> k in x.store) && Decision(x.store, removed)
      && (forall id | id in incomplete :: ManifestKey(id) !in x.store)
    case Hold(id) => Readable(x.store, id)
    case Unhold(_) => true
  }

  /** In any state of a run: who holds the lock and has not begun can do what is asked, alone and to the end. */
  lemma CanDoItsWork(c: Lock.Config, x: World, before: seq<Step>, w: Lock.Key, job: Job)
      returns (steps: seq<Step>, y: World)
    requires c.Safe() && Initial(x) && IsRun(c, x, before)
    requires var z := End(c, x, before); Lock.Holding(z.lock, w) && w !in z.sessions && Asked(z, job)
    ensures IsRun(c, End(c, x, before), steps) && y == End(c, End(c, x, before), steps)
    ensures w in y.sessions && y.sessions[w].job == job && Over(y.sessions[w]) && Achieved(y, job)
    ensures forall step | step in steps :: step == Decide(w, job) || step == Begin(w) || step == Land(w)
  {
    var z := End(c, x, before);
    var t := Do(c, z, Decide(w, job));
    var more;
    more, y := GoesOn(c, t, w);
    steps := [Decide(w, job)] + more;
    assert steps[1..] == more;
    RunKeepsOnTheWay(c, x, before);
    RunKeepsOnTheWay(c, z, steps);
    assert Active(y, w) && OnItsWay(y, y.sessions[w]);
  }
}
