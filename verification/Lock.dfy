/**
 The lock of one repository: packages/backup/src/lock/lock.ts.
 */
module Lock {
  // Every writer puts a lock file of its own, lists the others, and gives up when one of them
  // may still be held. A state holds the lock files and every writer's progress; a step is one
  // thing a writer, the store or the clock does. Time is real; a monotonic clock runs with it, and
  // a wall clock may read up to `slow` behind it or `fast` ahead of it, differently at each read.

  /**
   What the protocol is run with, and what is assumed of the clocks and the store: `final` says that
   a request reported as failed changes nothing any more.
   */
  datatype Config = Config(lease: real, slow: real, fast: real, gap: real, final: bool) {
    ghost predicate Valid() {
      lease > 0.0 && slow >= 0.0 && fast >= 0.0 && gap >= 0.0
    }

    /** Failures are final, and the clocks and the pause between the two clock reads take at most one lease together. */
    ghost predicate Safe() {
      Valid() && Slack() >= 0.0 && final
    }

    /** What is left of the lease of grace once the clocks have taken their share. */
    function Slack(): real {
      lease - (slow + fast + gap)
    }

    predicate Reads(time: real, wall: real) {
      time - slow <= wall <= time + fast
    }
  }

  /** `Own(n)`: the lock of the n-th writer. `Stray(n)`: a key no writer here ever uses. */
  datatype Key = Own(n: nat) | Stray(n: nat)

  /** What is stored under a lock key: a record, or bytes that do not read as one. */
  datatype File = Record(expiresAt: real) | Garbage

  /** What a holder knows of its own lease: the fields `deadline` and `lost` of `renewing`. */
  datatype Lease = Lease(deadline: real, lost: bool) {
    predicate Held(now: real) {
      !lost && now < deadline
    }

    /** After one call of `held()`. */
    function Asked(now: real): Lease {
      if !lost && now >= deadline then this.(lost := true) else this
    }

    /** After a renewal begun when `next` was computed has resolved. */
    function Renewed(now: real, next: real): Lease {
      if !Asked(now).lost
      then Asked(now).(deadline := if next > deadline then next else deadline)
      else Asked(now)
    }
  }

  /** A renewal: not running, its deadline read, or its put under way. */
  datatype Renewal =
    | Idle
    | Timed(next: real)
    | Writing(next: real, expiresAt: real, landed: bool)

  /** Where a writer is in `acquireLock`, in `renewing`, or in `release`. */
  datatype Phase =
    | Stamped(at: real)                            // expiresAt read off the wall clock
    | Putting(landed: bool)                        // deadline read; its lock is being put
    | Placed                                       // the put resolved
    | Looking(now: real)                           // Date.now() read by refuseOthers
    | Checking(now: real, left: set<Key>)          // the listing; what is not checked yet
    | Forgetting(now: real, left: set<Key>, key: Key) // a stale lock is being removed
    | Acquired(renewal: Renewal)
    | Releasing(renewal: Renewal)                  // release() was called
    | Leaving                                      // gave up: its own lock is to be removed
    | Gone

  datatype Writer = Writer(expiresAt: real, lease: Lease, phase: Phase) {
    function Renewal(): Renewal {
      if phase.Acquired? || phase.Releasing? then phase.renewal else Idle
    }

    function WithRenewal(r: Renewal): Writer
      requires phase.Acquired? || phase.Releasing?
    {
      this.(phase := if phase.Acquired? then Acquired(r) else Releasing(r))
    }

    /** Its lock was put, and it has not begun to take it away. */
    predicate Settled() {
      phase.Placed? || phase.Looking? || Listed()
    }

    /** It listed the others after that. */
    predicate Listed() {
      phase.Checking? || phase.Forgetting? || phase.Acquired? || phase.Releasing?
    }

    function Left(): set<Key> {
      match phase
      case Checking(_, left) => left
      case Forgetting(_, left, _) => left
      case _ => {}
    }
  }

  /** What a request reported as failed may still do. */
  datatype Late = LatePut(key: Key, expiresAt: real) | LateRemoval(key: Key)

  datatype State = State(time: real, files: map<Key, File>, writers: map<Key, Writer>, late: set<Late>) {
    function With(id: Key, w: Writer): State {
      this.(writers := writers[id := w])
    }

    function Put(key: Key, file: File): State {
      this.(files := files[key := file])
    }

    function Delete(key: Key): State {
      this.(files := files - {key})
    }
  }

  /** What a writer does, or what the store does with a put of its own. */
  datatype Action =
    | ReadDeadline
    | Land
    | PutDone(ok: bool, part: bool)
    | ReadNow(wall: real)
    | List(keys: set<Key>)
    | Check(key: Key)
    | Forgot(gone: bool)
    | Acquire
    | GiveUp
    | Ask
    | RenewRead
    | RenewStamp(wall: real)
    | RenewLand
    | RenewDone(ok: bool, part: bool)
    | Release
    | RemoveOwn(gone: bool)
    | Crash

  datatype Step =
    | Tick(to: real)
    | Start(id: Key, wall: real)
    | Noise(key: Key, file: File, there: bool)
    | Lands(l: Late)
    | By(id: Key, action: Action)

  /** Any time, any files of strangers, no writer yet. */
  predicate Initial(s: State) {
    s.writers == map[] && s.late == {} && forall k | k in s.files :: k.Stray?
  }

  /** Whether a listing begun now must show `key`: its put resolved, and it is still there. */
  predicate MustShow(s: State, key: Key) {
    key in s.files && key in s.writers && s.writers[key].Settled()
  }

  predicate Enabled(c: Config, s: State, step: Step) {
    match step
    case Tick(to) => to >= s.time
    case Start(id, wall) => id.Own? && id !in s.writers && c.Reads(s.time, wall)
    case Noise(key, _, _) => key.Stray? || (key in s.writers && s.writers[key].phase.Gone?)
    case Lands(l) => l in s.late
    case By(id, action) => id in s.writers && Allowed(c, s, id, s.writers[id], action)
  }

  predicate Allowed(c: Config, s: State, id: Key, w: Writer, action: Action) {
    match action
    case ReadDeadline => w.phase.Stamped? && s.time - w.phase.at <= c.gap
    case Land => w.phase == Putting(false)
    case PutDone(ok, _) => w.phase.Putting? && (ok ==> w.phase.landed)
    case ReadNow(wall) => w.phase.Placed? && c.Reads(s.time, wall)
    case List(keys) => w.phase.Looking? && forall k | k in s.files :: MustShow(s, k) ==> k in keys
    case Check(key) => w.phase.Checking? && key in w.phase.left
    case Forgot(_) => w.phase.Forgetting?
    case Acquire => w.phase.Checking? && w.phase.left == {}
    case GiveUp => w.phase.Looking? || w.phase.Checking?
    case Ask => w.phase.Acquired? || w.phase.Releasing?
    case RenewRead => w.phase == Acquired(Idle)
    case RenewStamp(wall) => w.Renewal().Timed? && c.Reads(s.time, wall)
    case RenewLand => w.Renewal().Writing? && !w.Renewal().landed
    case RenewDone(ok, _) => w.Renewal().Writing? && (ok ==> w.Renewal().landed)
    case Release => w.phase.Acquired?
    case RemoveOwn(_) => w.phase == Leaving || w.phase == Releasing(Idle)
    case Crash => true
  }

  /** What `stillHeld` answers of one listed key: the writer's next phase. */
  function Judged(c: Config, s: State, key: Key, now: real, left: set<Key>): Phase {
    if key !in s.files then Checking(now, left - {key})
    else if s.files[key].Garbage? || s.files[key].expiresAt + c.lease >= now then Leaving
    else Forgetting(now, left - {key}, key)
  }

  function Do(c: Config, s: State, step: Step): State
    requires Enabled(c, s, step)
  {
    match step
    case Tick(to) => s.(time := to)
    case Start(id, wall) => s.With(id, Writer(wall + c.lease, Lease(s.time, false), Stamped(s.time)))
    case Noise(key, file, there) => if there then s.Put(key, file) else s.Delete(key)
    case Lands(l) =>
      var after := s.(late := s.late - {l});
      if l.LatePut? then after.Put(l.key, Record(l.expiresAt)) else after.Delete(l.key)
    case By(id, action) =>
      Stored(s, id, s.writers[id], action).With(id, Next(c, s, id, s.writers[id], action))
        .(late := s.late + if c.final then {} else Lingering(id, s.writers[id], action))
  }

  /** What a failure leaves to happen, when failures are not final. */
  function Lingering(id: Key, w: Writer, action: Action): set<Late> {
    match action
    case PutDone(ok, _) => if ok then {} else {LatePut(id, w.expiresAt)}
    case Forgot(gone) => if gone || !w.phase.Forgetting? then {} else {LateRemoval(w.phase.key)}
    case RenewDone(ok, _) => if ok || !w.Renewal().Writing? then {} else {LatePut(id, w.Renewal().expiresAt)}
    case RemoveOwn(gone) => if gone then {} else {LateRemoval(id)}
    case _ => {}
  }

  /** The store after a writer's action: what changes there, if anything does. */
  function Stored(s: State, id: Key, w: Writer, action: Action): State {
    match action
    case Land => s.Put(id, Record(w.expiresAt))
    case PutDone(ok, part) => if !ok && part then s.Put(id, Garbage) else s
    case Forgot(gone) => if gone && w.phase.Forgetting? then s.Delete(w.phase.key) else s
    case RenewLand => if w.Renewal().Writing? then s.Put(id, Record(w.Renewal().expiresAt)) else s
    case RenewDone(ok, part) => if !ok && part then s.Put(id, Garbage) else s
    case RemoveOwn(gone) => if gone then s.Delete(id) else s
    case _ => s
  }

  function Next(c: Config, s: State, id: Key, w: Writer, action: Action): Writer
    requires Allowed(c, s, id, w, action)
  {
    match action
    case ReadDeadline => w.(lease := Lease(s.time + c.lease, false), phase := Putting(false))
    case Land => w.(phase := Putting(true))
    case PutDone(ok, _) => w.(phase := if ok then Placed else Leaving)
    case ReadNow(wall) => w.(phase := Looking(wall))
    case List(keys) => w.(phase := Checking(w.phase.now, keys - {id}))
    case Check(key) => w.(phase := Judged(c, s, key, w.phase.now, w.phase.left))
    case Forgot(_) => w.(phase := Checking(w.phase.now, w.phase.left))
    case Acquire => w.(phase := Acquired(Idle))
    case GiveUp => w.(phase := Leaving)
    case Ask => w.(lease := w.lease.Asked(s.time))
    case RenewRead =>
      var asked := w.(lease := w.lease.Asked(s.time));
      if asked.lease.lost then asked else asked.WithRenewal(Timed(s.time + c.lease))
    case RenewStamp(wall) => w.WithRenewal(Writing(w.Renewal().next, wall + c.lease, false))
    case RenewLand => w.WithRenewal(w.Renewal().(landed := true))
    case RenewDone(ok, _) =>
      if ok then w.WithRenewal(Idle).(lease := w.lease.Renewed(s.time, w.Renewal().next))
      else w.WithRenewal(Idle)
    case Release => w.(phase := Releasing(w.Renewal()))
    case RemoveOwn(_) => w.(phase := Gone)
    case Crash => w.(phase := Gone)
  }

  /** Every state a sequence of steps goes through is one the protocol allows. */
  predicate IsRun(c: Config, s: State, steps: seq<Step>)
    decreases |steps|
  {
    steps == [] || (Enabled(c, s, steps[0]) && IsRun(c, Do(c, s, steps[0]), steps[1..]))
  }

  function End(c: Config, s: State, steps: seq<Step>): State
    requires IsRun(c, s, steps)
    decreases |steps|
  {
    if steps == [] then s else End(c, Do(c, s, steps[0]), steps[1..])
  }

  /** It acquired the lock, has not called release(), and held() says so. */
  predicate Holding(s: State, id: Key) {
    id in s.writers && s.writers[id].phase.Acquired? && s.writers[id].lease.Held(s.time)
  }

  /** Past its deadline, and past what is left of the lease of grace too. */
  predicate LongPast(c: Config, s: State, id: Key) {
    id in s.writers && !s.writers[id].phase.Stamped? && s.time > s.writers[id].lease.deadline + c.Slack()
  }

  // ----- the invariant

  /** Nobody may judge this file stale before the deadline and the slack are over. */
  predicate Covers(c: Config, f: File, deadline: real) {
    f.Garbage? || f.expiresAt + c.slow + c.gap >= deadline
  }

  predicate PlacedFile(c: Config, s: State, id: Key, deadline: real) {
    id in s.files && Covers(c, s.files[id], deadline)
  }

  ghost predicate WriterOk(c: Config, s: State, id: Key)
    requires id in s.writers
  {
    var w := s.writers[id];
    && id.Own?
    && w.lease.deadline <= s.time + c.lease
    && (w.lease.lost ==> s.time >= w.lease.deadline)
    && (w.phase.Stamped? ==> w.phase.at <= s.time && w.expiresAt + c.slow >= w.phase.at + c.lease)
    && (w.phase.Putting? ==> w.expiresAt + c.slow + c.gap >= w.lease.deadline)
    && (w.phase.Stamped? || w.phase == Putting(false) ==> id !in s.files)
    && (w.phase == Putting(true) || w.Settled() ==>
          LongPast(c, s, id) || PlacedFile(c, s, id, w.lease.deadline))
    && (w.phase.Looking? || w.phase.Checking? || w.phase.Forgetting? ==> w.phase.now <= s.time + c.fast)
    && id !in w.Left()
    && (w.phase.Forgetting? ==> MayForget(c, s, w.phase.key))
    && RenewalOk(c, s, id)
  }

  ghost predicate RenewalOk(c: Config, s: State, id: Key)
    requires id in s.writers
  {
    var w := s.writers[id];
    match w.Renewal()
    case Idle => true
    case Timed(next) => w.lease.deadline <= next <= s.time + c.lease
    case Writing(next, expiresAt, landed) =>
      && w.lease.deadline <= next <= s.time + c.lease
      && expiresAt + c.slow >= next
      && (landed ==> LongPast(c, s, id) || PlacedFile(c, s, id, next))
  }

  /** A lock about to be removed as stale is nobody's any more. */
  predicate MayForget(c: Config, s: State, key: Key) {
    key.Stray? || LongPast(c, s, key) || (key in s.writers && (s.writers[key].phase.Leaving?
      || s.writers[key].phase.Gone?))
  }

  /** Of two writers that listed the others, one is still to see the other, or one is long past. */
  ghost predicate PairOk(c: Config, s: State, v: Key, w: Key)
    requires v in s.writers && w in s.writers
  {
    v != w && s.writers[v].Listed() && s.writers[w].Listed() ==>
      || w in s.writers[v].Left()
      || v in s.writers[w].Left()
      || LongPast(c, s, v)
      || LongPast(c, s, w)
  }

  ghost predicate Inv(c: Config, s: State) {
    && (c.final ==> s.late == {})
    && (forall k | k in s.files :: k.Stray? || k in s.writers)
    && (forall id | id in s.writers :: WriterOk(c, s, id))
    && (forall v, w | v in s.writers && w in s.writers :: PairOk(c, s, v, w))
  }

  lemma InitialKeepsInv(c: Config, s: State)
    requires Initial(s)
    ensures Inv(c, s)
  {
  }

  lemma TickKeepsInv(c: Config, s: State, to: real)
    requires c.Safe() && Inv(c, s) && to >= s.time
    ensures Inv(c, s.(time := to))
  {
    var t := s.(time := to);
    forall id | id in t.writers ensures WriterOk(c, t, id) {
      assert WriterOk(c, s, id);
    }
    forall v, w | v in t.writers && w in t.writers ensures PairOk(c, t, v, w) {
      assert PairOk(c, s, v, w);
    }
  }

  lemma OutsiderOk(c: Config, s: State, step: Step, id: Key)
    requires c.Safe() && Inv(c, s) && (step.Start? || step.Noise?) && Enabled(c, s, step)
    requires id in Do(c, s, step).writers
    ensures WriterOk(c, Do(c, s, step), id)
  {
    if id in s.writers { assert WriterOk(c, s, id); }
  }

  lemma OutsideKeepsInv(c: Config, s: State, step: Step)
    requires c.Safe() && Inv(c, s) && (step.Start? || step.Noise?) && Enabled(c, s, step)
    ensures Inv(c, Do(c, s, step))
  {
    var t := Do(c, s, step);
    forall id | id in t.writers ensures WriterOk(c, t, id) {
      OutsiderOk(c, s, step, id);
    }
    forall v, w | v in t.writers && w in t.writers ensures PairOk(c, t, v, w) {
      if v in s.writers && w in s.writers { assert PairOk(c, s, v, w); }
    }
  }

  predicate IsRenewing(action: Action) {
    action.RenewRead? || action.RenewStamp? || action.RenewLand? || action.RenewDone?
  }

  lemma RenewerOk(c: Config, s: State, id: Key, action: Action)
    requires c.Safe() && Inv(c, s) && Enabled(c, s, By(id, action)) && IsRenewing(action)
    ensures WriterOk(c, Do(c, s, By(id, action)), id)
  {
    assert WriterOk(c, s, id);
  }

  lemma PutterOk(c: Config, s: State, id: Key, action: Action)
    requires c.Safe() && Inv(c, s) && Enabled(c, s, By(id, action))
    requires action.ReadDeadline? || action.Land? || action.PutDone? || action.List? || action.Ask?
    ensures WriterOk(c, Do(c, s, By(id, action)), id)
  {
    assert WriterOk(c, s, id);
  }

  /** The writer that acts stays as the invariant says. */
  lemma ActorOk(c: Config, s: State, id: Key, action: Action)
    requires c.Safe() && Inv(c, s) && Enabled(c, s, By(id, action))
    ensures WriterOk(c, Do(c, s, By(id, action)), id)
  {
    if IsRenewing(action) {
      RenewerOk(c, s, id, action);
    } else if action.Check? {
      assert WriterOk(c, s, id);
    } else if action.ReadDeadline? || action.Land? || action.PutDone? || action.List? || action.Ask? {
      PutterOk(c, s, id, action);
    } else {
      assert WriterOk(c, s, id);
    }
  }

  /** Nobody touches the file of another writer, unless it is about to remove it as stale. */
  lemma FileKept(c: Config, s: State, id: Key, action: Action, other: Key)
    requires c.Safe() && Inv(c, s) && Enabled(c, s, By(id, action))
    requires other in s.writers && other != id
    ensures var files := Do(c, s, By(id, action)).files;
            || ((other in files <==> other in s.files) && (other in files ==> files[other] == s.files[other]))
            || (MayForget(c, s, other) && files == s.files - {other})
  {
    assert WriterOk(c, s, id);
  }

  /** A writer's own steps do not make it less past its deadline. */
  lemma StaysForgettable(c: Config, s: State, id: Key, action: Action, key: Key)
    requires c.Safe() && Inv(c, s) && Enabled(c, s, By(id, action)) && MayForget(c, s, key)
    ensures MayForget(c, Do(c, s, By(id, action)), key)
  {
  }

  /** So do the others. */
  lemma BystanderOk(c: Config, s: State, id: Key, action: Action, other: Key)
    requires c.Safe() && Inv(c, s) && Enabled(c, s, By(id, action))
    requires other in s.writers && other != id
    ensures WriterOk(c, Do(c, s, By(id, action)), other)
  {
    assert WriterOk(c, s, other);
    FileKept(c, s, id, action, other);
    var w := s.writers[other];
    if w.phase.Forgetting? { StaysForgettable(c, s, id, action, w.phase.key); }
    var t := Do(c, s, By(id, action));
    assert t.writers[other] == w && t.time == s.time;
  }

  /** A writer lists after its own put resolved: it sees every lock that was put before, or its holder is long past. */
  lemma ListingPairOk(c: Config, s: State, id: Key, keys: set<Key>, other: Key)
    requires c.Safe() && Inv(c, s) && Enabled(c, s, By(id, List(keys))) && other in s.writers && other != id
    ensures PairOk(c, Do(c, s, By(id, List(keys))), id, other)
  {
    assert WriterOk(c, s, other);
    if s.writers[other].Listed() && !LongPast(c, s, other) {
      assert MustShow(s, other);
    }
  }

  /** Checking one listed key leaves the pair with its writer in order. */
  lemma CheckingPairOk(c: Config, s: State, id: Key, action: Action, other: Key)
    requires c.Safe() && Inv(c, s) && Enabled(c, s, By(id, action)) && other in s.writers && other != id
    requires action.Check? || action.Forgot?
    ensures PairOk(c, Do(c, s, By(id, action)), id, other)
  {
    assert PairOk(c, s, id, other);
    assert WriterOk(c, s, id) && WriterOk(c, s, other);
  }

  lemma ActorPairOk(c: Config, s: State, id: Key, action: Action, other: Key)
    requires c.Safe() && Inv(c, s) && Enabled(c, s, By(id, action)) && other in s.writers && other != id
    ensures PairOk(c, Do(c, s, By(id, action)), id, other)
  {
    assert PairOk(c, s, id, other);
    if action.List? {
      ListingPairOk(c, s, id, action.keys, other);
    } else if action.Check? || action.Forgot? {
      CheckingPairOk(c, s, id, action, other);
    } else {
    }
  }

  lemma PairsOk(c: Config, s: State, id: Key, action: Action, v: Key, w: Key)
    requires c.Safe() && Inv(c, s) && Enabled(c, s, By(id, action))
    requires v in s.writers && w in s.writers
    ensures PairOk(c, Do(c, s, By(id, action)), v, w)
  {
    if v == id && w != id {
      ActorPairOk(c, s, id, action, w);
    } else if v != id && w == id {
      ActorPairOk(c, s, id, action, v);
    } else if v != w {
      assert PairOk(c, s, v, w);
    }
  }

  lemma ActKeepsInv(c: Config, s: State, id: Key, action: Action)
    requires c.Safe() && Inv(c, s) && Enabled(c, s, By(id, action))
    ensures Inv(c, Do(c, s, By(id, action)))
  {
    var t := Do(c, s, By(id, action));
    forall other | other in s.writers ensures WriterOk(c, t, other) {
      if other == id { ActorOk(c, s, id, action); } else { BystanderOk(c, s, id, action, other); }
    }
    forall v, w | v in s.writers && w in s.writers ensures PairOk(c, t, v, w) {
      PairsOk(c, s, id, action, v, w);
    }
    hide WriterOk, PairOk;
  }

  lemma StepKeepsInv(c: Config, s: State, step: Step)
    requires c.Safe() && Inv(c, s) && Enabled(c, s, step)
    ensures Inv(c, Do(c, s, step))
  {
    match step
    case Lands(_) =>
    case Tick(to) => TickKeepsInv(c, s, to);
    case Start(_, _) => OutsideKeepsInv(c, s, step);
    case Noise(_, _, _) => OutsideKeepsInv(c, s, step);
    case By(id, action) => ActKeepsInv(c, s, id, action);
  }

  lemma {:induction false} RunKeepsInv(c: Config, s: State, steps: seq<Step>)
    requires c.Safe() && Inv(c, s) && IsRun(c, s, steps)
    ensures Inv(c, End(c, s, steps))
    decreases |steps|
  {
    if steps != [] {
      StepKeepsInv(c, s, steps[0]);
      RunKeepsInv(c, Do(c, s, steps[0]), steps[1..]);
    }
  }

  // ----- what the lock promises

  /** At every moment of every run at most one writer holds the lock. */
  ghost predicate Exclusive(c: Config) {
    forall s, steps, v, w {:trigger IsRun(c, s, steps), Holding(End(c, s, steps), v), Holding(End(c, s, steps), w)} ::
      Initial(s) && IsRun(c, s, steps) && Holding(End(c, s, steps), v) && Holding(End(c, s, steps), w) ==> v == w
  }

  /**
   While one writer holds the lock, every other that ever acquired it, released or not, has been
   past its deadline for longer than the slack: a write it began while held has that long to land.
   */
  lemma HolderIsAlone(c: Config, s: State, steps: seq<Step>, v: Key, w: Key)
    requires c.Safe() && Initial(s) && IsRun(c, s, steps)
    requires Holding(End(c, s, steps), v)
    requires v != w && w in End(c, s, steps).writers
    requires End(c, s, steps).writers[w].phase.Acquired? || End(c, s, steps).writers[w].phase.Releasing?
    ensures LongPast(c, End(c, s, steps), w)
  {
    InitialKeepsInv(c, s);
    RunKeepsInv(c, s, steps);
    assert PairOk(c, End(c, s, steps), v, w);
  }

  lemma MutualExclusion(c: Config)
    requires c.Safe()
    ensures Exclusive(c)
  {
    forall s, steps, v, w | Initial(s) && IsRun(c, s, steps) && Holding(End(c, s, steps), v)
      && Holding(End(c, s, steps), w)
      ensures v == w
    {
      if v != w { HolderIsAlone(c, s, steps, v, w); }
    }
  }

  /** A deadline that has passed stays passed: no later step, a slow renewal landing included, brings it back. */
  lemma {:induction false} LostForGood(c: Config, s: State, steps: seq<Step>, id: Key)
    requires IsRun(c, s, steps)
    requires id in s.writers && !s.writers[id].phase.Stamped? && s.time >= s.writers[id].lease.deadline
    ensures id in End(c, s, steps).writers && !End(c, s, steps).writers[id].lease.Held(End(c, s, steps).time)
    decreases |steps|
  {
    if steps != [] { LostForGood(c, Do(c, s, steps[0]), steps[1..], id); }
  }

  /** A lock removed as stale is one whose holder, if it is a writer here at all, lost it for good. */
  lemma StaleIsLost(c: Config, s: State, steps: seq<Step>, more: seq<Step>, v: Key)
    requires c.Safe() && Initial(s) && IsRun(c, s, steps) && IsRun(c, End(c, s, steps), more)
    requires v in End(c, s, steps).writers && End(c, s, steps).writers[v].phase.Forgetting?
    ensures !Holding(End(c, End(c, s, steps), more), End(c, s, steps).writers[v].phase.key)
  {
    var t := End(c, s, steps);
    InitialKeepsInv(c, s);
    RunKeepsInv(c, s, steps);
    assert WriterOk(c, t, v);
    var key := t.writers[v].phase.key;
    RunKeepsInv(c, t, more);
    var u := End(c, t, more);
    if key.Own? && LongPast(c, t, key) {
      LostForGood(c, t, more, key);
    } else if key.Own? {
      NeverBack(c, t, more, key);
    } else {
      assert key in u.writers ==> WriterOk(c, u, key);
    }
  }

  /** A writer that acquired the lock may release it or go, and what it lost it does not get back. */
  lemma AfterAcquiring(c: Config, s: State, step: Step, id: Key)
    requires Enabled(c, s, step) && id in s.writers
    requires s.writers[id].phase.Acquired? || s.writers[id].phase.Releasing? || s.writers[id].phase.Gone?
    ensures var t := Do(c, s, step);
            && id in t.writers
            && (t.writers[id].phase.Acquired? || t.writers[id].phase.Releasing? || t.writers[id].phase.Gone?)
            && t.writers[id].lease.deadline >= s.writers[id].lease.deadline
            && (t.writers[id].phase.Acquired? ==> s.writers[id].phase.Acquired?)
            && (s.writers[id].phase.Acquired? ==>
                  t.writers[id].phase.Acquired? || (step.By? && step.id == id
                    && (step.action.Release? || step.action.Crash?)))
            && (Holding(t, id) ==> Holding(s, id))
            && t.time == if step.Tick? then step.to else s.time
  {
  }

  lemma {:induction false} NeverBack(c: Config, s: State, steps: seq<Step>, id: Key)
    requires IsRun(c, s, steps) && id in s.writers
    requires s.writers[id].phase.Leaving? || s.writers[id].phase.Gone?
    ensures !Holding(End(c, s, steps), id)
    decreases |steps|
  {
    if steps != [] { NeverBack(c, Do(c, s, steps[0]), steps[1..], id); }
  }

  // ----- the assumption on the clocks is exactly what is needed

  lemma {:induction false} EndOfConcat(c: Config, s: State, first: seq<Step>, second: seq<Step>)
    requires IsRun(c, s, first) && IsRun(c, End(c, s, first), second)
    ensures IsRun(c, s, first + second)
    ensures End(c, s, first + second) == End(c, End(c, s, first), second)
    decreases |first|
  {
    if first == [] {
      assert first + second == second;
    } else {
      EndOfConcat(c, Do(c, s, first[0]), first[1..], second);
      assert (first + second)[1..] == first[1..] + second;
    }
  }

  /** One more step of a run. */
  lemma Extend(c: Config, s: State, steps: seq<Step>, step: Step) returns (longer: seq<Step>, t: State)
    requires IsRun(c, s, steps) && Enabled(c, End(c, s, steps), step)
    ensures IsRun(c, s, longer) && t == End(c, s, longer) == Do(c, End(c, s, steps), step)
  {
    longer := steps + [step];
    t := Do(c, End(c, s, steps), step);
    assert IsRun(c, End(c, s, steps), [step]) && End(c, End(c, s, steps), [step]) == t by {
      assert IsRun(c, t, []) && [step][1..] == [];
    }
    EndOfConcat(c, s, steps, [step]);
  }

  /** From its first clock read to its put landing, with nothing going wrong. */
  lemma LandsItsLock(c: Config, s: State, steps: seq<Step>, id: Key, early: real, pause: real)
    returns (longer: seq<Step>, t: State)
    requires IsRun(c, s, steps) && id.Own? && id !in End(c, s, steps).writers
    requires c.Reads(End(c, s, steps).time, early) && 0.0 <= pause <= c.gap
    ensures IsRun(c, s, longer) && t == End(c, s, longer)
    ensures var from := End(c, s, steps);
            t == from.(time := from.time + pause, files := from.files[id := Record(early + c.lease)],
                       writers := from.writers[id :=
                         Writer(early + c.lease, Lease(from.time + pause + c.lease, false), Putting(true))])
  {
    var time := End(c, s, steps).time;
    longer, t := Extend(c, s, steps, Start(id, early));
    longer, t := Extend(c, s, longer, Tick(time + pause));
    longer, t := Extend(c, s, longer, By(id, ReadDeadline));
    longer, t := Extend(c, s, longer, By(id, Land));
  }

  /** And on to its listing. */
  lemma PutsItsLock(c: Config, s: State, steps: seq<Step>, id: Key, early: real, pause: real, now: real)
    returns (longer: seq<Step>, t: State)
    requires IsRun(c, s, steps) && id.Own? && id !in End(c, s, steps).writers
    requires c.Reads(End(c, s, steps).time, early)
    requires 0.0 <= pause <= c.gap && c.Reads(End(c, s, steps).time + pause, now)
    ensures IsRun(c, s, longer) && t == End(c, s, longer)
    ensures var from := End(c, s, steps);
            t == from.(time := from.time + pause, files := from.files[id := Record(early + c.lease)],
                       writers := from.writers[id :=
                         Writer(early + c.lease, Lease(from.time + pause + c.lease, false), Looking(now))])
  {
    longer, t := LandsItsLock(c, s, steps, id, early, pause);
    longer, t := Extend(c, s, longer, By(id, PutDone(true, false)));
    longer, t := Extend(c, s, longer, By(id, ReadNow(now)));
  }

  /** From its listing on, alone or finding one lock that it judges stale. */
  lemma TakesTheLock(c: Config, s: State, steps: seq<Step>, id: Key, stale: set<Key>)
      returns (longer: seq<Step>, t: State)
    requires IsRun(c, s, steps) && id in End(c, s, steps).writers && End(c, s, steps).writers[id].phase.Looking?
    requires id !in stale && End(c, s, steps).files.Keys == stale + {id}
    requires stale == {} || exists k :: stale == {k}
    requires forall k | k in stale :: var f := End(c, s, steps).files[k];
             f.Record? && f.expiresAt + c.lease < End(c, s, steps).writers[id].phase.now
    ensures IsRun(c, s, longer) && t == End(c, s, longer)
    ensures var from := End(c, s, steps);
            t == from.(files := from.files - stale, writers :=
              from.writers[id := from.writers[id].(phase := Acquired(Idle))])
  {
    var from := End(c, s, steps);
    longer, t := Extend(c, s, steps, By(id, List(from.files.Keys)));
    if stale != {} {
      var k :| stale == {k};
      assert from.files.Keys - {id} == stale;
      longer, t := Extend(c, s, longer, By(id, Check(k)));
      longer, t := Extend(c, s, longer, By(id, Forgot(true)));
      assert t.writers[id].phase.left == {};
    } else {
      assert t.writers[id].phase.left == {};
      assert from.files - stale == from.files;
    }
    longer, t := Extend(c, s, longer, By(id, Acquire));
  }

  const START: State := State(0.0, map[], map[], {})

  /** Two writers hold the lock at the end of the run. */
  ghost predicate BothHold(c: Config, steps: seq<Step>, first: Key, second: Key) {
    first != second && IsRun(c, START, steps) && Holding(End(c, START, steps), first)
      && Holding(End(c, START, steps), second)
  }

  /** With less than that, a second writer finds a lock stale whose holder still has time left. */
  lemma TwoHolders(c: Config) returns (steps: seq<Step>)
    requires c.Valid() && c.Slack() < 0.0
    ensures BothHold(c, steps, Own(0), Own(1))
  {
    var first, second := Own(0), Own(1);
    var t: State;
    steps, t := PutsItsLock(c, START, [], first, -c.slow, c.gap, c.gap);
    steps, t := TakesTheLock(c, START, steps, first, {});

    var over := if -c.Slack() < c.lease then -c.Slack() else c.lease;
    var late := c.gap + c.lease - over / 2.0;
    steps, t := Extend(c, START, steps, Tick(late));
    steps, t := PutsItsLock(c, START, steps, second, late, 0.0, late + c.fast);
    assert -c.slow + c.lease + c.lease < late + c.fast;
    steps, t := TakesTheLock(c, START, steps, second, {first});
  }

  /** Its writer begins a renewal, its clock exact. */
  lemma BeginsRenewal(c: Config, steps: seq<Step>, id: Key) returns (longer: seq<Step>, t: State)
    requires c.Valid() && IsRun(c, START, steps) && id in End(c, START, steps).writers
    requires var s := End(c, START, steps);
             s.writers[id].phase == Acquired(Idle) && s.writers[id].lease.Held(s.time)
    ensures IsRun(c, START, longer) && t == End(c, START, longer)
    ensures var s := End(c, START, steps);
            t == s.(writers := s.writers[id := s.writers[id].(phase :=
              Acquired(Writing(s.time + c.lease, s.time + c.lease, false)))])
  {
    longer, t := Extend(c, START, steps, By(id, RenewRead));
    longer, t := Extend(c, START, longer, By(id, RenewStamp(t.time)));
  }

  /** It goes through. */
  lemma EndsRenewal(c: Config, steps: seq<Step>, id: Key, next: real, expiresAt: real)
      returns (longer: seq<Step>, t: State)
    requires IsRun(c, START, steps) && id in End(c, START, steps).writers
    requires var s := End(c, START, steps);
             s.writers[id].phase == Acquired(Writing(next, expiresAt, false)) && s.writers[id].lease.Held(s.time)
               && s.writers[id].lease.deadline <= next
    ensures IsRun(c, START, longer) && t == End(c, START, longer)
    ensures var s := End(c, START, steps);
            t == s.(files := s.files[id := Record(expiresAt)],
                    writers := s.writers[id := s.writers[id].(lease := Lease(next, false), phase := Acquired(Idle))])
  {
    longer, t := Extend(c, START, steps, By(id, RenewLand));
    longer, t := Extend(c, START, longer, By(id, RenewDone(true, false)));
  }

  /** A renewal that goes through. */
  lemma Renews(c: Config, steps: seq<Step>, id: Key, at: real) returns (longer: seq<Step>, t: State)
    requires c.Valid() && IsRun(c, START, steps) && id in End(c, START, steps).writers
    requires var s := End(c, START, steps);
             s.writers[id].phase == Acquired(Idle) && !s.writers[id].lease.lost
               && s.time <= at < s.writers[id].lease.deadline <= s.time + c.lease
    ensures IsRun(c, START, longer) && t == End(c, START, longer)
    ensures var s := End(c, START, steps);
            t == s.(time := at, files := s.files[id := Record(at + c.lease)],
                    writers := s.writers[id := s.writers[id].(lease := Lease(at + c.lease, false))])
  {
    longer, t := Extend(c, START, steps, Tick(at));
    longer, t := BeginsRenewal(c, longer, id);
    longer, t := EndsRenewal(c, longer, id, at + c.lease, at + c.lease);
  }

  /** A first writer holds the lock, alone and with an exact clock. */
  lemma HoldsAlone(c: Config, id: Key) returns (steps: seq<Step>, t: State)
    requires c.Valid() && id.Own?
    ensures IsRun(c, START, steps) && t == End(c, START, steps)
    ensures t == State(0.0, map[id := Record(c.lease)],
                       map[id := Writer(c.lease, Lease(c.lease, false), Acquired(Idle))], {})
  {
    steps, t := PutsItsLock(c, START, [], id, 0.0, 0.0, 0.0);
    steps, t := TakesTheLock(c, START, steps, id, {});
  }

  /** Then a renewal that it was told had failed may still land. */
  lemma FailsARenewal(c: Config, id: Key, at: real) returns (steps: seq<Step>, t: State)
    requires c.Valid() && !c.final && id.Own? && 0.0 <= at < c.lease
    ensures IsRun(c, START, steps) && t == End(c, START, steps)
    ensures t == State(at, map[id := Record(c.lease)],
                       map[id := Writer(c.lease, Lease(c.lease, false), Acquired(Idle))],
                       {LatePut(id, at + c.lease)})
  {
    steps, t := HoldsAlone(c, id);
    steps, t := Extend(c, START, steps, Tick(at));
    steps, t := BeginsRenewal(c, steps, id);
    steps, t := Extend(c, START, steps, By(id, RenewDone(false, false)));
  }

  /** Three that went through follow it, each when the timer would begin it. */
  lemma RenewsThrice(c: Config, id: Key) returns (steps: seq<Step>, t: State)
    requires c.Valid() && !c.final && id.Own?
    ensures IsRun(c, START, steps) && t == End(c, START, steps)
    ensures var third := c.lease / 3.0;
            t == State(6.0 * third, map[id := Record(9.0 * third)],
                       map[id := Writer(c.lease, Lease(9.0 * third, false), Acquired(Idle))],
                       {LatePut(id, 4.0 * third)})
  {
    var third := c.lease / 3.0;
    steps, t := FailsARenewal(c, id, third);
    hide *;
    steps, t := Renews(c, steps, id, 2.0 * third);
    steps, t := Renews(c, steps, id, 4.0 * third);
    steps, t := Renews(c, steps, id, 6.0 * third);
  }

  /** Then it lands. */
  lemma LandsLate(c: Config, id: Key) returns (steps: seq<Step>, t: State)
    requires c.Valid() && !c.final && id.Own?
    ensures IsRun(c, START, steps) && t == End(c, START, steps)
    ensures var third := c.lease / 3.0;
            t == State(8.0 * third, map[id := Record(4.0 * third)],
                       map[id := Writer(c.lease, Lease(9.0 * third, false), Acquired(Idle))], {})
  {
    var third := c.lease / 3.0;
    steps, t := RenewsThrice(c, id);
    steps, t := Extend(c, START, steps, Tick(8.0 * third));
    steps, t := Extend(c, START, steps, Lands(LatePut(id, 4.0 * third)));
  }

  /**
   With perfect clocks even: a renewal is reported failed, three later ones go through, and then the
   first one's record lands. Its holder has time left, and the next writer finds the lock stale.
   */
  lemma LateRenewal(c: Config) returns (steps: seq<Step>)
    requires c.Valid() && !c.final
    ensures BothHold(c, steps, Own(0), Own(1))
  {
    var first, second := Own(0), Own(1);
    var t: State;
    steps, t := LandsLate(c, first);
    steps, t := PutsItsLock(c, START, steps, second, t.time, 0.0, t.time);
    steps, t := TakesTheLock(c, START, steps, second, {first});
  }

  /**
   The lock excludes in every run if and only if the clocks take at most one lease and a request
   reported as failed changes nothing any more.
   */
  lemma ExclusiveExactly(c: Config)
    requires c.Valid()
    ensures Exclusive(c) <==> c.slow + c.fast + c.gap <= c.lease && c.final
  {
    if c.Safe() {
      MutualExclusion(c);
    } else if !c.final {
      var steps := LateRenewal(c);
    } else {
      var steps := TwoHolders(c);
    }
  }

  // ----- the holder's object

  /** What `renewing` keeps: its fields change as the protocol above says the lease does. */
  class HeldLease {
    var deadline: real
    var lost: bool
    var renewing: bool

    constructor (firstDeadline: real)
      ensures Value() == Lease(firstDeadline, false) && !renewing
    {
      deadline, lost, renewing := firstDeadline, false, false;
    }

    function Value(): Lease
      reads this
    {
      Lease(deadline, lost)
    }

    /** `held()`: compares the deadline with the clock, and makes a loss final. */
    method Held(now: real) returns (held: bool)
      modifies `lost
      ensures Value() == old(Value()).Asked(now)
      ensures held == old(Value()).Held(now)
    {
      if !lost && now >= deadline {
        lost := true;
      }
      held := !lost;
    }

    /** The timer's tick: a renewal begins unless one is under way or the lease is out. */
    method Tick(now: real, lease: real) returns (begun: bool, next: real)
      modifies `lost, `renewing
      ensures begun == (!old(renewing) && old(Value()).Held(now))
      ensures begun ==> next == now + lease
      ensures renewing == (old(renewing) || begun)
      ensures Value() == if old(renewing) then old(Value()) else old(Value()).Asked(now)
    {
      begun, next := false, now;
      if renewing { return; }
      begun := Held(now);
      if begun {
        next, renewing := now + lease, true;
      }
    }

    /** The renewal's put resolved, or rejected. */
    method Settle(now: real, next: real, ok: bool)
      modifies this
      ensures !renewing
      ensures Value() == if ok then old(Value()).Renewed(now, next) else old(Value())
    {
      if ok {
        var held := Held(now);
        if held {
          deadline := if next > deadline then next else deadline;
        }
      }
      renewing := false;
    }
  }

  // ----- and that a free lock can be taken

  /** A listed lock that keeps nobody out: gone, or past its end by more than the grace. */
  predicate LetsBy(c: Config, s: State, key: Key, now: real) {
    key !in s.files || (s.files[key].Record? && s.files[key].expiresAt + c.lease < now)
  }

  /** Whoever judges a listed lock gives up for one that may still be held, and for no other. */
  lemma GivesUpExactly(c: Config, s: State, id: Key, key: Key)
    requires Enabled(c, s, By(id, Check(key)))
    ensures var t := Do(c, s, By(id, Check(key)));
            && (t.writers[id].phase.Leaving? <==> !LetsBy(c, s, key, s.writers[id].phase.now))
            && (t.writers[id].phase.Checking? <==> key !in s.files)
  {
  }

  /** One by one, the locks that keep nobody out are passed or removed, and the lock is held. */
  lemma {:induction false} PassesAll(c: Config, s: State, id: Key) returns (steps: seq<Step>, t: State)
    requires id in s.writers && s.writers[id].phase.Checking? && s.writers[id].lease.Held(s.time)
    requires forall key | key in s.writers[id].phase.left :: LetsBy(c, s, key, s.writers[id].phase.now)
    ensures IsRun(c, s, steps) && t == End(c, s, steps) && Holding(t, id)
    ensures forall step | step in steps :: step.By? && step.id == id
    decreases |s.writers[id].phase.left|
  {
    var left := s.writers[id].phase.left;
    if left == {} {
      steps := [By(id, Acquire)];
      t := Do(c, s, By(id, Acquire));
      assert steps[1..] == [];
    } else {
      var key :| key in left;
      var read := Do(c, s, By(id, Check(key)));
      if key in s.files {
        var after := Do(c, read, By(id, Forgot(true)));
        assert after.writers[id].phase == Checking(s.writers[id].phase.now, left - {key});
        var more;
        more, t := PassesAll(c, after, id);
        var rest := [By(id, Forgot(true))] + more;
        assert rest[1..] == more;
        steps := [By(id, Check(key))] + rest;
        assert steps[1..] == rest;
      } else {
        var more;
        more, t := PassesAll(c, read, id);
        steps := [By(id, Check(key))] + more;
        assert steps[1..] == more;
      }
    }
  }

  /**
   A writer that listed, and finds each lock it listed gone or stale, however many there are, gets the
   lock by its own steps when nothing fails.
   */
  lemma GetsAFreeLock(c: Config, s: State, id: Key, keys: set<Key>) returns (steps: seq<Step>, t: State)
    requires Enabled(c, s, By(id, List(keys))) && s.writers[id].lease.Held(s.time)
    requires forall key | key in keys && key != id :: LetsBy(c, s, key, s.writers[id].phase.now)
    ensures IsRun(c, s, steps) && t == End(c, s, steps) && Holding(t, id)
    ensures forall step | step in steps :: step.By? && step.id == id
  {
    var listed := Do(c, s, By(id, List(keys)));
    var more;
    more, t := PassesAll(c, listed, id);
    steps := [By(id, List(keys))] + more;
    assert steps[1..] == more;
  }

  /** What comes next on a writer's way out, and how far that is. */
  function WayOut(s: State, id: Key): (Action, nat)
    requires id in s.writers
  {
    match s.writers[id].phase
    case Looking(_) => (GiveUp, 2)
    case Checking(_, _) => (GiveUp, 2)
    case Acquired(_) => (Release, 5)
    case Releasing(Timed(_)) => (RenewStamp(s.time), 4)
    case Releasing(Writing(_, _, false)) => (RenewLand, 3)
    case Releasing(Writing(_, _, true)) => (RenewDone(true, false), 2)
    case _ => (RemoveOwn(true), 1)
  }

  /** A writer that gives up or lets go gets out by its own steps, and its file is gone, and no other. */
  lemma {:induction false} LetsGo(c: Config, s: State, id: Key) returns (steps: seq<Step>, t: State)
    requires c.Valid() && id in s.writers
    requires var p := s.writers[id].phase; p.Looking? || p.Checking? || p.Acquired? || p.Releasing? || p.Leaving?
    ensures IsRun(c, s, steps) && t == End(c, s, steps) && id in t.writers && t.writers[id].phase.Gone?
    ensures id !in t.files && t.files == s.files - {id}
    ensures forall step | step in steps :: step.By? && step.id == id
    decreases WayOut(s, id).1
  {
    var step := By(id, WayOut(s, id).0);
    var after := Do(c, s, step);
    if step.action.RemoveOwn? {
      steps, t := [step], after;
      assert steps[1..] == [];
    } else {
      var more;
      more, t := LetsGo(c, after, id);
      steps := [step] + more;
      assert steps[1..] == more;
    }
  }
}
