/**
 A search sync, its follower and its reindex: packages/mongo-meilisearch/src/run and src/sync.
 */
module Sync {
  // The follower buffers changes, sends them and records its point; a reindex runs while the
  // collection moves.
  //
  // One run at a time holds the sync's lease. A stream that stops does not stop the flush under way:
  // it goes on with its requests and records its point. What stopped with an error lets go of the
  // lease at once, and what stopped without one waits, but renews it no more; so the next run may begin
  // beside that flush, which is then one of `strays`. The search server applies its tasks in the order
  // they came, whether or not anyone still waits for them: `queue`, then what the run waits for, then
  // `behind`. Any request may fail, any task may fail, and a process may die at any step.

  import opened Wrappers
  import opened Changes

  type Index = map<Id, int>

  /** One request to the search server: one batch of documents, or of ids. */
  datatype Task = Add(documents: Index) | Cut(ids: set<Id>)

  function Keys(t: Task): set<Id> {
    match t
    case Add(documents) => documents.Keys
    case Cut(ids) => ids
  }

  function Action(t: Task, id: Id): Entry
    requires id in Keys(t)
  {
    match t
    case Add(documents) => Upsert(documents[id])
    case Cut(_) => Remove
  }

  function Applied(index: Index, t: Task): Index {
    match t
    case Add(documents) => index + documents
    case Cut(ids) => index - ids
  }

  predicate Touches(tasks: seq<Task>, id: Id) {
    exists t | t in tasks :: id in Keys(t)
  }

  type Entries = map<Id, Entry>

  /** The requests `send` makes for entries: every entry in one of them, and all the documents before all the ids. */
  ghost predicate Carries(tasks: seq<Task>, entries: Entries) {
    && (forall t, id | t in tasks && id in Keys(t) :: id in entries && Action(t, id) == entries[id])
    && (forall id | id in entries :: Touches(tasks, id))
    && (forall i, j | 0 <= i < j < |tasks| && tasks[j].Add? :: tasks[i].Add?)
  }

  /**
   What is on its way to the index: entries waiting, then requests to
   make, the first of which may be made and waited for.
   */
  datatype Out = Out(pending: Entries, ahead: seq<Task>, sent: bool)

  datatype Flush = NotFlushing | Flushing(at: Option<nat>)

  datatype Run =
    | Stopped
    | Reindexing(token: nat, next: nat, wanted: set<Id>, end: bool, listed: bool)
    | Following(pos: nat, position: Option<nat>, last: Option<nat>, handling: Option<Entry>, flush: Flush, failed: bool)
    | Lingering(going: Flush, clean: bool)          // its stream stopped; its flush goes on

  /** A flush going on beside a later run; `place` is where the request it waits for is among the tasks waiting. */
  datatype Stray = Stray(ahead: seq<Task>, place: Option<nat>, at: Option<nat>)

  datatype World = World(log: seq<Event>, index: Index, queue: seq<Task>, recorded: Option<nat>, run: Run, out: Out,
                         behind: seq<Task>, strays: seq<Stray>)

  /** `later`: what was on its way, and was told to have failed or left by a process that died, may yet be done. */
  datatype Step =
    | Write(e: Event)                               // the collection changes
    | Serve(ok: bool)                               // the server ends its oldest task
    | BeginReindex
    | Read(id: Id)                                  // the next live document, as it is now
    | ReadEnd                                       // no live document after the last one read
    | Page(tasks: seq<Task>)                        // the page read is to be sent
    | List(tasks: seq<Task>)                        // the index is listed; what is unwanted is to go
    | RecordReindex(ok: bool, landed: bool, later: bool)
    | Open
    | Hear(look: nat, pre: bool, missing: bool)     // the next event is read
    | Queue                                         // its entry joins what is pending
    | Place                                         // `position` catches up
    | Begin(tasks: seq<Task>)                       // a flush takes what is pending
    | Record(ok: bool, landed: bool, later: bool)
    | Request
    | Refused(accepted: bool, later: bool)          // a request fails, or the wait for it does
    | Close(clean: bool)                            // the stream stops, with an error or without
    | Stop(forget: bool, later: bool)
    | StrayRequest(i: nat)
    | StrayRefused(i: nat, accepted: bool)
    | StrayRecord(i: nat, ok: bool, landed: bool)

  /** The point a flush may record: the last change queued, or where the stream is with nothing at hand. */
  function PointOf(last: Option<nat>, idle: bool, position: Option<nat>): Option<nat> {
    if last.Some? then last else if idle then position else None
  }

  /** The flush under way, of a run that follows or did. */
  function Going(run: Run): Flush {
    match run
    case Following(_, _, _, _, flush, _) => flush
    case Lingering(going, _) => going
    case _ => NotFlushing
  }

  const NOTHING: Out := Out(map[], [], false)

  /** What a failed request leaves: a reindex throws, a follower keeps the failure and flushes no more. */
  function AfterFailure(x: World): World {
    if x.run.Following?
    then x.(run := x.run.(failed := true, flush := NotFlushing), out := x.out.(ahead := [], sent := false))
    else x.(run := Stopped, out := NOTHING)
  }

  predicate Quiet(out: Out) {
    out.ahead == [] && !out.sent
  }

  /** Every task the server has yet to end, in its order. */
  function Waiting(x: World): seq<Task> {
    x.queue + (if x.out.sent && x.out.ahead != [] then [x.out.ahead[0]] else []) + x.behind
  }

  const OVER: Stray := Stray([], None, None)

  /** The oldest task has ended: whoever waited for it goes on, or gives up. */
  function Moved(strays: seq<Stray>, ok: bool): seq<Stray> {
    seq(|strays|, (i: nat) requires i < |strays| => StrayMoved(strays[i], ok))
  }

  function StrayMoved(s: Stray, ok: bool): Stray {
    match s.place
    case None => s
    case Some(k) =>
      if k > 0 then s.(place := Some(k - 1))
      else if ok && s.ahead != [] then s.(ahead := s.ahead[1..], place := None)
      else OVER
  }

  /** The request, or the recording of a point, that is on its way and not yet known to have been taken. */
  function Unsettled(x: World): seq<Stray> {
    if x.out.ahead != [] then if x.out.sent then [] else [Stray([x.out.ahead[0]], None, None)]
    else if Going(x.run).Flushing? && Going(x.run).at.Some? then [Stray([], None, Going(x.run).at)]
    else if x.run.Reindexing? && x.run.listed then [Stray([], None, Some(x.run.token))]
    else []
  }

  function Left(x: World, later: bool): seq<Stray> {
    if later then x.strays + Unsettled(x) else x.strays
  }

  /** A task of another run's comes in last. */
  function Joined(x: World, t: Task): World {
    if x.out.sent then x.(behind := x.behind + [t]) else x.(queue := x.queue + [t])
  }

  predicate MayBegin(c: Config, x: World) {
    x.run.Stopped? || (c.overlaps && x.run.Lingering?)
  }

  /** What a run that begins finds: the flush still going on is beside it from now on. */
  function Beside(x: World): World {
    if x.run.Lingering? && x.run.going.Flushing? then
      x.(queue := Waiting(x), behind := [],
         strays := x.strays + [Stray(x.out.ahead, if x.out.sent then Some(|x.queue|) else None, x.run.going.at)])
    else x
  }

  /** What the index holds and the scan did not want. */
  function Unwanted(x: World): Entries
    requires x.run.Reindexing?
  {
    map id | id in x.index && id !in x.run.wanted :: Remove
  }

  ghost predicate Enabled(c: Config, x: World, step: Step) {
    match step
    case Write(e) => Possible(c, x.log, |x.log|, e)
    case Serve(_) => x.queue != [] || (x.out.sent && x.out.ahead != [])
    case BeginReindex => MayBegin(c, x)
    case Read(id) =>
      && x.run.Reindexing? && !x.run.end && Quiet(x.out)
      && id >= x.run.next && ViewNow(c, x.log, id).Some?
      && (forall other | x.run.next <= other < id :: ViewNow(c, x.log, other).None?)
    case ReadEnd =>
      && x.run.Reindexing? && !x.run.end && Quiet(x.out)
      && (forall other | other >= x.run.next :: ViewNow(c, x.log, other).None?)
    case Page(tasks) =>
      x.run.Reindexing? && !x.run.listed && Quiet(x.out) && Carries(tasks, x.out.pending)
    case List(tasks) =>
      && x.run.Reindexing? && x.run.end && !x.run.listed && Quiet(x.out) && x.out.pending == map[]
      && (!c.late ==> x.queue == [])
      && Carries(tasks, Unwanted(x))
    case RecordReindex(ok, landed, later) =>
      x.run.Reindexing? && x.run.listed && Quiet(x.out) && (later ==> c.overlaps && !ok && !landed)
    case Open => MayBegin(c, x) && x.recorded.Some?
    case Hear(look, _, missing) =>
      && x.run.Following? && !x.run.failed && x.run.handling.None?
      && x.run.pos < look <= |x.log| && (missing ==> c.images && c.expires)
    case Queue => x.run.Following? && x.run.handling.Some? && x.run.pos < |x.log|
    case Place => x.run.Following? && x.run.handling.None?
    case Begin(tasks) =>
      x.run.Following? && !x.run.failed && x.run.flush.NotFlushing? && Carries(tasks, x.out.pending)
    case Record(ok, landed, later) =>
      Going(x.run).Flushing? && Quiet(x.out) && (later ==> c.overlaps && !ok && !landed)
    case Request => x.out.ahead != [] && !x.out.sent
    case Refused(accepted, later) =>
      x.out.ahead != [] && (accepted || !x.out.sent) && (later ==> c.overlaps && !accepted)
    case Close(clean) => (x.run.Following? && (clean ==> !x.run.failed)) || (x.run.Reindexing? && !clean)
    case Stop(forget, later) =>
      (forget ==> x.run.Lingering? && x.run.clean && x.run.going.NotFlushing?) && (later ==> c.overlaps)
    case StrayRequest(i) => i < |x.strays| && x.strays[i].ahead != [] && x.strays[i].place.None?
    case StrayRefused(i, accepted) => i < |x.strays| && x.strays[i].ahead != [] && (accepted || x.strays[i].place.None?)
    case StrayRecord(i, _, _) => i < |x.strays| && x.strays[i].ahead == [] && x.strays[i].at.Some?
  }

  /** The task at the head of the server's queue has ended. */
  function Served(x: World, ok: bool): World
    requires x.queue != [] || (x.out.sent && x.out.ahead != [])
  {
    var y := x.(strays := Moved(x.strays, ok));
    if x.queue != [] then
      y.(queue := x.queue[1..], index := if ok then Applied(x.index, x.queue[0]) else x.index)
    else
      var z := y.(queue := x.behind, behind := []);
      if ok then z.(index := Applied(x.index, x.out.ahead[0]), out := x.out.(ahead := x.out.ahead[1..], sent := false))
      else AfterFailure(z)
  }

  function Heard(c: Config, x: World, look: nat, pre: bool, missing: bool): Run
    requires x.run.Following? && x.run.pos < look <= |x.log|
  {
    var heard := HeardAt(c, x.log, x.run.pos, look, pre, missing);
    if heard.Filtered? then x.run.(pos := x.run.pos + 1)
    else if EntryFor(c, heard).None? then x.run.(failed := true)
    else x.run.(handling := EntryFor(c, heard))
  }

  /** The scan has read a document. */
  function AfterRead(c: Config, x: World, id: Id): World
    requires x.run.Reindexing? && ViewNow(c, x.log, id).Some?
  {
    match c.transform(ViewNow(c, x.log, id).value)
    case Send(body) =>
      x.(run := x.run.(next := id + 1, wanted := x.run.wanted + {id}),
         out := x.out.(pending := x.out.pending[id := Upsert(body)]))
    case KeepOut => x.(run := x.run.(next := id + 1))
    case Refuse => x.(run := Stopped, out := NOTHING)
  }

  function Queued(x: World): World
    requires x.run.Following? && x.run.handling.Some? && x.run.pos < |x.log|
  {
    x.(run := x.run.(pos := x.run.pos + 1, last := Some(x.run.pos + 1), handling := None),
       out := x.out.(pending := x.out.pending[x.log[x.run.pos].id := x.run.handling.value]))
  }

  function Begun(x: World, tasks: seq<Task>): World
    requires x.run.Following?
  {
    var idle := x.out.pending == map[] && x.run.handling.None?;
    x.(run := x.run.(flush := Flushing(PointOf(x.run.last, idle, x.run.position))), out := Out(map[], tasks, false))
  }

  /** The flush under way has recorded its point, if it has one, or failed to. */
  function Recorded(x: World, ok: bool, landed: bool, later: bool): World
    requires Going(x.run).Flushing?
  {
    var at := Going(x.run).at;
    var y := x.(recorded := if at.Some? && (ok || landed) then at else x.recorded, strays := Left(x, later));
    if at.Some? && !ok then AfterFailure(y)
    else if x.run.Following? then y.(run := x.run.(flush := NotFlushing))
    else y.(run := x.run.(going := NotFlushing))
  }

  function GivenUp(x: World, accepted: bool, later: bool): World
    requires x.out.ahead != []
  {
    AfterFailure(x).(behind := [], strays := Left(x, later),
      queue := if accepted && !x.out.sent then Waiting(x) + [x.out.ahead[0]] else Waiting(x))
  }

  /** The stream has stopped, or the lease of a reindex was found gone: what is being sent goes on. */
  function Closed(x: World, clean: bool): World {
    var going :=
      if x.run.Following? then x.run.flush
      else if Quiet(x.out) then NotFlushing
      else Flushing(None);
    x.(run := Lingering(going, clean), out := x.out.(pending := map[]))
  }

  function Ended(x: World, forget: bool, later: bool): World {
    x.(run := Stopped, out := NOTHING, queue := Waiting(x), behind := [], strays := Left(x, later),
       recorded := if forget then None else x.recorded)
  }

  function StrayRequested(x: World, i: nat): World
    requires i < |x.strays| && x.strays[i].ahead != []
  {
    var s := x.strays[i];
    Joined(x, s.ahead[0]).(strays := x.strays[i := s.(place := Some(|Waiting(x)|))])
  }

  function StrayGivenUp(x: World, i: nat, accepted: bool): World
    requires i < |x.strays| && x.strays[i].ahead != []
  {
    var s := x.strays[i];
    (if accepted && s.place.None? then Joined(x, s.ahead[0]) else x).(strays := x.strays[i := OVER])
  }

  function StrayRecorded(x: World, i: nat, landed: bool): World
    requires i < |x.strays|
  {
    x.(strays := x.strays[i := OVER], recorded := if landed then x.strays[i].at else x.recorded)
  }

  function Do(c: Config, x: World, step: Step): World
    requires Enabled(c, x, step)
  {
    match step
    case Write(e) => x.(log := x.log + [e])
    case Serve(ok) => Served(x, ok)
    case BeginReindex => Beside(x).(run := Reindexing(|x.log|, 0, {}, false, false), out := NOTHING)
    case Read(id) => AfterRead(c, x, id)
    case ReadEnd => x.(run := x.run.(end := true))
    case Page(tasks) => x.(out := Out(map[], tasks, false))
    case List(tasks) => x.(run := x.run.(listed := true), out := Out(map[], tasks, false))
    case RecordReindex(ok, landed, later) =>
      x.(run := Stopped, out := NOTHING, strays := Left(x, later),
         recorded := if ok || landed then Some(x.run.token) else x.recorded)
    case Open => Beside(x).(run := Following(x.recorded.value, None, None, None, NotFlushing, false), out := NOTHING)
    case Hear(look, pre, missing) => x.(run := Heard(c, x, look, pre, missing))
    case Queue => Queued(x)
    case Place => x.(run := x.run.(position := Some(x.run.pos)))
    case Begin(tasks) => Begun(x, tasks)
    case Record(ok, landed, later) => Recorded(x, ok, landed, later)
    case Request => x.(out := x.out.(sent := true))
    case Refused(accepted, later) => GivenUp(x, accepted, later)
    case Close(clean) => Closed(x, clean)
    case Stop(forget, later) => Ended(x, forget, later)
    case StrayRequest(i) => StrayRequested(x, i)
    case StrayRefused(i, accepted) => StrayGivenUp(x, i, accepted)
    case StrayRecord(i, ok, landed) => StrayRecorded(x, i, ok || landed)
  }

  predicate Initial(x: World) {
    x.log == [] && x.queue == [] && x.recorded.None? && x.run.Stopped? && x.out == NOTHING
    && x.behind == [] && x.strays == []
  }

  ghost predicate IsRun(c: Config, x: World, steps: seq<Step>)
    decreases |steps|
  {
    steps == [] || (Enabled(c, x, steps[0]) && IsRun(c, Do(c, x, steps[0]), steps[1..]))
  }

  function End(c: Config, x: World, steps: seq<Step>): World
    requires IsRun(c, x, steps)
    decreases |steps|
  {
    if steps == [] then x else End(c, Do(c, x, steps[0]), steps[1..])
  }

  // ----- the invariant

  predicate Matches(c: Config, index: Index, id: Id, v: Option<Content>) {
    if v.None? then id !in index
    else match c.transform(v.value)
      case Send(body) => id in index && index[id] == body
      case KeepOut => id !in index
      case Refuse => false
  }

  predicate AllFit(c: Config, tasks: seq<Task>, id: Id, v: Option<Content>) {
    forall t | t in tasks && id in Keys(t) :: Fits(c, Action(t, id), v)
  }

  /** The index is right for a document, and stays so whichever of the tasks waiting are applied. */
  predicate Sees(c: Config, x: World, id: Id) {
    Matches(c, x.index, id, ViewNow(c, x.log, id)) && AllFit(c, x.queue, id, ViewNow(c, x.log, id))
  }

  /** What was recorded is safe: whatever has not changed since is in the index as it should be. */
  ghost predicate SafeSince(c: Config, x: World, p: nat) {
    forall id | Steady(c, x.log, p, id) :: Sees(c, x, id)
  }

  /** A document is right once the requests ahead are made. */
  predicate Coming(c: Config, x: World, id: Id)
  {
    if Touches(x.out.ahead, id) then AllFit(c, x.out.ahead, id, ViewNow(c, x.log, id)) else Sees(c, x, id)
  }

  ghost predicate ComingSince(c: Config, x: World, p: nat)
  {
    forall id | Steady(c, x.log, p, id) :: Coming(c, x, id)
  }

  /** A document is right once what is pending is sent too. */
  predicate Good(c: Config, x: World, id: Id)
  {
    if id in x.out.pending then Fits(c, x.out.pending[id], ViewNow(c, x.log, id)) else Coming(c, x, id)
  }

  ghost predicate GoodSince(c: Config, x: World, p: nat)
  {
    forall id | Steady(c, x.log, p, id) :: Good(c, x, id)
  }

  ghost predicate AheadFits(c: Config, x: World, p: nat)
  {
    forall id | Steady(c, x.log, p, id) :: AllFit(c, x.out.ahead, id, ViewNow(c, x.log, id))
  }

  ghost predicate PendingFits(c: Config, x: World, p: nat)
  {
    forall id | id in x.out.pending && Steady(c, x.log, p, id) ::
      Fits(c, x.out.pending[id], ViewNow(c, x.log, id))
  }

  /** How far a scan is with a document: wanted when read and to be sent, not when not there. */
  predicate Scanned(c: Config, x: World, id: Id)
    requires x.run.Reindexing?
  {
    var v := ViewNow(c, x.log, id);
    && (id in x.run.wanted ==> v.Some? && c.transform(v.value).Send? && Good(c, x, id))
    && (v.Some? && (x.run.end || id < x.run.next) ==>
          !c.transform(v.value).Refuse? && (c.transform(v.value).Send? ==> id in x.run.wanted))
  }

  ghost predicate ScanRight(c: Config, x: World)
    requires x.run.Reindexing?
  {
    && (forall t, id | t in x.out.ahead && id in Keys(t) :: id in x.run.wanted)
    && (forall id | Steady(c, x.log, x.run.token, id) :: Scanned(c, x, id))
  }

  /** Where the points are, and what there is to wait for. */
  predicate Shaped(x: World) {
    && (x.recorded.Some? ==> x.recorded.value <= |x.log|)
    && (x.out.sent ==> x.out.ahead != [])
    && x.behind == [] && x.strays == []
    && match x.run
       case Stopped => x.out == NOTHING
       case Lingering(going, _) =>
         && x.out.pending == map[]
         && (going.Flushing? && going.at.Some? ==>
               x.recorded.Some? && x.recorded.value <= going.at.value <= |x.log|)
         && (going.NotFlushing? ==> x.out.ahead == [])
       case Reindexing(token, _, wanted, end, listed) =>
         && token <= |x.log| && (x.recorded.Some? ==> x.recorded.value <= token)
         && x.out.pending.Keys <= wanted && (listed ==> end && x.out.pending == map[])
       case Following(pos, position, last, handling, flush, _) =>
         && x.recorded.Some? && x.recorded.value <= pos <= |x.log|
         && (position.Some? ==> position.value <= pos && (last.None? ==> x.recorded.value <= position.value))
         && (last.Some? ==> x.recorded.value <= last.value <= pos)
         && (flush.Flushing? && flush.at.Some? ==>
               && x.recorded.value <= flush.at.value <= pos
               && (last.Some? ==> flush.at.value <= last.value)
               && (last.None? && position.Some? ==> flush.at.value <= position.value))
         && (handling.Some? ==> pos < |x.log|)
         && (flush.NotFlushing? ==> x.out.ahead == [])
  }

  /** Where entries pending start from: what a flush is about to record, or what is recorded. */
  function Base(x: World): nat
    requires x.run.Following? && x.recorded.Some?
  {
    if x.run.flush.Flushing? && x.run.flush.at.Some? then x.run.flush.at.value else x.recorded.value
  }

  ghost predicate FollowRight(c: Config, x: World)
    requires x.run.Following? && Shaped(x)
  {
    && (!x.run.failed ==> GoodSince(c, x, x.run.pos))
    && (x.run.flush.Flushing? && x.run.flush.at.Some? ==> ComingSince(c, x, x.run.flush.at.value))
    && PendingFits(c, x, Base(x))
    && (x.run.handling.Some? ==>
          var id := x.log[x.run.pos].id;
          Steady(c, x.log, x.run.pos + 1, id) ==> Fits(c, x.run.handling.value, ViewNow(c, x.log, id)))
  }

  ghost predicate RunRight(c: Config, x: World)
    requires Shaped(x)
  {
    match x.run
    case Stopped => true
    case Lingering(going, _) =>
      && (x.recorded.Some? ==> AheadFits(c, x, x.recorded.value))
      && (going.Flushing? && going.at.Some? ==> ComingSince(c, x, going.at.value))
    case Reindexing(token, _, _, _, listed) =>
      && (x.recorded.Some? ==> AheadFits(c, x, x.recorded.value) && PendingFits(c, x, x.recorded.value))
      && (if listed then ComingSince(c, x, token) else ScanRight(c, x))
    case Following(_, _, _, _, _, _) => AheadFits(c, x, x.recorded.value) && FollowRight(c, x)
  }

  ghost predicate Inv(c: Config, x: World) {
    && IsLog(c, x.log) && Shaped(x)
    && (x.recorded.Some? ==> SafeSince(c, x, x.recorded.value))
    && RunRight(c, x)
  }

  // ----- what one step does to a document that is steady

  lemma WriteKeepsInv(c: Config, x: World, e: Event)
    requires Inv(c, x) && Enabled(c, x, Write(e))
    ensures Inv(c, Do(c, x, Write(e)))
  {
    var y := Do(c, x, Write(e));
    LogGrows(c, x.log, e);
    forall p: nat, id | p <= |x.log| && Steady(c, y.log, p, id)
      ensures Steady(c, x.log, p, id) && ViewNow(c, y.log, id) == ViewNow(c, x.log, id)
    {
      SteadyBefore(c, x.log, e, p, id);
    }
  }

  lemma HeadServed(c: Config, x: World, ok: bool, id: Id)
    requires x.queue != [] && Sees(c, x, id)
    ensures Sees(c, Served(x, ok), id)
  {
    assert forall t | t in x.queue[1..] :: t in x.queue;
    assert x.queue[0] in x.queue;
  }

  lemma OwnServed(c: Config, x: World, id: Id)
    requires x.queue == [] && x.out.sent && x.out.ahead != [] && x.behind == []
    ensures Coming(c, x, id) ==> Coming(c, Served(x, true), id)
    ensures Good(c, x, id) ==> Good(c, Served(x, true), id)
    ensures Sees(c, x, id) && AllFit(c, x.out.ahead, id, ViewNow(c, x.log, id)) ==> Sees(c, Served(x, true), id)
  {
    var ahead := x.out.ahead;
    assert ahead[0] in ahead;
    assert forall t | t in ahead[1..] :: t in ahead;
    if Touches(ahead, id) && id !in Keys(ahead[0]) {
      var t :| t in ahead && id in Keys(t);
      assert t in ahead[1..];
    }
    if Touches(ahead[1..], id) {
      var t :| t in ahead[1..] && id in Keys(t);
      assert t in ahead;
    }
  }

  lemma QueueServedKeepsInv(c: Config, x: World, ok: bool)
    requires Inv(c, x) && x.queue != []
    ensures Inv(c, Served(x, ok))
  {
    var y := Served(x, ok);
    forall id | Sees(c, x, id) ensures Sees(c, y, id) { HeadServed(c, x, ok, id); }
  }

  lemma OwnServedKeepsInv(c: Config, x: World)
    requires Inv(c, x) && x.queue == [] && x.out.sent && x.out.ahead != []
    ensures Inv(c, Served(x, true))
  {
    var y := Served(x, true);
    assert forall t | t in y.out.ahead :: t in x.out.ahead;
    forall id
      ensures Coming(c, x, id) ==> Coming(c, y, id)
      ensures Good(c, x, id) ==> Good(c, y, id)
      ensures Sees(c, x, id) && AllFit(c, x.out.ahead, id, ViewNow(c, x.log, id)) ==> Sees(c, y, id)
    {
      OwnServed(c, x, id);
    }
  }

  lemma ReadScans(c: Config, x: World, id: Id, y: World, k: Id)
    requires x.run.Reindexing? && Enabled(c, x, Read(id)) && Scanned(c, x, k)
    requires y == Do(c, x, Read(id)) && y.run.Reindexing?
    ensures Scanned(c, y, k)
  {
    if k == id {
      assert c.transform(ViewNow(c, x.log, id).value).Send? ==>
        y.out.pending[id] == Upsert(c.transform(ViewNow(c, x.log, id).value).body);
    } else {
      assert Good(c, y, k) == Good(c, x, k);
      assert x.run.next <= k < id ==> ViewNow(c, x.log, k).None?;
    }
  }

  lemma ReadKeepsInv(c: Config, x: World, id: Id)
    requires Inv(c, x) && Enabled(c, x, Read(id))
    ensures Inv(c, Do(c, x, Read(id)))
  {
    var y := Do(c, x, Read(id));
    if y.run.Reindexing? {
      forall k | Steady(c, y.log, y.run.token, k) ensures Scanned(c, y, k) {
        ReadScans(c, x, id, y, k);
      }
    }
  }

  /** Whatever is listed and not wanted is rightly removed, and whatever is not listed was not to be there. */
  lemma Listed(c: Config, x: World, tasks: seq<Task>, id: Id)
    requires Inv(c, x) && Enabled(c, x, List(tasks)) && !c.late && Steady(c, x.log, x.run.token, id)
    ensures Coming(c, Do(c, x, List(tasks)), id)
    ensures AllFit(c, tasks, id, ViewNow(c, x.log, id))
  {
    assert Scanned(c, x, id) && !Touches([], id);
    assert Touches(tasks, id) <==> id in Unwanted(x);
  }

  lemma ListKeepsInv(c: Config, x: World, tasks: seq<Task>)
    requires Inv(c, x) && Enabled(c, x, List(tasks)) && !c.late
    ensures Inv(c, Do(c, x, List(tasks)))
  {
    forall id | Steady(c, x.log, x.run.token, id)
      ensures Coming(c, Do(c, x, List(tasks)), id)
      ensures AllFit(c, tasks, id, ViewNow(c, x.log, id))
    {
      Listed(c, x, tasks, id);
    }
    if x.recorded.Some? {
      assert forall id | Steady(c, x.log, x.recorded.value, id) :: Steady(c, x.log, x.run.token, id);
    }
  }

  lemma OpenKeepsInv(c: Config, x: World)
    requires Inv(c, x) && Enabled(c, x, Open) && Sound(c)
    ensures Inv(c, Do(c, x, Open))
  {
    var y := Do(c, x, Open);
    forall id | Steady(c, y.log, y.run.pos, id) ensures Good(c, y, id) {
      assert Sees(c, x, id) && !Touches([], id);
    }
  }

  /**
   No document is inserted soft-deleted, no post-image is gone, no listing runs ahead of older
   tasks, and no run begins beside a flush of an earlier one.
   */
  predicate Sound(c: Config) {
    !(c.softDeletes && c.bornDeleted) && !(c.images && c.expires) && !c.late && !c.overlaps
  }

  lemma FilteredKeepsInv(c: Config, x: World, look: nat, pre: bool, missing: bool)
    requires Inv(c, x) && Enabled(c, x, Hear(look, pre, missing)) && Sound(c)
    requires HeardAt(c, x.log, x.run.pos, look, pre, missing).Filtered?
    ensures Inv(c, Do(c, x, Hear(look, pre, missing)))
  {
    var y := Do(c, x, Hear(look, pre, missing));
    var pos := x.run.pos;
    forall id | Steady(c, x.log, pos + 1, id) ensures Good(c, y, id) {
      if id == x.log[pos].id { HeardRight(c, x.log, pos, look, pre, missing); } else
        { SteadyAcross(c, x.log, pos, id); }
      assert Good(c, x, id);
    }
  }

  /** What a change tells of its document fits the document, unless another change follows. */
  lemma ToldFits(c: Config, x: World, look: nat, pre: bool, missing: bool)
    requires IsLog(c, x.log) && Enabled(c, x, Hear(look, pre, missing)) && Sound(c)
    requires HeardAt(c, x.log, x.run.pos, look, pre, missing).Told?
    ensures var pos := x.run.pos;
            var entry := EntryFor(c, HeardAt(c, x.log, pos, look, pre, missing));
            Steady(c, x.log, pos + 1, x.log[pos].id) && entry.Some? ==>
              Fits(c, entry.value, ViewNow(c, x.log, x.log[pos].id))
  {
    if Steady(c, x.log, x.run.pos + 1, x.log[x.run.pos].id) { HeardRight(c, x.log, x.run.pos, look, pre, missing); }
  }

  lemma ToldKeepsInv(c: Config, x: World, look: nat, pre: bool, missing: bool)
    requires Inv(c, x) && Enabled(c, x, Hear(look, pre, missing)) && Sound(c)
    requires HeardAt(c, x.log, x.run.pos, look, pre, missing).Told?
    ensures Inv(c, Do(c, x, Hear(look, pre, missing)))
  {
    ToldFits(c, x, look, pre, missing);
    hide HeardAt, EntryFor, ViewNow, Steady, Fits;
  }

  lemma QueueKeepsInv(c: Config, x: World)
    requires Inv(c, x) && Enabled(c, x, Queue)
    ensures Inv(c, Do(c, x, Queue))
  {
    var y := Do(c, x, Queue);
    var pos := x.run.pos;
    var id := x.log[pos].id;
    forall k | Steady(c, x.log, pos + 1, k) && !x.run.failed ensures Good(c, y, k) {
      if k != id {
        SteadyAcross(c, x.log, pos, k);
        assert Good(c, x, k);
      }
    }
    assert Steady(c, x.log, Base(x), id) ==> Steady(c, x.log, pos + 1, id);
    assert Base(y) == Base(x);
  }

  lemma BeginKeepsInv(c: Config, x: World, tasks: seq<Task>)
    requires Inv(c, x) && Enabled(c, x, Begin(tasks))
    ensures Inv(c, Do(c, x, Begin(tasks)))
  {
    var y := Do(c, x, Begin(tasks));
    forall id
      ensures Good(c, x, id) ==> Coming(c, y, id)
      ensures id in x.out.pending && Fits(c, x.out.pending[id], ViewNow(c, x.log, id)) ==>
              AllFit(c, tasks, id, ViewNow(c, x.log, id))
      ensures id !in x.out.pending ==> AllFit(c, tasks, id, ViewNow(c, x.log, id))
    {
    }
    forall id | Steady(c, x.log, x.run.pos, id) ensures Coming(c, y, id) { assert Good(c, x, id); }
  }

  /** With nothing left to send, the point of a flush is safe to record. */
  lemma PointIsSafe(c: Config, x: World)
    requires Inv(c, x) && Going(x.run).Flushing? && Quiet(x.out) && Going(x.run).at.Some?
    ensures x.recorded.Some? && x.recorded.value <= Going(x.run).at.value && SafeSince(c, x, Going(x.run).at.value)
  {
    forall id | Steady(c, x.log, Going(x.run).at.value, id) ensures Sees(c, x, id) {
      assert Coming(c, x, id) && !Touches([], id);
    }
  }

  lemma RunRecords(c: Config, x: World, ok: bool, landed: bool, later: bool)
    requires Inv(c, x) && Enabled(c, x, Record(ok, landed, later)) && Sound(c) && x.run.Following?
    ensures Inv(c, Recorded(x, ok, landed, later))
  {
    var y := Recorded(x, ok, landed, later);
    if Going(x.run).at.Some? { PointIsSafe(c, x); }
    assert y.out == x.out;
    forall id ensures Good(c, y, id) == Good(c, x, id) && Sees(c, y, id) == Sees(c, x, id) {}
    assert PendingFits(c, y, Base(y));
  }

  lemma LingeringRecords(c: Config, x: World, ok: bool, landed: bool, later: bool)
    requires Inv(c, x) && Enabled(c, x, Record(ok, landed, later)) && Sound(c) && x.run.Lingering?
    ensures Inv(c, Recorded(x, ok, landed, later))
  {
    if Going(x.run).at.Some? { PointIsSafe(c, x); }
  }

  lemma RecordKeepsInv(c: Config, x: World, ok: bool, landed: bool, later: bool)
    requires Inv(c, x) && Enabled(c, x, Record(ok, landed, later)) && Sound(c)
    ensures Inv(c, Do(c, x, Record(ok, landed, later)))
  {
    if x.run.Following? { RunRecords(c, x, ok, landed, later); } else { LingeringRecords(c, x, ok, landed, later); }
  }

  lemma ReindexStepKeepsInv(c: Config, x: World, step: Step)
    requires Inv(c, x) && Enabled(c, x, step) && Sound(c)
    requires step.BeginReindex? || step.Read? || step.ReadEnd? || step.Page? || step.List? || step.RecordReindex?
    ensures Inv(c, Do(c, x, step))
  {
    if step.Read? { ReadKeepsInv(c, x, step.id); }
    if step.List? { ListKeepsInv(c, x, step.tasks); }
  }

  lemma FollowStepKeepsInv(c: Config, x: World, step: Step)
    requires Inv(c, x) && Enabled(c, x, step) && Sound(c)
    requires step.Open? || step.Hear? || step.Queue? || step.Place? || step.Begin? || step.Record?
    ensures Inv(c, Do(c, x, step))
  {
    if step.Open? { OpenKeepsInv(c, x); }
    else if step.Hear? {
      if HeardAt(c, x.log, x.run.pos, step.look, step.pre, step.missing).Filtered? {
        FilteredKeepsInv(c, x, step.look, step.pre, step.missing);
      } else {
        ToldKeepsInv(c, x, step.look, step.pre, step.missing);
      }
    }
    else if step.Queue? { QueueKeepsInv(c, x); }
    else if step.Begin? { BeginKeepsInv(c, x, step.tasks); }
    else if step.Record? { RecordKeepsInv(c, x, step.ok, step.landed, step.later); }
  }

  lemma ServeKeepsInv(c: Config, x: World, ok: bool)
    requires Inv(c, x) && Enabled(c, x, Serve(ok))
    ensures Inv(c, Do(c, x, Serve(ok)))
  {
    if x.queue != [] {
      QueueServedKeepsInv(c, x, ok);
    } else if ok {
      OwnServedKeepsInv(c, x);
    }
  }

  lemma NoStrays(c: Config, x: World)
    requires Inv(c, x)
    ensures x.strays == []
  {
  }

  /** Nothing is sent but what was to be sent. */
  lemma RequestKeepsInv(c: Config, x: World)
    requires Inv(c, x) && Enabled(c, x, Request)
    ensures Inv(c, Do(c, x, Request))
  {
  }

  lemma RefusedKeepsInv(c: Config, x: World, accepted: bool, later: bool)
    requires Inv(c, x) && Enabled(c, x, Refused(accepted, later)) && Sound(c)
    ensures Inv(c, Do(c, x, Refused(accepted, later)))
  {
  }

  /** A run that stops leaves its flush to go on, or only the request made. */
  lemma LeavingKeepsInv(c: Config, x: World, step: Step)
    requires Inv(c, x) && Enabled(c, x, step) && Sound(c) && (step.Close? || step.Stop?)
    ensures Inv(c, Do(c, x, step))
  {
  }

  lemma StepKeepsInv(c: Config, x: World, step: Step)
    requires Inv(c, x) && Enabled(c, x, step) && Sound(c)
    ensures Inv(c, Do(c, x, step))
  {
    if step.Write? { WriteKeepsInv(c, x, step.e); }
    else if step.Serve? { ServeKeepsInv(c, x, step.ok); }
    else if step.Request? { RequestKeepsInv(c, x); }
    else if step.Refused? { RefusedKeepsInv(c, x, step.accepted, step.later); }
    else if step.Close? || step.Stop? { LeavingKeepsInv(c, x, step); }
    else if step.StrayRequest? || step.StrayRefused? || step.StrayRecord? { NoStrays(c, x); }
    else if step.Open? || step.Hear? || step.Queue? || step.Place? || step.Begin? || step.Record?
      { FollowStepKeepsInv(c, x, step); }
    else { ReindexStepKeepsInv(c, x, step); }
  }

  lemma {:induction false} RunKeepsInv(c: Config, x: World, steps: seq<Step>)
    requires Inv(c, x) && IsRun(c, x, steps) && Sound(c)
    ensures Inv(c, End(c, x, steps))
    decreases |steps|
  {
    if steps != [] {
      StepKeepsInv(c, x, steps[0]);
      RunKeepsInv(c, Do(c, x, steps[0]), steps[1..]);
    }
  }

  // ----- what that means for the index

  /** What is recorded is a point from which nothing was missed. */
  ghost predicate Faithful(c: Config, x: World) {
    x.recorded.Some? ==> forall id | Steady(c, x.log, x.recorded.value, id) ::
      Matches(c, x.index, id, ViewNow(c, x.log, id))
  }

  /** At every moment of every run: whatever has not changed since what is recorded is in the index as it should be. */
  lemma RecordedIsFaithful(c: Config, x: World, steps: seq<Step>)
    requires Initial(x) && IsRun(c, x, steps) && Sound(c)
    ensures Faithful(c, End(c, x, steps))
  {
    RunKeepsInv(c, x, steps);
    var y := End(c, x, steps);
    if y.recorded.Some? {
      assert forall id | Steady(c, y.log, y.recorded.value, id) :: Sees(c, y, id);
    }
  }

  /** The index is what the transform makes of the collection, refused documents aside. */
  ghost predicate Exact(c: Config, index: Index, log: seq<Event>) {
    forall id: Id :: var v := ViewNow(c, log, id);
      (v.Some? && c.transform(v.value).Refuse?) || Matches(c, index, id, v)
  }

  function Replayed(c: Config, index: Index, id: Id, v: Option<Content>): Index {
    if v.None? then index - {id}
    else match c.transform(v.value)
      case Send(body) => index[id := body]
      case KeepOut => index - {id}
      case Refuse => index
  }

  /** Every change from a point on, each with the document as the change left it. */
  function ReplayFrom(c: Config, index: Index, log: seq<Event>, p: nat): Index
    requires p <= |log|
    decreases |log| - p
  {
    if p == |log| then index
    else ReplayFrom(c, Replayed(c, index, log[p].id, View(c, log[p].after)), log, p + 1)
  }

  ghost predicate RightSince(c: Config, index: Index, log: seq<Event>, p: nat) {
    forall id | Steady(c, log, p, id) :: var v := ViewNow(c, log, id);
      (v.Some? && c.transform(v.value).Refuse?) || Matches(c, index, id, v)
  }

  lemma {:induction false} ReplayIsExact(c: Config, index: Index, log: seq<Event>, p: nat)
    requires p <= |log| && RightSince(c, index, log, p)
    ensures Exact(c, ReplayFrom(c, index, log, p), log)
    decreases |log| - p
  {
    if p < |log| {
      var e := log[p];
      var next := Replayed(c, index, e.id, View(c, e.after));
      forall id | Steady(c, log, p + 1, id)
        ensures var v := ViewNow(c, log, id); (v.Some? && c.transform(v.value).Refuse?) || Matches(c, next, id, v)
      {
        assert ViewAt(c, log, p + 1, id) == ViewNow(c, log, id);
        if id != e.id { SteadyAcross(c, log, p, id); }
      }
      ReplayIsExact(c, next, log, p + 1);
    } else {
      assert forall id :: Steady(c, log, p, id);
    }
  }

  /**
   From any state a run reaches, replaying what follows the recorded point
   gives exactly the transform of the collection.
   */
  lemma Converges(c: Config, x: World, steps: seq<Step>)
    requires Initial(x) && IsRun(c, x, steps) && Sound(c) && End(c, x, steps).recorded.Some?
    ensures var y := End(c, x, steps);
            && y.recorded.value <= |y.log|
            && var index := ReplayFrom(c, y.index, y.log, y.recorded.value);
            forall id :: var v := ViewNow(c, y.log, id);
              v.None? || !c.transform(v.value).Refuse? ==>
                && (id in index <==> v.Some? && c.transform(v.value).Send?)
                && (id in index ==> c.transform(v.value) == Send(index[id]))
  {
    var y := End(c, x, steps);
    RunKeepsInv(c, x, steps);
    RecordedIsFaithful(c, x, steps);
    ReplayIsExact(c, y.index, y.log, y.recorded.value);
  }

  /** A follower that has heard every change and has nothing left to send has made the index exact. */
  lemma CaughtUp(c: Config, x: World, steps: seq<Step>)
    requires Initial(x) && IsRun(c, x, steps) && Sound(c)
    requires var y := End(c, x, steps);
             y.run.Following? && !y.run.failed && y.run.pos == |y.log| && y.out.pending == map[] && y.out.ahead == []
    ensures var y := End(c, x, steps);
            forall id :: var v := ViewNow(c, y.log, id);
              && (id in y.index <==> v.Some? && c.transform(v.value).Send?)
              && (id in y.index ==> c.transform(v.value) == Send(y.index[id]))
  {
    RunKeepsInv(c, x, steps);
    var y := End(c, x, steps);
    forall id ensures Matches(c, y.index, id, ViewNow(c, y.log, id)) {
      assert Steady(c, y.log, |y.log|, id) && Good(c, y, id) && !Touches([], id);
    }
  }

  /** Once a change was queued, a flush takes the point of the last one, never where the stream is. */
  lemma PointIsLast(c: Config, x: World, tasks: seq<Task>)
    requires Enabled(c, x, Begin(tasks)) && x.run.last.Some?
    ensures Do(c, x, Begin(tasks)).run.flush == Flushing(x.run.last)
  {
  }

  /** So what is recorded never gets past the last change queued. */
  lemma RecordedUpToLast(c: Config, x: World, steps: seq<Step>)
    requires Initial(x) && IsRun(c, x, steps) && Sound(c)
    requires var y := End(c, x, steps); y.run.Following? && y.run.last.Some?
    ensures var y := End(c, x, steps); y.recorded.Some? && y.recorded.value <= y.run.last.value
  {
    RunKeepsInv(c, x, steps);
  }

  /**
   And once it got there it stays, for as long as the process runs and no other change is queued,
   however far the stream moves on meanwhile.
   */
  lemma {:induction false} IdleStays(c: Config, x: World, more: seq<Step>)
    requires Inv(c, x) && Sound(c) && IsRun(c, x, more) && x.run.Following? && x.run.last.Some?
             && x.recorded == x.run.last
    requires forall step | step in more :: !step.Queue? && !step.Close? && !step.Stop?
    ensures End(c, x, more).recorded == x.recorded
    decreases |more|
  {
    if more != [] {
      IdleStep(c, x, more[0]);
      StepKeepsInv(c, x, more[0]);
      IdleStays(c, Do(c, x, more[0]), more[1..]);
    }
  }

  lemma IdleStep(c: Config, x: World, step: Step)
    requires Inv(c, x) && Enabled(c, x, step) && !step.Queue? && !step.Close? && !step.Stop?
    requires x.run.Following? && x.run.last.Some? && x.recorded == x.run.last
    ensures var y := Do(c, x, step); y.run.Following? && y.run.last == x.run.last && y.recorded == x.recorded
  {
  }

  /** A reindex that got to recording its point has indexed everything that did not change under it. */
  lemma ReindexIsFaithful(c: Config, x: World, steps: seq<Step>, id: Id)
    requires Initial(x) && IsRun(c, x, steps) && Sound(c)
    requires Enabled(c, End(c, x, steps), RecordReindex(true, true, false))
    requires Steady(c, End(c, x, steps).log, End(c, x, steps).run.token, id)
    ensures var y := End(c, x, steps); Matches(c, y.index, id, ViewNow(c, y.log, id))
  {
    RunKeepsInv(c, x, steps);
    var y := End(c, x, steps);
    assert Coming(c, y, id) && !Touches([], id);
  }

  // ----- and exactly when

  ghost predicate AlwaysFaithful(c: Config) {
    forall x, steps | Initial(x) && IsRun(c, x, steps) :: Faithful(c, End(c, x, steps))
  }

  lemma {:induction false} EndOfConcat(c: Config, x: World, first: seq<Step>, second: seq<Step>)
    requires IsRun(c, x, first) && IsRun(c, End(c, x, first), second)
    ensures IsRun(c, x, first + second)
    ensures End(c, x, first + second) == End(c, End(c, x, first), second)
    decreases |first|
  {
    if first == [] {
      assert first + second == second;
    } else {
      EndOfConcat(c, Do(c, x, first[0]), first[1..], second);
      assert (first + second)[1..] == first[1..] + second;
    }
  }

  lemma Extend(c: Config, x: World, steps: seq<Step>, step: Step) returns (longer: seq<Step>, y: World)
    requires IsRun(c, x, steps) && Enabled(c, End(c, x, steps), step)
    ensures IsRun(c, x, longer) && y == End(c, x, longer) == Do(c, End(c, x, steps), step)
  {
    longer := steps + [step];
    y := Do(c, End(c, x, steps), step);
    assert IsRun(c, End(c, x, steps), [step]) && End(c, End(c, x, steps), [step]) == y by {
      assert IsRun(c, y, []) && [step][1..] == [];
    }
    EndOfConcat(c, x, steps, [step]);
  }

  const START: World := World([], map[], [], None, Stopped, NOTHING, [], [])

  lemma CarriesOne(id: Id, entry: Entry)
    ensures Carries([TaskFor(id, entry)], map[id := entry])
  {
    var t := TaskFor(id, entry);
    assert t in [t] && id in Keys(t);
  }

  /** From a reindex just begun with nothing live left to read: it ends, finding nothing to remove. */
  lemma FinishesReindex(c: Config, x: World, steps: seq<Step>) returns (longer: seq<Step>, y: World)
    requires IsRun(c, x, steps)
    requires var s := End(c, x, steps);
             && s.run.Reindexing? && !s.run.end && !s.run.listed && s.out == NOTHING
             && (c.late || s.queue == []) && s.index.Keys <= s.run.wanted
             && forall other | other >= s.run.next :: ViewNow(c, s.log, other).None?
    ensures IsRun(c, x, longer) && y == End(c, x, longer)
    ensures var s := End(c, x, steps); y == s.(run := Stopped, recorded := Some(s.run.token))
  {
    longer, y := Extend(c, x, steps, ReadEnd);
    assert Unwanted(y) == map[];
    longer, y := Extend(c, x, longer, List([]));
    longer, y := Extend(c, x, longer, RecordReindex(true, true, false));
  }

  lemma HandlesNext(c: Config, x: World, steps: seq<Step>, missing: bool, entry: Entry)
      returns (longer: seq<Step>, y: World)
    requires IsRun(c, x, steps) && (missing ==> c.images && c.expires)
    requires var s := End(c, x, steps);
             && s.run.Following? && !s.run.failed && s.run.handling.None? && s.run.pos < |s.log|
             && var heard := HeardAt(c, s.log, s.run.pos, |s.log|, false, missing);
                heard.Told? && EntryFor(c, heard) == Some(entry)
    ensures IsRun(c, x, longer) && y == End(c, x, longer)
    ensures var s := End(c, x, steps); y == s.(run := s.run.(handling := Some(entry)))
  {
    longer, y := Extend(c, x, steps, Hear(|End(c, x, steps).log|, false, missing));
  }

  /** A follower hears the next change, and queues its entry. */
  lemma HearsNext(c: Config, x: World, steps: seq<Step>, missing: bool, entry: Entry)
      returns (longer: seq<Step>, y: World)
    requires IsRun(c, x, steps) && (missing ==> c.images && c.expires)
    requires var s := End(c, x, steps);
             && s.run.Following? && !s.run.failed && s.run.handling.None? && s.run.pos < |s.log|
             && var heard := HeardAt(c, s.log, s.run.pos, |s.log|, false, missing);
                heard.Told? && EntryFor(c, heard) == Some(entry)
    ensures IsRun(c, x, longer) && y == End(c, x, longer)
    ensures var s := End(c, x, steps);
            y == s.(run := s.run.(pos := s.run.pos + 1, last := Some(s.run.pos + 1)),
                    out := s.out.(pending := s.out.pending[s.log[s.run.pos].id := entry]))
  {
    longer, y := HandlesNext(c, x, steps, missing, entry);
    longer, y := Extend(c, x, longer, Queue);
  }

  /** A follower opened right behind the last change hears it. */
  lemma HearsOne(c: Config, x: World, steps: seq<Step>, missing: bool, entry: Entry)
      returns (longer: seq<Step>, y: World)
    requires IsRun(c, x, steps) && (missing ==> c.images && c.expires)
    requires var s := End(c, x, steps);
             && s.run.Stopped? && s.recorded.Some? && s.recorded.value + 1 == |s.log|
             && var heard := HeardAt(c, s.log, s.recorded.value, |s.log|, false, missing);
             heard.Told? && EntryFor(c, heard) == Some(entry)
    ensures IsRun(c, x, longer) && y == End(c, x, longer)
    ensures var s := End(c, x, steps);
            y == s.(run := Following(|s.log|, None, Some(|s.log|), None, NotFlushing, false),
                    out := Out(map[s.log[|s.log| - 1].id := entry], [], false))
  {
    longer, y := Extend(c, x, steps, Open);
    longer, y := HearsNext(c, x, longer, missing, entry);
  }

  function TaskFor(id: Id, entry: Entry): Task {
    if entry.Upsert? then Add(map[id := entry.body]) else Cut({id})
  }

  /** Its one entry pending is sent and served. */
  lemma SendsOne(c: Config, x: World, steps: seq<Step>, id: Id, entry: Entry) returns (longer: seq<Step>, y: World)
    requires IsRun(c, x, steps)
    requires var s := End(c, x, steps);
             && s.queue == [] && s.out == Out(map[id := entry], [], false)
             && s.run == Following(|s.log|, None, Some(|s.log|), None, NotFlushing, false)
    ensures IsRun(c, x, longer) && y == End(c, x, longer)
    ensures var s := End(c, x, steps);
            && y.log == s.log && y.index == Applied(s.index, TaskFor(id, entry)) && y.out == NOTHING
            && y.run == Following(|s.log|, None, Some(|s.log|), None, Flushing(Some(|s.log|)), false)
  {
    CarriesOne(id, entry);
    longer, y := Extend(c, x, steps, Begin([TaskFor(id, entry)]));
    longer, y := Extend(c, x, longer, Request);
    longer, y := Extend(c, x, longer, Serve(true));
  }

  /** A follower with one entry pending flushes it and records. */
  lemma FlushesOne(c: Config, x: World, steps: seq<Step>, id: Id, entry: Entry) returns (longer: seq<Step>, y: World)
    requires IsRun(c, x, steps)
    requires var s := End(c, x, steps);
             && s.queue == [] && s.out == Out(map[id := entry], [], false)
             && s.run == Following(|s.log|, None, Some(|s.log|), None, NotFlushing, false)
    ensures IsRun(c, x, longer) && y == End(c, x, longer)
    ensures var s := End(c, x, steps);
            y.log == s.log && y.recorded == Some(|s.log|) && y.index == Applied(s.index, TaskFor(id, entry))
  {
    longer, y := SendsOne(c, x, steps, id, entry);
    longer, y := Extend(c, x, longer, Record(true, true, false));
  }

  lemma FollowsOne(c: Config, x: World, steps: seq<Step>, missing: bool, entry: Entry)
      returns (longer: seq<Step>, y: World)
    requires IsRun(c, x, steps) && (missing ==> c.images && c.expires)
    requires var s := End(c, x, steps);
             && s.run.Stopped? && s.recorded.Some? && s.recorded.value + 1 == |s.log| && s.queue == []
             && var heard := HeardAt(c, s.log, s.recorded.value, |s.log|, false, missing);
             heard.Told? && EntryFor(c, heard) == Some(entry)
    ensures IsRun(c, x, longer) && y == End(c, x, longer)
    ensures var s := End(c, x, steps);
            y.log == s.log && y.recorded == Some(|s.log|) && y.index
              == Applied(s.index, TaskFor(s.log[|s.log| - 1].id, entry))
  {
    longer, y := HearsOne(c, x, steps, missing, entry);
    longer, y := FlushesOne(c, x, longer, y.log[|y.log| - 1].id, entry);
  }

  /** A document inserted with its soft-delete field set is told as created, and sent. */
  lemma BornDeletedIsSent(c: Config, content: Content)
    requires c.softDeletes && c.bornDeleted && c.transform(content).Send?
    ensures !AlwaysFaithful(c)
  {
    var steps, y := Extend(c, START, [], BeginReindex);
    steps, y := FinishesReindex(c, START, steps);
    var e := Event(0, Insert, Gone, Doc(content, true));
    steps, y := Extend(c, START, steps, Write(e));
    assert y.log == [e];
    steps, y := FollowsOne(c, START, steps, false, Upsert(c.transform(content).body));
    assert Steady(c, y.log, 1, 0) && !Matches(c, y.index, 0, ViewNow(c, y.log, 0));
  }

  /** A reindex of a collection of one document, up to its request being made. */
  lemma IndexesOne(c: Config, content: Content) returns (steps: seq<Step>, y: World)
    requires c.transform(content).Send?
    ensures IsRun(c, START, steps) && y == End(c, START, steps)
    ensures var t := Add(map[0 := c.transform(content).body]);
            y == World([Event(0, Insert, Gone, Doc(content, false))], map[], [], None,
              Reindexing(1, 1, {0}, false, false), Out(map[], [t], true), [], [])
  {
    var e := Event(0, Insert, Gone, Doc(content, false));
    var entry := Upsert(c.transform(content).body);
    steps, y := Extend(c, START, [], Write(e));
    assert y.log == [e];
    steps, y := Extend(c, START, steps, BeginReindex);
    steps, y := Extend(c, START, steps, Read(0));
    CarriesOne(0, entry);
    assert y.out.pending == map[0 := entry];
    steps, y := Extend(c, START, steps, Page([Add(map[0 := entry.body])]));
    steps, y := Extend(c, START, steps, Request);
  }

  lemma {:induction false} OnlyTheFirst(c: Config, log: seq<Event>)
    requires forall i | 0 <= i < |log| :: log[i].id == 0
    ensures forall other: Id | other > 0 :: ViewNow(c, log, other).None?
  {
    forall other: Id | other > 0 ensures ViewNow(c, log, other).None? { NoEventFor(log, |log|, other); }
  }

  lemma {:induction false} NoEventFor(log: seq<Event>, i: nat, id: Id)
    requires i <= |log| && forall j | 0 <= j < i :: log[j].id != id
    ensures VersionAt(log, i, id).Gone?
  {
    if i > 0 { NoEventFor(log, i - 1, id); }
  }

  /** An update whose post-image is gone comes without a document, which reads as a deletion. */
  lemma ExpiredImageIsCut(c: Config, content: Content)
    requires c.images && c.expires && c.transform(content).Send?
    ensures !AlwaysFaithful(c)
  {
    var steps, y := IndexesOne(c, content);
    steps, y := Extend(c, START, steps, Serve(true));
    assert y.out == NOTHING && y.index.Keys == {0};
    OnlyTheFirst(c, y.log);
    steps, y := FinishesReindex(c, START, steps);
    var e := Event(0, Update(None), Doc(content, false), Doc(content, false));
    steps, y := Extend(c, START, steps, Write(e));
    assert y.log[1] == e;
    steps, y := FollowsOne(c, START, steps, true, Remove);
    assert Steady(c, y.log, 2, 0) && !Matches(c, y.index, 0, ViewNow(c, y.log, 0));
  }

  /** A process dies with a batch sent; the document goes, another process reindexes, and the batch comes after. */
  lemma LateBatchComesBack(c: Config, content: Content)
    requires c.late && c.transform(content).Send?
    ensures !AlwaysFaithful(c)
  {
    var steps, y := IndexesOne(c, content);
    steps, y := Extend(c, START, steps, Stop(false, false));
    steps, y := Extend(c, START, steps, Write(Event(0, Delete, Doc(content, false), Gone)));
    OnlyTheFirst(c, y.log);
    steps, y := Extend(c, START, steps, BeginReindex);
    steps, y := FinishesReindex(c, START, steps);
    steps, y := Extend(c, START, steps, Serve(true));
    assert Steady(c, y.log, 2, 0) && !Matches(c, y.index, 0, ViewNow(c, y.log, 0));
  }

  /** Two documents and what becomes of them: the first is indexed, the second comes, the first goes. */
  function TwoDocuments(content: Content): seq<Event> {
    [Event(0, Insert, Gone, Doc(content, false)), Event(1, Insert, Gone, Doc(content, false)),
     Event(0, Delete, Doc(content, false), Gone)]
  }

  lemma IndexesTheFirst(c: Config, content: Content) returns (steps: seq<Step>, y: World)
    requires c.transform(content).Send?
    ensures IsRun(c, START, steps) && y == End(c, START, steps)
    ensures var index := map[0 := c.transform(content).body];
            y == World(TwoDocuments(content), index, [], Some(1), Stopped, NOTHING, [], [])
  {
    steps, y := IndexesOne(c, content);
    steps, y := Extend(c, START, steps, Serve(true));
    assert y.index == map[0 := c.transform(content).body];
    OnlyTheFirst(c, y.log);
    steps, y := FinishesReindex(c, START, steps);
    steps, y := Extend(c, START, steps, Write(TwoDocuments(content)[1]));
    steps, y := Extend(c, START, steps, Write(TwoDocuments(content)[2]));
    assert y.log == TwoDocuments(content);
  }

  lemma HearsBoth(c: Config, content: Content) returns (steps: seq<Step>, y: World)
    requires c.transform(content).Send?
    ensures IsRun(c, START, steps) && y == End(c, START, steps)
    ensures var body := c.transform(content).body;
            y == World(TwoDocuments(content), map[0 := body], [], Some(1),
                       Following(3, None, Some(3), None, NotFlushing, false),
                       Out(map[1 := Upsert(body), 0 := Remove], [], false), [], [])
  {
    steps, y := IndexesTheFirst(c, content);
    steps, y := Extend(c, START, steps, Open);
    steps, y := HearsNext(c, START, steps, false, Upsert(c.transform(content).body));
    steps, y := HearsNext(c, START, steps, false, Remove);
  }

  /** A follower flushes both changes, and its stream fails while it waits for the first of two requests. */
  lemma LeavesAFlush(c: Config, content: Content) returns (steps: seq<Step>, y: World)
    requires c.transform(content).Send?
    ensures IsRun(c, START, steps) && y == End(c, START, steps)
    ensures var body := c.transform(content).body;
            y == World(TwoDocuments(content), map[0 := body], [], Some(1), Lingering(Flushing(Some(3)), false),
                       Out(map[], [Add(map[1 := body]), Cut({0})], true), [], [])
  {
    var body := c.transform(content).body;
    steps, y := HearsBoth(c, content);
    CarriesTwo(body);
    steps, y := Extend(c, START, steps, Begin([Add(map[1 := body]), Cut({0})]));
    steps, y := Extend(c, START, steps, Request);
    steps, y := Extend(c, START, steps, Close(false));
  }

  lemma CarriesTwo(body: int)
    ensures Carries([Add(map[1 := body]), Cut({0})], map[1 := Upsert(body), 0 := Remove])
    ensures Carries([Add(map[1 := body, 0 := body])], map[1 := Upsert(body), 0 := Upsert(body)])
  {
    var add, cut, both := Add(map[1 := body]), Cut({0}), Add(map[1 := body, 0 := body]);
    assert add in [add, cut] && cut in [add, cut] && both in [both];
    assert 1 in Keys(add) && 0 in Keys(cut) && 0 in Keys(both) && 1 in Keys(both);
  }

  /** The first document is back, and the next follower hears all there was since the recorded point. */
  lemma FollowsBeside(c: Config, content: Content) returns (steps: seq<Step>, y: World)
    requires c.transform(content).Send? && c.overlaps
    ensures IsRun(c, START, steps) && y == End(c, START, steps)
    ensures var body := c.transform(content).body;
            y == World(TwoDocuments(content) + [Event(0, Insert, Gone, Doc(content, false))], map[0 := body],
                       [Add(map[1 := body])], Some(1), Following(4, None, Some(4), None, NotFlushing, false),
                       Out(map[1 := Upsert(body), 0 := Upsert(body)], [], false), [],
                       [Stray([Add(map[1 := body]), Cut({0})], Some(0), Some(3))])
  {
    var body := c.transform(content).body;
    steps, y := LeavesAFlush(c, content);
    steps, y := Extend(c, START, steps, Write(Event(0, Insert, Gone, Doc(content, false))));
    steps, y := Extend(c, START, steps, Open);
    steps, y := HearsNext(c, START, steps, false, Upsert(body));
    steps, y := HearsNext(c, START, steps, false, Remove);
    steps, y := HearsNext(c, START, steps, false, Upsert(body));
  }

  /** Its batch is made, and the server ends the earlier flush's first request. */
  lemma SendsBeside(c: Config, content: Content) returns (steps: seq<Step>, y: World)
    requires c.transform(content).Send? && c.overlaps
    ensures IsRun(c, START, steps) && y == End(c, START, steps)
    ensures var body := c.transform(content).body;
            y == World(TwoDocuments(content) + [Event(0, Insert, Gone, Doc(content, false))],
                       map[0 := body, 1 := body], [], Some(1),
                       Following(4, None, Some(4), None, Flushing(Some(4)), false),
                       Out(map[], [Add(map[1 := body, 0 := body])], true), [],
                       [Stray([Cut({0})], None, Some(3))])
  {
    var body := c.transform(content).body;
    steps, y := FollowsBeside(c, content);
    CarriesTwo(body);
    steps, y := Extend(c, START, steps, Begin([Add(map[1 := body, 0 := body])]));
    steps, y := Extend(c, START, steps, Request);
    steps, y := Extend(c, START, steps, Serve(true));
    assert [Add(map[1 := body]), Cut({0})][1..] == [Cut({0})];
    assert y.strays == [Stray([Cut({0})], None, Some(3))];
  }

  /** The earlier flush's second request comes in behind that batch. */
  lemma RequestsBeside(c: Config, content: Content) returns (steps: seq<Step>, y: World)
    requires c.transform(content).Send? && c.overlaps
    ensures IsRun(c, START, steps) && y == End(c, START, steps)
    ensures var body := c.transform(content).body;
            y == World(TwoDocuments(content) + [Event(0, Insert, Gone, Doc(content, false))],
                       map[0 := body, 1 := body], [], Some(1),
                       Following(4, None, Some(4), None, Flushing(Some(4)), false),
                       Out(map[], [Add(map[1 := body, 0 := body])], true), [Cut({0})],
                       [Stray([Cut({0})], Some(1), Some(3))])
  {
    steps, y := SendsBeside(c, content);
    steps, y := Extend(c, START, steps, StrayRequest(0));
    assert y.behind == [Cut({0})];
  }

  /** The batch is served, and its point recorded. */
  lemma RecordsBeside(c: Config, content: Content) returns (steps: seq<Step>, y: World)
    requires c.transform(content).Send? && c.overlaps
    ensures IsRun(c, START, steps) && y == End(c, START, steps)
    ensures var body := c.transform(content).body;
            y == World(TwoDocuments(content) + [Event(0, Insert, Gone, Doc(content, false))],
                       map[0 := body, 1 := body], [Cut({0})], Some(4),
                       Following(4, None, Some(4), None, NotFlushing, false), NOTHING, [],
                       [Stray([Cut({0})], Some(0), Some(3))])
  {
    steps, y := RequestsBeside(c, content);
    steps, y := Extend(c, START, steps, Serve(true));
    assert y.strays == [Stray([Cut({0})], Some(0), Some(3))];
    steps, y := Extend(c, START, steps, Record(true, true, false));
  }

  /** Then the request is served: the document is there, unchanged since the recorded point, and not in the index. */
  lemma LateFlushCutsIt(c: Config, content: Content)
    requires c.overlaps && c.transform(content).Send?
    ensures !AlwaysFaithful(c)
  {
    var steps, y := RecordsBeside(c, content);
    steps, y := Extend(c, START, steps, Serve(true));
    assert Steady(c, y.log, 4, 0) && !Matches(c, y.index, 0, ViewNow(c, y.log, 0));
  }

  /** With anything to send at all, the sync is faithful in every run exactly when the four things cannot happen. */
  lemma FaithfulExactly(c: Config, content: Content)
    requires c.transform(content).Send?
    ensures AlwaysFaithful(c) <==> Sound(c)
  {
    if Sound(c) {
      forall x, steps | Initial(x) && IsRun(c, x, steps) ensures Faithful(c, End(c, x, steps)) {
        RecordedIsFaithful(c, x, steps);
      }
    } else if c.late {
      LateBatchComesBack(c, content);
    } else if c.overlaps {
      LateFlushCutsIt(c, content);
    } else if c.softDeletes && c.bornDeleted {
      BornDeletedIsSent(c, content);
    } else {
      ExpiredImageIsCut(c, content);
    }
  }
}
