/**
 What holds of the search server's tasks and of what is recorded, whatever runs beside whatever.
 */
module Overlaps {
  // packages/mongo-meilisearch/src/run, on the state machine of `Sync`. Nothing is assumed here: runs
  // may begin beside flushes that go on, tasks may be late, and any request may fail or be lost.

  import opened Wrappers
  import opened Changes
  import opened Sync

  /** Nothing is sent without a request, and who does nothing has none. */
  predicate Tidy(x: World) {
    && (x.out.sent ==> x.out.ahead != []) && (!x.out.sent ==> x.behind == [])
    && (x.run.Stopped? ==> x.out == NOTHING)
    && (Going(x.run).NotFlushing? && !x.run.Reindexing? ==> x.out.ahead == [])
  }

  /** And who waits for a task waits for one that is with the server. */
  predicate Orderly(x: World) {
    Tidy(x) && forall i | 0 <= i < |x.strays| :: Waits(Waiting(x), x.strays[i])
  }

  predicate Waits(tasks: seq<Task>, s: Stray) {
    s.place.Some? ==> s.place.value < |tasks| && s.ahead != [] && tasks[s.place.value] == s.ahead[0]
  }

  /** The request a step makes that the server takes. */
  function Taken(x: World, step: Step): seq<Task> {
    match step
    case Request => if x.out.ahead != [] then [x.out.ahead[0]] else []
    case Refused(accepted, _) => if accepted && !x.out.sent && x.out.ahead != [] then [x.out.ahead[0]] else []
    case StrayRequest(i) => if i < |x.strays| && x.strays[i].ahead != [] then [x.strays[i].ahead[0]] else []
    case StrayRefused(i, accepted) =>
      if i < |x.strays| && x.strays[i].ahead != [] && accepted && x.strays[i].place.None? then [x.strays[i].ahead[0]]
      else []
    case _ => []
  }

  lemma WaitsStill(tasks: seq<Task>, more: seq<Task>, s: Stray)
    requires Waits(tasks, s)
    ensures Waits(tasks + more, s)
  {
  }

  lemma ServesTheOldest(c: Config, x: World, ok: bool)
    requires Orderly(x) && Enabled(c, x, Serve(ok))
    ensures var y := Do(c, x, Serve(ok));
            && Waiting(x) != [] && Waiting(y) == Waiting(x)[1..]
            && y.index == if ok then Applied(x.index, Waiting(x)[0]) else x.index
  {
    if x.queue == [] { assert x.queue + [x.out.ahead[0]] + x.behind == [x.out.ahead[0]] + x.behind; }
  }

  lemma StrayTakes(x: World, i: nat)
    requires Orderly(x) && i < |x.strays| && x.strays[i].ahead != []
    ensures Waiting(Joined(x, x.strays[i].ahead[0])) == Waiting(x) + [x.strays[i].ahead[0]]
  {
    var t := x.strays[i].ahead[0];
    var before := if x.out.sent then x.queue + [x.out.ahead[0]] else x.queue;
    assert before + (x.behind + [t]) == before + x.behind + [t];
  }

  /** A run that begins, ends or fails leaves what the server took where it was. */
  lemma LeavesInOrder(c: Config, x: World, step: Step)
    requires Orderly(x) && Enabled(c, x, step)
    requires step.BeginReindex? || step.Open? || step.Refused? || step.Stop?
    ensures Waiting(Do(c, x, step)) == Waiting(x) + Taken(x, step) && Do(c, x, step).index == x.index
  {
  }

  lemma StrayInOrder(c: Config, x: World, step: Step)
    requires Orderly(x) && Enabled(c, x, step) && (step.StrayRequest? || step.StrayRefused?)
    ensures Waiting(Do(c, x, step)) == Waiting(x) + Taken(x, step) && Do(c, x, step).index == x.index
  {
    StrayTakes(x, step.i);
  }

  lemma OthersInOrder(c: Config, x: World, step: Step)
    requires Orderly(x) && Enabled(c, x, step) && (step.Write? || step.Close? || step.StrayRecord?)
    ensures Waiting(Do(c, x, step)) == Waiting(x) + Taken(x, step) && Do(c, x, step).index == x.index
  {
  }

  lemma ReindexInOrder(c: Config, x: World, step: Step)
    requires Orderly(x) && Enabled(c, x, step)
    requires step.Read? || step.ReadEnd? || step.Page? || step.List? || step.RecordReindex?
    ensures Waiting(Do(c, x, step)) == Waiting(x) + Taken(x, step) && Do(c, x, step).index == x.index
  {
    hide ViewNow, Carries, Unwanted;
  }

  lemma FollowInOrder(c: Config, x: World, step: Step)
    requires Orderly(x) && Enabled(c, x, step)
    requires step.Hear? || step.Queue? || step.Place? || step.Begin? || step.Record? || step.Request?
    ensures Waiting(Do(c, x, step)) == Waiting(x) + Taken(x, step) && Do(c, x, step).index == x.index
  {
    hide HeardAt, EntryFor, Carries;
  }

  /**
   The server ends its tasks in the order it took them, and forgets none: a task taken waits behind all
   others until each of them has ended, whoever made the request and whoever died or gave up since.
   */
  lemma ServesInOrder(c: Config, x: World, step: Step)
    requires Orderly(x) && Enabled(c, x, step)
    ensures var y := Do(c, x, step);
            if step.Serve? then
              && Waiting(x) != [] && Waiting(y) == Waiting(x)[1..]
              && y.index == if step.ok then Applied(x.index, Waiting(x)[0]) else x.index
            else Waiting(y) == Waiting(x) + Taken(x, step) && y.index == x.index
  {
    hide Do, Enabled, Waiting, Orderly, Taken, Applied;
    if step.Serve? { ServesTheOldest(c, x, step.ok); }
    else if step.StrayRequest? || step.StrayRefused? { StrayInOrder(c, x, step); }
    else if step.BeginReindex? || step.Open? || step.Refused? || step.Stop? { LeavesInOrder(c, x, step); }
    else if step.Write? || step.Close? || step.StrayRecord? { OthersInOrder(c, x, step); }
    else if step.Hear? || step.Queue? || step.Place? || step.Begin? || step.Record? || step.Request? {
      FollowInOrder(c, x, step);
    } else {
      ReindexInOrder(c, x, step);
    }
  }

  // ----- a flush beside a later run

  /** The flush under way, as it goes on beside the run that begins. */
  predicate GoesOnAs(x: World, s: Stray)
    requires Going(x.run).Flushing?
  {
    && s.ahead == x.out.ahead && s.at == Going(x.run).at
    && (s.place.Some? <==> x.out.sent) && Waits(Waiting(x), s)
  }

  /** What a stopped stream's flush has left to do is neither lost nor done twice when the next run begins. */
  lemma GoesOnBeside(c: Config, x: World, step: Step)
    requires Orderly(x) && Enabled(c, x, step) && (step.BeginReindex? || step.Open?)
    ensures var y := Do(c, x, step);
            && y.out == NOTHING && y.recorded == x.recorded
            && if Going(x.run).Flushing? then
                 |y.strays| == |x.strays| + 1 && y.strays[..|x.strays|] == x.strays && GoesOnAs(x, y.strays[|x.strays|])
               else y.strays == x.strays
  {
  }

  /** One of the strays after a step: moved on by the task it waits for, or by a step of its own. */
  predicate MovedOn(x: World, step: Step, i: nat, s: Stray)
    requires i < |x.strays| && (x.strays[i].place.Some? ==> x.strays[i].ahead != [])
  {
    var was := x.strays[i];
    match step
    case Serve(ok) =>
      if was.place.None? then s == was
      else if was.place.value > 0 then s == was.(place := Some(was.place.value - 1))
      else if ok then s == Stray(was.ahead[1..], None, was.at)
      else s == OVER
    case StrayRequest(k) => s == if k == i then was.(place := Some(|Waiting(x)|)) else was
    case StrayRefused(k, _) => s == if k == i then OVER else was
    case StrayRecord(k, _, _) => s == if k == i then OVER else was
    case _ => s == was
  }

  /** What a step may add: the flush of a stopped stream, or a request or recording still on its way. */
  ghost predicate MayBeLeft(c: Config, x: World, step: Step, s: Stray)
    requires Enabled(c, x, step)
  {
    match step
    case BeginReindex => Going(x.run).Flushing? && GoesOnAs(x, s)
    case Open => Going(x.run).Flushing? && GoesOnAs(x, s)
    case RecordReindex(_, _, later) => later && s == Stray([], None, Some(x.run.token))
    case Record(_, _, later) => later && s.ahead == [] && s.place.None? && s.at == Going(x.run).at
    case Refused(_, later) => later && !x.out.sent && s == Stray([x.out.ahead[0]], None, None)
    case Stop(_, later) =>
      && later && s.place.None?
      && (s.ahead == [] || (x.out.ahead != [] && !x.out.sent && s.ahead == [x.out.ahead[0]] && s.at.None?))
      && (s.ahead == [] ==> x.out.ahead == [] && (Going(x.run).Flushing? || x.run.Reindexing?))
    case _ => false
  }

  lemma NoStrayIsLost(c: Config, x: World, step: Step)
    requires Orderly(x) && Enabled(c, x, step)
    ensures |Do(c, x, step).strays| >= |x.strays|
  {
    hide HeardAt, EntryFor, ViewNow, Carries, Possible, Unwanted, Applied, Waiting, Waits;
  }

  lemma EachMovesOn(c: Config, x: World, step: Step, i: nat)
    requires Orderly(x) && Enabled(c, x, step) && i < |x.strays| <= |Do(c, x, step).strays|
    ensures MovedOn(x, step, i, Do(c, x, step).strays[i])
  {
    hide HeardAt, EntryFor, ViewNow, Carries, Possible, Unwanted, Applied, Waiting;
  }

  lemma EachIsLeft(c: Config, x: World, step: Step, i: nat)
    requires Orderly(x) && Enabled(c, x, step) && |x.strays| <= i < |Do(c, x, step).strays|
    ensures MayBeLeft(c, x, step, Do(c, x, step).strays[i])
  {
    hide HeardAt, EntryFor, ViewNow, Carries, Possible, Unwanted, Applied;
    if step.BeginReindex? || step.Open? { GoesOnBeside(c, x, step); }
  }

  /** After a step each stray has moved on, or is as it was, and there is no other but what the step may leave. */
  lemma StraysMoveOn(c: Config, x: World, step: Step)
    requires Orderly(x) && Enabled(c, x, step)
    ensures var y := Do(c, x, step);
            && |y.strays| >= |x.strays|
            && (forall i | 0 <= i < |x.strays| :: MovedOn(x, step, i, y.strays[i]))
            && (forall i | |x.strays| <= i < |y.strays| :: MayBeLeft(c, x, step, y.strays[i]))
  {
    var y := Do(c, x, step);
    NoStrayIsLost(c, x, step);
    assert forall i | 0 <= i < |x.strays| :: Waits(Waiting(x), x.strays[i]);
    hide Do, Enabled, Orderly, MovedOn, MayBeLeft, Waiting;
    forall i | 0 <= i < |x.strays| ensures MovedOn(x, step, i, y.strays[i]) { EachMovesOn(c, x, step, i); }
    forall i | |x.strays| <= i < |y.strays| ensures MayBeLeft(c, x, step, y.strays[i]) { EachIsLeft(c, x, step, i); }
  }

  lemma StrayWaitsStill(c: Config, x: World, step: Step, i: nat)
    requires Orderly(x) && Enabled(c, x, step) && i < |x.strays|
    ensures Waits(Waiting(Do(c, x, step)), Do(c, x, step).strays[i])
  {
    StraysMoveOn(c, x, step);
    ServesInOrder(c, x, step);
    hide Do, Enabled, Waiting;
    assert Waits(Waiting(x), x.strays[i]) && MovedOn(x, step, i, Do(c, x, step).strays[i]);
  }

  lemma NewOnesWait(c: Config, x: World, step: Step, i: nat)
    requires Orderly(x) && Enabled(c, x, step) && |x.strays| <= i < |Do(c, x, step).strays|
    ensures Waits(Waiting(Do(c, x, step)), Do(c, x, step).strays[i])
  {
    EachIsLeft(c, x, step, i);
    ServesInOrder(c, x, step);
    hide Do, Enabled, Waiting, Orderly;
  }

  lemma StepIsTidy(c: Config, x: World, step: Step)
    requires Tidy(x) && Enabled(c, x, step)
    ensures Tidy(Do(c, x, step))
  {
    hide HeardAt, EntryFor, ViewNow, Carries, Possible, Unwanted, Applied, Waiting;
  }

  lemma StepIsOrderly(c: Config, x: World, step: Step)
    requires Orderly(x) && Enabled(c, x, step)
    ensures Orderly(Do(c, x, step))
  {
    var y := Do(c, x, step);
    StepIsTidy(c, x, step);
    forall i | 0 <= i < |y.strays| ensures Waits(Waiting(y), y.strays[i]) {
      if i < |x.strays| { StrayWaitsStill(c, x, step, i); } else { NewOnesWait(c, x, step, i); }
    }
    hide Do, Enabled, Waiting, Waits;
  }

  lemma {:induction false} RunIsOrderly(c: Config, x: World, steps: seq<Step>)
    requires Orderly(x) && IsRun(c, x, steps)
    ensures Orderly(End(c, x, steps))
    decreases |steps|
  {
    if steps != [] {
      StepIsOrderly(c, x, steps[0]);
      RunIsOrderly(c, Do(c, x, steps[0]), steps[1..]);
    }
  }

  // ----- what is recorded

  /** What a step records: the point of the flush or the reindex that ends, or nothing more. */
  ghost predicate Records(c: Config, x: World, step: Step, recorded: Option<nat>)
    requires Enabled(c, x, step)
  {
    match step
    case Record(ok, landed, _) =>
      recorded == if (ok || landed) && Going(x.run).at.Some? then Going(x.run).at else x.recorded
    case RecordReindex(ok, landed, _) => recorded == if ok || landed then Some(x.run.token) else x.recorded
    case StrayRecord(i, ok, landed) => recorded == if ok || landed then x.strays[i].at else x.recorded
    case Stop(forget, _) => recorded == if forget then None else x.recorded
    case _ => recorded == x.recorded
  }

  /**
   In every run, whatever runs beside whatever: the server serves its tasks in order and forgets none, a
   flush left behind goes on with what it had left, and only what ends records, and only its own point.
   */
  lemma EachStep(c: Config, x: World, steps: seq<Step>, step: Step)
    requires Initial(x) && IsRun(c, x, steps) && Enabled(c, End(c, x, steps), step)
    ensures var z := End(c, x, steps);
            var y := Do(c, z, step);
            && (if step.Serve? then
                  && Waiting(z) != [] && Waiting(y) == Waiting(z)[1..]
                  && y.index == if step.ok then Applied(z.index, Waiting(z)[0]) else z.index
                else Waiting(y) == Waiting(z) + Taken(z, step) && y.index == z.index)
            && |y.strays| >= |z.strays|
            && (forall i | 0 <= i < |z.strays| ::
                  Waits(Waiting(z), z.strays[i]) && MovedOn(z, step, i, y.strays[i]))
            && (forall i | |z.strays| <= i < |y.strays| :: MayBeLeft(c, z, step, y.strays[i]))
            && (step.BeginReindex? || step.Open? ==>
                  |y.strays| == |z.strays| + if Going(z.run).Flushing? then 1 else 0)
            && Records(c, z, step, y.recorded)
  {
    RunIsOrderly(c, x, steps);
    var z := End(c, x, steps);
    ServesInOrder(c, z, step);
    StraysMoveOn(c, z, step);
    if step.BeginReindex? || step.Open? { GoesOnBeside(c, z, step); }
    RecordsOnlyItsOwn(c, z, step);
    hide Do, Enabled, Waiting, Taken, MovedOn, MayBeLeft, Records, Applied;
  }

  lemma RecordsOnlyItsOwn(c: Config, x: World, step: Step)
    requires Enabled(c, x, step)
    ensures Records(c, x, step, Do(c, x, step).recorded)
  {
    hide HeardAt, EntryFor, ViewNow, Carries, Possible, Unwanted, Applied, Waiting;
  }
}
