/**
 That a search sync gets there: packages/mongo-meilisearch/src/run and src/sync.
 */
module Progress {
  // `Sync` says that nothing recorded is wrong, whatever fails. Here nothing fails any more and the
  // collection rests: from any state there is a way on, by the sync's own steps, to an exact index.

  import opened Wrappers
  import opened Changes
  import opened Sync

  /** The transform takes every document. */
  ghost predicate RefusesNothing(c: Config) {
    forall content :: !c.transform(content).Refuse?
  }

  /** A step in which nothing fails, is lost or changes the collection. */
  predicate IsSmooth(step: Step) {
    match step
    case Write(_) => false
    case Serve(ok) => ok
    case RecordReindex(ok, _, _) => ok
    case Record(ok, _, _) => ok
    case Refused(_, _) => false
    case Hear(_, _, missing) => !missing
    case Close(_) => false
    case Stop(_, _) => false
    case StrayRequest(_) => false
    case StrayRefused(_, _) => false
    case StrayRecord(_, _, _) => false
    case _ => true
  }

  /** A run from here to there in which nothing fails. */
  ghost predicate Leads(c: Config, x: World, steps: seq<Step>, y: World) {
    IsRun(c, x, steps) && y == End(c, x, steps) && y.log == x.log && forall step | step in steps :: IsSmooth(step)
  }

  /** The same, but that a run which failed is closed first. */
  ghost predicate LeadsOnceClosed(c: Config, x: World, steps: seq<Step>, y: World) {
    && IsRun(c, x, steps) && y == End(c, x, steps) && y.log == x.log
    && forall step | step in steps :: IsSmooth(step) || step == Close(false) || step == Stop(false, false)
  }

  lemma Rests(c: Config, x: World)
    ensures Leads(c, x, [], x)
  {
  }

  lemma Takes(c: Config, x: World, step: Step, more: seq<Step>, y: World)
    requires Enabled(c, x, step) && IsSmooth(step) && Leads(c, Do(c, x, step), more, y) && Do(c, x, step).log == x.log
    ensures Leads(c, x, [step] + more, y)
  {
    assert ([step] + more)[1..] == more;
  }

  lemma Joins(c: Config, x: World, first: seq<Step>, y: World, second: seq<Step>, z: World)
    requires Leads(c, x, first, y) && Leads(c, y, second, z)
    ensures Leads(c, x, first + second, z)
  {
    EndOfConcat(c, x, first, second);
  }

  lemma JoinsOnceClosed(c: Config, x: World, first: seq<Step>, y: World, second: seq<Step>, z: World)
    requires LeadsOnceClosed(c, x, first, y) && LeadsOnceClosed(c, y, second, z)
    ensures LeadsOnceClosed(c, x, first + second, z)
  {
    EndOfConcat(c, x, first, second);
  }

  // ----- the server ends what there is

  /** The tasks waiting are ended, and the requests to make are made and ended. */
  lemma {:induction false} Drains(c: Config, x: World) returns (steps: seq<Step>, y: World)
    requires Inv(c, x) && Sound(c)
    ensures Leads(c, x, steps, y) && Inv(c, y)
    ensures y.queue == [] && Quiet(y.out) && y.run == x.run && y.recorded == x.recorded
    ensures y.out.pending == x.out.pending
    decreases |x.queue| + 2 * |x.out.ahead| + if x.out.sent then 0 else 1
  {
    if x.queue == [] && x.out.ahead == [] {
      Rests(c, x);
      steps, y := [], x;
    } else {
      var step := if x.queue == [] && !x.out.sent then Request else Serve(true);
      StepKeepsInv(c, x, step);
      var more;
      more, y := Drains(c, Do(c, x, step));
      Takes(c, x, step, more, y);
      steps := [step] + more;
    }
  }

  /** Requests for entries there are: one of documents, one of ids. */
  lemma CanCarry(entries: Entries) returns (tasks: seq<Task>)
    ensures Carries(tasks, entries)
  {
    var add := Add(map id | id in entries && entries[id].Upsert? :: entries[id].body);
    var cut := Cut(set id | id in entries && entries[id].Remove?);
    tasks := [add, cut];
    forall id | id in entries ensures Touches(tasks, id) {
      assert add in tasks && cut in tasks && (id in Keys(add) || id in Keys(cut));
    }
  }

  // ----- a follower

  /** With a transform that takes everything, hearing a change never stops a follower. */
  lemma HearingGoesOn(c: Config, x: World, look: nat, pre: bool, missing: bool)
    requires Enabled(c, x, Hear(look, pre, missing)) && RefusesNothing(c)
    ensures var y := Do(c, x, Hear(look, pre, missing));
            && y.run.Following? && !y.run.failed
            && y.run.pos == (if y.run.handling.None? then x.run.pos + 1 else x.run.pos)
  {
  }

  /** It hears every change there is, and queues what each makes. */
  lemma {:induction false} HearsAll(c: Config, x: World) returns (steps: seq<Step>, y: World)
    requires Inv(c, x) && Sound(c) && RefusesNothing(c) && x.run.Following? && !x.run.failed
    requires x.run.flush.NotFlushing?
    ensures Leads(c, x, steps, y) && Inv(c, y)
    ensures y.run.Following? && !y.run.failed && y.run.pos == |y.log| && y.run.handling.None?
    ensures y.run.flush.NotFlushing?
    decreases 2 * (|x.log| - x.run.pos) - if x.run.handling.Some? then 1 else 0
  {
    if x.run.handling.None? && x.run.pos == |x.log| {
      Rests(c, x);
      steps, y := [], x;
    } else {
      var step := if x.run.handling.Some? then Queue else Hear(|x.log|, false, false);
      if step.Hear? { HearingGoesOn(c, x, |x.log|, false, false); }
      StepKeepsInv(c, x, step);
      var more;
      more, y := HearsAll(c, Do(c, x, step));
      Takes(c, x, step, more, y);
      steps := [step] + more;
    }
  }

  /** What is under way is sent, and its point recorded. */
  lemma EndsItsFlush(c: Config, x: World) returns (steps: seq<Step>, y: World)
    requires Inv(c, x) && Sound(c) && x.run.Following? && !x.run.failed
    ensures Leads(c, x, steps, y) && Inv(c, y)
    ensures y.run == x.run.(flush := NotFlushing) && y.out == Out(x.out.pending, [], false)
  {
    var first, z := Drains(c, x);
    if z.run.flush.Flushing? {
      var step := Record(true, true, false);
      StepKeepsInv(c, z, step);
      y := Do(c, z, step);
      Rests(c, y);
      Takes(c, z, step, [], y);
      Joins(c, x, first, z, [step], y);
      steps := first + [step];
    } else {
      steps, y := first, z;
    }
  }

  lemma FlushesAll(c: Config, x: World) returns (steps: seq<Step>, y: World)
    requires Inv(c, x) && Sound(c) && x.run.Following? && !x.run.failed && x.run.flush.NotFlushing?
    requires x.run.pos == |x.log|
    ensures Leads(c, x, steps, y) && Inv(c, y)
    ensures y.run.Following? && !y.run.failed && y.run.pos == |y.log| && y.out == NOTHING
  {
    var tasks := CanCarry(x.out.pending);
    StepKeepsInv(c, x, Begin(tasks));
    var z := Do(c, x, Begin(tasks));
    var more;
    more, y := EndsItsFlush(c, z);
    Takes(c, x, Begin(tasks), more, y);
    steps := [Begin(tasks)] + more;
  }

  /** Nothing pending, nothing to send, every change heard: the index is exact. */
  lemma NothingIsMissing(c: Config, x: World)
    requires Inv(c, x) && x.run.Following? && !x.run.failed && x.run.pos == |x.log| && x.out == NOTHING
    ensures forall id :: Matches(c, x.index, id, ViewNow(c, x.log, id))
  {
    forall id ensures Matches(c, x.index, id, ViewNow(c, x.log, id)) {
      assert Steady(c, x.log, |x.log|, id) && Good(c, x, id) && !Touches([], id);
    }
  }

  /** A follower that has not failed goes on by itself to an exact index. */
  lemma FollowerCatchesUp(c: Config, x: World) returns (steps: seq<Step>, y: World)
    requires Inv(c, x) && Sound(c) && RefusesNothing(c) && x.run.Following? && !x.run.failed
    ensures Leads(c, x, steps, y) && forall id :: Matches(c, y.index, id, ViewNow(c, y.log, id))
  {
    var first, a := EndsItsFlush(c, x);
    var second, b := HearsAll(c, a);
    Joins(c, x, first, a, second, b);
    var third;
    third, y := FlushesAll(c, b);
    Joins(c, x, first + second, b, third, y);
    NothingIsMissing(c, y);
    steps := first + second + third;
  }

  // ----- a reindex

  /** Ids from here on belong to no document. */
  function Bound(log: seq<Event>): nat {
    if log == [] then 0
    else
      var before, id := Bound(log[..|log| - 1]), log[|log| - 1].id;
      if id < before then before else id + 1
  }

  lemma {:induction false} PastTheBound(log: seq<Event>)
    ensures forall i | 0 <= i < |log| :: log[i].id < Bound(log)
  {
    if log != [] {
      var before := log[..|log| - 1];
      PastTheBound(before);
      assert forall i | 0 <= i < |before| :: log[i] == before[i];
    }
  }

  lemma NoneLive(c: Config, log: seq<Event>)
    ensures forall id: Id | id >= Bound(log) :: ViewNow(c, log, id).None?
  {
    forall id: Id | id >= Bound(log) ensures ViewNow(c, log, id).None? {
      PastTheBound(log);
      NoEventFor(log, |log|, id);
    }
  }

  /** The next live document, if there is one. */
  lemma NextLive(c: Config, log: seq<Event>, from: Id) returns (id: Option<Id>)
    ensures id.Some? ==> id.value >= from && ViewNow(c, log, id.value).Some?
                         && forall other | from <= other < id.value :: ViewNow(c, log, other).None?
    ensures id.None? ==> forall other: Id | other >= from :: ViewNow(c, log, other).None?
  {
    NoneLive(c, log);
    var k := from;
    while k < Bound(log)
      invariant k >= from && forall other | from <= other < k :: ViewNow(c, log, other).None?
      decreases Bound(log) - k
    {
      if ViewNow(c, log, k).Some? { return Some(k); }
      k := k + 1;
    }
    id := None;
  }

  /** Every document left is read. */
  lemma {:induction false} ReadsAll(c: Config, x: World) returns (steps: seq<Step>, y: World)
    requires Inv(c, x) && Sound(c) && RefusesNothing(c) && x.run.Reindexing? && !x.run.listed && Quiet(x.out)
    requires x.queue == []
    ensures Leads(c, x, steps, y) && Inv(c, y)
    ensures y.run.Reindexing? && y.run.end && !y.run.listed && Quiet(y.out) && y.queue == []
    decreases !x.run.end, Bound(x.log) - x.run.next
  {
    if x.run.end {
      Rests(c, x);
      steps, y := [], x;
    } else {
      var id := NextLive(c, x.log, x.run.next);
      var step := if id.Some? then Read(id.value) else ReadEnd;
      NoneLive(c, x.log);
      StepKeepsInv(c, x, step);
      var more;
      more, y := ReadsAll(c, Do(c, x, step));
      Takes(c, x, step, more, y);
      steps := [step] + more;
    }
  }

  /** A page is sent. */
  lemma SendsAll(c: Config, x: World) returns (steps: seq<Step>, y: World)
    requires Inv(c, x) && Sound(c) && x.run.Reindexing? && !x.run.listed && Quiet(x.out)
    ensures Leads(c, x, steps, y) && Inv(c, y) && y.run == x.run && y.out == NOTHING && y.queue == []
  {
    var tasks := CanCarry(x.out.pending);
    StepKeepsInv(c, x, Page(tasks));
    var more;
    more, y := Drains(c, Do(c, x, Page(tasks)));
    Takes(c, x, Page(tasks), more, y);
    steps := [Page(tasks)] + more;
  }

  /** The index is listed, and what is unwanted taken out. */
  lemma RemovesAll(c: Config, x: World) returns (steps: seq<Step>, y: World)
    requires Inv(c, x) && Sound(c) && x.run.Reindexing? && x.run.end && !x.run.listed
    requires x.out == NOTHING && x.queue == []
    ensures Leads(c, x, steps, y) && Inv(c, y)
    ensures y.run.Reindexing? && y.run.listed && Quiet(y.out)
  {
    var tasks := CanCarry(Unwanted(x));
    StepKeepsInv(c, x, List(tasks));
    var more;
    more, y := Drains(c, Do(c, x, List(tasks)));
    Takes(c, x, List(tasks), more, y);
    steps := [List(tasks)] + more;
  }

  lemma ListsAll(c: Config, x: World) returns (steps: seq<Step>, y: World)
    requires Inv(c, x) && Sound(c) && RefusesNothing(c) && x.run.Reindexing?
    ensures Leads(c, x, steps, y) && Inv(c, y)
    ensures y.run.Reindexing? && y.run.listed && Quiet(y.out)
  {
    var first, a := Drains(c, x);
    if a.run.listed { return first, a; }
    var second, b := ReadsAll(c, a);
    Joins(c, x, first, a, second, b);
    var third, d := SendsAll(c, b);
    Joins(c, x, first + second, b, third, d);
    var fourth;
    fourth, y := RemovesAll(c, d);
    Joins(c, x, first + second + third, d, fourth, y);
    steps := first + second + third + fourth;
  }

  /** A reindex goes on to its end, and records its point. */
  lemma ReindexEnds(c: Config, x: World) returns (steps: seq<Step>, y: World)
    requires Inv(c, x) && Sound(c) && RefusesNothing(c) && x.run.Reindexing?
    ensures Leads(c, x, steps, y) && Inv(c, y) && y.run.Stopped? && y.recorded.Some?
  {
    var first, z := ListsAll(c, x);
    var step := RecordReindex(true, true, false);
    StepKeepsInv(c, z, step);
    y := Do(c, z, step);
    Rests(c, y);
    Takes(c, z, step, [], y);
    Joins(c, x, first, z, [step], y);
    steps := first + [step];
  }

  // ----- whatever there is

  lemma OpensAndCatchesUp(c: Config, x: World) returns (steps: seq<Step>, y: World)
    requires Inv(c, x) && Sound(c) && RefusesNothing(c) && x.run.Stopped? && x.recorded.Some?
    ensures Leads(c, x, steps, y) && forall id :: Matches(c, y.index, id, ViewNow(c, y.log, id))
  {
    StepKeepsInv(c, x, Open);
    var more;
    more, y := FollowerCatchesUp(c, Do(c, x, Open));
    Takes(c, x, Open, more, y);
    steps := [Open] + more;
  }

  lemma ReindexCatchesUp(c: Config, x: World) returns (steps: seq<Step>, y: World)
    requires Inv(c, x) && Sound(c) && RefusesNothing(c) && x.run.Reindexing?
    ensures Leads(c, x, steps, y) && forall id :: Matches(c, y.index, id, ViewNow(c, y.log, id))
  {
    var first, z := ReindexEnds(c, x);
    var second;
    second, y := OpensAndCatchesUp(c, z);
    Joins(c, x, first, z, second, y);
    steps := first + second;
  }

  /** `start`, from where nothing runs: at the recorded point, or with a reindex. */
  lemma StartCatchesUp(c: Config, x: World) returns (steps: seq<Step>, y: World)
    requires Inv(c, x) && Sound(c) && RefusesNothing(c) && x.run.Stopped?
    ensures Leads(c, x, steps, y) && forall id :: Matches(c, y.index, id, ViewNow(c, y.log, id))
  {
    if x.recorded.Some? {
      steps, y := OpensAndCatchesUp(c, x);
    } else {
      StepKeepsInv(c, x, BeginReindex);
      var more;
      more, y := ReindexCatchesUp(c, Do(c, x, BeginReindex));
      Takes(c, x, BeginReindex, more, y);
      steps := [BeginReindex] + more;
    }
  }

  /** The flush of a stream that stopped goes on to its end, and its point is recorded. */
  lemma EndsItsLastFlush(c: Config, x: World) returns (steps: seq<Step>, y: World)
    requires Inv(c, x) && Sound(c) && x.run.Lingering? && x.run.going.Flushing?
    ensures Leads(c, x, steps, y) && Inv(c, y) && y.out == NOTHING
    ensures y.run == Lingering(NotFlushing, x.run.clean)
    ensures y.recorded == if x.run.going.at.Some? then x.run.going.at else x.recorded
  {
    var first, z := Drains(c, x);
    var step := Record(true, true, false);
    StepKeepsInv(c, z, step);
    y := Do(c, z, step);
    Rests(c, y);
    Takes(c, z, step, [], y);
    Joins(c, x, first, z, [step], y);
    steps := first + [step];
  }

  /** A run that failed, or whose stream stopped, is let go of. */
  lemma Closes(c: Config, x: World) returns (steps: seq<Step>, y: World)
    requires Inv(c, x) && Sound(c) && (x.run.Following? || x.run.Lingering?)
    ensures LeadsOnceClosed(c, x, steps, y) && Inv(c, y) && y.run.Stopped?
  {
    var before := if x.run.Following? then [Close(false)] else [];
    if x.run.Following? { StepKeepsInv(c, x, Close(false)); }
    var z := if x.run.Following? then Do(c, x, Close(false)) else x;
    assert [Close(false)][1..] == [] && [Stop(false, false)][1..] == [];
    assert LeadsOnceClosed(c, x, before, z);
    StepKeepsInv(c, z, Stop(false, false));
    y := Do(c, z, Stop(false, false));
    assert LeadsOnceClosed(c, z, [Stop(false, false)], y);
    JoinsOnceClosed(c, x, before, z, [Stop(false, false)], y);
    steps := before + [Stop(false, false)];
  }

  /**
   From every state a run reaches: once nothing fails and the collection rests, the sync gets to an
   exact index, a run that had failed being closed first and one that had not going on by itself.
   */
  lemma CatchesUp(c: Config, x: World, before: seq<Step>) returns (steps: seq<Step>, y: World)
    requires Initial(x) && IsRun(c, x, before) && Sound(c) && RefusesNothing(c)
    ensures var z := End(c, x, before);
            && LeadsOnceClosed(c, z, steps, y)
            && ((z.run.Following? ==> !z.run.failed) && !z.run.Lingering? ==> Leads(c, z, steps, y))
    ensures forall id :: var v := ViewNow(c, y.log, id);
              && (id in y.index <==> v.Some? && c.transform(v.value).Send?)
              && (id in y.index ==> c.transform(v.value) == Send(y.index[id]))
  {
    RunKeepsInv(c, x, before);
    var z := End(c, x, before);
    if z.run.Stopped? {
      steps, y := StartCatchesUp(c, z);
    } else if z.run.Reindexing? {
      steps, y := ReindexCatchesUp(c, z);
    } else if z.run.Following? && !z.run.failed {
      steps, y := FollowerCatchesUp(c, z);
    } else {
      var first, a := Closes(c, z);
      var second;
      second, y := StartCatchesUp(c, a);
      JoinsOnceClosed(c, z, first, a, second, y);
      steps := first + second;
    }
  }
}
