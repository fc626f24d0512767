/**
 A semaphore that gives its places in the order they were asked for: packages/image/src/set/limit.ts.
 */
module Limit {
  // A waiter that is handed a place goes on only once the event loop comes to it, which is a step of
  // its own here: other code may run in between.

  /** A call of `limit`, numbered as it was made. */
  type Call = nat

  /**
   `running` and `waiting` are the source's. Of the calls out of the queue, `woken` were handed a place
   and have yet to go on, `active` run their task, and `finished` are over, whether or not they threw.
   `started` are those whose task has started, in the order they did.
   */
  datatype State = State(running: nat, waiting: seq<Call>, woken: seq<Call>, active: set<Call>, finished: set<Call>,
                         started: seq<Call>, calls: nat)

  /** `Ended`: a task returned or threw, and its `finally` runs. */
  datatype Event = Called | WentOn | Ended(call: Call)

  const INITIAL: State := State(0, [], [], {}, {}, [], 0)

  predicate Enabled(s: State, e: Event) {
    match e
    case Called => true
    case WentOn => s.woken != []
    case Ended(call) => call in s.active
  }

  function Start(s: State, call: Call): State {
    s.(active := s.active + {call}, started := s.started + [call])
  }

  function Next(max: nat, s: State, e: Event): State
    requires Enabled(s, e)
  {
    match e
    case Called =>
      if s.running < max then Start(s.(running := s.running + 1, calls := s.calls + 1), s.calls)
      else s.(waiting := s.waiting + [s.calls], calls := s.calls + 1)
    case WentOn => Start(s.(woken := s.woken[1..]), s.woken[0])
    case Ended(call) =>
      var over := s.(active := s.active - {call}, finished := s.finished + {call});
      if s.waiting != [] then over.(waiting := s.waiting[1..], woken := s.woken + [s.waiting[0]])
      else if s.running > 0 then over.(running := s.running - 1) else over
  }

  /** The limit itself. `State()` is what every step below is stated about. */
  class Limit {
    const max: nat
    var running: nat
    var waiting: seq<Call>
    var calls: nat
    ghost var woken: seq<Call>
    ghost var active: set<Call>
    ghost var finished: set<Call>
    ghost var started: seq<Call>

    ghost function Now(): State
      reads this
    {
      State(running, waiting, woken, active, finished, started, calls)
    }

    constructor (max: nat)
      ensures this.max == max && Now() == INITIAL
    {
      this.max, running, waiting, calls := max, 0, [], 0;
      woken, active, finished, started := [], {}, {}, [];
    }

    /** The call, up to where it starts its task or waits. */
    method Enter() returns (mayStart: bool)
      requires Inv(max, Now())
      modifies this
      ensures Now() == Next(max, old(Now()), Called) && Inv(max, Now())
      ensures mayStart <==> old(calls) in active
    {
      InvKept(max, Now(), Called);
      mayStart := running < max;
      if mayStart {
        running := running + 1;
        active, started := active + {calls}, started + [calls];
      } else {
        waiting := waiting + [calls];
      }
      calls := calls + 1;
    }

    /** The first of the woken goes on, to start its task. */
    method GoOn()
      requires Inv(max, Now()) && woken != []
      modifies this
      ensures Now() == Next(max, old(Now()), WentOn) && Inv(max, Now())
    {
      InvKept(max, Now(), WentOn);
      active, started, woken := active + {woken[0]}, started + [woken[0]], woken[1..];
    }

    /** `release`, once the task of `call` is over: whoever waits longest has its place, else nobody. */
    method Release(call: Call) returns (next: seq<Call>)
      requires Inv(max, Now()) && call in active
      modifies this
      ensures Now() == Next(max, old(Now()), Ended(call)) && Inv(max, Now())
      ensures woken == old(woken) + next && |next| == (if old(waiting) == [] then 0 else 1)
    {
      InvKept(max, Now(), Ended(call));
      active, finished := active - {call}, finished + {call};
      next := [];
      if waiting != [] {
        next := [waiting[0]];
        woken, waiting := woken + next, waiting[1..];
      } else {
        running := running - 1;
      }
    }
  }

  /** `from`, `from + 1` and so on. */
  ghost predicate Consecutive(s: seq<nat>, from: int) {
    forall i | 0 <= i < |s| :: s[i] == from + i
  }

  ghost predicate Increasing(s: seq<nat>) {
    forall i, j | 0 <= i < j < |s| :: s[i] < s[j]
  }

  /** How many calls have been given a place. */
  function Placed(s: State): int { s.calls - |s.waiting| }

  /** `running` is the number of places taken, within `max`, and calls wait only while all are. */
  ghost predicate Exact(max: nat, s: State) {
    s.running == |s.active| + |s.woken| <= max && (s.waiting != [] ==> s.running == max)
  }

  /** Places went to the first calls made: those waiting are exactly the later ones, in order. */
  ghost predicate Queued(s: State) {
    && 0 <= Placed(s) && Consecutive(s.waiting, Placed(s))
    && Increasing(s.woken) && forall c: Call | c in s.woken :: c < Placed(s)
  }

  /** Every call that was given a place is in one state only, and started once. */
  ghost predicate Spread(s: State) {
    && (forall c: Call :: c in s.active || c in s.finished || c in s.woken <==> c < Placed(s))
    && (forall c: Call ::
          && !(c in s.active && c in s.finished)
          && !(c in s.active && c in s.woken)
          && !(c in s.finished && c in s.woken))
    && (forall c: Call :: c in s.started <==> c in s.active || c in s.finished)
    && forall i, j | 0 <= i < j < |s.started| :: s.started[i] != s.started[j]
  }

  ghost predicate Inv(max: nat, s: State) {
    Exact(max, s) && Queued(s) && Spread(s)
  }

  lemma InvKept(max: nat, s: State, e: Event)
    requires Inv(max, s) && Enabled(s, e)
    ensures Inv(max, Next(max, s, e))
  {
    StaysExact(max, s, e);
    StaysQueued(max, s, e);
    StaysSpread(max, s, e);
  }

  lemma StaysExact(max: nat, s: State, e: Event)
    requires Inv(max, s) && Enabled(s, e)
    ensures Exact(max, Next(max, s, e))
  {
    match e {
      case Called => assert s.calls !in s.active;
      case WentOn => assert s.woken[0] in s.woken && s.woken[0] !in s.active;
      case Ended(call) => assert (s.active - {call}) + {call} == s.active;
    }
  }

  lemma StaysQueued(max: nat, s: State, e: Event)
    requires Inv(max, s) && Enabled(s, e)
    ensures Queued(Next(max, s, e))
  {
    assert s.running < max ==> s.waiting == [];
    hide Exact, Spread;
    var t := Next(max, s, e);
    match e {
      case Called =>
      case WentOn =>
        assert forall c | c in t.woken :: c in s.woken;
      case Ended(call) =>
        assert forall c | c in t.woken :: c in s.woken || c == Placed(s);
        assert forall i | 0 <= i < |s.woken| :: s.woken[i] in s.woken;
    }
  }

  lemma StaysSpread(max: nat, s: State, e: Event)
    requires Inv(max, s) && Enabled(s, e)
    ensures Spread(Next(max, s, e))
  {
    match e {
      case Called => CalledSpreads(max, s);
      case WentOn => WentOnSpreads(max, s);
      case Ended(call) => EndedSpreads(max, s, call);
    }
  }

  lemma CalledSpreads(max: nat, s: State)
    requires Inv(max, s)
    ensures Spread(Next(max, s, Called))
  {
    if s.running < max {
      assert s.waiting == [];
      hide Exact, Queued;
      assert s.calls !in s.active && s.calls !in s.finished && s.calls !in s.woken && s.calls !in s.started;
    }
  }

  lemma WentOnSpreads(max: nat, s: State)
    requires Inv(max, s) && s.woken != []
    ensures Spread(Next(max, s, WentOn))
  {
    var rest := s.woken[1..];
    assert s.woken == [s.woken[0]] + rest && s.woken[0] !in rest;
    hide Exact, Queued;
    assert forall c: Call :: c in s.woken <==> c == s.woken[0] || c in rest;
    assert s.woken[0] !in s.started;
  }

  lemma EndedSpreads(max: nat, s: State, call: Call)
    requires Inv(max, s) && call in s.active
    ensures Spread(Next(max, s, Ended(call)))
  {
    var t := Next(max, s, Ended(call));
    assert s.waiting != [] ==> s.waiting[0] == Placed(s);
    hide Exact, Queued;
    assert forall c: Call :: c in t.woken <==> c in s.woken || (s.waiting != [] && c == Placed(s));
  }

  // ----- Whole runs

  ghost predicate IsRun(max: nat, states: seq<State>, events: seq<Event>) {
    && |states| == |events| + 1 && states[0] == INITIAL
    && forall i | 0 <= i < |events| :: Enabled(states[i], events[i]) && states[i + 1] == Next(max, states[i], events[i])
  }

  lemma {:induction false} RunsKeepInv(max: nat, states: seq<State>, events: seq<Event>, i: nat)
    requires IsRun(max, states, events) && i < |states|
    ensures Inv(max, states[i])
  {
    if i > 0 {
      RunsKeepInv(max, states, events, i - 1);
      InvKept(max, states[i - 1], events[i - 1]);
    }
  }

  /** No task has started before that of an earlier call. */
  ghost predicate InOrder(s: State) { Consecutive(s.started, 0) }

  /** A call that finds a place free while a waiter that was handed one has yet to go on. */
  predicate Overtakes(max: nat, s: State, e: Event) {
    e.Called? && s.running < max && s.woken != []
  }

  lemma StepInOrder(max: nat, s: State, e: Event)
    requires Inv(max, s) && InOrder(s) && Enabled(s, e)
    ensures InOrder(Next(max, s, e)) <==> !Overtakes(max, s, e)
  {
    WokenAreNext(max, s);
    var t := Next(max, s, e);
    if Overtakes(max, s, e) {
      assert t.started[|s.started|] == s.calls > |s.started|;
    }
  }

  /** In order so far: what has started is the first calls, and the woken are those after, up to the last placed. */
  lemma WokenAreNext(max: nat, s: State)
    requires Inv(max, s) && InOrder(s)
    ensures |s.started| + |s.woken| == Placed(s) && Consecutive(s.woken, |s.started|)
  {
    var n := |s.started|;
    forall c: Call | c < n ensures c in s.started { assert s.started[c] == c; }
    forall c: Call | c in s.started ensures c < n { var i :| 0 <= i < n && s.started[i] == c; }
    assert n > 0 ==> s.started[n - 1] in s.started;
    assert forall c: Call :: c in s.woken <==> n <= c < Placed(s);
    assert forall i | 0 <= i < |s.woken| :: s.woken[i] in s.woken;
    IncreasingAndAllThere(s.woken, n, Placed(s));
  }

  lemma {:induction false} IncreasingAndAllThere(s: seq<nat>, from: nat, to: nat)
    requires Increasing(s) && from <= to
    requires (forall i | 0 <= i < |s| :: from <= s[i] < to) && forall c: nat | from <= c < to :: c in s
    ensures |s| == to - from && Consecutive(s, from)
    decreases |s|
  {
    assert from == to ==> s == [];
    if from < to {
      assert from in s;
      var k :| 0 <= k < |s| && s[k] == from;
      assert s[0] == from;
      var rest := s[1..];
      forall c: nat | from + 1 <= c < to ensures c in rest {
        assert c in s;
        var i :| 0 <= i < |s| && s[i] == c;
        assert rest[i - 1] == c;
      }
      IncreasingAndAllThere(rest, from + 1, to);
      assert s == [s[0]] + rest;
    }
  }

  /** Throughout a run tasks start in the order of the calls exactly when no call of it overtakes. */
  lemma {:induction false} InOrderExactly(max: nat, states: seq<State>, events: seq<Event>)
    requires IsRun(max, states, events)
    ensures (forall s | s in states :: InOrder(s)) <==> forall i | 0 <= i < |events| ::
            !Overtakes(max, states[i], events[i])
  {
    if forall s | s in states :: InOrder(s) {
      forall i | 0 <= i < |events| ensures !Overtakes(max, states[i], events[i]) {
        RunsKeepInv(max, states, events, i);
        assert states[i] in states && states[i + 1] in states;
        StepInOrder(max, states[i], events[i]);
      }
    }
    if forall i | 0 <= i < |events| :: !Overtakes(max, states[i], events[i]) {
      for i := 0 to |events|
        invariant forall k | 0 <= k <= i :: InOrder(states[k])
      {
        RunsKeepInv(max, states, events, i);
        StepInOrder(max, states[i], events[i]);
      }
    }
  }

  /** One place, and no call can overtake. */
  lemma OnePlaceIsInOrder(states: seq<State>, events: seq<Event>)
    requires IsRun(1, states, events)
    ensures forall s | s in states :: InOrder(s)
  {
    forall i | 0 <= i < |events| ensures !Overtakes(1, states[i], events[i]) {
      RunsKeepInv(1, states, events, i);
    }
    InOrderExactly(1, states, events);
  }

  /**
   With two places a later call can start first: two tasks end in one turn, the first of them waking
   the third call, and a fourth call is made before the third goes on.
   */
  lemma ALaterCallStartsFirst()
    ensures exists states: seq<State>, events: seq<Event> ::
              IsRun(2, states, events) && states[|events|].started == [0, 1, 3]
  {
    var events := [Called, Called, Called, Ended(0), Ended(1), Called];
    var s1 := Next(2, INITIAL, Called);
    var s2 := Next(2, s1, Called);
    var s3 := Next(2, s2, Called);
    var s4 := Next(2, s3, Ended(0));
    var s5 := Next(2, s4, Ended(1));
    var s6 := Next(2, s5, Called);
    var states := [INITIAL, s1, s2, s3, s4, s5, s6];
    assert IsRun(2, states, events);
  }

  /** Tasks that have yet to start or end: each `WentOn` and `Ended` brings it down. */
  function Left(s: State): nat { 3 * |s.waiting| + 2 * |s.woken| + |s.active| }

  /**
   No waiter is lost: while a call is not over, one that holds a place can go on or end; every such
   step brings the run nearer its end, and at the end every call has started and is over.
   */
  lemma NoneIsLost(max: nat, s: State)
    requires max > 0 && Inv(max, s)
    ensures forall e | Enabled(s, e) && !e.Called? :: Left(Next(max, s, e)) < Left(s)
    ensures (forall e | Enabled(s, e) :: e.Called?) <==> forall c: Call | c < s.calls :: c in s.finished
    ensures Left(s) == 0 <==> forall c: Call | c < s.calls :: c in s.finished
  {
    if s.active != {} { var c :| c in s.active; assert c < s.calls && c !in s.finished && Enabled(s, Ended(c)); }
    if s.woken != [] { assert s.woken[0] in s.woken && s.woken[0] < s.calls && s.woken[0] !in s.finished
      && Enabled(s, WentOn); }
    if s.waiting != [] { assert s.waiting[0] == Placed(s) && Placed(s) !in s.finished; }
  }
}
