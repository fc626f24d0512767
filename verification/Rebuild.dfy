/**
 An index filled under another name, then exchanged with the live one:
 packages/meilisearch/src/sync/rebuild-index.ts, with sync-index.ts.
 */
module Rebuild {
  // The server may fail any task and lose any answer; it ends its tasks in the order it took them. An
  // index is the writes it took; nobody but the rebuild writes to either, and no task of an earlier
  // run still waits when one starts.

  import opened Wrappers

  type Docs = seq<nat>

  datatype Task = Create | Settings | Write(w: nat) | Swap(rename: bool) | Delete

  /** The live index and the next one, every task taken, and how the ones done so far ended. */
  datatype Server = Server(live: Option<Docs>, next: Option<Docs>, tasks: seq<Task>, ended: seq<bool>)

  /** What a task does, when it can be done. */
  function Done(s: Server, t: Task): Option<Server> {
    match t
    case Create => if s.next.Some? then None else Some(s.(next := Some([])))
    case Settings => if s.next.None? then None else Some(s)
    case Write(w) => Some(s.(next := Some((if s.next.Some? then s.next.value else []) + [w])))
    case Swap(rename) =>
      if rename then if s.next.Some? && s.live.None? then Some(s.(live := s.next, next := None)) else None
      else if s.next.Some? && s.live.Some? then Some(s.(live := s.next, next := s.live))
      else None
    case Delete => if s.next.None? then None else Some(s.(next := None))
  }

  /** The oldest task that waits ends; one that could be done may fail all the same. */
  function Served(s: Server, ok: bool): Server
    requires |s.ended| < |s.tasks|
  {
    var done := Done(s, s.tasks[|s.ended|]);
    if ok && done.Some? then done.value.(ended := s.ended + [true]) else s.(ended := s.ended + [false])
  }

  datatype Stop = WhileCreating | WhileFilling | WhileSwapping

  /**
   Where `rebuildIndex` is; `t` is the task it waits for, `since` the one that created the next index.
   `settle` has three: about to read what waits, waiting for what it read, and, once it read that
   nothing waits, about to read what failed.
   */
  datatype Phase =
    | Starting
    | ToDelete
    | DeletingLeftover(t: nat)
    | ToCreate
    | Creating(t: nat)
    | Syncing(since: nat)
    | SettingUp(t: nat, since: nat)
    | Filling(since: nat)
    | Settling(since: nat)
    | Awaiting(since: nat, from: nat, to: nat)
    | Checking(since: nat)
    | Looking
    | ToSwap(created: bool)
    | Swapping(t: nat, created: bool)
    | ToClean(created: bool)
    | Cleaning(t: nat)
    | Discarding(stop: Stop)
    | Discarded(stop: Stop, t: nat)
    | Rebuilt
    | Failed(stop: Stop, deleted: bool)
    | Unknown
    | Threw

  /** `before`: the live index when the rebuild began. `wrote`: every write of `fill` the server took. */
  datatype World = World(s: Server, at: Phase, before: Option<Docs>, wrote: Docs)

  /** What becomes of a request: taken and answered, taken with its answer lost, or not taken. */
  datatype Fate = Answered | Lost | Refused

  datatype Step =
    | Serve(ok: bool)
    | Find(ok: bool)             // an index is looked for
    | Send(fate: Fate, settings: bool)  // the request that is next
    | Fill(w: nat, fate: Fate)   // a write of fill's; it may go on whatever became of it
    | FillEnds(ok: bool)
    | ReadWaiting(ok: bool)      // what waits is read
    | AwaitRead(ok: bool)        // what was read is waited for
    | ReadFailed(ok: bool)       // the newest failed task is read
    | Wait(ok: bool)             // a task is waited for

  predicate Ended(s: Server, t: nat) {
    t < |s.ended|
  }

  function Taken(s: Server, t: Task, fate: Fate): Server {
    if fate.Refused? then s else s.(tasks := s.tasks + [t])
  }

  /** `swapOf`. */
  function SwapOf(created: bool): Task {
    Swap(created)
  }

  /** The request a phase makes. */
  function RequestOf(x: World): Option<Task> {
    match x.at
    case ToDelete => Some(Delete)
    case ToCreate => Some(Create)
    case Syncing(_) => Some(Settings)
    case ToSwap(created) => Some(SwapOf(created))
    case ToClean(created) => if created then None else Some(Delete)
    case Discarding(_) => Some(Delete)
    case _ => None
  }

  predicate AllEnded(s: Server) {
    |s.ended| == |s.tasks|
  }

  predicate NoneFailedSince(s: Server, since: nat) {
    forall i | since < i < |s.ended| :: s.ended[i]
  }

  const LIMIT := 1000

  /** The first of the tasks enqueued or processing that a request for so many reads: it reads the newest. */
  function WaitingFrom(s: Server): nat {
    if |s.tasks| - LIMIT > |s.ended| then |s.tasks| - LIMIT else |s.ended|
  }

  /** The newest task that failed, as a request for one reads it. */
  function NewestFailed(ended: seq<bool>): Option<nat> {
    if ended == [] then None
    else if !ended[|ended| - 1] then Some(|ended| - 1)
    else NewestFailed(ended[..|ended| - 1])
  }

  predicate IsWaiting(at: Phase) {
    at.DeletingLeftover? || at.Creating? || at.SettingUp? || at.Swapping? || at.Cleaning? || at.Discarded?
  }

  predicate Enabled(x: World, step: Step) {
    match step
    case Serve(_) => |x.s.ended| < |x.s.tasks|
    case Find(_) => x.at.Starting? || x.at.Looking?
    case Send(_, settings) => RequestOf(x).Some? || (x.at.ToClean? && x.at.created) || (x.at.Syncing? && !settings)
    case Fill(_, _) => x.at.Filling?
    case FillEnds(_) => x.at.Filling?
    case ReadWaiting(_) => x.at.Settling?
    case AwaitRead(ok) => x.at.Awaiting? && (ok ==> forall t: nat | x.at.from <= t < x.at.to :: Ended(x.s, t))
    case ReadFailed(_) => x.at.Checking?
    case Wait(ok) => IsWaiting(x.at) && (ok ==> Ended(x.s, x.at.t))
  }

  /** What follows a failure at each phase: `catch`, or the error thrown before it. */
  function OnError(at: Phase): Phase {
    match at
    case ToCreate => Discarding(WhileCreating)
    case Creating(_) => Discarding(WhileCreating)
    case Syncing(_) => Discarding(WhileCreating)
    case SettingUp(_, _) => Discarding(WhileCreating)
    case Filling(_) => Discarding(WhileFilling)
    case Settling(_) => Discarding(WhileFilling)
    case Awaiting(_, _, _) => Discarding(WhileFilling)
    case Checking(_) => Discarding(WhileFilling)
    case Looking => Discarding(WhileSwapping)
    case ToSwap(_) => Unknown
    case Swapping(_, _) => Unknown
    case Discarding(stop) => Failed(stop, false)
    case Discarded(stop, _) => Failed(stop, false)
    case _ => Threw
  }

  /** The phase once a request was answered. */
  function Sent(at: Phase, t: nat): Phase {
    match at
    case ToDelete => DeletingLeftover(t)
    case ToCreate => Creating(t)
    case Syncing(since) => SettingUp(t, since)
    case ToSwap(created) => Swapping(t, created)
    case ToClean(_) => Cleaning(t)
    case Discarding(stop) => Discarded(stop, t)
    case _ => at
  }

  /** The phase once its task was read back, ended well or not. */
  function Waited(x: World, ok: bool): Phase
    requires IsWaiting(x.at)
  {
    match x.at
    case DeletingLeftover(_) => if ok then ToCreate else Threw
    case Creating(t) => if ok then Syncing(t) else Discarding(WhileCreating)
    case SettingUp(_, since) => if ok then Filling(since) else Discarding(WhileCreating)
    case Swapping(_, created) => if ok then ToClean(created) else Discarding(WhileSwapping)
    case Cleaning(_) => if ok then Rebuilt else Threw
    // A deletion that fails because the index is not there leaves nothing either.
    case Discarded(stop, _) => Failed(stop, ok || x.s.next.None?)
    case _ => x.at
  }

  function Do(x: World, step: Step): World
    requires Enabled(x, step)
  {
    match step
    case Serve(ok) => x.(s := Served(x.s, ok))
    case Find(ok) =>
      if x.at.Starting? then
        if !ok then x.(at := Threw)
        else x.(at := if x.s.next.Some? then ToDelete else ToCreate)
      else x.(at := if ok then ToSwap(x.s.live.None?) else OnError(x.at))
    case Send(fate, settings) =>
      if x.at.ToClean? && x.at.created then x.(at := Rebuilt)
      else if x.at.Syncing? && !settings then x.(at := Filling(x.at.since))
      else x.(s := Taken(x.s, RequestOf(x).value, fate), at := if fate.Answered? then Sent(x.at, |x.s.tasks|)
        else OnError(x.at))
    case Fill(w, fate) =>
      x.(s := Taken(x.s, Write(w), fate), wrote := if fate.Refused? then x.wrote else x.wrote + [w])
    case FillEnds(ok) => x.(at := if ok then Settling(x.at.since) else OnError(x.at))
    case ReadWaiting(ok) =>
      x.(at := if !ok then OnError(x.at) else if WaitingFrom(x.s) >= |x.s.tasks| then Checking(x.at.since)
               else Awaiting(x.at.since, WaitingFrom(x.s), |x.s.tasks|))
    case AwaitRead(ok) => x.(at := if ok then Settling(x.at.since) else OnError(x.at))
    case ReadFailed(ok) =>
      var newest := NewestFailed(x.s.ended);
      x.(at := if !ok || (newest.Some? && newest.value > x.at.since) then OnError(x.at) else Looking)
    case Wait(ok) => x.(at := if ok then Waited(x, x.s.ended[x.at.t]) else OnError(x.at))
  }

  predicate Initial(x: World) {
    x.at.Starting? && x.s.tasks == [] && x.s.ended == [] && x.before == x.s.live && x.wrote == []
  }

  predicate IsRun(x: World, steps: seq<Step>)
    decreases |steps|
  {
    steps == [] || (Enabled(x, steps[0]) && IsRun(Do(x, steps[0]), steps[1..]))
  }

  function End(x: World, steps: seq<Step>): World
    requires IsRun(x, steps)
    decreases |steps|
  {
    if steps == [] then x else End(Do(x, steps[0]), steps[1..])
  }

  // ----- the invariant

  /** The writes among tasks, and those that ended well. */
  function Writes(tasks: seq<Task>): Docs {
    if tasks == [] then []
    else Writes(tasks[..|tasks| - 1]) + if tasks[|tasks| - 1].Write? then [tasks[|tasks| - 1].w] else []
  }

  function GoodWrites(tasks: seq<Task>, ended: seq<bool>): Docs
    requires |ended| <= |tasks|
  {
    if ended == [] then []
    else
      GoodWrites(tasks, ended[..|ended| - 1])
      + (if ended[|ended| - 1] && tasks[|ended| - 1].Write? then [tasks[|ended| - 1].w] else [])
  }

  predicate HasSwap(tasks: seq<Task>) {
    exists i | 0 <= i < |tasks| :: tasks[i].Swap?
  }

  /** No swap was taken: the old documents are live. */
  ghost predicate Quiet(x: World) {
    !HasSwap(x.s.tasks) && x.s.live == x.before && |x.s.ended| <= |x.s.tasks|
  }

  /** The next index was created by task `since`, and has taken what ended well after it. */
  ghost predicate Growing(x: World, since: nat) {
    && since < |x.s.ended| <= |x.s.tasks| && x.s.tasks[since].Create? && x.s.ended[since]
    && (forall i | since < i < |x.s.tasks| :: x.s.tasks[i].Write? || x.s.tasks[i].Settings?)
    && (forall i | 0 <= i <= since :: !x.s.tasks[i].Write?)
    && x.s.next == Some(GoodWrites(x.s.tasks, x.s.ended)) && Writes(x.s.tasks) == x.wrote
  }

  /** A swap was taken, the last task or followed by a deletion: still waiting, done, or failed. */
  ghost predicate SwapTaken(x: World, t: nat) {
    && t < |x.s.tasks| <= t + 2 && x.s.tasks[t] == Swap(x.before.None?) && !HasSwap(x.s.tasks[..t])
    && (|x.s.tasks| == t + 2 ==> x.s.tasks[t + 1].Delete? && t < |x.s.ended|)
    && t <= |x.s.ended| <= |x.s.tasks|
    && if t < |x.s.ended| && x.s.ended[t] then
         x.s.live == Some(x.wrote) && (|x.s.ended| == t + 1 ==> x.s.next == x.before)
       else x.s.live == x.before && (|x.s.ended| <= t + 1 ==> x.s.next == Some(x.wrote))
  }

  ghost predicate Inv(x: World) {
    match x.at
    case Starting => Quiet(x) && x.s.tasks == [] && x.wrote == []
    case ToDelete => Quiet(x) && x.s.tasks == [] && x.wrote == []
    case DeletingLeftover(t) => Quiet(x) && x.s.tasks == [Delete] && t == 0 && x.wrote == []
      && (x.s.ended == [true] ==> x.s.next.None?)
    case ToCreate => Quiet(x) && NoWrites(x) && x.s.next.None? && AllEnded(x.s)
    case Creating(t) => Quiet(x) && NoWrites(x) && t + 1 == |x.s.tasks| && x.s.tasks[t].Create? && t <= |x.s.ended|
                        && (if |x.s.ended| == t then x.s.next.None? else x.s.ended[t] ==> x.s.next == Some([]))
    case Syncing(since) => Quiet(x) && Growing(x, since) && NoWrites(x)
    case SettingUp(t, since) => Quiet(x) && Growing(x, since) && NoWrites(x)
    case Filling(since) => Quiet(x) && Growing(x, since)
    case Settling(since) => Quiet(x) && Growing(x, since)
    case Awaiting(since, _, _) => Quiet(x) && Growing(x, since)
    case Checking(since) => Quiet(x) && Growing(x, since) && AllEnded(x.s)
    case Looking => Quiet(x) && AllEnded(x.s) && x.s.next == Some(x.wrote)
    case ToSwap(created) => Quiet(x) && AllEnded(x.s) && x.s.next == Some(x.wrote) && created == x.before.None?
    case Swapping(t, created) => SwapTaken(x, t) && |x.s.tasks| == t + 1 && created == x.before.None?
    case ToClean(created) =>
      && created == x.before.None?
      && exists t: nat :: SwapTaken(x, t) && |x.s.ended| == |x.s.tasks| == t + 1 && x.s.ended[t]
    case Cleaning(t) => t > 0 && |x.s.tasks| == t + 1 && SwapTaken(x, t - 1) && x.s.ended[t - 1]
    case Discarding(_) => Settled(x)
    case Discarded(_, t) => Settled(x) && t < |x.s.tasks|
    case Failed(_, _) => Settled(x)
    case Rebuilt => exists t: nat :: SwapTaken(x, t) && Ended(x.s, t) && x.s.ended[t]
    case Unknown =>
      || (Quiet(x) && AllEnded(x.s) && x.s.next == Some(x.wrote))
      || exists t: nat :: SwapTaken(x, t) && |x.s.tasks| == t + 1
    case Threw => Quiet(x) || exists t: nat :: SwapTaken(x, t) && Ended(x.s, t) && x.s.ended[t]
  }

  ghost predicate NoWrites(x: World) {
    x.wrote == [] && forall i | 0 <= i < |x.s.tasks| :: !x.s.tasks[i].Write?
  }

  /** No swap is waiting, and none was done. */
  ghost predicate Settled(x: World) {
    x.s.live == x.before && |x.s.ended| <= |x.s.tasks| && forall i | |x.s.ended| <= i < |x.s.tasks| ::
      !x.s.tasks[i].Swap?
  }

  lemma WritesMore(tasks: seq<Task>, t: Task)
    ensures Writes(tasks + [t]) == Writes(tasks) + if t.Write? then [t.w] else []
  {
    assert (tasks + [t])[..|tasks|] == tasks;
  }

  lemma {:induction false} GoodWritesKept(tasks: seq<Task>, t: Task, ended: seq<bool>)
    requires |ended| <= |tasks|
    ensures GoodWrites(tasks + [t], ended) == GoodWrites(tasks, ended)
  {
    if ended != [] { GoodWritesKept(tasks, t, ended[..|ended| - 1]); }
  }

  lemma GoodWritesMore(tasks: seq<Task>, ended: seq<bool>, ok: bool)
    requires |ended| < |tasks|
    ensures GoodWrites(tasks, ended + [ok]) ==
            if ok && tasks[|ended|].Write? then GoodWrites(tasks, ended) + [tasks[|ended|].w]
              else GoodWrites(tasks, ended)
  {
    assert (ended + [ok])[..|ended|] == ended;
  }

  lemma {:induction false} NoGoodWrites(tasks: seq<Task>, ended: seq<bool>)
    requires |ended| <= |tasks| && forall i | 0 <= i < |ended| :: !tasks[i].Write?
    ensures GoodWrites(tasks, ended) == []
  {
    if ended != [] { NoGoodWrites(tasks, ended[..|ended| - 1]); }
  }

  lemma {:induction false} NoneWritten(tasks: seq<Task>)
    requires forall i | 0 <= i < |tasks| :: !tasks[i].Write?
    ensures Writes(tasks) == []
  {
    if tasks != [] { NoneWritten(tasks[..|tasks| - 1]); }
  }

  /** When all has ended and no write failed, what the next index took is everything written. */
  lemma {:induction false} AllGood(tasks: seq<Task>, ended: seq<bool>)
    requires |ended| <= |tasks| && forall i | 0 <= i < |ended| && tasks[i].Write? :: ended[i]
    ensures GoodWrites(tasks, ended) == Writes(tasks[..|ended|])
  {
    if ended != [] {
      AllGood(tasks, ended[..|ended| - 1]);
      assert tasks[..|ended|][..|ended| - 1] == tasks[..|ended| - 1];
    }
  }

  lemma ServeGrowing(x: World, ok: bool, since: nat)
    requires Growing(x, since) && |x.s.ended| < |x.s.tasks|
    ensures Growing(x.(s := Served(x.s, ok)), since)
  {
    var y := x.(s := Served(x.s, ok));
    var well := ok && Done(x.s, x.s.tasks[|x.s.ended|]).Some?;
    assert y.s.ended == x.s.ended + [well];
    assert x.s.tasks[|x.s.ended|].Write? || x.s.tasks[|x.s.ended|].Settings?;
    GoodWritesMore(x.s.tasks, x.s.ended, well);
  }

  lemma ServeQuiet(x: World, ok: bool)
    requires Quiet(x) && |x.s.ended| < |x.s.tasks|
    ensures Quiet(x.(s := Served(x.s, ok)))
  {
    assert !x.s.tasks[|x.s.ended|].Swap?;
  }

  lemma ServeSwap(x: World, ok: bool, t: nat)
    requires SwapTaken(x, t) && |x.s.ended| < |x.s.tasks|
    ensures SwapTaken(x.(s := Served(x.s, ok)), t)
  {
  }

  lemma ServeSwapped(x: World, ok: bool)
    requires Inv(x) && Enabled(x, Serve(ok))
    requires x.at.Rebuilt? || x.at.Unknown? || x.at.Threw? || x.at.Swapping? || x.at.Cleaning?
    ensures Inv(Do(x, Serve(ok)))
  {
    var y := Do(x, Serve(ok));
    if Quiet(x) { ServeQuiet(x, ok); }
    forall t: nat | SwapTaken(x, t)
      ensures SwapTaken(y, t) && (Ended(x.s, t) ==> Ended(y.s, t) && y.s.ended[t] == x.s.ended[t])
    {
      ServeSwap(x, ok, t);
    }
    hide SwapTaken, Quiet;
  }

  lemma ServeKeepsInv(x: World, ok: bool)
    requires Inv(x) && Enabled(x, Serve(ok))
    ensures Inv(Do(x, Serve(ok)))
  {
    var y := Do(x, Serve(ok));
    if Quiet(x) { ServeQuiet(x, ok); }
    if x.at.Rebuilt? || x.at.Unknown? || x.at.Threw? || x.at.Swapping? || x.at.Cleaning? {
      ServeSwapped(x, ok);
    } else if x.at.Syncing? || x.at.SettingUp? || x.at.Filling? || x.at.Settling? || x.at.Awaiting? {
      ServeGrowing(x, ok, x.at.since);
    } else if x.at.DeletingLeftover? {
      assert y.s.ended == [ok && x.s.next.Some?];
    }
  }

  /** One more task: what grows goes on growing when it is a write or a setting. */
  lemma SendGrowing(x: World, t: Task, since: nat)
    requires Growing(x, since) && (t.Write? || t.Settings?)
    ensures Growing(x.(s := x.s.(tasks := x.s.tasks + [t]), wrote := x.wrote + if t.Write? then [t.w] else []), since)
  {
    WritesMore(x.s.tasks, t);
    GoodWritesKept(x.s.tasks, t, x.s.ended);
  }

  lemma SwapIsTaken(x: World)
    requires Quiet(x) && AllEnded(x.s) && x.s.next == Some(x.wrote)
    ensures SwapTaken(x.(s := x.s.(tasks := x.s.tasks + [SwapOf(x.before.None?)])), |x.s.tasks|)
  {
    assert (x.s.tasks + [SwapOf(x.before.None?)])[..|x.s.tasks|] == x.s.tasks;
  }

  lemma CleanKeepsInv(x: World, fate: Fate, settings: bool)
    requires Inv(x) && Enabled(x, Send(fate, settings)) && x.at.ToClean?
    ensures Inv(Do(x, Send(fate, settings)))
  {
    var y := Do(x, Send(fate, settings));
    var t: nat :| SwapTaken(x, t) && |x.s.ended| == |x.s.tasks| == t + 1 && x.s.ended[t]
      && x.at.created == x.before.None?;
    assert !x.at.created && !fate.Refused? ==> y.s.tasks == x.s.tasks + [Delete] && y.s.tasks[..t] == x.s.tasks[..t];
    assert SwapTaken(y, t);
  }

  lemma AskSwapKeepsInv(x: World, fate: Fate, settings: bool)
    requires Inv(x) && Enabled(x, Send(fate, settings)) && x.at.ToSwap?
    ensures Inv(Do(x, Send(fate, settings)))
  {
    SwapIsTaken(x);
    var y := Do(x, Send(fate, settings));
    assert !fate.Refused? ==> SwapTaken(y, |x.s.tasks|);
  }

  lemma DiscardKeepsInv(x: World, fate: Fate, settings: bool)
    requires Inv(x) && Enabled(x, Send(fate, settings)) && x.at.Discarding?
    ensures Inv(Do(x, Send(fate, settings)))
  {
  }

  lemma SyncKeepsInv(x: World, fate: Fate, settings: bool)
    requires Inv(x) && Enabled(x, Send(fate, settings)) && x.at.Syncing?
    ensures Inv(Do(x, Send(fate, settings)))
  {
    SendGrowing(x, Settings, x.at.since);
  }

  lemma FirstsKeepInv(x: World, fate: Fate, settings: bool)
    requires Inv(x) && Enabled(x, Send(fate, settings)) && (x.at.ToDelete? || x.at.ToCreate?)
    ensures Inv(Do(x, Send(fate, settings)))
  {
  }

  lemma SendKeepsInv(x: World, fate: Fate, settings: bool)
    requires Inv(x) && Enabled(x, Send(fate, settings))
    ensures Inv(Do(x, Send(fate, settings)))
  {
    hide Inv, Do;
    if x.at.ToClean? {
      CleanKeepsInv(x, fate, settings);
    } else if x.at.ToSwap? {
      AskSwapKeepsInv(x, fate, settings);
    } else if x.at.Syncing? {
      SyncKeepsInv(x, fate, settings);
    } else if x.at.Discarding? {
      DiscardKeepsInv(x, fate, settings);
    } else {
      FirstsKeepInv(x, fate, settings);
    }
  }

  lemma FillKeepsInv(x: World, w: nat, fate: Fate)
    requires Inv(x) && Enabled(x, Fill(w, fate))
    ensures Inv(Do(x, Fill(w, fate)))
  {
    SendGrowing(x, Write(w), x.at.since);
  }

  /** The newest failed one says whether any failed since. */
  lemma {:induction false} NewestFailedIs(ended: seq<bool>, since: nat)
    ensures (var newest := NewestFailed(ended); newest.None? || newest.value <= since)
            <==> forall i | since < i < |ended| :: ended[i]
  {
    if ended != [] { NewestFailedIs(ended[..|ended| - 1], since); }
  }

  /**
   `settle` comes to its end well exactly when, as it reads that nothing waits, all has ended and none failed since.
   */
  lemma SettlesExactly(x: World, since: nat)
    requires Inv(x) && x.at == Settling(since)
    ensures var y := Do(x, ReadWaiting(true));
            && (y.at == Checking(since) <==> AllEnded(x.s))
            && (y.at == Checking(since) ==> (Do(y, ReadFailed(true)).at == Looking <==> NoneFailedSince(x.s, since)))
  {
    NewestFailedIs(x.s.ended, since);
  }

  /** Then the next index holds every write the server took, those `fill` did not wait for among them. */
  lemma SettledHoldsAll(x: World, since: nat)
    requires Growing(x, since) && AllEnded(x.s) && NoneFailedSince(x.s, since)
    ensures x.s.next == Some(x.wrote)
  {
    AllGood(x.s.tasks, x.s.ended);
    assert x.s.tasks[..|x.s.ended|] == x.s.tasks;
  }

  lemma SettleKeepsInv(x: World, step: Step)
    requires Inv(x) && Enabled(x, step) && (step.ReadWaiting? || step.AwaitRead? || step.ReadFailed?)
    ensures Inv(Do(x, step))
    ensures Do(x, step).at.Looking? ==> AllEnded(x.s) && NoneFailedSince(x.s, x.at.since) && x.s.next == Some(x.wrote)
  {
    if step.ReadFailed? {
      NewestFailedIs(x.s.ended, x.at.since);
      if NoneFailedSince(x.s, x.at.since) { SettledHoldsAll(x, x.at.since); }
      hide Growing, NewestFailed;
    }
  }

  lemma CreatedKeepsInv(x: World, ok: bool)
    requires Inv(x) && Enabled(x, Wait(ok)) && x.at.Creating?
    ensures Inv(Do(x, Wait(ok)))
  {
    NoGoodWrites(x.s.tasks, x.s.ended);
    NoneWritten(x.s.tasks);
  }

  lemma SwappedKeepsInv(x: World, ok: bool)
    requires Inv(x) && Enabled(x, Wait(ok)) && (x.at.Swapping? || x.at.Cleaning?)
    ensures Inv(Do(x, Wait(ok)))
  {
    var t := if x.at.Swapping? then x.at.t else x.at.t - 1;
    assert SwapTaken(Do(x, Wait(ok)), t);
  }

  lemma OtherWaitKeepsInv(x: World, ok: bool)
    requires Inv(x) && Enabled(x, Wait(ok)) && (x.at.DeletingLeftover? || x.at.SettingUp? || x.at.Discarded?)
    ensures Inv(Do(x, Wait(ok)))
  {
  }

  lemma WaitKeepsInv(x: World, ok: bool)
    requires Inv(x) && Enabled(x, Wait(ok))
    ensures Inv(Do(x, Wait(ok)))
  {
    hide Inv, Do;
    if x.at.Creating? {
      CreatedKeepsInv(x, ok);
    } else if x.at.Swapping? || x.at.Cleaning? {
      SwappedKeepsInv(x, ok);
    } else {
      OtherWaitKeepsInv(x, ok);
    }
  }

  lemma LookKeepsInv(x: World, step: Step)
    requires Inv(x) && Enabled(x, step) && (step.Find? || step.FillEnds?)
    ensures Inv(Do(x, step))
  {
  }

  lemma StepKeepsInv(x: World, step: Step)
    requires Inv(x) && Enabled(x, step)
    ensures Inv(Do(x, step))
  {
    hide Inv, Do;
    match step
    case Serve(ok) => ServeKeepsInv(x, ok);
    case Send(fate, settings) => SendKeepsInv(x, fate, settings);
    case Fill(w, fate) => FillKeepsInv(x, w, fate);
    case ReadWaiting(_) => SettleKeepsInv(x, step);
    case AwaitRead(_) => SettleKeepsInv(x, step);
    case ReadFailed(_) => SettleKeepsInv(x, step);
    case Wait(ok) => WaitKeepsInv(x, ok);
    case _ => LookKeepsInv(x, step);
  }

  lemma {:induction false} RunKeepsInv(x: World, steps: seq<Step>)
    requires Inv(x) && IsRun(x, steps)
    ensures Inv(End(x, steps))
    decreases |steps|
  {
    if steps != [] {
      StepKeepsInv(x, steps[0]);
      RunKeepsInv(Do(x, steps[0]), steps[1..]);
    }
  }

  /** At every moment the live index is what it was, or everything fill wrote. */
  lemma OldOrNew(x: World, steps: seq<Step>)
    requires Initial(x) && IsRun(x, steps)
    ensures var y := End(x, steps); y.s.live == y.before || y.s.live == Some(y.wrote)
  {
    RunKeepsInv(x, steps);
  }

  /** A rebuild that reports where it stopped has left the live index as it was, and will: no swap is on its way. */
  lemma FailedLeavesTheOld(x: World, steps: seq<Step>)
    requires Initial(x) && IsRun(x, steps) && End(x, steps).at.Failed?
    ensures var y := End(x, steps);
            && y.s.live == y.before
            && forall i | |y.s.ended| <= i < |y.s.tasks| :: !y.s.tasks[i].Swap?
  {
    RunKeepsInv(x, steps);
  }

  /**
   When whether it swapped is unknown, nothing is lost: the old documents and
   the new are in the two indexes, one way or the other.
   */
  lemma UnknownLosesNothing(x: World, steps: seq<Step>)
    requires Initial(x) && IsRun(x, steps) && End(x, steps).at.Unknown?
    ensures var y := End(x, steps);
            (y.s.live == y.before && y.s.next == Some(y.wrote)) || (y.s.live == Some(y.wrote) && y.s.next == y.before)
  {
    RunKeepsInv(x, steps);
  }

  /** A rebuild that succeeds has everything fill wrote live. */
  lemma RebuiltIsNew(x: World, steps: seq<Step>)
    requires Initial(x) && IsRun(x, steps) && End(x, steps).at.Rebuilt?
    ensures var y := End(x, steps); y.s.live == Some(y.wrote)
  {
    RunKeepsInv(x, steps);
  }

  // ----- where it says it stopped

  /** What a rebuild is doing at a phase that a failure would end. */
  function Doing(at: Phase): Option<Stop> {
    if at.ToCreate? || at.Creating? || at.Syncing? || at.SettingUp? then Some(WhileCreating)
    else if at.Filling? || at.Settling? || at.Awaiting? || at.Checking? then Some(WhileFilling)
    else if at.Looking? || at.Swapping? then Some(WhileSwapping)
    else None
  }

  /**
   A failure while creating, filling or swapping is reported as that, once the next index is discarded;
   one of the swap's request or of the wait for it is reported as unknown, with nothing discarded.
   */
  lemma SaysWhereItStopped(x: World, step: Step)
    requires Enabled(x, step)
    ensures var y := Do(x, step);
            && (y.at.Discarding? && !x.at.Discarding? ==> Doing(x.at) == Some(y.at.stop))
            && (y.at.Discarded? || y.at.Failed? ==>
                  x.at == y.at || ((x.at.Discarding? || x.at.Discarded?) && x.at.stop == y.at.stop))
            && (y.at.Unknown? && !x.at.Unknown? ==> x.at.ToSwap? || (x.at.Swapping? && step == Wait(false)))
    ensures var y := Do(x, step);
            Doing(x.at).Some? && y.at != x.at && Doing(y.at) != Doing(x.at) ==>
              || y.at == Discarding(Doing(x.at).value)
              || (step == FillEnds(true) || (step.Wait? && step.ok && x.s.ended[x.at.t]))
              || (x.at.Syncing? && step.Send? && !step.settings) || (step == Find(true) && x.at.Looking?)
              || (step == ReadFailed(true) && y.at.Looking?) || y.at.Unknown?
  {
  }

  /** Its deletion is the last task there is. */
  ghost predicate DiscardsLast(x: World) {
    && |x.s.ended| <= |x.s.tasks|
    && match x.at
       case Discarded(_, t) =>
         t + 1 == |x.s.tasks| && x.s.tasks[t].Delete? && (Ended(x.s, t) && x.s.ended[t] ==> x.s.next.None?)
       case Failed(_, deleted) => deleted ==> AllEnded(x.s) && x.s.next.None?
       case _ => true
  }

  lemma StepDiscardsLast(x: World, step: Step)
    requires DiscardsLast(x) && Enabled(x, step)
    ensures DiscardsLast(Do(x, step))
  {
  }

  lemma {:induction false} RunDiscardsLast(x: World, steps: seq<Step>)
    requires DiscardsLast(x) && IsRun(x, steps)
    ensures DiscardsLast(End(x, steps))
    decreases |steps|
  {
    if steps != [] {
      StepDiscardsLast(x, steps[0]);
      RunDiscardsLast(Do(x, steps[0]), steps[1..]);
    }
  }

  /** A rebuild that says the next index was deleted has left none, and no task that could make one again. */
  lemma DeletedIsGone(x: World, steps: seq<Step>)
    requires Initial(x) && IsRun(x, steps)
    requires End(x, steps).at.Failed? && End(x, steps).at.deleted
    ensures End(x, steps).s.next.None? && AllEnded(End(x, steps).s)
  {
    RunDiscardsLast(x, steps);
  }

  // ----- that it can

  ghost predicate Leads(x: World, steps: seq<Step>, y: World) {
    IsRun(x, steps) && y == End(x, steps)
  }

  lemma Takes(x: World, step: Step, more: seq<Step>, y: World)
    requires Enabled(x, step) && Leads(Do(x, step), more, y)
    ensures Leads(x, [step] + more, y)
  {
    assert ([step] + more)[1..] == more;
  }

  lemma {:induction false} Joins(x: World, first: seq<Step>, y: World, second: seq<Step>, z: World)
    requires Leads(x, first, y) && Leads(y, second, z)
    ensures Leads(x, first + second, z)
    decreases |first|
  {
    if first == [] {
      assert first + second == second;
    } else {
      Joins(Do(x, first[0]), first[1..], y, second, z);
      assert [first[0]] + (first[1..] + second) == first + second;
      Takes(x, first[0], first[1..] + second, z);
    }
  }

  lemma TakesOne(x: World, step: Step)
    requires Enabled(x, step)
    ensures Leads(x, [step], Do(x, step))
  {
    assert [step][1..] == [];
  }

  /** Where a rebuild goes on once the request it makes was taken, done and waited for. */
  function Onwards(x: World): Phase
    requires RequestOf(x).Some?
  {
    match x.at
    case ToDelete => ToCreate
    case ToCreate => Syncing(|x.s.tasks|)
    case Syncing(since) => Filling(since)
    case ToSwap(created) => ToClean(created)
    case ToClean(_) => Rebuilt
    case Discarding(stop) => Failed(stop, true)
    case _ => x.at
  }

  lemma Asks(x: World) returns (steps: seq<Step>, y: World)
    requires RequestOf(x).Some? && AllEnded(x.s) && Done(x.s, RequestOf(x).value).Some?
    ensures Leads(x, steps, y)
    ensures var t := RequestOf(x).value;
            y == World(Done(x.s, t).value.(tasks := x.s.tasks + [t], ended := x.s.ended + [true]), Onwards(x),
                       x.before, x.wrote)
  {
    var a := Do(x, Send(Answered, true));
    var b := Do(a, Serve(true));
    y := Do(b, Wait(true));
    TakesOne(b, Wait(true));
    Takes(a, Serve(true), [Wait(true)], y);
    Takes(x, Send(Answered, true), [Serve(true)] + [Wait(true)], y);
    steps := [Send(Answered, true)] + ([Serve(true)] + [Wait(true)]);
  }

  function AsTasks(docs: Docs): seq<Task> {
    seq(|docs|, i requires 0 <= i < |docs| => Write(docs[i]))
  }

  /** What `fill` writes is taken, and waited for by nobody. */
  lemma {:induction false} WritesAll(x: World, docs: Docs) returns (steps: seq<Step>, y: World)
    requires x.at.Filling?
    ensures Leads(x, steps, y)
    ensures y == x.(s := x.s.(tasks := x.s.tasks + AsTasks(docs)), wrote := x.wrote + docs)
    decreases |docs|
  {
    if docs == [] {
      steps, y := [], x;
      assert x.s.tasks + AsTasks(docs) == x.s.tasks && x.wrote + docs == x.wrote;
    } else {
      var a := Do(x, Fill(docs[0], Answered));
      var more;
      more, y := WritesAll(a, docs[1..]);
      Takes(x, Fill(docs[0], Answered), more, y);
      steps := [Fill(docs[0], Answered)] + more;
      assert AsTasks(docs) == [Write(docs[0])] + AsTasks(docs[1..]);
      assert x.s.tasks + [Write(docs[0])] + AsTasks(docs[1..]) == x.s.tasks + AsTasks(docs);
      assert x.wrote + [docs[0]] + docs[1..] == x.wrote + docs;
    }
  }

  /** The server does what waits. */
  lemma {:induction false} ServesAll(x: World, docs: Docs) returns (steps: seq<Step>, y: World)
    requires |x.s.ended| <= |x.s.tasks| && x.s.tasks[|x.s.ended|..] == AsTasks(docs) && x.s.next.Some?
    ensures Leads(x, steps, y) && AllEnded(y.s) && x.s.ended <= y.s.ended
    ensures forall i | |x.s.ended| <= i < |y.s.ended| :: y.s.ended[i]
    ensures y == x.(s := y.s) && y.s.live == x.s.live && y.s.tasks == x.s.tasks
    ensures y.s.next == Some(x.s.next.value + docs)
    decreases |docs|
  {
    var rest := x.s.tasks[|x.s.ended|..];
    assert |rest| == |docs|;
    if docs == [] {
      steps, y := [], x;
      assert x.s.next.value + docs == x.s.next.value;
    } else {
      assert rest[0] == Write(docs[0]) && rest[1..] == AsTasks(docs[1..]);
      var a := Do(x, Serve(true));
      assert a.s.tasks[|a.s.ended|..] == rest[1..];
      var more;
      more, y := ServesAll(a, docs[1..]);
      Takes(x, Serve(true), more, y);
      steps := [Serve(true)] + more;
      assert x.s.next.value + [docs[0]] + docs[1..] == x.s.next.value + docs;
    }
  }

  /** However much still waits when `fill` ends, `settle` waits for it; with none failed, the swap is next. */
  lemma Settles(x: World, docs: Docs) returns (steps: seq<Step>, y: World)
    requires x.at.Filling? && |x.s.ended| <= |x.s.tasks| && x.s.tasks[|x.s.ended|..] == AsTasks(docs)
    requires x.s.next.Some? && NoneFailedSince(x.s, x.at.since)
    ensures Leads(x, steps, y) && AllEnded(y.s) && y.at == ToSwap(x.s.live.None?)
    ensures y.s.next == Some(x.s.next.value + docs) && y.s.live == x.s.live
  {
    var a, more := Do(x, FillEnds(true)), [];
    TakesOne(x, FillEnds(true));
    steps := [FillEnds(true)];
    if docs != [] {
      var b := Do(a, ReadWaiting(true));
      assert |x.s.tasks[|x.s.ended|..]| == |docs|;
      TakesOne(a, ReadWaiting(true));
      Joins(x, steps, a, [ReadWaiting(true)], b);
      steps := steps + [ReadWaiting(true)];
      var d;
      more, d := ServesAll(b, docs);
      Joins(x, steps, b, more, d);
      steps := steps + more;
      a := Do(d, AwaitRead(true));
      TakesOne(d, AwaitRead(true));
      Joins(x, steps, d, [AwaitRead(true)], a);
      steps := steps + [AwaitRead(true)];
    } else {
      assert |x.s.tasks[|x.s.ended|..]| == 0 && x.s.next.value + docs == x.s.next.value;
    }
    more, y := LeavesSettle(a);
    Joins(x, steps, a, more, y);
    steps := steps + more;
  }

  lemma LeavesSettle(x: World) returns (steps: seq<Step>, y: World)
    requires x.at.Settling? && AllEnded(x.s) && NoneFailedSince(x.s, x.at.since)
    ensures Leads(x, steps, y) && y == x.(at := ToSwap(x.s.live.None?))
  {
    NewestFailedIs(x.s.ended, x.at.since);
    var b := Do(x, ReadWaiting(true));
    var d := Do(b, ReadFailed(true));
    y := Do(d, Find(true));
    TakesOne(d, Find(true));
    Takes(b, ReadFailed(true), [Find(true)], y);
    Takes(x, ReadWaiting(true), [ReadFailed(true)] + [Find(true)], y);
    steps := [ReadWaiting(true)] + ([ReadFailed(true)] + [Find(true)]);
  }

  lemma BeginsAnew(x: World) returns (steps: seq<Step>, y: World)
    requires Initial(x)
    ensures Leads(x, steps, y) && y.at.Filling? && AllEnded(y.s) && NoneFailedSince(y.s, y.at.since)
    ensures y.s.next == Some([]) && y.s.live == x.s.live && y.before == x.before && y.wrote == []
  {
    var a := Do(x, Find(true));
    TakesOne(x, Find(true));
    steps := [Find(true)];
    var more, b;
    if a.at.ToDelete? {
      more, b := Asks(a);
      Joins(x, steps, a, more, b);
      steps := steps + more;
    } else {
      b := a;
    }
    var d;
    more, d := Asks(b);
    Joins(x, steps, b, more, d);
    steps := steps + more;
    more, y := Asks(d);
    Joins(x, steps, d, more, y);
    steps := steps + more;
    assert y.at.since == |b.s.ended| && y.s.ended == b.s.ended + [true] + [true];
  }

  lemma SwapsIn(x: World) returns (steps: seq<Step>, y: World)
    requires x.at.ToSwap? && x.at.created == x.s.live.None? && x.s.next.Some? && AllEnded(x.s)
    ensures Leads(x, steps, y) && y.at.Rebuilt? && y.s.live == x.s.next && y.s.next.None?
  {
    var a;
    steps, a := Asks(x);
    var more;
    if a.at.created {
      more, y := [Send(Answered, true)], Do(a, Send(Answered, true));
      TakesOne(a, Send(Answered, true));
    } else {
      more, y := Asks(a);
    }
    Joins(x, steps, a, more, y);
    steps := steps + more;
  }

  /**
   Whatever is there when it begins, a rebuild in which nothing fails ends with what `fill` wrote live
   and no other index left.
   */
  lemma CanRebuild(x: World, docs: Docs) returns (steps: seq<Step>, y: World)
    requires Initial(x)
    ensures IsRun(x, steps) && y == End(x, steps)
    ensures y.at.Rebuilt? && y.s.live == Some(docs) && y.s.next.None?
  {
    var a, b, d, more;
    steps, a := BeginsAnew(x);
    more, b := WritesAll(a, docs);
    Joins(x, steps, a, more, b);
    steps := steps + more;
    assert b.s.tasks[|b.s.ended|..] == AsTasks(docs);
    more, d := Settles(b, docs);
    Joins(x, steps, b, more, d);
    steps := steps + more;
    more, y := SwapsIn(d);
    Joins(x, steps, d, more, y);
    steps := steps + more;
    assert [] + docs == docs;
  }

  /** One that stopped while an index was there discards it, when nothing fails again, and says so. */
  lemma CanDiscard(x: World) returns (steps: seq<Step>, y: World)
    requires x.at.Discarding? && AllEnded(x.s) && x.s.next.Some?
    ensures IsRun(x, steps) && y == End(x, steps)
    ensures y.at == Failed(x.at.stop, true) && y.s.next.None? && y.s.live == x.s.live
  {
    steps, y := Asks(x);
  }
}
