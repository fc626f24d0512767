/**
 The follower's object and the loops that write to the index: packages/mongo-meilisearch/src/run/follow.ts,
 src/sync/batch.ts and src/run/reindex.ts.

 Each method of the object takes the step `Sync` says. The handler of a change is two of them, since
 it awaits a look-up in between, and so is a flush, which awaits the server: the lines up to the
 await, and those from it on. A loop that pages or sends in batches is proved against the set of what
 it was given, or of what is there.
 */
module Follower {
  import opened Wrappers
  import opened Changes
  import opened Sync

  datatype Keyed = Keyed(id: Id, entry: Entry)

  ghost predicate OnePerId(entries: seq<Keyed>) {
    forall i, j | 0 <= i < j < |entries| :: entries[i].id != entries[j].id
  }

  /** The entries, as the requests see them: one per id. */
  ghost predicate Are(entries: seq<Keyed>, pending: Entries) {
    && (forall id | id in pending :: Keyed(id, pending[id]) in entries)
    && (forall k | k in entries :: k.id in pending && pending[k.id] == k.entry)
  }

  /** Requests whose every action is one of these entries, and which leave none of them out. */
  ghost predicate Make(tasks: seq<Task>, entries: seq<Keyed>) {
    && (forall t, id | t in tasks && id in Keys(t) :: Keyed(id, Action(t, id)) in entries)
    && (forall k | k in entries :: Touches(tasks, k.id))
  }

  lemma MakeMore(tasks: seq<Task>, entries: seq<Keyed>, t: Task, batch: seq<Keyed>)
    requires Make(tasks, entries) && Make([t], batch)
    ensures Make(tasks + [t], entries + batch)
  {
    assert t in [t] && forall u | u in tasks + [t] :: u in tasks || u == t;
    forall k | k in entries + batch ensures Touches(tasks + [t], k.id) {
      if k in entries {
        var u :| u in tasks && k.id in Keys(u);
        assert u in tasks + [t];
      } else {
        assert Touches([t], k.id) && t in tasks + [t];
      }
    }
  }

  method AddOf(batch: seq<Keyed>) returns (t: Task)
    requires OnePerId(batch) && forall k | k in batch :: k.entry.Upsert?
    ensures Make([t], batch) && t.Add? && |t.documents| <= |batch|
  {
    var documents: Index := map[];
    for j := 0 to |batch|
      invariant |documents| <= j
      invariant forall id | id in documents :: exists k | 0 <= k < j :: batch[k] == Keyed(id, Upsert(documents[id]))
      invariant forall k | 0 <= k < j :: batch[k].id in documents
    {
      documents := documents[batch[j].id := batch[j].entry.body];
    }
    t := Add(documents);
    assert t in [t];
  }

  method CutOf(batch: seq<Keyed>) returns (t: Task)
    requires forall k | k in batch :: k.entry.Remove?
    ensures Make([t], batch) && t.Cut? && |t.ids| <= |batch|
  {
    var ids: set<Id> := {};
    for j := 0 to |batch|
      invariant |ids| <= j
      invariant forall id | id in ids :: exists k | 0 <= k < j :: batch[k] == Keyed(id, Remove)
      invariant forall k | 0 <= k < j :: batch[k].id in ids
    {
      ids := ids + {batch[j].id};
    }
    t := Cut(ids);
    assert t in [t];
  }

  /** `sendDocuments`: documents, `batchSize` at a time. */
  method SendDocuments(documents: seq<Keyed>, batchSize: nat) returns (tasks: seq<Task>)
    requires batchSize > 0 && OnePerId(documents) && forall k | k in documents :: k.entry.Upsert?
    ensures Make(tasks, documents) && forall t | t in tasks :: t.Add? && |t.documents| <= batchSize
  {
    tasks := [];
    var i := 0;
    assert Make([], documents[..0]);
    hide Make, Keys, Action, Touches;
    while i < |documents|
      invariant 0 <= i <= |documents|
      invariant Make(tasks, documents[..i]) && forall t | t in tasks :: t.Add? && |t.documents| <= batchSize
    {
      var end := if i + batchSize <= |documents| then i + batchSize else |documents|;
      var t := AddOf(documents[i..end]);
      MakeMore(tasks, documents[..i], t, documents[i..end]);
      assert documents[..end] == documents[..i] + documents[i..end];
      tasks := tasks + [t];
      i := end;
    }
    assert documents[..i] == documents;
  }

  /** `deleteIds`: ids, `batchSize` at a time. */
  method DeleteIds(ids: seq<Keyed>, batchSize: nat) returns (tasks: seq<Task>)
    requires batchSize > 0 && forall k | k in ids :: k.entry.Remove?
    ensures Make(tasks, ids) && forall t | t in tasks :: t.Cut? && |t.ids| <= batchSize
  {
    tasks := [];
    var i := 0;
    assert Make([], ids[..0]);
    hide Make, Keys, Action, Touches;
    while i < |ids|
      invariant 0 <= i <= |ids|
      invariant Make(tasks, ids[..i]) && forall t | t in tasks :: t.Cut? && |t.ids| <= batchSize
    {
      var end := if i + batchSize <= |ids| then i + batchSize else |ids|;
      var t := CutOf(ids[i..end]);
      MakeMore(tasks, ids[..i], t, ids[i..end]);
      assert ids[..end] == ids[..i] + ids[i..end];
      tasks := tasks + [t];
      i := end;
    }
    assert ids[..i] == ids;
  }

  lemma MakeBoth(adds: seq<Task>, documents: seq<Keyed>, cuts: seq<Task>, ids: seq<Keyed>, entries: seq<Keyed>,
      pending: Entries)
    requires Make(adds, documents) && Make(cuts, ids) && Are(entries, pending)
    requires forall k :: k in entries <==> k in documents || k in ids
    requires (forall t | t in adds :: t.Add?) && (forall t | t in cuts :: t.Cut?)
    ensures Carries(adds + cuts, pending)
  {
    var tasks := adds + cuts;
    forall id | id in pending ensures Touches(tasks, id) {
      var k := Keyed(id, pending[id]);
      if k in documents {
        var t :| t in adds && k.id in Keys(t);
        assert t in tasks;
      } else {
        var t :| t in cuts && k.id in Keys(t);
        assert t in tasks;
      }
    }
    forall t, id | t in tasks && id in Keys(t) ensures id in pending && Action(t, id) == pending[id] {
      assert t in adds || t in cuts;
      assert Keyed(id, Action(t, id)) in entries;
    }
    forall i, j | 0 <= i < j < |tasks| ensures tasks[j].Add? ==> tasks[i].Add? {
      if j < |adds| { assert tasks[i] in adds; } else { assert tasks[j] in cuts; }
    }
  }

  /** `send`: one entry per id, so all the documents may go before all the ids. */
  method Send(entries: seq<Keyed>, batchSize: nat, ghost pending: Entries) returns (tasks: seq<Task>)
    requires batchSize > 0 && OnePerId(entries) && Are(entries, pending)
    ensures Carries(tasks, pending)
    ensures forall t | t in tasks :: |Keys(t)| <= batchSize
  {
    hide Make, Carries, Touches, Action, Are;
    var documents, ids := [], [];
    for i := 0 to |entries|
      invariant forall k :: k in entries[..i] <==> k in documents || k in ids
      invariant (forall k | k in documents :: k.entry.Upsert?) && (forall k | k in ids :: k.entry.Remove?)
      invariant OnePerId(documents)
    {
      assert entries[..i + 1] == entries[..i] + [entries[i]];
      if entries[i].entry.Upsert? {
        assert forall k | k in documents :: k in entries[..i];
        documents := documents + [entries[i]];
      } else {
        ids := ids + [entries[i]];
      }
    }
    assert entries[..|entries|] == entries;
    var adds := SendDocuments(documents, batchSize);
    var cuts := DeleteIds(ids, batchSize);
    MakeBoth(adds, documents, cuts, ids, entries, pending);
    tasks := adds + cuts;
  }

  /** `removeUnwanted`: page after page of the listing, the last being the one that gets to its total. */
  method ListUnwanted(listing: seq<Id>, wanted: set<Id>, limit: nat) returns (unwanted: seq<Id>)
    requires limit > 0
    ensures forall id :: id in unwanted <==> id in listing && id !in wanted
  {
    unwanted := [];
    var offset := 0;
    var more := true;
    while more
      invariant 0 <= offset && (!more ==> offset + limit >= |listing|)
      invariant var done := if more then offset else offset + limit;
                forall id :: id in unwanted <==>
                  id in listing[..if done <= |listing| then done else |listing|] && id !in wanted
      decreases more, |listing| - offset
    {
      var start := if offset <= |listing| then offset else |listing|;
      var end := if offset + limit <= |listing| then offset + limit else |listing|;
      for j := start to end
        invariant forall id :: id in unwanted <==> id in listing[..j] && id !in wanted
      {
        assert listing[..j + 1] == listing[..j] + [listing[j]];
        if listing[j] !in wanted { unwanted := unwanted + [listing[j]]; }
      }
      if offset + limit >= |listing| { more := false; } else { offset := offset + limit; }
    }
    assert listing[..|listing|] == listing;
  }

  // ----- follow.ts

  /** `Following`: the state of a follower, as its handlers, timers and flushes share it. */
  class Following {
    var pending: Entries
    var last: Option<nat>
    var inFlight: nat
    var failed: bool
    var flushing: bool
    var done: bool

    constructor ()
      ensures pending == map[] && last.None? && inFlight == 0 && !failed && !flushing && !done
    {
      pending, last, inFlight, failed, flushing, done := map[], None, 0, false, false, false;
    }

    /** The object is the world's follower, or what its stream left of it. */
    ghost predicate Is(x: World)
      reads this
    {
      if done then x.run.Lingering? && flushing == x.run.going.Flushing? else
      && x.run.Following? && pending == x.out.pending && last == x.run.last && failed == x.run.failed
      && inFlight == (if x.run.handling.Some? then 1 else 0) && flushing == x.run.flush.Flushing?
    }

    /** The first half of `handle`: the entry is made, or its failure is kept. */
    method Hear(c: Config, heard: Heard, ghost x: World, ghost look: nat, ghost pre: bool, ghost missing: bool)
        returns (entry: Option<Entry>)
      requires Is(x) && heard.Told? && Enabled(c, x, Step.Hear(look, pre, missing))
      requires heard == HeardAt(c, x.log, x.run.pos, look, pre, missing)
      modifies this
      ensures Is(Do(c, x, Step.Hear(look, pre, missing)))
      ensures entry == Do(c, x, Step.Hear(look, pre, missing)).run.handling
    {
      inFlight := inFlight + 1;
      entry := EntryFor(c, heard);
      if entry.None? {
        failed := true;
        inFlight := inFlight - 1;
      }
    }

    /** The second half: the entry is queued, and covered by its token. */
    method Queue(c: Config, id: Id, entry: Entry, token: nat, ghost x: World)
      requires Is(x) && Enabled(c, x, Step.Queue)
      requires id == x.log[x.run.pos].id && Some(entry) == x.run.handling && token == x.run.pos + 1
      modifies this
      ensures Is(Do(c, x, Step.Queue))
    {
      inFlight := inFlight - 1;
      pending := pending[id := entry];
      last := Some(token);
    }

    /** The head of `flush`: it takes what is pending and says which point covers it. */
    method Flush(c: Config, position: Option<nat>, ghost x: World, ghost tasks: seq<Task>)
        returns (entries: Entries, at: Option<nat>)
      requires Is(x) && Enabled(c, x, Begin(tasks)) && position == x.run.position
      modifies this
      ensures Is(Do(c, x, Begin(tasks)))
      ensures entries == x.out.pending && Flushing(at) == Do(c, x, Begin(tasks)).run.flush
    {
      entries, pending, flushing := pending, map[], true;
      var idle := entries == map[] && inFlight == 0;
      at := if last.Some? then last else if idle then position else None;
    }

    /** Its end: the point is recorded, or a failure is kept. */
    method Settle(c: Config, ok: bool, ghost landed: bool, ghost later: bool, ghost x: World)
      requires Is(x) && Enabled(c, x, Record(ok, landed, later)) && (Going(x.run).at.None? ==> ok)
      modifies this
      ensures var y := Do(c, x, Record(ok, landed, later)); Is(y) || (done && failed && y.run.Stopped?)
    {
      flushing := false;
      if !ok { failed := true; }
    }

    /** The stream has stopped. The flush under way is past its look at `done`, and goes on. */
    method StopFollowing(c: Config, clean: bool, ghost x: World)
      requires Is(x) && Enabled(c, x, Close(clean))
      modifies this
      ensures Is(Do(c, x, Close(clean))) && flushing == old(flushing)
    {
      done := true;
    }
  }
}
