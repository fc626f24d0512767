/**
 What an incremental backup of a MongoDB database keeps of its change stream, and what replaying it does.
 */
module Capture {
  // packages/mongo-backup/src/source/events.ts, changes.ts and followed.ts, with the meaning
  // packages/mongo-backup/src/target/changes.ts gives each change.

  import opened Wrappers

  type Name = string
  type Key = nat
  type Field = string

  datatype Value = Scalar(n: int) | List(items: seq<int>)

  type Doc = map<Field, Value>

  datatype Kind = Ordinary | View | TimeSeries

  /** A collection or a view: its options, its indexes by name, its documents by key. */
  datatype Coll = Coll(kind: Kind, options: map<Field, Value>, indexes: map<Name, int>, docs: map<Key, Doc>)

  type Database = map<Name, Coll>

  datatype CutTo = CutTo(field: Field, size: nat)

  /** An update, as its description says it. */
  datatype Description = Description(given: Doc, unset: set<Field>, truncated: seq<CutTo>)

  /**
   What happens in the database, as its change stream tells it. An update's `image` is its
   post-image when there is one; `ambiguous` is whether its description has disambiguated paths;
   `after` is what it left. A rename is `within` the database or out of it.
   */
  datatype Event =
    | Insert(coll: Name, key: Key, doc: Doc)
    | Replace(coll: Name, key: Key, doc: Doc)
    | Update(coll: Name, key: Key, image: Option<Doc>, described: Description, ambiguous: bool, after: Doc)
    | Delete(coll: Name, key: Key)
    | Create(coll: Name, kind: Kind, options: map<Field, Value>)
    | CreateIndexes(coll: Name, indexes: map<Name, int>)
    | DropIndexes(coll: Name, names: set<Name>)
    | Modify(coll: Name, options: map<Field, Value>)
    | Drop(coll: Name)
    | Rename(coll: Name, to: Name, within: bool, dropTarget: bool)
    | DropDatabase
    | Other(coll: Name)

  /** A change the way a backup keeps it. */
  datatype Change =
    | Write(coll: Name, key: Key, doc: Doc)                       // insert or replace
    | Patch(coll: Name, key: Key, described: Description)         // update
    | Remove(coll: Name, key: Key)                                // delete
    | Make(coll: Name, kind: Kind, options: map<Field, Value>)    // create
    | Index(coll: Name, indexes: map<Name, int>)
    | Unindex(coll: Name, names: set<Name>)
    | Alter(coll: Name, options: map<Field, Value>)               // modify
    | Lose(coll: Name)                                            // drop
    | Move(coll: Name, to: Name, dropTarget: bool)                // rename
    | LoseAll                                                     // dropDatabase

  datatype Filter = All | Names(names: seq<Name>) | Test(test: Name -> bool)

  /** `takes`: `system.*` never is. */
  predicate Takes(filter: Filter, name: Name) {
    !("system." <= name) &&
    match filter
    case All => true
    case Names(names) => name in names
    case Test(test) => test(name)
  }

  // ----- the database itself

  /** A list is as it was, or cut to the smallest size asked; anything else is as it was. */
  ghost predicate Kept(was: Value, field: Field, truncated: seq<CutTo>, left: Value) {
    if was.Scalar? then left == was
    else
      && left.List? && left.items <= was.items
      && (forall cut | cut in truncated && cut.field == field :: |left.items| <= cut.size)
      && (left != was ==> exists cut | cut in truncated && cut.field == field :: |left.items| == cut.size)
  }

  /** What a description says an update did, field by field. */
  ghost predicate Updated(before: Doc, d: Description, after: Doc) {
    forall f: Field ::
      if f in d.unset then f !in after
      else if f in d.given then f in after && after[f] == d.given[f]
      else (f in after <==> f in before) && (f in after && f in before ==> Kept(before[f], f, d.truncated, after[f]))
  }

  ghost predicate Possible(d: Database, e: Event) {
    match e
    case Insert(coll, key, _) => coll in d && key !in d[coll].docs
    case Replace(coll, key, _) => coll in d && key in d[coll].docs
    case Update(coll, key, image, described, ambiguous, after) =>
      && coll in d && key in d[coll].docs
      && (image.Some? ==> image.value == after)
      && (!ambiguous ==> Updated(d[coll].docs[key], described, after))
    case Delete(coll, key) => coll in d && key in d[coll].docs
    case Create(coll, _, _) => coll !in d
    case Rename(coll, to, within, dropTarget) => coll in d && (within ==> to != coll && (to in d <==> dropTarget))
    case DropDatabase => true
    case Other(_) => true
    case _ => e.coll in d
  }

  /** A document of a collection, as it is from now on. */
  function WithDoc(d: Database, coll: Name, key: Key, doc: Doc): Database
    requires coll in d
  {
    d[coll := d[coll].(docs := d[coll].docs[key := doc])]
  }

  ghost function After(d: Database, e: Event): Database
    requires Possible(d, e)
  {
    match e
    case Insert(coll, key, doc) => WithDoc(d, coll, key, doc)
    case Replace(coll, key, doc) => WithDoc(d, coll, key, doc)
    case Update(coll, key, _, _, _, after) => WithDoc(d, coll, key, after)
    case Delete(coll, key) => d[coll := d[coll].(docs := d[coll].docs - {key})]
    case Create(coll, kind, options) => d[coll := Coll(kind, options, map[], map[])]
    case CreateIndexes(coll, indexes) => d[coll := d[coll].(indexes := d[coll].indexes + indexes)]
    case DropIndexes(coll, names) => d[coll := d[coll].(indexes := d[coll].indexes - names)]
    case Modify(coll, options) => d[coll := d[coll].(options := d[coll].options + options)]
    case Drop(coll) => d - {coll}
    case Rename(coll, to, within, _) => if within then (d - {coll})[to := d[coll]] else d - {coll}
    case DropDatabase => map[]
    case Other(_) => d
  }

  // ----- events.ts

  datatype Refusal = AmbiguousUpdate | TimeSeriesCreated | RenamedInto

  /** `passedOver`. */
  predicate PassedOver(e: Event, held: set<Name>, filter: Filter) {
    match e
    case DropDatabase => false
    case Rename(_, _, _, _) => false
    case Create(coll, _, _) => !Takes(filter, coll)
    case _ => e.coll !in held
  }

  /** `changeOf`, with `updateOf` and `ddlOf`. */
  function ChangeOf(e: Event): Result<Option<Change>, Refusal> {
    match e
    case Insert(coll, key, doc) => Ok(Some(Write(coll, key, doc)))
    case Replace(coll, key, doc) => Ok(Some(Write(coll, key, doc)))
    case Update(coll, key, image, described, ambiguous, _) =>
      if image.Some? then Ok(Some(Write(coll, key, image.value)))
      else if ambiguous then Err(AmbiguousUpdate)
      else Ok(Some(Patch(coll, key, described)))
    case Delete(coll, key) => Ok(Some(Remove(coll, key)))
    case Create(coll, kind, options) =>
      if kind.TimeSeries? then Err(TimeSeriesCreated) else Ok(Some(Make(coll, kind, options)))
    case CreateIndexes(coll, indexes) => Ok(Some(Index(coll, indexes)))
    case DropIndexes(coll, names) => Ok(Some(Unindex(coll, names)))
    case Modify(coll, options) => Ok(Some(Alter(coll, options)))
    case Drop(coll) => Ok(Some(Lose(coll)))
    case Rename(coll, to, within, dropTarget) => Ok(Some(if within then Move(coll, to, dropTarget) else Lose(coll)))
    case DropDatabase => Ok(Some(LoseAll))
    case Other(_) => Ok(None)
  }

  /** What one event leaves: the change kept, if any, and what is followed from then on. */
  datatype Turn = Turn(change: Option<Change>, held: set<Name>)

  /** `followed`, with `renamed`. */
  function Followed(change: Change, held: set<Name>, filter: Filter): Result<Turn, Refusal> {
    match change
    case LoseAll => Ok(Turn(Some(change), {}))
    case Make(coll, _, _) => Ok(Turn(Some(change), held + {coll}))
    case Lose(coll) => Ok(Turn(Some(change), held - {coll}))
    case Move(coll, to, _) =>
      if coll in held && Takes(filter, to) then Ok(Turn(Some(change), held - {coll} + {to}))
      else if coll in held then Ok(Turn(Some(Lose(coll)), held - {coll}))
      else if Takes(filter, to) then Err(RenamedInto)
      else Ok(Turn(None, held))
    case _ => Ok(Turn(Some(change), held))
  }

  /** One turn of `changesOf`'s loop. */
  function Keep(e: Event, held: set<Name>, filter: Filter): Result<Turn, Refusal> {
    if PassedOver(e, held, filter) then Ok(Turn(None, held))
    else match ChangeOf(e)
      case Err(refusal) => Err(refusal)
      case Ok(None) => Ok(Turn(None, held))
      case Ok(Some(change)) => Followed(change, held, filter)
  }

  // ----- what a change does to a database being restored

  datatype Exists = Exists

  function CollOr(d: Database, coll: Name): Coll {
    if coll in d then d[coll] else Coll(Ordinary, map[], map[], map[])
  }

  function Put(c: Coll, key: Key, doc: Doc): Coll {
    c.(docs := c.docs[key := doc])
  }

  /** One operation of an update: `$push` of nothing with `$slice`, or `$set` and `$unset`. */
  datatype Operation = Slice(cut: CutTo) | SetAndUnset(given: Doc, unset: set<Field>)

  function Slices(cuts: seq<CutTo>): seq<Operation> {
    seq(|cuts|, i requires 0 <= i < |cuts| => Slice(cuts[i]))
  }

  /** `operationsOf` of an update: arrays cut first, then, if there are any, fields set and unset. */
  function OperationsOf(d: Description): seq<Operation> {
    Slices(d.truncated) + if d.given == map[] && d.unset == {} then [] else [SetAndUnset(d.given, d.unset)]
  }

  function Operated(doc: Doc, o: Operation): Doc {
    match o
    case Slice(cut) =>
      if cut.field in doc && doc[cut.field].List? && cut.size < |doc[cut.field].items|
      then doc[cut.field := List(doc[cut.field].items[..cut.size])]
      else doc
    case SetAndUnset(given, unset) => doc + given - unset
  }

  function OperatedAll(doc: Doc, operations: seq<Operation>): Doc
    decreases |operations|
  {
    if operations == [] then doc else OperatedAll(Operated(doc, operations[0]), operations[1..])
  }

  /** `applyToCollection` and `operationsOf`; `replace` is what the restore was asked. */
  function Apply(d: Database, change: Change, replace: bool): Result<Database, Exists> {
    match change
    case Write(coll, key, doc) => Ok(d[coll := Put(CollOr(d, coll), key, doc)])
    case Patch(coll, key, described) =>
      if coll in d && key in d[coll].docs
      then Ok(d[coll := Put(d[coll], key, OperatedAll(d[coll].docs[key], OperationsOf(described)))])
      else Ok(d)
    case Remove(coll, key) => if coll in d then Ok(d[coll := d[coll].(docs := d[coll].docs - {key})]) else Ok(d)
    case Make(coll, kind, options) =>
      if coll in d && !replace then Err(Exists.Exists) else Ok(d[coll := Coll(kind, options, map[], map[])])
    case Index(coll, indexes) => Ok(d[coll := CollOr(d, coll).(indexes := CollOr(d, coll).indexes + indexes)])
    case Unindex(coll, names) => if coll in d then Ok(d[coll := d[coll].(indexes := d[coll].indexes - names)])
      else Ok(d)
    case Alter(coll, options) => if coll in d then Ok(d[coll := d[coll].(options := d[coll].options + options)])
      else Ok(d)
    case Lose(coll) => Ok(d - {coll})
    case Move(coll, to, dropTarget) =>
      if coll !in d then Ok(d)
      else if to in d && !dropTarget && !replace then Err(Exists.Exists)
      else Ok((d - {coll})[to := d[coll]])
    case LoseAll => Ok(map[])
  }

  function Replay(d: Database, changes: seq<Change>, replace: bool): Result<Database, Exists>
    decreases |changes|
  {
    if changes == [] then Ok(d)
    else match Apply(d, changes[0], replace)
      case Err(e) => Err(e)
      case Ok(next) => Replay(next, changes[1..], replace)
  }

  // ----- a kept change simulates its event

  /** What the filter takes of a database: what a full backup reads. */
  function Restrict(filter: Filter, d: Database): Database {
    map name | name in d && Takes(filter, name) :: d[name]
  }

  function ChangesIn(change: Option<Change>): seq<Change> {
    if change.Some? then [change.value] else []
  }

  /**
   An event a change cannot say: an update of a collection taken, told only by a path that may be
   read two ways; a time-series collection made where one is taken; or documents coming in under
   a name taken from a collection that was not.
   */
  predicate Unsayable(filter: Filter, d: Database, e: Event) {
    || (e.Update? && Takes(filter, e.coll) && e.image.None? && e.ambiguous)
    || (e.Create? && Takes(filter, e.coll) && e.kind.TimeSeries?)
    || (e.Rename? && e.within && !Takes(filter, e.coll) && Takes(filter, e.to))
  }

  /** An event is refused exactly when no change can say it. */
  lemma RefusedExactly(filter: Filter, d: Database, e: Event)
    requires Possible(d, e)
    ensures Keep(e, Restrict(filter, d).Keys, filter).Err? <==> Unsayable(filter, d, e)
  {
  }

  /** The taken part: all but `system.*`, or of those the ones named, or the ones a test is true of; each whole. */
  lemma RestrictExactly(filter: Filter, d: Database, name: Name)
    ensures name in Restrict(filter, d) <==>
              && name in d && (|name| < 7 || name[..7] != "system.")
              && (filter.Names? ==> exists i | 0 <= i < |filter.names| :: filter.names[i] == name)
              && (filter.Test? ==> filter.test(name))
    ensures name in Restrict(filter, d) ==> Restrict(filter, d)[name] == d[name]
  {
    assert "system." <= name <==> |name| >= 7 && name[..7] == "system.";
  }

  lemma RestrictPut(filter: Filter, d: Database, name: Name, c: Coll)
    ensures Restrict(filter, d[name := c]) == if Takes(filter, name) then Restrict(filter, d)[name := c]
            else Restrict(filter, d)
  {
  }

  lemma RestrictDrop(filter: Filter, d: Database, name: Name)
    ensures Restrict(filter, d - {name}) == Restrict(filter, d) - {name}
    ensures !Takes(filter, name) ==> Restrict(filter, d - {name}) == Restrict(filter, d)
  {
  }

  /** What a change kept, or none, does to what was restored. */
  ghost predicate Mirrors(filter: Filter, d: Database, e: Event, replace: bool)
    requires Possible(d, e)
  {
    var kept := Keep(e, Restrict(filter, d).Keys, filter);
    && kept.Ok? && kept.value.held == Restrict(filter, After(d, e)).Keys
    && (kept.value.change.None? ==> Restrict(filter, After(d, e)) == Restrict(filter, d))
    && (kept.value.change.Some? ==> Apply(Restrict(filter, d), kept.value.change.value, replace)
                                    == Ok(Restrict(filter, After(d, e))))
  }

  /** A description says one thing only. */
  lemma UpdatedOneWay(before: Doc, d: Description, x: Doc, y: Doc)
    requires Updated(before, d, x) && Updated(before, d, y)
    ensures x == y
  {
    forall f: Field ensures (f in x <==> f in y) && (f in x ==> x[f] == y[f]) {
      if f in x && f !in d.unset && f !in d.given && f in before && before[f].List? {
        var a, b := x[f].items, y[f].items;
        assert |a| == |b|;
        assert a == before[f].items[..|a|] && b == before[f].items[..|b|];
      }
    }
  }

  lemma {:induction false} OperatedThen(doc: Doc, first: seq<Operation>, second: seq<Operation>)
    ensures OperatedAll(doc, first + second) == OperatedAll(OperatedAll(doc, first), second)
    decreases |first|
  {
    if first == [] {
      assert first + second == second;
    } else {
      assert (first + second)[1..] == first[1..] + second;
      OperatedThen(Operated(doc, first[0]), first[1..], second);
    }
  }

  lemma KeptOnce(doc: Doc, cuts: seq<CutTo>, f: Field, left: Value)
    requires cuts != [] && f in doc && f in Operated(doc, Slice(cuts[0]))
    requires Kept(Operated(doc, Slice(cuts[0]))[f], f, cuts[1..], left)
    ensures Kept(doc[f], f, cuts, left)
  {
    assert forall c :: c in cuts <==> c == cuts[0] || c in cuts[1..];
  }

  /** Cutting one array after the other leaves each cut to the smallest size asked of it. */
  lemma {:induction false} SlicesKeep(doc: Doc, cuts: seq<CutTo>)
    ensures var cut := OperatedAll(doc, Slices(cuts));
            cut.Keys == doc.Keys && forall f | f in doc :: Kept(doc[f], f, cuts, cut[f])
    decreases |cuts|
  {
    if cuts != [] {
      var next := Operated(doc, Slice(cuts[0]));
      assert Slices(cuts)[1..] == Slices(cuts[1..]);
      SlicesKeep(next, cuts[1..]);
      forall f | f in doc ensures Kept(doc[f], f, cuts, OperatedAll(doc, Slices(cuts))[f]) {
        KeptOnce(doc, cuts, f, OperatedAll(next, Slices(cuts[1..]))[f]);
      }
    }
  }

  /** The operations a change is replayed with do what its description says. */
  lemma OperationsUpdate(before: Doc, d: Description)
    ensures Updated(before, d, OperatedAll(before, OperationsOf(d)))
  {
    SlicesKeep(before, d.truncated);
    var cut := OperatedAll(before, Slices(d.truncated));
    var more := if d.given == map[] && d.unset == {} then [] else [SetAndUnset(d.given, d.unset)];
    OperatedThen(before, Slices(d.truncated), more);
    assert more != [] ==> OperatedAll(Operated(cut, more[0]), more[1..]) == Operated(cut, more[0]);
  }

  lemma DocumentMirrors(filter: Filter, d: Database, e: Event, replace: bool)
    requires Possible(d, e) && !Unsayable(filter, d, e)
    requires e.Insert? || e.Replace? || e.Update? || e.Delete?
    ensures Mirrors(filter, d, e, replace)
  {
    RestrictPut(filter, d, e.coll, After(d, e)[e.coll]);
    if e.Update? && e.image.None? && !e.ambiguous {
      var before := d[e.coll].docs[e.key];
      OperationsUpdate(before, e.described);
      UpdatedOneWay(before, e.described, e.after, OperatedAll(before, OperationsOf(e.described)));
    }
  }

  lemma CreateMirrors(filter: Filter, d: Database, e: Event, replace: bool)
    requires Possible(d, e) && !Unsayable(filter, d, e) && e.Create?
    ensures Mirrors(filter, d, e, replace)
  {
    RestrictPut(filter, d, e.coll, After(d, e)[e.coll]);
  }

  lemma CollectionMirrors(filter: Filter, d: Database, e: Event, replace: bool)
    requires Possible(d, e) && !Unsayable(filter, d, e)
    requires e.CreateIndexes? || e.DropIndexes? || e.Modify?
    ensures Mirrors(filter, d, e, replace)
  {
    RestrictPut(filter, d, e.coll, After(d, e)[e.coll]);
  }

  lemma RenameMirrors(filter: Filter, d: Database, e: Event, replace: bool)
    requires Possible(d, e) && !Unsayable(filter, d, e) && e.Rename?
    ensures Mirrors(filter, d, e, replace)
  {
    RestrictDrop(filter, d, e.coll);
    if e.within { RestrictPut(filter, d - {e.coll}, e.to, d[e.coll]); }
  }

  lemma NameMirrors(filter: Filter, d: Database, e: Event, replace: bool)
    requires Possible(d, e) && !Unsayable(filter, d, e)
    requires e.Drop? || e.DropDatabase? || e.Other?
    ensures Mirrors(filter, d, e, replace)
  {
    if e.Drop? { RestrictDrop(filter, d, e.coll); }
  }

  /**
   Otherwise the change kept does to what was restored what the event did,
   and what is followed is what is taken and there.
   */
  lemma Simulates(filter: Filter, d: Database, e: Event, replace: bool)
    requires Possible(d, e) && !Unsayable(filter, d, e)
    ensures var kept := Keep(e, Restrict(filter, d).Keys, filter);
            && kept.Ok? && kept.value.held == Restrict(filter, After(d, e)).Keys
            && Replay(Restrict(filter, d), ChangesIn(kept.value.change), replace) == Ok(Restrict(filter, After(d, e)))
  {
    if e.Insert? || e.Replace? || e.Update? || e.Delete? { DocumentMirrors(filter, d, e, replace); }
    else if e.Create? { CreateMirrors(filter, d, e, replace); }
    else if e.CreateIndexes? || e.DropIndexes? || e.Modify? { CollectionMirrors(filter, d, e, replace); }
    else if e.Rename? { RenameMirrors(filter, d, e, replace); }
    else { NameMirrors(filter, d, e, replace); }
  }

  // ----- changes.ts: the event loop

  /** What the change stream gives, in order: an event at a cluster time, or an invalidation. */
  datatype Item = Happens(time: nat, event: Event) | Invalidated

  /** The items from `at` on are possible, one after the other, from the database as it was there. */
  ghost predicate Follows(d: Database, log: seq<Item>, at: nat)
    requires at <= |log|
    decreases |log| - at
  {
    at == |log| ||
    (if log[at].Happens? then Possible(d, log[at].event) && Follows(After(d, log[at].event), log, at + 1)
     else Follows(d, log, at + 1))
  }

  /** The database as it was before the item at `to`. */
  ghost function DatabaseAt(d: Database, log: seq<Item>, at: nat, to: nat): Database
    requires at <= to <= |log| && Follows(d, log, at)
    decreases |log| - at
  {
    if at == to then d
    else if log[at].Happens? then DatabaseAt(After(d, log[at].event), log, at + 1, to)
    else DatabaseAt(d, log, at + 1, to)
  }

  /** What is kept between two points, and what is followed at the second. */
  datatype Run = Run(kept: seq<Change>, held: set<Name>)

  function Prefixed(kept: seq<Change>, r: Result<Run, Refusal>): Result<Run, Refusal> {
    if r.Err? || kept == [] then r else Ok(Run(kept + r.value.kept, r.value.held))
  }

  lemma PrefixedTwice(a: seq<Change>, b: seq<Change>, r: Result<Run, Refusal>)
    ensures Prefixed(a, Prefixed(b, r)) == Prefixed(a + b, r)
  {
    if r.Ok? {
      assert a + (b + r.value.kept) == a + b + r.value.kept;
      assert a == [] ==> a + b == b;
      assert b == [] ==> a + b == a;
    }
  }

  function Between(filter: Filter, log: seq<Item>, at: nat, to: nat, held: set<Name>): Result<Run, Refusal>
    requires at <= to <= |log|
    decreases |log| - at
  {
    if at == to then Ok(Run([], held))
    else if log[at].Invalidated? then Between(filter, log, at + 1, to, held)
    else match Keep(log[at].event, held, filter)
      case Err(refusal) => Err(refusal)
      case Ok(k) => Prefixed(ChangesIn(k.change), Between(filter, log, at + 1, to, k.held))
  }

  /** Where a read from `at` stops: caught up, past an invalidation, or before what is later than `until`. */
  function StopOf(log: seq<Item>, at: nat, until: nat): (to: nat)
    requires at <= |log|
    ensures at <= to <= |log|
    decreases |log| - at
  {
    if at == |log| then at
    else if log[at].Invalidated? then at + 1
    else if log[at].time > until then at
    else StopOf(log, at + 1, until)
  }

  datatype Pulled = Gave(change: Change) | Closed | Failed(refusal: Refusal)

  /** The state of `changesOf` between two pulls: where the stream is, and what is followed. */
  class ChangeReader {
    const log: seq<Item>
    const filter: Filter
    const until: nat
    var at: nat
    var held: set<Name>
    var done: bool

    constructor (log: seq<Item>, from: nat, held: set<Name>, until: nat, filter: Filter)
      requires from <= |log|
      ensures this.log == log && this.filter == filter && this.until == until
      ensures at == from && this.held == held && !done
    {
      this.log, this.filter, this.until := log, filter, until;
      at, this.held, done := from, held, false;
    }

    /** What is left to give, to where it will stop. */
    function Left(): Result<Run, Refusal>
      requires at <= |log|
      reads this
    {
      Between(filter, log, at, StopOf(log, at, until), held)
    }

    /** `pull`: events are passed over until one is kept, one is refused, or the stream stops. */
    method Pull() returns (p: Pulled)
      requires at <= |log| && !done
      modifies this
      ensures old(at) <= at <= |log| && done == !p.Gave?
      ensures p.Gave? ==> at > old(at) && StopOf(log, at, until) == old(StopOf(log, at, until))
      ensures match p
              case Gave(change) =>
                old(Left()) == Prefixed([change], Left())
              case Closed => old(Left()) == Ok(Run([], held)) && at == old(StopOf(log, at, until))
              case Failed(refusal) => old(Left()) == Err(refusal)
    {
      p := Closed;
      ghost var left, stop := Left(), StopOf(log, at, until);
      while at < |log| && !done
        invariant old(at) <= at <= |log| && !done
        invariant p == Closed && Left() == left && StopOf(log, at, until) == stop
        decreases |log| - at
      {
        if log[at].Invalidated? {
          at := at + 1;
          done := true;
          assert stop == at && Between(filter, log, at, stop, held) == Ok(Run([], held));
          return;
        }
        if log[at].time > until { break; }
        var event := log[at].event;
        at := at + 1;
        if PassedOver(event, held, filter) { continue; }
        var change := ChangeOf(event);
        if change.Err? {
          done := true;
          return Failed(change.error);
        }
        if change.value.None? { continue; }
        var kept := Followed(change.value.value, held, filter);
        if kept.Err? {
          done := true;
          return Failed(kept.error);
        }
        held := kept.value.held;
        if kept.value.change.Some? {
          return Gave(kept.value.change.value);
        }
      }
      done := true;
    }
  }

  /** A whole read: every change kept, what is followed at the end, and where the next one resumes. */
  method ChangesOf(log: seq<Item>, from: nat, held: set<Name>, until: nat, filter: Filter)
    returns (r: Result<Run, Refusal>, resume: nat)
    requires from <= |log|
    ensures r == Between(filter, log, from, StopOf(log, from, until), held)
    ensures r.Ok? ==> resume == StopOf(log, from, until)
  {
    var reader := new ChangeReader(log, from, held, until, filter);
    var kept := [];
    ghost var whole := reader.Left();
    var p := reader.Pull();
    assert p.Gave? ==> [] + [p.change] == [p.change];
    while p.Gave?
      invariant fresh(reader) && reader.log == log && reader.filter == filter && reader.until == until
      invariant from <= reader.at <= |log| && reader.done == !p.Gave?
      invariant p.Gave? ==> StopOf(log, reader.at, until) == StopOf(log, from, until)
      invariant p.Gave? ==> whole == Prefixed(kept + [p.change], reader.Left())
      invariant p.Closed? ==> whole == Ok(Run(kept, reader.held)) && reader.at == StopOf(log, from, until)
      invariant p.Failed? ==> whole == Err(p.refusal)
      decreases |log| - reader.at, p.Gave?
    {
      kept := kept + [p.change];
      ghost var before := kept;
      p := reader.Pull();
      if p.Gave? { PrefixedTwice(before, [p.change], reader.Left()); }
      assert before + [] == before;
    }
    r, resume := if p.Failed? then Err(p.refusal) else Ok(Run(kept, reader.held)), reader.at;
  }

  /** A read stops where it does for one of three reasons, and has read everything before. */
  lemma {:induction false} StopsBecause(log: seq<Item>, at: nat, until: nat)
    requires at <= |log|
    ensures var to := StopOf(log, at, until);
            && (to == |log| || (to > at && log[to - 1].Invalidated?) || (log[to].Happens? && log[to].time > until))
            && (forall i | at <= i < to :: log[i].Happens? ==> log[i].time <= until)
            && (forall i | at <= i < to - 1 :: log[i].Happens?)
    decreases |log| - at
  {
    if at < |log| && log[at].Happens? && log[at].time <= until {
      StopsBecause(log, at + 1, until);
      var to := StopOf(log, at, until);
      assert to == at + 1 ==> to == |log| || log[to].Happens?;
    }
  }

  /** Two reads, the second from where the first stopped and following what it left, keep what one read would. */
  lemma {:induction false} SplitsAnywhere(filter: Filter, log: seq<Item>, a: nat, b: nat, c: nat, held: set<Name>)
    requires a <= b <= c <= |log|
    ensures Between(filter, log, a, c, held) ==
            match Between(filter, log, a, b, held)
            case Err(refusal) => Err(refusal)
            case Ok(first) => Prefixed(first.kept, Between(filter, log, b, c, first.held))
    decreases |log| - a
  {
    if a < b {
      if log[a].Invalidated? {
        SplitsAnywhere(filter, log, a + 1, b, c, held);
      } else {
        var k := Keep(log[a].event, held, filter);
        if k.Ok? {
          SplitsAnywhere(filter, log, a + 1, b, c, k.value.held);
          var first := Between(filter, log, a + 1, b, k.value.held);
          if first.Ok? {
            PrefixedTwice(ChangesIn(k.value.change), first.value.kept, Between(filter, log, b, c, first.value.held));
            if ChangesIn(k.value.change) == [] { assert [] + first.value.kept == first.value.kept; }
          }
        }
      }
    }
  }

  // ----- a whole read simulates the database

  lemma {:induction false} ReplayConcat(d: Database, a: seq<Change>, b: seq<Change>, replace: bool)
    ensures Replay(d, a + b, replace) ==
            match Replay(d, a, replace)
            case Err(e) => Err(e)
            case Ok(next) => Replay(next, b, replace)
    decreases |a|
  {
    if a == [] {
      assert a + b == b;
    } else {
      assert (a + b)[0] == a[0] && (a + b)[1..] == a[1..] + b;
      var next := Apply(d, a[0], replace);
      if next.Ok? { ReplayConcat(next.value, a[1..], b, replace); }
    }
  }

  /** An event before `to` that no change can say. */
  ghost predicate Sayable(filter: Filter, d: Database, log: seq<Item>, at: nat, to: nat)
    requires at <= to <= |log| && Follows(d, log, at)
  {
    forall i | at <= i < to && log[i].Happens? :: !Unsayable(filter, DatabaseAt(d, log, at, i), log[i].event)
  }

  lemma SayableRest(filter: Filter, d: Database, log: seq<Item>, at: nat, to: nat)
    requires at < to <= |log| && Follows(d, log, at)
    ensures var next := DatabaseAt(d, log, at, at + 1);
            Follows(next, log, at + 1) &&
            (Sayable(filter, d, log, at, to) <==>
              (log[at].Happens? ==> !Unsayable(filter, d, log[at].event)) && Sayable(filter, next, log, at + 1, to))
  {
    var next := if log[at].Happens? then After(d, log[at].event) else d;
    assert DatabaseAt(next, log, at + 1, at + 1) == next;
    forall i: nat | at + 1 <= i < to ensures DatabaseAt(d, log, at, i) == DatabaseAt(next, log, at + 1, i) {}
    assert DatabaseAt(d, log, at, at) == d;
  }

  /**
   A read succeeds exactly when every event it reads can be said. Then replaying what it kept on
   what the filter took of the database where it began gives what the filter takes of the database
   where it stopped, and what it follows is what is taken and there.
   */
  lemma {:induction false} CaptureSimulates(filter: Filter, d: Database, log: seq<Item>, at: nat, to: nat,
      replace: bool)
    requires at <= to <= |log| && Follows(d, log, at)
    ensures var r := Between(filter, log, at, to, Restrict(filter, d).Keys);
            && (r.Ok? <==> Sayable(filter, d, log, at, to))
            && (r.Ok? ==>
                  && r.value.held == Restrict(filter, DatabaseAt(d, log, at, to)).Keys
                  && Replay(Restrict(filter, d), r.value.kept, replace)
                    == Ok(Restrict(filter, DatabaseAt(d, log, at, to))))
    decreases |log| - at
  {
    if at < to {
      SayableRest(filter, d, log, at, to);
      var next := DatabaseAt(d, log, at, at + 1);
      CaptureSimulates(filter, next, log, at + 1, to, replace);
      if log[at].Happens? {
        var e := log[at].event;
        RefusedExactly(filter, d, e);
        if !Unsayable(filter, d, e) {
          Simulates(filter, d, e, replace);
          var rest := Between(filter, log, at + 1, to, Restrict(filter, next).Keys);
          if rest.Ok? {
            var mine := ChangesIn(Keep(e, Restrict(filter, d).Keys, filter).value.change);
            ReplayConcat(Restrict(filter, d), mine, rest.value.kept, replace);
            assert mine == [] ==> mine + rest.value.kept == rest.value.kept;
          }
        }
      }
    }
  }

  // ----- followed.ts: what is followed, from one backup to the next

  /** What a position records of what is followed: how it differs from the full backup's. */
  datatype Difference = Difference(added: seq<Name>, removed: seq<Name>)

  /** `differenceOf`: what is in one set and not in the other, both ways. */
  method DifferenceOf(full: set<Name>, held: set<Name>) returns (d: Difference)
    ensures NamesIn(d.added) == held - full && NamesIn(d.removed) == full - held
  {
    var added := Filtered(held, full);
    var removed := Filtered(full, held);
    d := Difference(added, removed);
  }

  method Filtered(names: set<Name>, other: set<Name>) returns (out: seq<Name>)
    ensures NamesIn(out) == names - other
  {
    out := [];
    var rest := names;
    while rest != {}
      invariant rest <= names && forall n :: n in out <==> n in names - rest && n !in other
      decreases |rest|
    {
      var n :| n in rest;
      rest := rest - {n};
      if n !in other { out := out + [n]; }
    }
  }

  function NamesIn(names: seq<Name>): set<Name> {
    set n | n in names
  }

  /** `followedFrom`: the full backup's names, then those added, less those removed. */
  method FollowedFrom(full: set<Name>, d: Difference) returns (held: set<Name>)
    ensures held == full + NamesIn(d.added) - NamesIn(d.removed)
  {
    held := full + NamesIn(d.added);
    for i := 0 to |d.removed|
      invariant held == full + NamesIn(d.added) - NamesIn(d.removed[..i])
    {
      assert d.removed[..i + 1] == d.removed[..i] + [d.removed[i]];
      held := held - {d.removed[i]};
    }
    assert d.removed[..|d.removed|] == d.removed;
  }

  datatype Position = Position(resume: nat, difference: Difference)

  /** What a chain follows, as its full backup and the position say. */
  function HeldAt(full: set<Name>, position: Position): set<Name> {
    full + NamesIn(position.difference.added) - NamesIn(position.difference.removed)
  }

  /** `changesEntries`: from the position the last backup recorded, the changes since, and the position they leave. */
  method NextChanges(log: seq<Item>, full: set<Name>, position: Position, until: nat, filter: Filter)
    returns (r: Result<Run, Refusal>, next: Position)
    requires position.resume <= |log|
    ensures r == Between(filter, log, position.resume, StopOf(log, position.resume, until), HeldAt(full, position))
    ensures r.Ok? ==> next.resume == StopOf(log, position.resume, until) && HeldAt(full, next) == r.value.held
    ensures r.Err? ==> next == position
  {
    var held := FollowedFrom(full, position.difference);
    var resume;
    r, resume := ChangesOf(log, position.resume, held, until, filter);
    next := position;
    if r.Ok? {
      var difference := DifferenceOf(full, r.value.held);
      next := Position(resume, difference);
    }
  }

  // ----- a chain of backups

  /** The backups of a chain, each from where the one before stopped. */
  predicate Chain(log: seq<Item>, at: nat, stops: seq<nat>)
    requires at <= |log|
    decreases |stops|
  {
    stops == [] || (at <= stops[0] <= |log| && Chain(log, stops[0], stops[1..]))
  }

  /** What the incrementals of a chain keep, one after the other, following what the last one left. */
  function KeptBy(filter: Filter, log: seq<Item>, at: nat, stops: seq<nat>, held: set<Name>): Result<Run, Refusal>
    requires at <= |log| && Chain(log, at, stops)
    decreases |stops|
  {
    if stops == [] then Ok(Run([], held))
    else match Between(filter, log, at, stops[0], held)
      case Err(refusal) => Err(refusal)
      case Ok(first) => Prefixed(first.kept, KeptBy(filter, log, stops[0], stops[1..], first.held))
  }

  lemma {:induction false} ChainIsOneRead(filter: Filter, log: seq<Item>, at: nat, stops: seq<nat>, held: set<Name>)
    requires at <= |log| && stops != [] && Chain(log, at, stops)
    ensures at <= stops[|stops| - 1] <= |log|
    ensures KeptBy(filter, log, at, stops, held) == Between(filter, log, at, stops[|stops| - 1], held)
    decreases |stops|
  {
    if |stops| == 1 {
      var first := Between(filter, log, at, stops[0], held);
      assert KeptBy(filter, log, stops[0], [], {}) == Ok(Run([], {}));
      if first.Ok? { assert first.value.kept + [] == first.value.kept; }
    } else {
      var first := Between(filter, log, at, stops[0], held);
      ChainIsOneRead(filter, log, stops[0], stops[1..], if first.Ok? then first.value.held else held);
      SplitsAnywhere(filter, log, at, stops[0], stops[|stops| - 1], held);
    }
  }

  /**
   Restoring a full backup and then its incrementals gives what the filter takes of the database
   where the last one stopped; so does the full one and a single differential to there.
   */
  lemma ChainRestores(filter: Filter, d: Database, log: seq<Item>, stops: seq<nat>, replace: bool)
    requires stops != [] && Chain(log, 0, stops) && Follows(d, log, 0)
    ensures 0 <= stops[|stops| - 1] <= |log|
    ensures var r := KeptBy(filter, log, 0, stops, Restrict(filter, d).Keys);
            && r == Between(filter, log, 0, stops[|stops| - 1], Restrict(filter, d).Keys)
            && (r.Ok? <==> Sayable(filter, d, log, 0, stops[|stops| - 1]))
            && (r.Ok? ==> Replay(Restrict(filter, d), r.value.kept, replace) ==
                          Ok(Restrict(filter, DatabaseAt(d, log, 0, stops[|stops| - 1]))))
  {
    ChainIsOneRead(filter, log, 0, stops, Restrict(filter, d).Keys);
    CaptureSimulates(filter, d, log, 0, stops[|stops| - 1], replace);
  }
}
