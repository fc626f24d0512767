/**
 Which migrations have been applied, and running the others: packages/mongo/src/migrations/plan.ts
 and run.ts. A run holds the migrations' lock throughout, and may stop at any step.
 */
module Migrations {
  import opened Wrappers

  type Id = string

  /** `D`: what the database holds. A `down` may be missing; `transaction` is whether a step runs in one. */
  datatype Migration<!D> = Migration(id: Id, up: D -> D, down: Option<D -> D>, transaction: bool)

  type Migrations<!D> = seq<Migration<D>>

  datatype Refusal = ListedTwice | Missing(id: Id) | Gap(id: Id) | NotInTheList(id: Id) | NoDown(id: Id)

  datatype State = Applied | Pending | Gone

  datatype Status = Status(id: Id, state: State)

  // ----- plan.ts

  ghost predicate Distinct<D>(list: Migrations<D>) {
    forall i, j | 0 <= i < j < |list| :: list[i].id != list[j].id
  }

  ghost predicate Once(records: seq<Id>) {
    forall i, j | 0 <= i < j < |records| :: records[i] != records[j]
  }

  /** What is recorded is exactly the first `n` of the list. */
  ghost predicate IsPrefix<D>(list: Migrations<D>, records: seq<Id>, n: nat) {
    n <= |list| && forall id :: id in records <==> exists i | 0 <= i < n :: list[i].id == id
  }

  /** What a refusal says of the list and the records is so. */
  ghost predicate Says<D>(list: Migrations<D>, records: seq<Id>, to: Option<Id>, e: Refusal) {
    match e
    case ListedTwice => exists i, j | 0 <= i < j < |list| :: list[i].id == list[j].id
    case Missing(id) => id in records && forall i | 0 <= i < |list| :: list[i].id != id
    case Gap(id) =>
      id !in records && exists i, j | 0 <= i < j < |list| :: list[i].id == id && list[j].id in records
    case NotInTheList(id) => to == Some(id) && forall i | 0 <= i < |list| :: list[i].id != id
    case NoDown(id) => exists i | 0 <= i < |list| :: list[i].id == id && list[i].down.None?
  }

  /** `checkList`. */
  method CheckList<D>(list: Migrations<D>) returns (ok: bool)
    ensures ok <==> Distinct(list)
  {
    var seen: set<Id> := {};
    for i := 0 to |list|
      invariant forall id :: id in seen <==> exists j | 0 <= j < i :: list[j].id == id
      invariant forall j, k | 0 <= j < k < i :: list[j].id != list[k].id
    {
      if list[i].id in seen {
        var j :| 0 <= j < i && list[j].id == list[i].id;
        return false;
      }
      seen := seen + {list[i].id};
    }
    ok := true;
  }

  /** `statusOf`: every listed migration, in the list's order, then every recorded one the list has not. */
  method StatusOf<D>(list: Migrations<D>, records: seq<Id>) returns (status: seq<Status>)
    ensures |status| >= |list|
    ensures forall i | 0 <= i < |list| :: status[i] == Status(list[i].id, if list[i].id in records then Applied
            else Pending)
    ensures forall i | |list| <= i < |status| :: status[i].state.Gone? && status[i].id in records
                                                 && forall j | 0 <= j < |list| :: list[j].id != status[i].id
    ensures forall id | id in records && (forall j | 0 <= j < |list| :: list[j].id != id) ::
            Status(id, Gone) in status[|list|..]
  {
    status := [];
    var listed: set<Id> := {};
    for i := 0 to |list|
      invariant |status| == i && forall j | 0 <= j < i ::
                  status[j] == Status(list[j].id, if list[j].id in records then Applied else Pending)
      invariant forall id :: id in listed <==> exists j | 0 <= j < i :: list[j].id == id
    {
      status := status + [Status(list[i].id, if list[i].id in records then Applied else Pending)];
      listed := listed + {list[i].id};
    }
    var gone: seq<Status> := [];
    for i := 0 to |records|
      invariant forall s | s in gone :: s.state.Gone? && s.id in records && s.id !in listed
      invariant forall k | 0 <= k < i && records[k] !in listed :: Status(records[k], Gone) in gone
    {
      if records[i] !in listed { gone := gone + [Status(records[i], Gone)]; }
    }
    ghost var first := status;
    status := status + gone;
    assert status[|list|..] == gone && status[..|list|] == first;
    forall i | |list| <= i < |status| ensures status[i].state.Gone? && status[i].id in records
      && forall j | 0 <= j < |list| :: list[j].id != status[i].id {
      assert status[i] == gone[i - |list|];
    }
  }

  /**
   `checkApplied`: how many are applied, when what is recorded is a prefix of the list; refused exactly when it is not.
   */
  method CheckApplied<D>(list: Migrations<D>, records: seq<Id>) returns (applied: Result<nat, Refusal>)
    requires Distinct(list)
    ensures applied.Ok? ==> IsPrefix(list, records, applied.value)
    ensures applied.Err? ==> Says(list, records, None, applied.error) && forall n: nat :: !IsPrefix(list, records, n)
  {
    var status := StatusOf(list, records);
    if |status| > |list| {
      var gone := status[|list|];
      forall n: nat ensures !IsPrefix(list, records, n) { assert gone.id in records; }
      return Err(Missing(gone.id));
    }
    var n := 0;
    for i := 0 to |list|
      invariant n == CountApplied(list, records, i) <= i
    {
      if status[i].state.Applied? { n := n + 1; }
    }
    for i := 0 to n
      invariant forall j | 0 <= j < i :: list[j].id in records
    {
      if status[i].state.Pending? {
        GapRefuses(list, records, n, i);
        AppliedAfter(list, records, n, i);
        return Err(Gap(list[i].id));
      }
    }
    AllBefore(list, records, n);
    applied := Ok(n);
  }

  function CountApplied<D>(list: Migrations<D>, records: seq<Id>, i: nat): nat
    requires i <= |list|
  {
    if i == 0 then 0 else CountApplied(list, records, i - 1) + if list[i - 1].id in records then 1 else 0
  }

  lemma {:induction false} CountUpTo<D>(list: Migrations<D>, records: seq<Id>, m: nat, i: nat)
    requires Distinct(list) && IsPrefix(list, records, m) && i <= |list|
    ensures CountApplied(list, records, i) == if i <= m then i else m
  {
    if i > 0 {
      CountUpTo(list, records, m, i - 1);
      if i - 1 < m { assert list[i - 1].id in records; }
    }
  }

  lemma PrefixCounts<D>(list: Migrations<D>, records: seq<Id>, m: nat)
    requires Distinct(list) && IsPrefix(list, records, m)
    ensures CountApplied(list, records, |list|) == m
  {
    CountUpTo(list, records, m, |list|);
  }

  lemma {:induction false} CountGrows<D>(list: Migrations<D>, records: seq<Id>, i: nat, j: nat)
    requires i <= j <= |list|
    ensures CountApplied(list, records, i) <= CountApplied(list, records, j)
    ensures (exists k | i <= k < j :: list[k].id in records) ==>
            CountApplied(list, records, i) < CountApplied(list, records, j)
  {
    if i < j { CountGrows(list, records, i, j - 1); }
  }

  lemma {:induction false} CountFull<D>(list: Migrations<D>, records: seq<Id>, n: nat)
    requires n <= |list| && forall j | 0 <= j < n :: list[j].id in records
    ensures CountApplied(list, records, n) == n
  {
    if n > 0 { CountFull(list, records, n - 1); }
  }

  /** As many applied as there are before, and all of those: nothing after is. */
  lemma AllBefore<D>(list: Migrations<D>, records: seq<Id>, n: nat)
    requires n <= |list| && CountApplied(list, records, |list|) == n && forall j | 0 <= j < n :: list[j].id in records
    requires forall id | id in records :: exists j | 0 <= j < |list| :: list[j].id == id
    ensures IsPrefix(list, records, n)
  {
    CountFull(list, records, n);
    CountGrows(list, records, n, |list|);
    forall id | id in records ensures exists i | 0 <= i < n :: list[i].id == id {
      var j :| 0 <= j < |list| && list[j].id == id;
      assert j < n;
    }
  }

  lemma GapRefuses<D>(list: Migrations<D>, records: seq<Id>, n: nat, i: nat)
    requires Distinct(list) && CountApplied(list, records, |list|) == n && i < n && i < |list| && list[i].id !in records
    ensures forall m: nat :: !IsPrefix(list, records, m)
  {
    forall m: nat ensures !IsPrefix(list, records, m) {
      if IsPrefix(list, records, m) {
        PrefixCounts(list, records, m);
        assert false;
      }
    }
  }

  lemma {:induction false} CountFinds<D>(list: Migrations<D>, records: seq<Id>, i: nat, j: nat)
    requires i <= j <= |list| && CountApplied(list, records, i) < CountApplied(list, records, j)
    ensures exists k | i <= k < j :: list[k].id in records
  {
    if list[j - 1].id !in records { CountFinds(list, records, i, j - 1); }
  }

  /** As many are applied, and one of the first is not: one after it is. */
  lemma AppliedAfter<D>(list: Migrations<D>, records: seq<Id>, n: nat, i: nat)
    requires CountApplied(list, records, |list|) == n && i < n && i < |list| && list[i].id !in records
    requires forall j | 0 <= j < i :: list[j].id in records
    ensures Says(list, records, None, Gap(list[i].id))
  {
    CountFull(list, records, i);
    CountFinds(list, records, i + 1, |list|);
    var k :| i + 1 <= k < |list| && list[k].id in records;
    assert list[i].id == list[i].id && i < k;
  }

  /** `indexOf`. */
  method IndexOf<D>(list: Migrations<D>, id: Id) returns (index: Option<nat>)
    ensures index.Some? ==> index.value < |list| && list[index.value].id == id
    ensures index.None? ==> forall i | 0 <= i < |list| :: list[i].id != id
  {
    for i := 0 to |list|
      invariant forall j | 0 <= j < i :: list[j].id != id
    {
      if list[i].id == id { return Some(i); }
    }
    index := None;
  }

  function Max(a: nat, b: nat): nat { if a > b then a else b }

  /** `list[from..end]` is what `migrate` has to run: after what is recorded, up to and with `to`. */
  ghost predicate Applies<D>(list: Migrations<D>, records: seq<Id>, to: Option<Id>, from: nat, end: nat) {
    && IsPrefix(list, records, from)
    && (to.None? ==> end == |list|)
    && (to.Some? ==> exists i | 0 <= i < |list| :: list[i].id == to.value && end == Max(from, i + 1))
  }

  /** Where `rollback` stops, of `n` applied: after `to`, or before the last one. */
  ghost predicate StopsAt<D>(list: Migrations<D>, n: nat, to: Option<Id>, from: nat) {
    match to
    case None => from == if n > 0 then n - 1 else 0
    case Some(id) => 0 < from <= |list| && list[from - 1].id == id
  }

  /** `list[from..end]` is what `rollback` has to undo, and it can: each of them has a `down`. */
  ghost predicate Reverts<D>(list: Migrations<D>, records: seq<Id>, n: nat, to: Option<Id>, from: nat, end: nat) {
    && IsPrefix(list, records, n) && StopsAt(list, n, to, from) && end == Max(from, n) <= |list|
    && forall i | from <= i < end :: list[i].down.Some?
  }

  /** `toApply`, as the first and the end of a slice of the list. */
  method ToApply<D>(list: Migrations<D>, records: seq<Id>, to: Option<Id>) returns (plan: Result<(nat, nat), Refusal>)
    requires Distinct(list)
    ensures plan.Ok? ==> Applies(list, records, to, plan.value.0, plan.value.1)
                         && plan.value.0 <= plan.value.1 <= |list|
    ensures plan.Err? ==> Says(list, records, to, plan.error)
                          && forall n: nat, m: nat :: !Applies(list, records, to, n, m)
  {
    var applied := CheckApplied(list, records);
    if applied.Err? { return Err(applied.error); }
    var end := |list|;
    if to.Some? {
      var index := IndexOf(list, to.value);
      if index.None? { return Err(NotInTheList(to.value)); }
      end := index.value + 1;
    }
    plan := Ok((applied.value, Max(applied.value, end)));
  }

  /** `toRevert`: the slice to undo, by its two ends; none at all when any of it cannot be undone. */
  method ToRevert<D>(list: Migrations<D>, records: seq<Id>, to: Option<Id>)
      returns (plan: Result<(nat, nat), Refusal>, ghost n: nat)
    requires Distinct(list)
    ensures plan.Ok? ==> Reverts(list, records, n, to, plan.value.0, plan.value.1)
    ensures plan.Err? ==> Says(list, records, to, plan.error)
                          && forall k: nat, from: nat, end: nat :: !Reverts(list, records, k, to, from, end)
  {
    var applied := CheckApplied(list, records);
    n := 0;
    if applied.Err? { return Err(applied.error), 0; }
    n := applied.value;
    var start := if applied.value > 0 then applied.value - 1 else 0;
    if to.Some? {
      var index := IndexOf(list, to.value);
      if index.None? { return Err(NotInTheList(to.value)), n; }
      start := index.value + 1;
    }
    var end := Max(start, applied.value);
    for i := end downto start
      invariant forall j | i <= j < end :: list[j].down.Some?
    {
      if list[i].down.None? {
        OneReversal(list, records, n, to, start, i);
        return Err(NoDown(list[i].id)), n;
      }
    }
    plan := Ok((start, end));
  }

  lemma OneReversal<D>(list: Migrations<D>, records: seq<Id>, n: nat, to: Option<Id>, start: nat, i: nat)
    requires Distinct(list) && IsPrefix(list, records, n) && StopsAt(list, n, to, start)
    requires start <= i < Max(start, n) && i < |list| && list[i].down.None?
    ensures forall k: nat, from: nat, end: nat :: !Reverts(list, records, k, to, from, end)
  {
    forall k: nat, from: nat, end: nat ensures !Reverts(list, records, k, to, from, end) {
      if Reverts(list, records, k, to, from, end) {
        OnePrefix(list, records, n, k);
      }
    }
  }

  // ----- run.ts

  /** The database after the first migrations of the list. */
  function Fold<D>(list: Migrations<D>, start: D, n: nat): D
    requires n <= |list|
  {
    if n == 0 then start else list[n - 1].up(Fold(list, start, n - 1))
  }

  /**
   What becomes of one step: it is done with its record (`Kept`), perhaps with the answer lost
   (`Lost`); nothing of it is (`Undone`); or, without a transaction, the database is as `left` made it
   and its bookkeeping was done or not. Every fate but `Kept` stops the run.
   */
  datatype Fate<!D> = Kept | Lost | Undone | Partly(left: D -> D, booked: bool)

  /** Every migration runs in a transaction, and what a `down` is given is what its `up` was. */
  ghost predicate Reversible<D(!new)>(list: Migrations<D>) {
    && (forall i | 0 <= i < |list| :: list[i].transaction)
    && forall i, x: D | 0 <= i < |list| && list[i].down.Some? :: list[i].down.value(list[i].up(x)) == x
  }

  /** A database that was what the first `n` migrations make of `start` is now what the first `m` do. */
  ghost predicate Follows<D(!new)>(list: Migrations<D>, start: D, was: D, n: nat, now: D, m: nat) {
    n <= |list| && m <= |list| && (Reversible(list) && was == Fold(list, start, n) ==> now == Fold(list, start, m))
  }

  /** What is recorded is a prefix, and a reversible list's database what that prefix makes of the start. */
  ghost predicate Stands<D(!new)>(list: Migrations<D>, records: seq<Id>, start: D, db: D) {
    exists n: nat :: IsPrefix(list, records, n) && Follows(list, start, start, 0, db, n)
  }

  /** The lock is held throughout, and every step goes through. */
  ghost predicate Smooth<D(!new)>(held: nat -> bool, fate: nat -> Fate<D>) {
    forall i: nat :: held(i) && fate(i).Kept?
  }

  /**
   A run of what was planned: from the prefix there was to a longer one, each step while the lock was held;
   before the end only where the lock was lost or a step did not go.
   */
  ghost predicate WentUp<D(!new)>(list: Migrations<D>, to: Option<Id>, held: nat -> bool, fate: nat -> Fate<D>,
      was: seq<Id>, now: seq<Id>, n: nat, m: nat, applied: nat) {
    && IsPrefix(list, was, n) && IsPrefix(list, now, m) && n + applied <= m <= n + applied + 1
    && (forall i | 0 <= i < m - n :: held(i)) && (Smooth(held, fate) ==> m == n + applied)
    && exists end: nat | Applies(list, was, to, n, end) ::
      n + applied == end || (n + applied < end && !(held(applied) && fate(n + applied).Kept?))
  }

  /**
   A rollback of what was planned: from the prefix there was to a shorter one, each step while the lock was
   held; before the end only where the lock was lost or a step did not go.
   */
  ghost predicate WentDown<D(!new)>(list: Migrations<D>, to: Option<Id>, held: nat -> bool, fate: nat -> Fate<D>,
      was: seq<Id>, now: seq<Id>, n: nat, m: nat, reverted: nat) {
    && IsPrefix(list, was, n) && IsPrefix(list, now, m) && m + reverted <= n <= m + reverted + 1
    && (forall i | 0 <= i < n - m :: held(i)) && (Smooth(held, fate) ==> m == n - reverted)
    && exists from: nat, end: nat | Reverts(list, was, n, to, from, end) ::
      var left := end - reverted;
      left == from || (left > from && !(held(reverted) && fate(left - 1).Kept?))
  }

  /** A database and the records of what was applied to it, each id once. `start` is what it held before any. */
  class Store<D(!new)> {
    var db: D
    var records: seq<Id>
    ghost const start: D

    /** Opened on what the database holds and what is recorded there, each id once: a unique index. */
    constructor (db: D, records: seq<Id>, ghost start: D)
      requires Once(records)
      ensures this.db == db && this.records == records && this.start == start && Once(this.records)
    {
      this.db, this.records, this.start := db, records, start;
    }

    /** The records are a prefix of the list, and a reversible list's database is what that prefix makes it. */
    ghost predicate Valid(list: Migrations<D>)
      reads this
    {
      Once(records) && Stands(list, records, start, db)
    }

    /** One `up` and its record. */
    method Up(list: Migrations<D>, n: nat, fate: Fate<D>) returns (went: bool, ghost m: nat)
      requires n < |list| && Distinct(list) && Once(records) && IsPrefix(list, records, n)
      requires fate.Partly? ==> !list[n].transaction
      modifies this
      ensures went == fate.Kept? && n <= m <= n + 1 && (went ==> m == n + 1)
      ensures Once(records) && IsPrefix(list, records, m) && Follows(list, start, old(db), n, db, m)
    {
      went, m := fate.Kept?, n;
      assert list[n].id !in records;
      match fate {
        case Kept => db, m := list[n].up(db), n + 1;
        case Lost => db, m := list[n].up(db), n + 1;
        case Undone =>
        case Partly(left, booked) => db, m := left(db), if booked then n + 1 else n;
      }
      if !fate.Undone? && (fate.Partly? ==> fate.booked) { records := records + [list[n].id]; }
    }

    /** One `down`, and its record removed. */
    method Down(list: Migrations<D>, n: nat, fate: Fate<D>) returns (went: bool, ghost m: nat)
      requires n < |list| && list[n].down.Some? && Distinct(list) && Once(records) && IsPrefix(list, records, n + 1)
      requires fate.Partly? ==> !list[n].transaction
      modifies this
      ensures went == fate.Kept? && n <= m <= n + 1 && (went ==> m == n)
      ensures Once(records) && IsPrefix(list, records, m) && Follows(list, start, old(db), n + 1, db, m)
    {
      went, m := fate.Kept?, n + 1;
      match fate {
        case Kept => db, m := list[n].down.value(db), n;
        case Lost => db, m := list[n].down.value(db), n;
        case Undone =>
        case Partly(left, booked) => db, m := left(db), if booked then n else n + 1;
      }
      if !fate.Undone? && (fate.Partly? ==> fate.booked) { RemoveRecord(list[n].id); }
    }

    method RemoveRecord(id: Id)
      requires Once(records)
      modifies `records
      ensures Once(records) && forall k :: k in records <==> k in old(records) && k != id
    {
      var kept: seq<Id> := [];
      for i := 0 to |records|
        invariant records == old(records) && Once(kept)
        invariant forall k :: k in kept <==> k in records[..i] && k != id
      {
        assert records[..i + 1] == records[..i] + [records[i]];
        assert records[i] !in records[..i];
        if records[i] != id { kept := kept + [records[i]]; }
      }
      assert records[..|records|] == records;
      records := kept;
    }

    /** The loop of `migrate`, over `list[from..end]`, in the list's order. */
    method Redo(list: Migrations<D>, from: nat, end: nat, held: nat -> bool, fate: nat -> Fate<D>)
        returns (applied: nat, ghost m: nat)
      requires from <= end <= |list| && Distinct(list) && Once(records) && IsPrefix(list, records, from)
      requires forall i: nat | i < |list| && fate(i).Partly? :: !list[i].transaction
      modifies this
      ensures from + applied <= m <= from + applied + 1 && Once(records) && IsPrefix(list, records, m)
      ensures Follows(list, start, old(db), from, db, m) && (Smooth(held, fate) ==> m == end == from + applied)
      ensures forall i | 0 <= i < m - from :: held(i)
      ensures from + applied == end || (from + applied < end && !(held(applied) && fate(from + applied).Kept?))
    {
      applied, m := 0, from;
      assert Follows(list, start, db, from, db, from);
      hide Follows, Once, IsPrefix, Distinct;
      while from + applied < end
        invariant from + applied <= end && from + applied == m && Once(records) && IsPrefix(list, records, m)
        invariant forall i | 0 <= i < applied :: held(i)
        invariant Follows(list, start, old(db), from, db, m)
      {
        if !held(applied) { break; }
        var went;
        went, m := Up(list, from + applied, fate(from + applied));
        if !went { break; }
        applied := applied + 1;
      }
    }

    /**
     `migrate`: the pending ones in the list's order, each only while the lock is held, until one
     stops. Nothing is touched when it refuses; wherever it stops, what is recorded is the prefix it
     found and what it applied, and perhaps the one that stopped it.
     */
    method Migrate(list: Migrations<D>, to: Option<Id>, held: nat -> bool, fate: nat -> Fate<D>)
      returns (refused: Option<Refusal>, applied: nat, ghost n: nat, ghost m: nat)
      requires Once(records) && forall i: nat | i < |list| && fate(i).Partly? :: !list[i].transaction
      modifies this
      ensures refused.None? <==> Distinct(list) && exists k: nat, end: nat :: Applies(list, old(records), to, k, end)
      ensures refused.Some? ==> db == old(db) && records == old(records) && applied == 0
                                && Says(list, old(records), to, refused.value)
      ensures refused.None? ==> WentUp(list, to, held, fate, old(records), records, n, m, applied)
                                && Follows(list, start, old(db), n, db, m)
      ensures Once(records) && (old(Valid(list)) ==> Valid(list))
    {
      applied, n, m := 0, 0, 0;
      var distinct := CheckList(list);
      if !distinct { return Some(ListedTwice), 0, 0, 0; }
      var plan := ToApply(list, records, to);
      if plan.Err? { return Some(plan.error), 0, 0, 0; }
      refused, n, m := None, plan.value.0, plan.value.0;
      var end := plan.value.1;
      assert Applies(list, records, to, n, end) && IsPrefix(list, records, n);
      applied, m := Redo(list, plan.value.0, end, held, fate);
      hide Follows, Once, IsPrefix, Distinct, Applies, Says;
      assert WentUp(list, to, held, fate, old(records), records, n, m, applied);
      hide WentUp, Smooth, Stands;
      StillStands(list, start, old(records), n, old(db), records, m, db);
    }

    /** The loop of `rollback`, over `list[from..n]`, the last first. */
    method Undo(list: Migrations<D>, from: nat, n: nat, held: nat -> bool, fate: nat -> Fate<D>)
        returns (reverted: nat, ghost m: nat)
      requires from <= n <= |list| && Distinct(list) && Once(records) && IsPrefix(list, records, n)
      requires forall i: nat | i < |list| && fate(i).Partly? :: !list[i].transaction
      requires forall i | from <= i < n :: list[i].down.Some?
      modifies this
      ensures m + reverted <= n <= m + reverted + 1 && Once(records) && IsPrefix(list, records, m)
      ensures Follows(list, start, old(db), n, db, m) && (Smooth(held, fate) ==> m == from && reverted == n - from)
      ensures forall i | 0 <= i < n - m :: held(i)
      ensures n - reverted == from || (n - reverted > from && !(held(reverted) && fate(n - reverted - 1).Kept?))
    {
      reverted, m := 0, n;
      while from + reverted < n
        invariant from + reverted <= n && m + reverted == n && Once(records) && IsPrefix(list, records, m)
        invariant forall i | 0 <= i < reverted :: held(i)
        invariant Follows(list, start, old(db), n, db, m)
      {
        if !held(reverted) { break; }
        var went;
        went, m := Down(list, n - reverted - 1, fate(n - reverted - 1));
        if !went { break; }
        reverted := reverted + 1;
      }
    }

    /** `rollback`: newest first; what it refuses it refuses before the first step. */
    method Rollback(list: Migrations<D>, to: Option<Id>, held: nat -> bool, fate: nat -> Fate<D>)
      returns (refused: Option<Refusal>, reverted: nat, ghost n: nat, ghost m: nat)
      requires Once(records) && forall i: nat | i < |list| && fate(i).Partly? :: !list[i].transaction
      modifies this
      ensures refused.None? <==> Distinct(list) && exists k: nat, from: nat, end: nat ::
              Reverts(list, old(records), k, to, from, end)
      ensures refused.Some? ==> db == old(db) && records == old(records) && reverted == 0
                                && Says(list, old(records), to, refused.value)
      ensures refused.None? ==> WentDown(list, to, held, fate, old(records), records, n, m, reverted)
                                && Follows(list, start, old(db), n, db, m)
      ensures Once(records) && (old(Valid(list)) ==> Valid(list))
    {
      reverted, n, m := 0, 0, 0;
      var distinct := CheckList(list);
      if !distinct { return Some(ListedTwice), 0, 0, 0; }
      var plan;
      plan, n := ToRevert(list, records, to);
      if plan.Err? { return Some(plan.error), 0, 0, 0; }
      refused, m := None, n;
      var from, end := plan.value.0, plan.value.1;
      assert Reverts(list, records, n, to, from, end) && Follows(list, start, db, n, db, n);
      assert IsPrefix(list, records, n) && (from < end ==> n == end) && (from >= end ==> from == end);
      if from < end { reverted, m := Undo(list, from, end, held, fate); }
      hide Follows, Once, IsPrefix, Distinct, Reverts, Says;
      assert WentDown(list, to, held, fate, old(records), records, n, m, reverted);
      hide WentDown, Smooth, Stands;
      StillStands(list, start, old(records), n, old(db), records, m, db);
    }
  }

  lemma StillStands<D(!new)>(list: Migrations<D>, start: D, was: seq<Id>, n: nat, before: D, now: seq<Id>, m: nat,
      db: D)
    requires Distinct(list) && IsPrefix(list, was, n) && IsPrefix(list, now, m)
    requires Follows(list, start, before, n, db, m)
    ensures Stands(list, was, start, before) ==> Stands(list, now, start, db)
  {
    if k: nat :| IsPrefix(list, was, k) && Follows(list, start, start, 0, before, k) {
      OnePrefix(list, was, n, k);
      assert Follows(list, start, start, 0, db, m);
    }
  }

  /** A set of records is a prefix of one length only. */
  lemma OnePrefix<D>(list: Migrations<D>, records: seq<Id>, n: nat, m: nat)
    requires Distinct(list) && IsPrefix(list, records, n) && IsPrefix(list, records, m)
    ensures n == m
  {
    PrefixCounts(list, records, n);
    PrefixCounts(list, records, m);
  }

  /** A list that only grew at its end still begins with what was applied. */
  lemma GrownListKeeps<D(!new)>(list: Migrations<D>, more: Migrations<D>, records: seq<Id>, n: nat, start: D)
    requires IsPrefix(list, records, n)
    ensures IsPrefix(list + more, records, n) && Fold(list + more, start, n) == Fold(list, start, n)
  {
    FoldKept(list, more, start, n);
    assert forall i | 0 <= i < n :: (list + more)[i] == list[i];
  }

  lemma {:induction false} FoldKept<D(!new)>(list: Migrations<D>, more: Migrations<D>, start: D, n: nat)
    requires n <= |list|
    ensures Fold(list + more, start, n) == Fold(list, start, n)
  {
    if n > 0 { FoldKept(list, more, start, n - 1); }
  }
}
