/**
 What a prune decides, from what the repository holds: packages/backup/src/rotation/prune.ts.
 The plan is the policy's; what makes it safe to carry out is `Repository.Decision`.
 */
module Prune {
  import opened Wrappers
  import Periods
  import Policy
  import R = Repository

  type Id = R.Id

  /** What a manifest says of its backup, apart from what it builds on. */
  datatype Info = Info(createdAt: int, size: nat)

  /** The keys of one repository as read under the lock, and the clock's reading of what they say. */
  datatype Scan = Scan(listing: seq<R.Key>, store: R.Store, info: Id -> Info, timeOf: Id -> int)

  predicate NoTwice<T(==)>(s: seq<T>) {
    forall i, j | 0 <= i < j < |s| :: s[i] != s[j]
  }

  ghost predicate Listed(s: Scan) {
    NoTwice(s.listing) && forall k :: k in s.listing <==> k in s.store
  }

  /** The ids with a manifest, and those without one. */
  method GroupById(listing: seq<R.Key>) returns (complete: seq<Id>, without: seq<Id>)
    requires NoTwice(listing)
    ensures NoTwice(complete) && forall id :: id in complete <==> R.ManifestKey(id) in listing
    ensures forall id :: id in without <==>
              R.ManifestKey(id) !in listing && exists k | k in listing :: k.id == id && !k.HoldKey?
  {
    complete, without := [], [];
    for n := 0 to |listing|
      invariant NoTwice(complete) && forall id :: id in complete <==> R.ManifestKey(id) in listing[..n]
    {
      if listing[n].ManifestKey? {
        assert R.ManifestKey(listing[n].id) !in listing[..n];
        complete := complete + [listing[n].id];
      }
      assert listing[..n + 1] == listing[..n] + [listing[n]];
    }
    assert listing[..|listing|] == listing;
    for n := 0 to |listing|
      invariant forall id :: id in without <==>
                  R.ManifestKey(id) !in listing && exists k | k in listing[..n] :: k.id == id && !k.HoldKey?
    {
      assert listing[..n + 1] == listing[..n] + [listing[n]];
      var k := listing[n];
      if !k.HoldKey? && k.id !in without && R.ManifestKey(k.id) !in listing {
        without := without + [k.id];
      }
    }
  }

  /** What the policy is told of a backup whose manifest reads: what the manifest says, and whether it is held. */
  ghost predicate IsCandidate(s: Scan, c: Policy.Candidate) {
    && c.createdAt == s.info(c.id).createdAt && c.storedSize == s.info(c.id).size
    && (c.held <==> R.HoldKey(c.id) in s.store) && !c.standIn
  }

  /** What stands in for one that does not read: held, of no size, and of the time its id was made. */
  ghost predicate IsStandIn(s: Scan, c: Policy.Candidate) {
    c.createdAt == s.timeOf(c.id) && c.storedSize == 0 && c.held && c.standIn
  }

  /** A candidate stands for a manifest of the repository, and builds on what that names. */
  ghost predicate StandsFor(s: Scan, c: Policy.Candidate) {
    && R.ManifestKey(c.id) in s.store && c.parent == R.ParentAt(s.store, c.id)
    && if R.Readable(s.store, c.id) then IsCandidate(s, c) else IsStandIn(s, c)
  }

  method CandidatesOf(s: Scan, complete: seq<Id>) returns (candidates: seq<Policy.Candidate>, unreadable: seq<Id>)
    requires NoTwice(complete) && forall id | id in complete :: R.ManifestKey(id) in s.store
    ensures |candidates| == |complete| && forall i | 0 <= i < |complete| ::
              candidates[i].id == complete[i] && StandsFor(s, candidates[i])
    ensures Policy.Distinct(candidates)
    ensures forall id :: id in unreadable <==> id in complete && !R.Readable(s.store, id)
  {
    candidates, unreadable := [], [];
    for i := 0 to |complete|
      invariant |candidates| == i && forall j | 0 <= j < i ::
                  candidates[j].id == complete[j] && StandsFor(s, candidates[j])
      invariant forall id :: id in unreadable <==> id in complete[..i] && !R.Readable(s.store, id)
    {
      assert complete[..i + 1] == complete[..i] + [complete[i]];
      var id := complete[i];
      var parent := R.ParentAt(s.store, id);
      if R.Readable(s.store, id) {
        var info := s.info(id);
        candidates := candidates + [Policy.Candidate(id, info.createdAt, info.size, parent, R.HoldKey(id) in s.store,
                                                     false)];
      } else {
        unreadable := unreadable + [id];
        candidates := candidates + [Policy.Candidate(id, s.timeOf(id), 0, parent, true, true)];
      }
    }
    assert complete[..|complete|] == complete;
  }

  function IdsOf(decided: seq<Policy.Decided>): seq<Id> {
    if decided == [] then [] else [decided[0].candidate.id] + IdsOf(decided[1..])
  }

  lemma {:induction false} IdsOfAt(decided: seq<Policy.Decided>)
    ensures |IdsOf(decided)| == |decided|
    ensures forall i | 0 <= i < |decided| :: IdsOf(decided)[i] == decided[i].candidate.id
  {
    if decided != [] { IdsOfAt(decided[1..]); }
  }

  /** The manifests' dates are the times in their ids, and later ids have no earlier times. */
  ghost predicate OneDate(s: Scan) {
    && (forall id | R.Readable(s.store, id) :: s.info(id).createdAt == s.timeOf(id))
    && (forall a: Id, b: Id | a < b :: s.timeOf(a) <= s.timeOf(b))
  }

  /** A manifest that reads names a parent older than itself: `shapeProblem`. */
  ghost predicate ParentsOlder(store: R.Store) {
    forall id | R.Readable(store, id) && R.ParentAt(store, id).Some? :: R.ParentAt(store, id).value < id
  }

  ghost predicate AreCandidates(s: Scan, newest: seq<Policy.Candidate>) {
    && (forall c | c in newest :: StandsFor(s, c))
    && (forall id | R.ManifestKey(id) in s.store :: id in Policy.Ids(newest))
  }

  /**
   Of two candidates in the plan's order, the first is not built on by
   the second: exactly when each child comes before.
   */
  lemma ChildrenFirst(newest: seq<Policy.Candidate>, kept: set<Id>)
    requires Policy.Newest(newest)
    ensures var gone := Policy.KeptOf(newest, Policy.Ids(newest) - kept);
            (forall i, j | 0 <= i <= j < |gone| :: gone[j].parent != Some(gone[i].id))
            <==> (forall p, c | p in gone && c in gone && c.parent == Some(p.id) :: Policy.Before(c, p))
  {
    var gone := Policy.KeptOf(newest, Policy.Ids(newest) - kept);
    GoneIsNewest(newest, Policy.Ids(newest) - kept);
    if forall i, j | 0 <= i <= j < |gone| :: gone[j].parent != Some(gone[i].id) {
      forall p, c | p in gone && c in gone && c.parent == Some(p.id) ensures Policy.Before(c, p) {
        var i :| 0 <= i < |gone| && gone[i] == p;
        var j :| 0 <= j < |gone| && gone[j] == c;
        assert j < i;
      }
    }
    if forall p, c | p in gone && c in gone && c.parent == Some(p.id) :: Policy.Before(c, p) {
      forall i, j | 0 <= i <= j < |gone| ensures gone[j].parent != Some(gone[i].id) {
        assert gone[j].parent == Some(gone[i].id) ==> Policy.Before(gone[j], gone[i]);
        assert i < j ==> Policy.Before(gone[i], gone[j]);
      }
    }
  }

  lemma {:induction false} GoneIsNewest(newest: seq<Policy.Candidate>, gone: set<Id>)
    requires Policy.Newest(newest)
    ensures Policy.Newest(Policy.KeptOf(newest, gone))
  {
    if newest != [] {
      GoneIsNewest(newest[1..], gone);
      forall c ensures c in Policy.KeptOf(newest[1..], gone) <==> c in newest[1..] && c.id in gone {
        Policy.KeptOfAre(newest[1..], gone, c);
      }
      var rest := Policy.KeptOf(newest[1..], gone);
      assert forall c | c in rest :: Policy.Before(newest[0], c);
    }
  }

  /** What the plan removes reads, and is not held. */
  lemma GoneReads(s: Scan, newest: seq<Policy.Candidate>, policy: Policy.KeepPolicy, now: int, byRule: Policy.Reasons,
      c: Policy.Candidate)
    requires Policy.Distinct(newest) && Policy.Ruled(newest, policy, now, byRule) && AreCandidates(s, newest)
             && c in newest
    requires var kept := Policy.Kept(byRule);
             c.id !in Policy.LeastKept(newest, kept - Policy.Dropped(newest, kept, policy, now, {}))
    ensures R.Readable(s.store, c.id) && R.HoldKey(c.id) !in s.store
  {
    Policy.KeepsWhatItMust(newest, policy, now, byRule, c);
  }

  /** What stays, an unreadable one included, has its parent stay. */
  lemma StaysWithParent(s: Scan, newest: seq<Policy.Candidate>, kept: set<Id>, id: Id)
    requires AreCandidates(s, newest) && Policy.Closed(newest, kept)
    requires R.ManifestKey(id) in s.store && id in kept && R.ParentAt(s.store, id).Some?
    requires R.ManifestKey(R.ParentAt(s.store, id).value) in s.store
    ensures R.ParentAt(s.store, id).value in kept
  {
    var c :| c in newest && c.id == id;
    assert StandsFor(s, c);
  }

  /** Of what the repository holds, the plan removes exactly what it does not keep. */
  lemma RemovedAre(s: Scan, newest: seq<Policy.Candidate>, policy: Policy.KeepPolicy, now: int, plan: Policy.Plan,
      byRule: Policy.Reasons, dropped: set<Id>, reasons: Policy.Reasons, id: Id)
    requires AreCandidates(s, newest) && Policy.IsPlan(newest, policy, now, plan, byRule, dropped, reasons)
    ensures id in IdsOf(plan.removed) <==> R.ManifestKey(id) in s.store && id !in Policy.Kept(reasons)
    ensures id in IdsOf(plan.removed) ==> R.Readable(s.store, id) && R.HoldKey(id) !in s.store
  {
    var kept := Policy.Kept(reasons);
    var gone := Policy.KeptOf(newest, Policy.Ids(newest) - kept);
    IdsOfAt(plan.removed);
    assert forall i | 0 <= i < |gone| :: IdsOf(plan.removed)[i] == gone[i].id;
    forall c ensures c in gone <==> c in newest && c.id !in kept
      { Policy.KeptOfAre(newest, Policy.Ids(newest) - kept, c); }
    if id in IdsOf(plan.removed) {
      var i :| 0 <= i < |gone| && IdsOf(plan.removed)[i] == id;
      assert gone[i] in gone;
      GoneReads(s, newest, policy, now, byRule, gone[i]);
    }
    if R.ManifestKey(id) in s.store && id !in kept {
      var c :| c in newest && c.id == id;
      assert c in gone;
      var i :| 0 <= i < |gone| && gone[i] == c;
      assert IdsOf(plan.removed)[i] == id;
    }
  }

  /** Of the ones removed, a child is before its parent in the plan's order. */
  lemma GoneChildBefore(s: Scan, newest: seq<Policy.Candidate>, policy: Policy.KeepPolicy, now: int, plan: Policy.Plan,
      byRule: Policy.Reasons, dropped: set<Id>, reasons: Policy.Reasons, p: Policy.Candidate, c: Policy.Candidate)
    requires OneDate(s) && ParentsOlder(s.store) && AreCandidates(s, newest)
    requires Policy.IsPlan(newest, policy, now, plan, byRule, dropped, reasons)
    requires p in Policy.KeptOf(newest, Policy.Ids(newest) - Policy.Kept(reasons))
    requires c in Policy.KeptOf(newest, Policy.Ids(newest) - Policy.Kept(reasons)) && c.parent == Some(p.id)
    ensures Policy.Before(c, p)
  {
    Policy.KeptOfAre(newest, Policy.Ids(newest) - Policy.Kept(reasons), p);
    Policy.KeptOfAre(newest, Policy.Ids(newest) - Policy.Kept(reasons), c);
    GoneReads(s, newest, policy, now, byRule, p);
    GoneReads(s, newest, policy, now, byRule, c);
  }

  /** Children go before their parents. */
  lemma RemovedInOrder(s: Scan, newest: seq<Policy.Candidate>, policy: Policy.KeepPolicy, now: int, plan: Policy.Plan,
      byRule: Policy.Reasons, dropped: set<Id>, reasons: Policy.Reasons)
    requires OneDate(s) && ParentsOlder(s.store) && AreCandidates(s, newest)
    requires Policy.IsPlan(newest, policy, now, plan, byRule, dropped, reasons)
    ensures var removed := IdsOf(plan.removed);
            forall i, j | 0 <= i <= j < |removed| :: R.ParentAt(s.store, removed[j]) != Some(removed[i])
  {
    var kept := Policy.Kept(reasons);
    var gone := Policy.KeptOf(newest, Policy.Ids(newest) - kept);
    var removed := IdsOf(plan.removed);
    IdsOfAt(plan.removed);
    forall p, c | p in gone && c in gone && c.parent == Some(p.id) ensures Policy.Before(c, p) {
      GoneChildBefore(s, newest, policy, now, plan, byRule, dropped, reasons, p, c);
    }
    ChildrenFirst(newest, kept);
    forall i, j | 0 <= i <= j < |removed| ensures R.ParentAt(s.store, removed[j]) != Some(removed[i]) {
      assert gone[j].parent != Some(gone[i].id);
      Policy.KeptOfAre(newest, Policy.Ids(newest) - kept, gone[j]);
    }
  }

  /** Carried out in this order, a plan over what the repository holds is a decision a prune may take. */
  lemma PlanIsDecision(s: Scan, newest: seq<Policy.Candidate>, policy: Policy.KeepPolicy, now: int, plan: Policy.Plan,
      byRule: Policy.Reasons, dropped: set<Id>, reasons: Policy.Reasons)
    requires OneDate(s) && ParentsOlder(s.store) && AreCandidates(s, newest)
    requires Policy.IsPlan(newest, policy, now, plan, byRule, dropped, reasons)
    ensures R.Decision(s.store, IdsOf(plan.removed))
  {
    var removed := IdsOf(plan.removed);
    RemovedInOrder(s, newest, policy, now, plan, byRule, dropped, reasons);
    forall id | id in removed ensures R.Readable(s.store, id) && R.HoldKey(id) !in s.store {
      RemovedAre(s, newest, policy, now, plan, byRule, dropped, reasons, id);
    }
    forall k | k in s.store && k.ManifestKey? && k.id !in removed && R.ParentOf(s.store[k]).Some?
      ensures R.ParentOf(s.store[k]).value !in removed
    {
      var parent := R.ParentOf(s.store[k]).value;
      assert k == R.ManifestKey(k.id);
      RemovedAre(s, newest, policy, now, plan, byRule, dropped, reasons, k.id);
      RemovedAre(s, newest, policy, now, plan, byRule, dropped, reasons, parent);
      if R.ManifestKey(parent) in s.store { StaysWithParent(s, newest, Policy.Kept(reasons), k.id); }
    }
  }

  /** Without a manifest, and begun long enough ago. */
  method Incomplete(s: Scan, without: seq<Id>, clock: int, incompleteAfter: nat) returns (incomplete: seq<Id>)
    ensures forall id :: id in incomplete <==> id in without && clock - s.timeOf(id) >= incompleteAfter
  {
    incomplete := [];
    for i := 0 to |without|
      invariant forall id :: id in incomplete <==> id in without[..i] && clock - s.timeOf(id) >= incompleteAfter
    {
      assert without[..i + 1] == without[..i] + [without[i]];
      if clock - s.timeOf(without[i]) >= incompleteAfter {
        incomplete := incomplete + [without[i]];
      }
    }
    assert without[..|without|] == without;
  }

  lemma SortedAreCandidates(s: Scan, complete: seq<Id>, candidates: seq<Policy.Candidate>)
    requires forall id :: id in complete <==> R.ManifestKey(id) in s.store
    requires |candidates| == |complete| && forall i | 0 <= i < |complete| ::
             candidates[i].id == complete[i] && StandsFor(s, candidates[i])
    ensures AreCandidates(s, Policy.SortNewest(candidates))
  {
    var newest := Policy.SortNewest(candidates);
    forall c | c in newest ensures StandsFor(s, c) {
      var i :| 0 <= i < |candidates| && candidates[i] == c;
      assert StandsFor(s, candidates[i]);
    }
    forall id | R.ManifestKey(id) in s.store ensures id in Policy.Ids(newest) {
      var i :| 0 <= i < |complete| && complete[i] == id;
      assert candidates[i] in newest;
    }
  }

  /** Under the lock, with the repository as it was read, the decision is one a prune may take. */
  lemma MayBeCarriedOut(s: Scan, removed: seq<Id>, incomplete: seq<Id>)
    requires Listed(s) && R.Decision(s.store, removed)
    requires forall id | id in incomplete :: R.ManifestKey(id) !in s.store
    ensures forall x: R.World :: x.store == s.store ==> R.MayDecide(x, R.Prune(s.listing, removed, incomplete))
  {
  }

  /**
   `decide` of a prune: what is removed, and what is incomplete and old. Done under the lock, it is a
   decision the repository's invariant survives, stopped wherever it may be.
   */
  method Decide(s: Scan, policy: Policy.KeepPolicy, now: int, clock: int, incompleteAfter: nat)
    returns (plan: Policy.Plan, removed: seq<Id>, incomplete: seq<Id>, ghost newest: seq<Policy.Candidate>,
             ghost byRule: Policy.Reasons, ghost dropped: set<Id>, ghost reasons: Policy.Reasons)
    requires Listed(s)
    ensures AreCandidates(s, newest) && Policy.IsPlan(newest, policy, now, plan, byRule, dropped, reasons)
    ensures removed == IdsOf(plan.removed)
    ensures forall id :: id in incomplete <==>
              && R.ManifestKey(id) !in s.store && (exists k | k in s.store :: k.id == id && !k.HoldKey?)
              && clock - s.timeOf(id) >= incompleteAfter
    ensures OneDate(s) && ParentsOlder(s.store) ==>
              forall x: R.World :: x.store == s.store ==> R.MayDecide(x, R.Prune(s.listing, removed, incomplete))
  {
    var complete, without := GroupById(s.listing);
    var candidates, unreadable := CandidatesOf(s, complete);
    plan, byRule, dropped, reasons := Policy.MakePlan(candidates, policy, now);
    newest := Policy.SortNewest(candidates);
    SortedAreCandidates(s, complete, candidates);
    removed := IdsOf(plan.removed);
    incomplete := Incomplete(s, without, clock, incompleteAfter);
    if OneDate(s) && ParentsOlder(s.store) {
      PlanIsDecision(s, newest, policy, now, plan, byRule, dropped, reasons);
      MayBeCarriedOut(s, removed, incomplete);
    }
  }
}
