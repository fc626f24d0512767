/**
 Which backups a prune keeps: packages/backup/src/rotation/policy.ts.
 */
module Policy {
  import opened Periods
  import opened Wrappers

  type Id = nat

  datatype KeepPolicy = KeepPolicy(
    last: Option<nat>,
    calendar: map<Rule, nat>,
    within: Option<int>,
    maxTotalSize: Option<nat>)

  datatype Candidate = Candidate(
    id: Id,
    createdAt: int,
    storedSize: nat,
    parent: Option<Id>,
    held: bool,
    standIn: bool)

  datatype Reason =
    | Last(n: nat)
    | NewestUnderSize
    | OfPeriod(rule: Rule, period: Label)
    | IsWithin
    | NewerThanNow
    | IsHeld
    | ParentOfKept(child: Id)
    | OverSize
    | NoRule

  type Reasons = map<Id, seq<Reason>>

  datatype Decided = Decided(candidate: Candidate, reasons: seq<Reason>)

  datatype Plan = Plan(kept: seq<Decided>, removed: seq<Decided>, overSize: bool)

  const CALENDAR := [Hourly, Daily, Weekly, Monthly, Yearly]

  // ----- newest first

  predicate Before(a: Candidate, b: Candidate) {
    a.createdAt > b.createdAt || (a.createdAt == b.createdAt && a.id > b.id)
  }

  predicate Newest(cs: seq<Candidate>) {
    forall i, j | 0 <= i < j < |cs| :: Before(cs[i], cs[j])
  }

  predicate Distinct(cs: seq<Candidate>) {
    forall i, j | 0 <= i < j < |cs| :: cs[i].id != cs[j].id
  }

  function Ids(cs: seq<Candidate>): set<Id> {
    set c | c in cs :: c.id
  }

  function InsertNewest(c: Candidate, sorted: seq<Candidate>): (r: seq<Candidate>)
    ensures forall d :: d in r <==> d == c || d in sorted
    ensures |r| == |sorted| + 1
  {
    if sorted == [] || Before(c, sorted[0]) then [c] + sorted
    else [sorted[0]] + InsertNewest(c, sorted[1..])
  }

  /** `[...candidates].sort(...)`. */
  function SortNewest(cs: seq<Candidate>): (r: seq<Candidate>)
    ensures forall d :: d in r <==> d in cs
    ensures |r| == |cs|
  {
    if cs == [] then [] else InsertNewest(cs[0], SortNewest(cs[1..]))
  }

  lemma {:induction false} InsertedIsNewest(c: Candidate, sorted: seq<Candidate>)
    requires Newest(sorted) && forall d | d in sorted :: d.id != c.id
    ensures Newest(InsertNewest(c, sorted))
  {
    if sorted != [] && !Before(c, sorted[0]) {
      InsertedIsNewest(c, sorted[1..]);
      assert forall d | d in InsertNewest(c, sorted[1..]) :: Before(sorted[0], d);
    }
  }

  lemma {:induction false} SortedIsNewest(cs: seq<Candidate>)
    requires Distinct(cs)
    ensures Newest(SortNewest(cs)) && Distinct(SortNewest(cs))
  {
    if cs != [] {
      SortedIsNewest(cs[1..]);
      InsertedIsNewest(cs[0], SortNewest(cs[1..]));
    }
    var r := SortNewest(cs);
    forall i, j | 0 <= i < j < |r| ensures r[i].id != r[j].id {
      assert r[i] in cs && r[j] in cs && r[i] != r[j];
    }
  }

  // ----- the rules, one by one

  predicate IsPast(c: Candidate, now: int) {
    !c.standIn && c.createdAt <= now
  }

  function Past(newest: seq<Candidate>, now: int): (past: seq<Candidate>)
    ensures forall c :: c in past <==> c in newest && !c.standIn && c.createdAt <= now
  {
    if newest == [] then []
    else (if IsPast(newest[0], now) then [newest[0]] else []) + Past(newest[1..], now)
  }

  lemma {:induction false} PastIsNewest(newest: seq<Candidate>, now: int)
    requires Newest(newest)
    ensures Newest(Past(newest, now))
  {
    if newest != [] {
      PastIsNewest(newest[1..], now);
      assert forall c | c in Past(newest[1..], now) :: Before(newest[0], c);
    }
  }

  function Count(policy: KeepPolicy, rule: Rule): nat {
    if rule in policy.calendar then policy.calendar[rule] else 0
  }

  /** Every past date is one the rule's labels are exact for. */
  predicate Dated(cs: seq<Candidate>, now: int, rule: Rule) {
    forall c | c in cs && IsPast(c, now) :: Exact(rule, c.createdAt)
  }

  type Labeller = Candidate -> Label

  type Labelling = Rule -> Labeller

  function LabelsBy(rule: Rule): Labeller {
    (c: Candidate) => PeriodOf(rule, c.createdAt)
  }

  function Labels(f: Labeller, cs: seq<Candidate>): set<Label> {
    set c | c in cs :: f(c)
  }

  /** The scan of a calendar rule stops here: a label other than the one just seen. */
  predicate TakesAt(past: seq<Candidate>, f: Labeller, i: nat)
    requires i < |past|
  {
    i == 0 || f(past[i]) != f(past[i - 1])
  }

  /** How many times it did before `i`. */
  function Taken(past: seq<Candidate>, f: Labeller, i: nat): nat
    requires i <= |past|
  {
    if i == 0 then 0 else Taken(past, f, i - 1) + if TakesAt(past, f, i - 1) then 1 else 0
  }

  /** What the scan keeps: the first `n` places it stops at. */
  ghost predicate ScanKeeps(past: seq<Candidate>, f: Labeller, n: nat, c: Candidate) {
    exists i | 0 <= i < |past| :: past[i] == c && TakesAt(past, f, i) && Taken(past, f, i) < n
  }

  /**
   What the rule is for: the newest past backup of its period, and its period one of the `n` most recent that have one.
   */
  ghost predicate CalendarKeeps(past: seq<Candidate>, f: Labeller, n: nat, c: Candidate) {
    exists i | 0 <= i < |past| :: past[i] == c && f(c) !in Labels(f, past[..i]) && |Labels(f, past[..i])| < n
  }

  /** Why a rule alone keeps `c`, given the past ones newest first. */
  ghost predicate Why(past: seq<Candidate>, labels: Labelling, policy: KeepPolicy, now: int, c: Candidate, r: Reason) {
    match r
    case Last(n) => policy.last.Some? && 1 <= n <= policy.last.value && n <= |past| && past[n - 1] == c
    case NewestUnderSize => policy.maxTotalSize.Some? && policy.last.None? && past != [] && past[0] == c
    case OfPeriod(rule, period) => period == labels(rule)(c) && ScanKeeps(past, labels(rule), Count(policy, rule), c)
    case IsWithin => policy.within.Some? && 0 <= now - c.createdAt <= policy.within.value
    case NewerThanNow => c.createdAt > now
    case IsHeld => c.held
    case _ => false
  }

  /** How far the rules have been gone through. */
  datatype Pass =
    | Lasts(n: nat)
    | LastsAndSize
    | Places(rule: Rule, k: nat)
    | Others(k: nat)

  predicate InPass(newest: seq<Candidate>, past: seq<Candidate>, pass: Pass, c: Candidate, r: Reason) {
    match pass
    case Lasts(n) => r.Last? && r.n <= n
    case LastsAndSize => r.Last? || r.NewestUnderSize?
    case Places(rule, k) => r.OfPeriod? && r.rule == rule && k <= |past| && c in past[..k]
    case Others(k) => (r.IsWithin? || r.NewerThanNow? || r.IsHeld?) && k <= |newest| && c in newest[..k]
  }

  /** What a pass notes of one candidate. */
  ghost predicate Notes(newest: seq<Candidate>, past: seq<Candidate>, labels: Labelling, policy: KeepPolicy, now: int,
      pass: Pass, c: Candidate, r: Reason) {
    InPass(newest, past, pass, c, r) && Why(past, labels, policy, now, c, r)
  }

  /** What is written down is what was given and what the pass notes. */
  ghost predicate Noted(newest: seq<Candidate>, past: seq<Candidate>, labels: Labelling, policy: KeepPolicy, now: int,
      given: Reasons, reasons: Reasons, pass: Pass) {
    && given.Keys == reasons.Keys == Ids(newest)
    && forall c, r | c in newest ::
         r in reasons[c.id] <==> r in given[c.id] || Notes(newest, past, labels, policy, now, pass, c, r)
  }

  function Add(reasons: Reasons, id: Id, why: Reason): Reasons {
    if id in reasons then reasons[id := reasons[id] + [why]] else reasons
  }

  /** Adding one reason takes a pass as far as one that notes it too. */
  lemma NoteOne(newest: seq<Candidate>, past: seq<Candidate>, labels: Labelling, policy: KeepPolicy, now: int,
      given: Reasons, reasons: Reasons, from: Pass, to: Pass, x: Candidate, why: Reason)
    requires Distinct(newest) && x in newest && Noted(newest, past, labels, policy, now, given, reasons, from)
    requires forall c, r | c in newest ::
               Notes(newest, past, labels, policy, now, to, c, r) <==>
               Notes(newest, past, labels, policy, now, from, c, r) || (c == x && r == why)
    ensures Noted(newest, past, labels, policy, now, given, Add(reasons, x.id, why), to)
  {
    var after := Add(reasons, x.id, why);
    forall c, r | c in newest
      ensures r in after[c.id] <==> r in given[c.id] || Notes(newest, past, labels, policy, now, to, c, r)
    {
      assert Notes(newest, past, labels, policy, now, to, c, r)
        <==> Notes(newest, past, labels, policy, now, from, c, r) || (c == x && r == why);
    }
  }

  /** `last`, and the newest alone under `maxTotalSize`. */
  method AddLast(newest: seq<Candidate>, past: seq<Candidate>, labels: Labelling, policy: KeepPolicy, now: int,
      given: Reasons) returns (reasons: Reasons)
    requires Distinct(newest) && given.Keys == Ids(newest) && forall c | c in past :: c in newest
    ensures Noted(newest, past, labels, policy, now, given, reasons, LastsAndSize)
  {
    var n := if policy.last.None? then 0 else policy.last.value;
    if n > |past| { n := |past|; }
    reasons := given;
    for i := 0 to n
      invariant Noted(newest, past, labels, policy, now, given, reasons, Lasts(i))
    {
      NoteOne(newest, past, labels, policy, now, given, reasons, Lasts(i), Lasts(i + 1), past[i], Last(i + 1));
      reasons := Add(reasons, past[i].id, Last(i + 1));
    }
    if policy.maxTotalSize.Some? && policy.last.None? && past != [] {
      NoteOne(newest, past, labels, policy, now, given, reasons, Lasts(n), LastsAndSize, past[0], NewestUnderSize);
      reasons := Add(reasons, past[0].id, NewestUnderSize);
    }
  }

  lemma {:induction false} SubsetIsSmaller<T>(a: set<T>, b: set<T>)
    requires a <= b
    ensures |a| <= |b|
  {
    if a != {} {
      var x :| x in a;
      SubsetIsSmaller(a - {x}, b - {x});
    }
  }

  lemma OnePlace(past: seq<Candidate>, i: nat, j: nat)
    requires Newest(past) && i < |past| && j < |past| && past[i] == past[j]
    ensures i == j
  {
  }

  /** Of a candidate at place `i` of `past`, whether the scan keeps it is settled there. */
  lemma KeptAtItsPlace(past: seq<Candidate>, f: Labeller, n: nat, i: nat)
    requires Newest(past) && i < |past|
    ensures ScanKeeps(past, f, n, past[i]) <==> TakesAt(past, f, i) && Taken(past, f, i) < n
  {
    if ScanKeeps(past, f, n, past[i]) {
      var j :| 0 <= j < |past| && past[j] == past[i] && TakesAt(past, f, j) && Taken(past, f, j) < n;
      OnePlace(past, i, j);
    }
  }

  lemma NotePlace(newest: seq<Candidate>, past: seq<Candidate>, labels: Labelling, policy: KeepPolicy, now: int,
      rule: Rule, given: Reasons, reasons: Reasons, k: nat)
    requires Distinct(newest) && k < |past| && past[k] in newest
    requires Noted(newest, past, labels, policy, now, given, reasons, Places(rule, k))
    requires ScanKeeps(past, labels(rule), Count(policy, rule), past[k])
    ensures Noted(newest, past, labels, policy, now, given,
                  Add(reasons, past[k].id, OfPeriod(rule, labels(rule)(past[k]))), Places(rule, k + 1))
  {
    forall c, r | c in newest
      ensures Notes(newest, past, labels, policy, now, Places(rule, k + 1), c, r) <==>
                Notes(newest, past, labels, policy, now, Places(rule, k), c, r)
                || (c == past[k] && r == OfPeriod(rule, labels(rule)(past[k])))
    {
    }
    NoteOne(newest, past, labels, policy, now, given, reasons, Places(rule, k), Places(rule, k + 1), past[k],
      OfPeriod(rule, labels(rule)(past[k])));
  }

  /** Once as many periods were seen as the rule counts, no later place is kept. */
  lemma {:induction false} NoMorePlaces(newest: seq<Candidate>, past: seq<Candidate>, labels: Labelling,
      policy: KeepPolicy, now: int, rule: Rule, given: Reasons, reasons: Reasons, k: nat)
    requires Newest(past) && k <= |past| && Noted(newest, past, labels, policy, now, given, reasons, Places(rule, k))
    requires Taken(past, labels(rule), k) >= Count(policy, rule)
    ensures Noted(newest, past, labels, policy, now, given, reasons, Places(rule, |past|))
    decreases |past| - k
  {
    if k < |past| {
      KeptAtItsPlace(past, labels(rule), Count(policy, rule), k);
      NoMorePlaces(newest, past, labels, policy, now, rule, given, reasons, k + 1);
    }
  }

  /** Where the scan of one calendar rule is: what it saw last, and how many periods it has left. */
  ghost predicate Scanned(past: seq<Candidate>, f: Labeller, n: nat, previous: Option<Label>, left: nat, k: nat) {
    && k <= |past| && left <= n
    && previous == (if k == 0 then None else Some(f(past[k - 1])))
    && Taken(past, f, k) == n - left
  }

  /** The scan and what it noted, together. */
  ghost predicate Scanning(newest: seq<Candidate>, past: seq<Candidate>, labels: Labelling, policy: KeepPolicy,
      now: int, rule: Rule, given: Reasons, reasons: Reasons, previous: Option<Label>, left: nat, k: nat) {
    && Scanned(past, labels(rule), Count(policy, rule), previous, left, k)
    && Noted(newest, past, labels, policy, now, given, reasons, Places(rule, k))
  }

  lemma ScanSkips(past: seq<Candidate>, f: Labeller, n: nat, previous: Option<Label>, left: nat, k: nat)
    requires k < |past| && Scanned(past, f, n, previous, left, k) && left > 0
    ensures if previous == Some(f(past[k])) then !TakesAt(past, f, k) && Scanned(past, f, n, previous, left, k + 1)
            else TakesAt(past, f, k) && Scanned(past, f, n, Some(f(past[k])), left - 1, k + 1)
  {
  }

  lemma SkipPlace(newest: seq<Candidate>, past: seq<Candidate>, labels: Labelling, policy: KeepPolicy, now: int,
      rule: Rule, given: Reasons, reasons: Reasons, k: nat)
    requires Newest(past) && k < |past| && !TakesAt(past, labels(rule), k)
    requires Noted(newest, past, labels, policy, now, given, reasons, Places(rule, k))
    ensures Noted(newest, past, labels, policy, now, given, reasons, Places(rule, k + 1))
  {
    assert !ScanKeeps(past, labels(rule), Count(policy, rule), past[k]) by {
      assert forall i | 0 <= i < |past| && past[i] == past[k] :: i == k;
    }
    hide ScanKeeps, TakesAt, Newest;
    forall c, r | c in newest
      ensures Notes(newest, past, labels, policy, now, Places(rule, k + 1), c, r) <==>
                Notes(newest, past, labels, policy, now, Places(rule, k), c, r)
    {
      assert past[..k + 1] == past[..k] + [past[k]];
    }
    hide Notes;
  }

  /** One step of the scan: skip a period seen, take a new one. */
  lemma ScanStep(newest: seq<Candidate>, past: seq<Candidate>, labels: Labelling, policy: KeepPolicy, now: int,
      rule: Rule, given: Reasons, reasons: Reasons, previous: Option<Label>, left: nat, k: nat, period: Label)
    requires Distinct(newest) && Newest(past) && k < |past| && past[k] in newest
    requires left > 0 && period == labels(rule)(past[k])
    requires Scanning(newest, past, labels, policy, now, rule, given, reasons, previous, left, k)
    ensures previous == Some(period) ==>
              Scanning(newest, past, labels, policy, now, rule, given, reasons, previous, left, k + 1)
    ensures previous != Some(period) ==>
              Scanning(newest, past, labels, policy, now, rule, given,
                Add(reasons, past[k].id, OfPeriod(rule, period)), Some(period), left - 1, k + 1)
  {
    ScanSkips(past, labels(rule), Count(policy, rule), previous, left, k);
    if previous == Some(period) {
      SkipPlace(newest, past, labels, policy, now, rule, given, reasons, k);
      hide Scanned, Noted;
    } else {
      NotePlace(newest, past, labels, policy, now, rule, given, reasons, k);
      hide Scanned, Noted, Add;
    }
  }

  /** Seen to its end, or with no period left to count: every place the rule keeps was noted. */
  lemma ScanEnds(newest: seq<Candidate>, past: seq<Candidate>, labels: Labelling, policy: KeepPolicy, now: int,
      rule: Rule, given: Reasons, reasons: Reasons, previous: Option<Label>, left: nat, k: nat)
    requires Newest(past) && (left == 0 || k == |past|)
    requires Scanning(newest, past, labels, policy, now, rule, given, reasons, previous, left, k)
    ensures Noted(newest, past, labels, policy, now, given, reasons, Places(rule, |past|))
  {
    if left == 0 { NoMorePlaces(newest, past, labels, policy, now, rule, given, reasons, k); }
  }

  /** One calendar rule: the newest of each period met, while there are periods left to count. */
  method AddCalendar(newest: seq<Candidate>, past: seq<Candidate>, labels: Labelling, policy: KeepPolicy, now: int,
      rule: Rule, given: Reasons) returns (reasons: Reasons)
    requires Distinct(newest) && given.Keys == Ids(newest)
    requires Newest(past) && forall c | c in past :: c in newest
    ensures Noted(newest, past, labels, policy, now, given, reasons, Places(rule, |past|))
  {
    var left := Count(policy, rule);
    var previous: Option<Label> := None;
    reasons := given;
    var k := 0;
    while k < |past| && left != 0
      invariant k <= |past|
      invariant Scanning(newest, past, labels, policy, now, rule, given, reasons, previous, left, k)
    {
      var period := labels(rule)(past[k]);
      ScanStep(newest, past, labels, policy, now, rule, given, reasons, previous, left, k, period);
      if previous != Some(period) {
        previous := Some(period);
        left := left - 1;
        reasons := Add(reasons, past[k].id, OfPeriod(rule, period));
      }
      k := k + 1;
    }
    ScanEnds(newest, past, labels, policy, now, rule, given, reasons, previous, left, k);
  }

  /** `within`, a time to come, and a hold. */
  method AddOthers(newest: seq<Candidate>, past: seq<Candidate>, labels: Labelling, policy: KeepPolicy, now: int,
      given: Reasons) returns (reasons: Reasons)
    requires Distinct(newest) && given.Keys == Ids(newest)
    ensures Noted(newest, past, labels, policy, now, given, reasons, Others(|newest|))
  {
    reasons := given;
    for k := 0 to |newest|
      invariant Noted(newest, past, labels, policy, now, given, reasons, Others(k))
    {
      OneMoreOther(newest, past, labels, policy, now, given, reasons, k);
      reasons := AddOther(reasons, policy, now, newest[k]);
    }
  }

  function AddOther(reasons: Reasons, policy: KeepPolicy, now: int, c: Candidate): Reasons {
    var age := now - c.createdAt;
    var r1 := if policy.within.Some? && age >= 0 && age <= policy.within.value then Add(reasons, c.id, IsWithin)
      else reasons;
    var r2 := if age < 0 then Add(r1, c.id, NewerThanNow) else r1;
    if c.held then Add(r2, c.id, IsHeld) else r2
  }

  lemma OneMoreOther(newest: seq<Candidate>, past: seq<Candidate>, labels: Labelling, policy: KeepPolicy, now: int,
      given: Reasons, was: Reasons, k: nat)
    requires Distinct(newest) && k < |newest| && Noted(newest, past, labels, policy, now, given, was, Others(k))
    ensures Noted(newest, past, labels, policy, now, given, AddOther(was, policy, now, newest[k]), Others(k + 1))
  {
    var x, reasons := newest[k], AddOther(was, policy, now, newest[k]);
    assert newest[..k + 1] == newest[..k] + [x];
    forall c, r | c in newest
      ensures r in reasons[c.id] <==> r in given[c.id] || Notes(newest, past, labels, policy, now, Others(k + 1), c, r)
    {
      assert r in was[c.id] <==> r in given[c.id] || Notes(newest, past, labels, policy, now, Others(k), c, r);
    }
  }

  /** Every rule's reasons, and no other. */
  ghost predicate Ruled(newest: seq<Candidate>, policy: KeepPolicy, now: int, reasons: Reasons) {
    && reasons.Keys == Ids(newest)
    && forall c, r | c in newest :: r in reasons[c.id] <==> Why(Past(newest, now), LabelsBy, policy, now, c, r)
  }

  /** The reasons of `last` and of the first `j` calendar rules. */
  ghost predicate RuledUpTo(newest: seq<Candidate>, past: seq<Candidate>, labels: Labelling, policy: KeepPolicy,
      now: int, reasons: Reasons, j: nat)
    requires j <= |CALENDAR|
  {
    && reasons.Keys == Ids(newest)
    && forall c, r | c in newest :: r in reasons[c.id] <==>
         (r.Last? || r.NewestUnderSize? || (r.OfPeriod? && r.rule in CALENDAR[..j]))
           && Why(past, labels, policy, now, c, r)
  }

  lemma NextRule(newest: seq<Candidate>, past: seq<Candidate>, labels: Labelling, policy: KeepPolicy, now: int,
      was: Reasons, reasons: Reasons, j: nat)
    requires j < |CALENDAR| && RuledUpTo(newest, past, labels, policy, now, was, j)
    requires Noted(newest, past, labels, policy, now, was, reasons, Places(CALENDAR[j], |past|))
    ensures RuledUpTo(newest, past, labels, policy, now, reasons, j + 1)
  {
    assert CALENDAR[..j + 1] == CALENDAR[..j] + [CALENDAR[j]];
    assert past[..|past|] == past;
  }

  lemma AllRules(newest: seq<Candidate>, past: seq<Candidate>, labels: Labelling, policy: KeepPolicy, now: int,
      was: Reasons, reasons: Reasons)
    requires RuledUpTo(newest, past, labels, policy, now, was, |CALENDAR|) && past == Past(newest, now)
             && labels == LabelsBy
    requires Noted(newest, past, labels, policy, now, was, reasons, Others(|newest|))
    ensures Ruled(newest, policy, now, reasons)
  {
    assert newest[..|newest|] == newest;
    forall c, r | c in newest ensures r in reasons[c.id] <==> Why(past, labels, policy, now, c, r) {
      if r.OfPeriod? { InCalendar(r.rule); }
    }
  }

  method ByRules(newest: seq<Candidate>, policy: KeepPolicy, now: int) returns (reasons: Reasons)
    requires Newest(newest) && Distinct(newest)
    ensures Ruled(newest, policy, now, reasons)
  {
    reasons := map id | id in Ids(newest) :: [];
    var past := Past(newest, now);
    PastIsNewest(newest, now);
    var labels: Labelling := LabelsBy;
    reasons := AddLast(newest, past, labels, policy, now, reasons);
    for j := 0 to |CALENDAR|
      invariant RuledUpTo(newest, past, labels, policy, now, reasons, j)
    {
      ghost var was := reasons;
      reasons := AddCalendar(newest, past, labels, policy, now, CALENDAR[j], reasons);
      NextRule(newest, past, labels, policy, now, was, reasons, j);
    }
    ghost var was := reasons;
    reasons := AddOthers(newest, past, labels, policy, now, reasons);
    AllRules(newest, past, labels, policy, now, was, reasons);
  }

  lemma InCalendar(rule: Rule)
    ensures rule in CALENDAR[..|CALENDAR|]
  {
    assert CALENDAR[..|CALENDAR|] == CALENDAR;
    match rule
    case Hourly => assert CALENDAR[0] == rule;
    case Daily => assert CALENDAR[1] == rule;
    case Weekly => assert CALENDAR[2] == rule;
    case Monthly => assert CALENDAR[3] == rule;
    case Yearly => assert CALENDAR[4] == rule;
  }

  // ----- what a calendar rule keeps

  /** Newest first, a label once left is not met again. */
  ghost predicate Intervals(past: seq<Candidate>, f: Labeller) {
    forall i, j, k | 0 <= i <= j < k < |past| :: f(past[k]) != f(past[j]) ==> f(past[k]) != f(past[i])
  }

  lemma LabelsAt(past: seq<Candidate>, f: Labeller, k: nat)
    requires k < |past|
    ensures Labels(f, past[..k + 1]) == Labels(f, past[..k]) + {f(past[k])}
  {
    assert past[..k + 1] == past[..k] + [past[k]];
  }

  /** Over intervals the scan stops exactly at labels it has not met. */
  lemma TakesNewLabels(past: seq<Candidate>, f: Labeller, k: nat)
    requires Intervals(past, f) && k < |past|
    ensures TakesAt(past, f, k) <==> f(past[k]) !in Labels(f, past[..k])
  {
    if !TakesAt(past, f, k) { assert past[k - 1] in past[..k]; }
  }

  lemma {:induction false} CountsLabels(past: seq<Candidate>, f: Labeller, k: nat)
    requires Intervals(past, f) && k <= |past|
    ensures Taken(past, f, k) == |Labels(f, past[..k])|
  {
    hide *;
    if k == 0 {
      NoLabels(past, f);
    } else {
      CountsLabels(past, f, k - 1);
      TakesNewLabels(past, f, k - 1);
      CountOneLabel(past, f, k - 1);
    }
  }

  lemma NoLabels(past: seq<Candidate>, f: Labeller)
    ensures Taken(past, f, 0) == |Labels(f, past[..0])|
  {
    assert Labels(f, past[..0]) == {};
  }

  lemma CountOneLabel(past: seq<Candidate>, f: Labeller, k: nat)
    requires k < |past| && Taken(past, f, k) == |Labels(f, past[..k])|
    requires TakesAt(past, f, k) <==> f(past[k]) !in Labels(f, past[..k])
    ensures Taken(past, f, k + 1) == |Labels(f, past[..k + 1])|
  {
    LabelsAt(past, f, k);
    hide Labels, TakesAt;
    OneMore(Labels(f, past[..k]), f(past[k]));
  }

  lemma OneMore<T>(s: set<T>, x: T)
    ensures |s + {x}| == |s| + if x in s then 0 else 1
  {
    if x in s { assert s + {x} == s; }
  }

  /** A label met again after another: the scan stops there a second time. */
  lemma TakesTwice(past: seq<Candidate>, f: Labeller, i: nat, j: nat, k: nat) returns (m: nat)
    requires i <= j < k < |past| && f(past[k]) == f(past[i]) != f(past[j])
    ensures m < |past| && TakesAt(past, f, m) && f(past[m]) in Labels(f, past[..m])
  {
    m := k;
    while f(past[m - 1]) == f(past[i])
      invariant j < m <= k && f(past[m]) == f(past[i])
      decreases m
    {
      m := m - 1;
    }
    assert past[i] in past[..m];
  }

  /** Where the calendar rule keeps a candidate is settled at its place too. */
  lemma DueAtItsPlace(past: seq<Candidate>, f: Labeller, n: nat, i: nat)
    requires Newest(past) && i < |past|
    ensures CalendarKeeps(past, f, n, past[i]) <==> f(past[i]) !in Labels(f, past[..i]) && |Labels(f, past[..i])| < n
  {
    if CalendarKeeps(past, f, n, past[i]) {
      var j :| 0 <= j < |past| && past[j] == past[i] && f(past[i]) !in Labels(f, past[..j])
        && |Labels(f, past[..j])| < n;
      OnePlace(past, i, j);
    }
  }

  /** The scan keeps what a calendar rule is for, whatever its count, exactly when labels are intervals of the order. */
  lemma CalendarExactly(past: seq<Candidate>, f: Labeller)
    requires Newest(past)
    ensures (forall n: nat, c | c in past :: ScanKeeps(past, f, n, c) <==> CalendarKeeps(past, f, n, c))
            <==> Intervals(past, f)
  {
    if !Intervals(past, f) {
      var i, j, k :| 0 <= i <= j < k < |past| && f(past[k]) != f(past[j]) && f(past[k]) == f(past[i]);
      var m := TakesTwice(past, f, i, j, k);
      var n := Taken(past, f, m) + 1;
      KeptAtItsPlace(past, f, n, m);
      DueAtItsPlace(past, f, n, m);
      assert past[m] in past;
    }
    hide *;
    if Intervals(past, f) {
      forall n: nat, c | c in past ensures ScanKeeps(past, f, n, c) <==> CalendarKeeps(past, f, n, c) {
        var i :| 0 <= i < |past| && past[i] == c;
        KeptAtItsPlace(past, f, n, i);
        DueAtItsPlace(past, f, n, i);
        TakesNewLabels(past, f, i);
        CountsLabels(past, f, i);
      }
    }
  }

  lemma ExactIntervals(past: seq<Candidate>, rule: Rule)
    requires Newest(past) && (forall c | c in past :: Exact(rule, c.createdAt))
    ensures Intervals(past, LabelsBy(rule))
  {
    hide PeriodOf, Exact;
    var f := LabelsBy(rule);
    forall i, j, k | 0 <= i <= j < k < |past| && f(past[k]) != f(past[j]) ensures f(past[k]) != f(past[i]) {
      assert past[i] in past && past[j] in past && past[k] in past;
      PeriodsAreIntervals(rule, past[k].createdAt, past[j].createdAt, past[i].createdAt);
    }
  }

  /**
   Where the rule's labels are exact they are: it keeps what it is for. Only `weekly` has dates where they are not.
   */
  lemma CalendarIsExact(newest: seq<Candidate>, now: int, rule: Rule, n: nat, c: Candidate)
    requires Newest(newest) && Dated(newest, now, rule) && c in Past(newest, now)
    ensures ScanKeeps(Past(newest, now), LabelsBy(rule), n, c)
            <==> CalendarKeeps(Past(newest, now), LabelsBy(rule), n, c)
  {
    PastIsNewest(newest, now);
    ExactIntervals(Past(newest, now), rule);
    hide *;
    CalendarExactly(Past(newest, now), LabelsBy(rule));
  }

  // ----- what the kept ones build on

  /** Closed under parent, as far as the parents are among the candidates. */
  ghost predicate Closed(newest: seq<Candidate>, kept: set<Id>) {
    forall c | c in newest && c.id in kept && c.parent.Some? && c.parent.value in Ids(newest) :: c.parent.value in kept
  }

  /** The least set of candidates that holds `base` and is closed under parent. */
  ghost predicate IsLeastKept(newest: seq<Candidate>, base: set<Id>, kept: set<Id>) {
    && base <= kept <= Ids(newest) && Closed(newest, kept)
    && forall other: set<Id> :: Closed(newest, other) && base <= other ==> kept <= other
  }

  lemma LeastExists(newest: seq<Candidate>, base: set<Id>)
    requires base <= Ids(newest)
    ensures exists kept :: IsLeastKept(newest, base, kept)
  {
    var kept := set id | id in Ids(newest) && forall other: set<Id> :: Closed(newest, other) && base <= other ==>
      id in other;
    assert Closed(newest, Ids(newest));
    assert IsLeastKept(newest, base, kept);
  }

  ghost function LeastKept(newest: seq<Candidate>, base: set<Id>): (kept: set<Id>)
    requires base <= Ids(newest)
    ensures IsLeastKept(newest, base, kept)
  {
    LeastExists(newest, base);
    var kept :| IsLeastKept(newest, base, kept);
    kept
  }

  function Kept(reasons: Reasons): set<Id> {
    set id | id in reasons && reasons[id] != []
  }

  /** What the rules alone keep, less what was dropped for size. */
  function Base(byRule: Reasons, dropped: set<Id>): set<Id> {
    Kept(byRule) - dropped
  }

  /** `r` says that `c` is the parent of a candidate: of the one it names. */
  ghost predicate NamesChild(newest: seq<Candidate>, c: Candidate, r: Reason) {
    r.ParentOfKept? && exists k | k in newest :: k.id == r.child && k.parent == Some(c.id)
  }

  predicate OwnReason(byRule: Reasons, dropped: set<Id>, c: Candidate, r: Reason) {
    c.id !in dropped && c.id in byRule && r in byRule[c.id]
  }

  /** A candidate's reasons are its own, unless it was dropped, and the children in `counted` built on it. */
  ghost predicate Explained(newest: seq<Candidate>, byRule: Reasons, dropped: set<Id>, reasons: Reasons,
      counted: set<Id>) {
    && reasons.Keys == Ids(newest)
    && forall c, r | c in newest ::
         r in reasons[c.id] <==> OwnReason(byRule, dropped, c, r) || (NamesChild(newest, c, r) && r.child in counted)
  }

  function Find(newest: seq<Candidate>, id: Id): (found: Option<Candidate>)
    ensures found.Some? ==> found.value in newest && found.value.id == id
    ensures found.None? ==> id !in Ids(newest)
  {
    if newest == [] then None
    else if newest[0].id == id then Some(newest[0])
    else Find(newest[1..], id)
  }

  function KeptOf(newest: seq<Candidate>, kept: set<Id>): seq<Candidate> {
    if newest == [] then []
    else (if newest[0].id in kept then [newest[0]] else []) + KeptOf(newest[1..], kept)
  }

  lemma {:induction false} KeptOfAre(newest: seq<Candidate>, kept: set<Id>, c: Candidate)
    ensures c in KeptOf(newest, kept) <==> c in newest && c.id in kept
  {
    if newest != [] { KeptOfAre(newest[1..], kept, c); }
  }

  lemma {:induction false} KeptOfIsDistinct(newest: seq<Candidate>, kept: set<Id>)
    requires Distinct(newest)
    ensures Distinct(KeptOf(newest, kept))
    ensures forall c :: c in KeptOf(newest, kept) <==> c in newest && c.id in kept
  {
    if newest != [] {
      KeptOfIsDistinct(newest[1..], kept);
      forall c ensures c in KeptOf(newest, kept) <==> c in newest && c.id in kept { KeptOfAre(newest, kept, c); }
    }
  }

  /** The worklist of `withParents`: the kept ones are those done with and those whose parents are still to be kept. */
  ghost predicate Walked(newest: seq<Candidate>, byRule: Reasons, dropped: set<Id>, reasons: Reasons, counted: set<Id>,
      pending: seq<Candidate>, least: set<Id>) {
    && Explained(newest, byRule, dropped, reasons, counted)
    && Distinct(pending) && (forall p | p in pending :: p in newest && p.id !in counted)
    && Kept(reasons) == counted + Ids(pending)
    && Base(byRule, dropped) <= Kept(reasons) <= least
  }

  lemma WalkEnds(newest: seq<Candidate>, byRule: Reasons, dropped: set<Id>, reasons: Reasons, counted: set<Id>)
    requires Distinct(newest) && byRule.Keys == Ids(newest)
    requires Walked(newest, byRule, dropped, reasons, counted, [], LeastKept(newest, Base(byRule, dropped)))
    ensures Explained(newest, byRule, dropped, reasons, Kept(reasons))
    ensures Kept(reasons) == LeastKept(newest, Base(byRule, dropped))
  {
    forall c | c in newest && c.id in Kept(reasons) && c.parent.Some? && c.parent.value in Ids(newest)
      ensures c.parent.value in Kept(reasons)
    {
      var p :| p in newest && p.id == c.parent.value;
      assert NamesChild(newest, p, ParentOfKept(c.id));
      assert ParentOfKept(c.id) in reasons[p.id];
    }
  }

  /** Naming one more child adds the one reason there is for it: its parent's. */
  lemma ExplainOne(newest: seq<Candidate>, byRule: Reasons, dropped: set<Id>, reasons: Reasons, counted: set<Id>,
      child: Candidate, after: Reasons)
    requires Distinct(newest) && child in newest && Explained(newest, byRule, dropped, reasons, counted)
    requires after.Keys == reasons.Keys
    requires forall c | c in newest ::
               after[c.id] == reasons[c.id] + (if child.parent == Some(c.id) then [ParentOfKept(child.id)] else [])
    ensures Explained(newest, byRule, dropped, after, counted + {child.id})
  {
    forall c, r | c in newest
      ensures r in after[c.id] <==>
                OwnReason(byRule, dropped, c, r) || (NamesChild(newest, c, r) && r.child in counted + {child.id})
    {
      assert r in reasons[c.id] <==>
             OwnReason(byRule, dropped, c, r) || (NamesChild(newest, c, r) && r.child in counted);
      assert r in after[c.id] <==> r in reasons[c.id] || (child.parent == Some(c.id) && r == ParentOfKept(child.id));
    }
  }

  /** A child without a parent here has nothing to keep. */
  lemma WalkSkips(newest: seq<Candidate>, byRule: Reasons, dropped: set<Id>, reasons: Reasons, counted: set<Id>,
      pending: seq<Candidate>, least: set<Id>)
    requires Distinct(newest) && pending != [] && Walked(newest, byRule, dropped, reasons, counted, pending, least)
    requires var child := pending[|pending| - 1]; child.parent.Some? ==> child.parent.value !in Ids(newest)
    ensures Walked(newest, byRule, dropped, reasons,
                   counted + {pending[|pending| - 1].id}, pending[..|pending| - 1], least)
  {
    ExplainOne(newest, byRule, dropped, reasons, counted, pending[|pending| - 1], reasons);
  }

  lemma WalkTakes(newest: seq<Candidate>, byRule: Reasons, dropped: set<Id>, reasons: Reasons, counted: set<Id>,
      pending: seq<Candidate>, parent: Candidate, after: Reasons, rest: seq<Candidate>, least: set<Id>)
    requires Distinct(newest) && Closed(newest, least)
    requires pending != [] && Walked(newest, byRule, dropped, reasons, counted, pending, least)
    requires parent in newest && pending[|pending| - 1].parent == Some(parent.id)
    requires after == reasons[parent.id := reasons[parent.id] + [ParentOfKept(pending[|pending| - 1].id)]]
    requires rest == pending[..|pending| - 1] + (if reasons[parent.id] == [] then [parent] else [])
    ensures Walked(newest, byRule, dropped, after, counted + {pending[|pending| - 1].id}, rest, least)
    ensures Kept(after) == Kept(reasons) + {parent.id}
  {
    var child := pending[|pending| - 1];
    ExplainOne(newest, byRule, dropped, reasons, counted, child, after);
    hide Explained;
    assert child.id in Ids(pending) && child.id in Kept(reasons);
    assert Kept(after) == Kept(reasons) + {parent.id};
    if reasons[parent.id] == [] {
      assert parent.id !in Kept(reasons);
      assert Ids(rest) == Ids(pending[..|pending| - 1]) + {parent.id};
    } else {
      assert rest == pending[..|pending| - 1];
      assert parent.id in Kept(reasons);
    }
  }

  /** The loop of `withParents`: one kept child after the other, until none is left. */
  method Walk(newest: seq<Candidate>, byRule: Reasons, dropped: set<Id>, given: Reasons, kept: seq<Candidate>,
      ghost least: set<Id>)
    returns (reasons: Reasons, ghost counted: set<Id>)
    requires Distinct(newest) && Closed(newest, least)
    requires Walked(newest, byRule, dropped, given, {}, kept, least)
    ensures Walked(newest, byRule, dropped, reasons, counted, [], least)
  {
    reasons, counted := given, {};
    var pending := kept;
    while pending != []
      invariant Walked(newest, byRule, dropped, reasons, counted, pending, least)
      decreases |Ids(newest)| - |Kept(reasons)|, |pending|
    {
      var child := pending[|pending| - 1];
      var parent := if child.parent.None? then None else Find(newest, child.parent.value);
      var rest := pending[..|pending| - 1];
      if parent.Some? {
        var p := parent.value;
        var after := reasons[p.id := reasons[p.id] + [ParentOfKept(child.id)]];
        var more := rest + (if reasons[p.id] == [] then [p] else []);
        WalkTakes(newest, byRule, dropped, reasons, counted, pending, p, after, more, least);
        WalkShrinks(newest, reasons, after, p.id);
        reasons, pending := after, more;
      } else {
        WalkSkips(newest, byRule, dropped, reasons, counted, pending, least);
        pending := rest;
      }
      counted := counted + {child.id};
    }
  }

  /** `withParents`: a worklist that gives each parent of a kept candidate its reason. */
  method WithParents(newest: seq<Candidate>, byRule: Reasons, dropped: set<Id>) returns (reasons: Reasons)
    requires Distinct(newest) && byRule.Keys == Ids(newest)
    ensures Explained(newest, byRule, dropped, reasons, Kept(reasons))
    ensures Kept(reasons) == LeastKept(newest, Base(byRule, dropped))
  {
    reasons := map id | id in Ids(newest) :: if id in dropped then [] else byRule[id];
    var pending := KeptOf(newest, Kept(reasons));
    ghost var least := LeastKept(newest, Base(byRule, dropped));
    WalkBegins(newest, byRule, dropped, reasons, pending, least);
    ghost var counted;
    reasons, counted := Walk(newest, byRule, dropped, reasons, pending, least);
    WalkEnds(newest, byRule, dropped, reasons, counted);
  }

  lemma WalkBegins(newest: seq<Candidate>, byRule: Reasons, dropped: set<Id>, reasons: Reasons, pending: seq<Candidate>,
      least: set<Id>)
    requires Distinct(newest) && byRule.Keys == reasons.Keys == Ids(newest) && Base(byRule, dropped) <= least
    requires forall id | id in reasons :: reasons[id] == if id in dropped then [] else byRule[id]
    requires pending == KeptOf(newest, Kept(reasons))
    ensures Walked(newest, byRule, dropped, reasons, {}, pending, least)
  {
    KeptOfIsDistinct(newest, Kept(reasons));
    IdsOfKept(newest, Kept(reasons));
  }

  lemma IdsOfKept(newest: seq<Candidate>, kept: set<Id>)
    requires kept <= Ids(newest)
    ensures Ids(KeptOf(newest, kept)) == kept
  {
    forall c ensures c in KeptOf(newest, kept) <==> c in newest && c.id in kept { KeptOfAre(newest, kept, c); }
    forall id | id in kept ensures id in Ids(KeptOf(newest, kept)) {
      var c :| c in newest && c.id == id;
      assert c in KeptOf(newest, kept);
    }
  }

  lemma WalkShrinks(newest: seq<Candidate>, was: Reasons, reasons: Reasons, id: Id)
    requires was.Keys == reasons.Keys == Ids(newest) && id in was && Kept(reasons) == Kept(was) + {id}
    ensures |Kept(reasons)| <= |Ids(newest)| && |Kept(was)| <= |Kept(reasons)|
    ensures was[id] == [] ==> |Kept(was)| < |Kept(reasons)|
  {
    SubsetIsSmaller(Kept(reasons), Ids(newest));
    SubsetIsSmaller(Kept(was), Kept(reasons));
    if was[id] == [] { assert id !in Kept(was); }
  }

  // ----- the size rule

  function Total(cs: seq<Candidate>): nat {
    if cs == [] then 0 else cs[0].storedSize + Total(cs[1..])
  }

  function Floor(newest: seq<Candidate>, policy: KeepPolicy, now: int): seq<Candidate> {
    var past := Past(newest, now);
    var n := if policy.last.None? then 1 else policy.last.value;
    if n <= |past| then past[..n] else past
  }

  predicate HasKeptChild(kept: seq<Candidate>, c: Candidate) {
    exists k | k in kept :: k.parent == Some(c.id)
  }

  /** One the size rule may not drop: of the floor, held, newer than now, or the parent of a kept one. */
  predicate Protected(newest: seq<Candidate>, kept: seq<Candidate>, policy: KeepPolicy, now: int, c: Candidate) {
    c in Floor(newest, policy, now) || c.held || c.createdAt > now || HasKeptChild(kept, c)
  }

  /** The last of `among` that may be dropped: newest first, so the oldest. */
  function Oldest(newest: seq<Candidate>, kept: seq<Candidate>, policy: KeepPolicy, now: int,
      among: seq<Candidate>): (r: Option<Candidate>)
    ensures r.Some? ==> r.value in among && !Protected(newest, kept, policy, now, r.value)
    ensures r.None? ==> forall c | c in among :: Protected(newest, kept, policy, now, c)
    decreases |among|
  {
    if among == [] then None
    else
      var n := |among| - 1;
      assert among == among[..n] + [among[n]];
      if !Protected(newest, kept, policy, now, among[n]) then Some(among[n])
      else Oldest(newest, kept, policy, now, among[..n])
  }

  /** Every one after it may not be dropped. */
  lemma {:induction false} OldestIsLast(newest: seq<Candidate>, kept: seq<Candidate>, policy: KeepPolicy, now: int,
      among: seq<Candidate>) returns (i: nat)
    requires Oldest(newest, kept, policy, now, among).Some?
    ensures i < |among| && Oldest(newest, kept, policy, now, among) == Some(among[i])
    ensures forall j | i < j < |among| :: Protected(newest, kept, policy, now, among[j])
    decreases |among|
  {
    hide Protected;
    var n := |among| - 1;
    if Protected(newest, kept, policy, now, among[n]) {
      i := OldestIsLast(newest, kept, policy, now, among[..n]);
      assert forall j | i < j < n :: among[j] == among[..n][j];
    } else {
      i := n;
    }
  }

  function Droppable(newest: seq<Candidate>, kept: set<Id>, policy: KeepPolicy, now: int): Option<Candidate> {
    Oldest(newest, KeptOf(newest, kept), policy, now, KeptOf(newest, kept))
  }

  predicate Fits(newest: seq<Candidate>, kept: set<Id>, policy: KeepPolicy) {
    policy.maxTotalSize.None? || Total(KeptOf(newest, kept)) <= policy.maxTotalSize.value
  }

  /** A kept one that no kept one builds on: dropping it shrinks what is kept. */
  lemma LeastShrinks(newest: seq<Candidate>, base: set<Id>, c: Candidate)
    requires Distinct(newest) && base <= Ids(newest) && c in newest && c.id in LeastKept(newest, base)
    requires !HasKeptChild(KeptOf(newest, LeastKept(newest, base)), c)
    ensures LeastKept(newest, base - {c.id}) <= LeastKept(newest, base) - {c.id}
    ensures |LeastKept(newest, base - {c.id})| < |LeastKept(newest, base)|
  {
    var kept := LeastKept(newest, base);
    ClosedWithout(newest, kept, c);
    assert base - {c.id} <= kept - {c.id};
    SubsetIsSmaller(LeastKept(newest, base - {c.id}), kept - {c.id});
  }

  lemma ClosedWithout(newest: seq<Candidate>, kept: set<Id>, c: Candidate)
    requires Closed(newest, kept) && !HasKeptChild(KeptOf(newest, kept), c)
    ensures Closed(newest, kept - {c.id})
  {
    forall k | k in newest && k.id in kept - {c.id} && k.parent.Some? && k.parent.value in Ids(newest)
      ensures k.parent.value in kept - {c.id}
    {
      KeptOfAre(newest, kept, k);
    }
  }

  lemma DroppableIs(newest: seq<Candidate>, kept: set<Id>, policy: KeepPolicy, now: int)
    ensures var next := Droppable(newest, kept, policy, now);
            && (next.Some? ==> next.value in newest && next.value.id in kept
                               && !Protected(newest, KeptOf(newest, kept), policy, now, next.value))
            && (next.None? ==> forall c | c in newest && c.id in kept ::
              Protected(newest, KeptOf(newest, kept), policy, now, c))
  {
    forall c ensures c in KeptOf(newest, kept) <==> c in newest && c.id in kept { KeptOfAre(newest, kept, c); }
  }

  /** What is dropped in the end: while the kept ones are too large, the oldest that may be. */
  ghost function Dropped(newest: seq<Candidate>, ruled: set<Id>, policy: KeepPolicy, now: int,
      dropped: set<Id>): set<Id>
    requires Distinct(newest) && ruled <= Ids(newest)
    decreases |LeastKept(newest, ruled - dropped)|
  {
    var kept := LeastKept(newest, ruled - dropped);
    var next := Droppable(newest, kept, policy, now);
    if Fits(newest, kept, policy) || next.None? then dropped
    else
      DropShrinks(newest, ruled, policy, now, dropped);
      Dropped(newest, ruled, policy, now, dropped + {next.value.id})
  }

  lemma DropShrinks(newest: seq<Candidate>, ruled: set<Id>, policy: KeepPolicy, now: int, dropped: set<Id>)
    requires Distinct(newest) && ruled <= Ids(newest)
    requires Droppable(newest, LeastKept(newest, ruled - dropped), policy, now).Some?
    ensures var next := Droppable(newest, LeastKept(newest, ruled - dropped), policy, now).value;
            && LeastKept(newest, ruled - (dropped + {next.id})) <= LeastKept(newest, ruled - dropped) - {next.id}
            && |LeastKept(newest, ruled - (dropped + {next.id}))| < |LeastKept(newest, ruled - dropped)|
  {
    var kept := LeastKept(newest, ruled - dropped);
    DroppableIs(newest, kept, policy, now);
    var next := Droppable(newest, kept, policy, now).value;
    assert ruled - (dropped + {next.id}) == ruled - dropped - {next.id};
    LeastShrinks(newest, ruled - dropped, next);
  }

  function WhyRemoved(byRule: Reasons, dropped: set<Id>, c: Candidate): Reason {
    if c.id in dropped || (c.id in byRule && byRule[c.id] != []) then OverSize else NoRule
  }

  function FateOf(byRule: Reasons, dropped: set<Id>, reasons: Reasons, c: Candidate): Decided {
    Decided(c, if c.id in reasons && reasons[c.id] != [] then reasons[c.id] else [WhyRemoved(byRule, dropped, c)])
  }

  function Fates(byRule: Reasons, dropped: set<Id>, reasons: Reasons, cs: seq<Candidate>): (r: seq<Decided>)
    ensures |r| == |cs| && forall i | 0 <= i < |cs| :: r[i] == FateOf(byRule, dropped, reasons, cs[i])
  {
    seq(|cs|, i requires 0 <= i < |cs| => FateOf(byRule, dropped, reasons, cs[i]))
  }

  lemma {:induction false} KeptOfConcat(a: seq<Candidate>, b: seq<Candidate>, kept: set<Id>)
    ensures KeptOf(a + b, kept) == KeptOf(a, kept) + KeptOf(b, kept)
  {
    if a == [] {
      assert a + b == b;
    } else {
      var first := if a[0].id in kept then [a[0]] else [];
      KeptOfConcat(a[1..], b, kept);
      assert (a + b)[0] == a[0] && (a + b)[1..] == a[1..] + b;
      assert KeptOf(a + b, kept) == first + (KeptOf(a[1..], kept) + KeptOf(b, kept));
      assert KeptOf(a, kept) == first + KeptOf(a[1..], kept);
    }
  }

  lemma KeptOfOneMore(newest: seq<Candidate>, k: nat, kept: set<Id>)
    requires k < |newest|
    ensures KeptOf(newest[..k + 1], kept) == KeptOf(newest[..k], kept)
            + (if newest[k].id in kept then [newest[k]] else [])
  {
    assert newest[..k + 1] == newest[..k] + [newest[k]];
    KeptOfConcat(newest[..k], [newest[k]], kept);
  }

  /** The last loop of `plan`: each candidate's fate, written down once, newest first. */
  method Decide(newest: seq<Candidate>, byRule: Reasons, dropped: set<Id>, reasons: Reasons, overSize: bool)
      returns (plan: Plan)
    requires byRule.Keys == reasons.Keys == Ids(newest)
    ensures plan.kept == Fates(byRule, dropped, reasons, KeptOf(newest, Kept(reasons)))
    ensures plan.removed == Fates(byRule, dropped, reasons, KeptOf(newest, Ids(newest) - Kept(reasons)))
    ensures plan.overSize == overSize
  {
    var kept: seq<Decided> := [];
    var removed: seq<Decided> := [];
    ghost var in1, in2 := Kept(reasons), Ids(newest) - Kept(reasons);
    for k := 0 to |newest|
      invariant kept == Fates(byRule, dropped, reasons, KeptOf(newest[..k], in1))
      invariant removed == Fates(byRule, dropped, reasons, KeptOf(newest[..k], in2))
    {
      var c := newest[k];
      KeptOfOneMore(newest, k, in1);
      KeptOfOneMore(newest, k, in2);
      assert c.id in Ids(newest);
      if reasons[c.id] != [] {
        kept := kept + [Decided(c, reasons[c.id])];
      } else {
        removed := removed + [Decided(c, [WhyRemoved(byRule, dropped, c)])];
      }
    }
    assert newest[..|newest|] == newest;
    plan := Plan(kept, removed, overSize);
  }

  /** The size rule: while what is kept is too large, the oldest that may be dropped goes. */
  method FitSize(newest: seq<Candidate>, byRule: Reasons, policy: KeepPolicy, now: int)
    returns (dropped: set<Id>, reasons: Reasons, overSize: bool)
    requires Distinct(newest) && byRule.Keys == Ids(newest)
    ensures dropped == Dropped(newest, Kept(byRule), policy, now, {})
    ensures Kept(reasons) == LeastKept(newest, Kept(byRule) - dropped)
    ensures Explained(newest, byRule, dropped, reasons, Kept(reasons))
    ensures overSize == !Fits(newest, Kept(reasons), policy)
  {
    dropped, overSize := {}, false;
    reasons := WithParents(newest, byRule, dropped);
    while policy.maxTotalSize.Some?
      invariant Explained(newest, byRule, dropped, reasons, Kept(reasons)) && !overSize
      invariant Kept(reasons) == LeastKept(newest, Base(byRule, dropped))
      invariant Dropped(newest, Kept(byRule), policy, now, dropped) == Dropped(newest, Kept(byRule), policy, now, {})
      decreases |Kept(reasons)|
    {
      var total := Total(KeptOf(newest, Kept(reasons)));
      if total <= policy.maxTotalSize.value { break; }
      var next := Droppable(newest, Kept(reasons), policy, now);
      if next.None? {
        overSize := true;
        break;
      }
      DropShrinks(newest, Kept(byRule), policy, now, dropped);
      dropped := dropped + {next.value.id};
      reasons := WithParents(newest, byRule, dropped);
    }
  }

  /** `plan`: the rules, the size rule and the chains together, and the two lists that come of it. */
  method MakePlan(candidates: seq<Candidate>, policy: KeepPolicy, now: int)
    returns (plan: Plan, ghost byRule: Reasons, ghost dropped: set<Id>, ghost reasons: Reasons)
    requires Distinct(candidates)
    ensures IsPlan(SortNewest(candidates), policy, now, plan, byRule, dropped, reasons)
    ensures forall c | c in candidates :: Lists(plan.kept, c) != Lists(plan.removed, c)
    ensures |plan.kept| + |plan.removed| == |candidates|
  {
    var newest := SortNewest(candidates);
    SortedIsNewest(candidates);
    var rules := ByRules(newest, policy, now);
    var gone, why, overSize := FitSize(newest, rules, policy, now);
    plan := Decide(newest, rules, gone, why, overSize);
    byRule, dropped, reasons := rules, gone, why;
    Partition(newest, policy, now, plan, byRule, dropped, reasons);
  }

  /**
   A plan in full: what the rules keep, less what the size rule drops, with everything those build
   on, and of each candidate why it stays or goes.
   */
  ghost predicate IsPlan(newest: seq<Candidate>, policy: KeepPolicy, now: int, plan: Plan, byRule: Reasons,
      dropped: set<Id>, reasons: Reasons) {
    && Newest(newest) && Distinct(newest)
    && Ruled(newest, policy, now, byRule)
    && dropped == Dropped(newest, Kept(byRule), policy, now, {})
    && Kept(reasons) == LeastKept(newest, Kept(byRule) - dropped)
    && Explained(newest, byRule, dropped, reasons, Kept(reasons))
    && plan.kept == Fates(byRule, dropped, reasons, KeptOf(newest, Kept(reasons)))
    && plan.removed == Fates(byRule, dropped, reasons, KeptOf(newest, Ids(newest) - Kept(reasons)))
    && plan.overSize == !Fits(newest, Kept(reasons), policy)
  }

  // ----- what a plan promises

  /** In the end what is kept fits, or each kept one is one the size rule may not drop. */
  lemma {:induction false} EndsFittingOrProtected(newest: seq<Candidate>, ruled: set<Id>, policy: KeepPolicy, now: int,
      dropped: set<Id>)
    requires Distinct(newest) && ruled <= Ids(newest)
    ensures var kept := LeastKept(newest, ruled - Dropped(newest, ruled, policy, now, dropped));
            Fits(newest, kept, policy)
            || forall c | c in newest && c.id in kept :: Protected(newest, KeptOf(newest, kept), policy, now, c)
    decreases |LeastKept(newest, ruled - dropped)|
  {
    var kept := LeastKept(newest, ruled - dropped);
    var next := Droppable(newest, kept, policy, now);
    DroppableIs(newest, kept, policy, now);
    if !Fits(newest, kept, policy) && next.Some? {
      DropShrinks(newest, ruled, policy, now, dropped);
      EndsFittingOrProtected(newest, ruled, policy, now, dropped + {next.value.id});
    }
  }

  /** The size rule never drops one of the floor, a held one, or one newer than now. */
  lemma {:induction false} NeverDropped(newest: seq<Candidate>, ruled: set<Id>, policy: KeepPolicy, now: int,
      dropped: set<Id>, c: Candidate)
    requires Distinct(newest) && ruled <= Ids(newest) && c in newest && c.id !in dropped
    requires c in Floor(newest, policy, now) || c.held || c.createdAt > now
    ensures c.id !in Dropped(newest, ruled, policy, now, dropped)
    decreases |LeastKept(newest, ruled - dropped)|
  {
    hide Floor, Fits;
    var kept := LeastKept(newest, ruled - dropped);
    var next := Droppable(newest, kept, policy, now);
    DroppableIs(newest, kept, policy, now);
    if !Fits(newest, kept, policy) && next.Some? {
      DropShrinks(newest, ruled, policy, now, dropped);
      NeverDropped(newest, ruled, policy, now, dropped + {next.value.id}, c);
    }
  }

  /** Nothing is dropped while what is kept fits. */
  lemma DropsOnlyForSize(newest: seq<Candidate>, ruled: set<Id>, policy: KeepPolicy, now: int)
    requires Distinct(newest) && ruled <= Ids(newest) && Fits(newest, LeastKept(newest, ruled), policy)
    ensures Dropped(newest, ruled, policy, now, {}) == {}
  {
    assert ruled - {} == ruled;
  }

  /** No policy removes a held one, one dated ahead of now, or the parent of one it keeps. */
  lemma KeepsWhatItMust(newest: seq<Candidate>, policy: KeepPolicy, now: int, byRule: Reasons, c: Candidate)
    requires Distinct(newest) && Ruled(newest, policy, now, byRule) && c in newest
    ensures var kept := LeastKept(newest, Kept(byRule) - Dropped(newest, Kept(byRule), policy, now, {}));
            && (c.held || c.createdAt > now ==> c.id in kept)
            && (c.id in kept && c.parent.Some? && c.parent.value in Ids(newest) ==> c.parent.value in kept)
  {
    if c.held || c.createdAt > now {
      NeverDropped(newest, Kept(byRule), policy, now, {}, c);
      assert Why(Past(newest, now), LabelsBy, policy, now, c, if c.held then IsHeld else NewerThanNow);
      assert c.id in Kept(byRule);
    }
  }

  lemma FloorIsRuled(newest: seq<Candidate>, policy: KeepPolicy, now: int, byRule: Reasons, c: Candidate)
    requires Ruled(newest, policy, now, byRule) && policy.maxTotalSize.Some?
    requires c in Floor(newest, policy, now)
    ensures c in newest && c.id in Kept(byRule)
  {
    var past := Past(newest, now);
    var floor := Floor(newest, policy, now);
    var i :| 0 <= i < |floor| && floor[i] == c;
    assert past[i] == c && c in past;
    assert Why(past, LabelsBy, policy, now, c, if policy.last.Some? then Last(i + 1) else NewestUnderSize);
  }

  /** The floor is kept when there is a size rule: nothing it says can go below it. */
  lemma KeepsTheFloor(newest: seq<Candidate>, policy: KeepPolicy, now: int, byRule: Reasons, c: Candidate)
    requires Distinct(newest) && Ruled(newest, policy, now, byRule) && policy.maxTotalSize.Some?
    requires c in Floor(newest, policy, now)
    ensures c.id in LeastKept(newest, Kept(byRule) - Dropped(newest, Kept(byRule), policy, now, {}))
  {
    FloorIsRuled(newest, policy, now, byRule, c);
    NeverDropped(newest, Kept(byRule), policy, now, {}, c);
  }

  predicate Lists(decided: seq<Decided>, c: Candidate) {
    exists d | d in decided :: d.candidate == c
  }

  /** Every candidate is among the kept or the removed of a plan, none is both, and nothing else is in either. */
  lemma Partition(newest: seq<Candidate>, policy: KeepPolicy, now: int, plan: Plan, byRule: Reasons, dropped: set<Id>,
      reasons: Reasons)
    requires IsPlan(newest, policy, now, plan, byRule, dropped, reasons)
    ensures forall c | c in newest :: Lists(plan.kept, c) != Lists(plan.removed, c)
    ensures forall c | Lists(plan.kept, c) || Lists(plan.removed, c) :: c in newest
    ensures |plan.kept| + |plan.removed| == |newest|
  {
    var kept := Kept(reasons);
    forall c ensures Lists(plan.kept, c) <==> c in newest && c.id in kept {
      ListsExactly(newest, kept, byRule, dropped, reasons, c);
    }
    forall c ensures Lists(plan.removed, c) <==> c in newest && c.id in Ids(newest) - kept {
      ListsExactly(newest, Ids(newest) - kept, byRule, dropped, reasons, c);
    }
    KeptOfBoth(newest, kept, Ids(newest) - kept);
  }

  lemma ListsExactly(newest: seq<Candidate>, kept: set<Id>, byRule: Reasons, dropped: set<Id>, reasons: Reasons,
      c: Candidate)
    ensures Lists(Fates(byRule, dropped, reasons, KeptOf(newest, kept)), c) <==> c in newest && c.id in kept
  {
    var cs := KeptOf(newest, kept);
    var fates := Fates(byRule, dropped, reasons, cs);
    KeptOfAre(newest, kept, c);
    if c in cs {
      var i :| 0 <= i < |cs| && cs[i] == c;
      assert fates[i].candidate == c && fates[i] in fates;
    }
    if Lists(fates, c) {
      var i :| 0 <= i < |fates| && fates[i].candidate == c;
      assert cs[i] == c;
    }
  }

  lemma {:induction false} KeptOfBoth(newest: seq<Candidate>, a: set<Id>, b: set<Id>)
    requires forall c | c in newest :: c.id in a <==> c.id !in b
    ensures |KeptOf(newest, a)| + |KeptOf(newest, b)| == |newest|
  {
    if newest != [] { KeptOfBoth(newest[1..], a, b); }
  }

  // ----- the same, said of the candidates alone

  /** The past ones newer than `c`: dates that are no stand-in's and not ahead of now, the larger id first. */
  function Newer(newest: seq<Candidate>, now: int, c: Candidate): set<Candidate> {
    set d | d in newest && !d.standIn && d.createdAt <= now
            && (d.createdAt > c.createdAt || (d.createdAt == c.createdAt && d.id > c.id))
  }

  /** One of the `n` newest past ones. */
  predicate AmongNewest(newest: seq<Candidate>, now: int, n: nat, c: Candidate) {
    !c.standIn && c.createdAt <= now && |Newer(newest, now, c)| < n
  }

  /** The newest past one of its period, and its period one of the `n` latest that have one. */
  predicate NewestOfPeriod(newest: seq<Candidate>, now: int, rule: Rule, n: nat, c: Candidate) {
    && !c.standIn && c.createdAt <= now
    && var periods := set d | d in Newer(newest, now, c) :: PeriodOf(rule, d.createdAt);
    PeriodOf(rule, c.createdAt) !in periods && |periods| < n
  }

  /** What a policy asks to be kept, before sizes and parents. */
  predicate AsksFor(newest: seq<Candidate>, policy: KeepPolicy, now: int, c: Candidate) {
    || c.held || c.createdAt > now
    || (policy.last.Some? && AmongNewest(newest, now, policy.last.value, c))
    || (policy.last.None? && policy.maxTotalSize.Some? && AmongNewest(newest, now, 1, c))
    || (policy.within.Some? && c.createdAt <= now <= c.createdAt + policy.within.value)
    || exists rule | rule in policy.calendar :: NewestOfPeriod(newest, now, rule, policy.calendar[rule], c)
  }

  lemma {:induction false} AsManyAs(cs: seq<Candidate>)
    requires Newest(cs)
    ensures |set c | c in cs| == |cs|
  {
    if cs != [] {
      AsManyAs(cs[1..]);
      assert (set c | c in cs) == {cs[0]} + set c | c in cs[1..];
      assert cs[0] !in cs[1..];
    }
  }

  lemma BeforeIn(past: seq<Candidate>, i: nat, d: Candidate)
    requires Newest(past) && i < |past|
    ensures d in past[..i] <==> d in past && Before(d, past[i])
  {
    if d in past {
      var j :| 0 <= j < |past| && past[j] == d;
      assert j < i ==> past[..i][j] == d;
      assert i < j ==> Before(past[i], past[j]);
    }
  }

  lemma NewerAt(newest: seq<Candidate>, now: int, i: nat)
    requires Newest(newest) && i < |Past(newest, now)|
    ensures var past := Past(newest, now);
            Newer(newest, now, past[i]) == (set d | d in past[..i]) && |Newer(newest, now, past[i])| == i
  {
    PastIsNewest(newest, now);
    var past := Past(newest, now);
    AsManyAs(past[..i]);
    hide Newest;
    forall d ensures d in Newer(newest, now, past[i]) <==> d in past[..i] { BeforeIn(past, i, d); }
  }

  lemma NewestAre(newest: seq<Candidate>, now: int, n: nat, c: Candidate)
    requires Newest(newest) && c in newest
    ensures var past := Past(newest, now);
            AmongNewest(newest, now, n, c) <==> exists i | 0 <= i < n && i < |past| :: past[i] == c
  {
    var past := Past(newest, now);
    if c in past {
      var i :| 0 <= i < |past| && past[i] == c;
      NewerAt(newest, now, i);
      forall j | 0 <= j < |past| && past[j] == c ensures j == i { PastIsNewest(newest, now); }
    }
  }

  lemma PeriodsAt(newest: seq<Candidate>, now: int, rule: Rule, i: nat)
    requires Newest(newest) && i < |Past(newest, now)|
    ensures var past := Past(newest, now);
            (set d | d in Newer(newest, now, past[i]) :: PeriodOf(rule, d.createdAt))
            == Labels(LabelsBy(rule), past[..i])
  {
    NewerAt(newest, now, i);
    hide PeriodOf, Newest, Newer, Past;
  }

  lemma PeriodsAre(newest: seq<Candidate>, now: int, rule: Rule, n: nat, c: Candidate)
    requires Newest(newest) && c in newest
    ensures NewestOfPeriod(newest, now, rule, n, c) <==> CalendarKeeps(Past(newest, now), LabelsBy(rule), n, c)
  {
    hide PeriodOf, Newest, Newer, Labels;
    var past, f := Past(newest, now), LabelsBy(rule);
    if c in past {
      forall i | 0 <= i < |past| && past[i] == c
        ensures (set d | d in Newer(newest, now, c) :: PeriodOf(rule, d.createdAt)) == Labels(f, past[..i])
      {
        PeriodsAt(newest, now, rule, i);
      }
      var i :| 0 <= i < |past| && past[i] == c;
    }
  }

  lemma OnlyThePast(newest: seq<Candidate>, now: int, rule: Rule, n: nat, c: Candidate)
    requires c in newest && c !in Past(newest, now)
    ensures !NewestOfPeriod(newest, now, rule, n, c) && !ScanKeeps(Past(newest, now), LabelsBy(rule), n, c)
  {
  }

  lemma PeriodsKept(newest: seq<Candidate>, policy: KeepPolicy, now: int, rule: Rule, c: Candidate)
    requires Newest(newest) && c in newest && rule in policy.calendar && Dated(newest, now, rule)
    ensures NewestOfPeriod(newest, now, rule, policy.calendar[rule], c)
            <==> Why(Past(newest, now), LabelsBy, policy, now, c, OfPeriod(rule, LabelsBy(rule)(c)))
  {
    hide PeriodOf, NewestOfPeriod, CalendarKeeps, ScanKeeps, Dated;
    PeriodsAre(newest, now, rule, policy.calendar[rule], c);
    if c in Past(newest, now) { CalendarIsExact(newest, now, rule, policy.calendar[rule], c); }
    else { OnlyThePast(newest, now, rule, policy.calendar[rule], c); }
  }

  lemma NothingOfNone(newest: seq<Candidate>, policy: KeepPolicy, now: int, c: Candidate, r: Reason)
    requires r.OfPeriod? && Why(Past(newest, now), LabelsBy, policy, now, c, r)
    ensures r.rule in policy.calendar && r.period == LabelsBy(r.rule)(c)
  {
  }

  lemma LastsAre(newest: seq<Candidate>, policy: KeepPolicy, now: int, c: Candidate)
    requires Newest(newest) && c in newest
    ensures (policy.last.Some? && AmongNewest(newest, now, policy.last.value, c))
            <==> exists n :: Why(Past(newest, now), LabelsBy, policy, now, c, Last(n))
    ensures (policy.last.None? && policy.maxTotalSize.Some? && AmongNewest(newest, now, 1, c))
            <==> Why(Past(newest, now), LabelsBy, policy, now, c, NewestUnderSize)
  {
    var past := Past(newest, now);
    if policy.last.Some? {
      NewestAre(newest, now, policy.last.value, c);
      hide AmongNewest;
      if i :| 0 <= i < policy.last.value && i < |past| && past[i] == c {
        assert Why(past, LabelsBy, policy, now, c, Last(i + 1));
      }
      if n :| Why(past, LabelsBy, policy, now, c, Last(n)) { assert past[n - 1] == c; }
    }
    NewestAre(newest, now, 1, c);
  }

  lemma OthersAre(past: seq<Candidate>, policy: KeepPolicy, now: int, c: Candidate)
    ensures Why(past, LabelsBy, policy, now, c, IsWithin)
            <==> policy.within.Some? && c.createdAt <= now <= c.createdAt + policy.within.value
    ensures Why(past, LabelsBy, policy, now, c, NewerThanNow) <==> c.createdAt > now
    ensures Why(past, LabelsBy, policy, now, c, IsHeld) <==> c.held
  {
  }

  lemma AskedIsKept(newest: seq<Candidate>, policy: KeepPolicy, now: int, byRule: Reasons, c: Candidate)
    requires Newest(newest) && Ruled(newest, policy, now, byRule) && c in newest && AsksFor(newest, policy, now, c)
    requires forall rule | rule in policy.calendar :: Dated(newest, now, rule)
    ensures c.id in Kept(byRule)
  {
    var past := Past(newest, now);
    LastsAre(newest, policy, now, c);
    OthersAre(past, policy, now, c);
    hide AmongNewest, NewestOfPeriod, Why, Dated, Newest;
    if rule :| rule in policy.calendar && NewestOfPeriod(newest, now, rule, policy.calendar[rule], c) {
      PeriodsKept(newest, policy, now, rule, c);
      assert OfPeriod(rule, LabelsBy(rule)(c)) in byRule[c.id];
    } else if n :| Why(past, LabelsBy, policy, now, c, Last(n)) {
      assert Last(n) in byRule[c.id];
    } else {
      assert NewestUnderSize in byRule[c.id] || IsWithin in byRule[c.id] || NewerThanNow in byRule[c.id]
        || IsHeld in byRule[c.id];
    }
  }

  lemma KeptIsAsked(newest: seq<Candidate>, policy: KeepPolicy, now: int, c: Candidate, r: Reason)
    requires Newest(newest) && c in newest && Why(Past(newest, now), LabelsBy, policy, now, c, r)
    requires forall rule | rule in policy.calendar :: Dated(newest, now, rule)
    ensures AsksFor(newest, policy, now, c)
  {
    var past := Past(newest, now);
    LastsAre(newest, policy, now, c);
    OthersAre(past, policy, now, c);
    if r.OfPeriod? {
      NothingOfNone(newest, policy, now, c, r);
      PeriodsKept(newest, policy, now, r.rule, c);
    }
    hide AmongNewest, NewestOfPeriod, LabelsBy, Dated, Newest;
    if r.Last? { assert Why(past, LabelsBy, policy, now, c, Last(r.n)); }
  }

  /** The rules keep exactly what the policy asks for, wherever its weeks are the calendar's. */
  lemma RulesKeepExactly(newest: seq<Candidate>, policy: KeepPolicy, now: int, byRule: Reasons, c: Candidate)
    requires Newest(newest) && Ruled(newest, policy, now, byRule) && c in newest
    requires forall rule | rule in policy.calendar :: Dated(newest, now, rule)
    ensures c.id in Kept(byRule) <==> AsksFor(newest, policy, now, c)
  {
    if AsksFor(newest, policy, now, c) { AskedIsKept(newest, policy, now, byRule, c); }
    hide AsksFor, Why, Newest, Dated;
    if c.id in Kept(byRule) {
      assert byRule[c.id][0] in byRule[c.id];
      KeptIsAsked(newest, policy, now, c, byRule[c.id][0]);
    }
  }

  /** What of the kept ones takes part in the size: their bytes, one by one. */
  lemma {:induction false} TotalAdds(a: seq<Candidate>, b: seq<Candidate>)
    ensures Total(a + b) == Total(a) + Total(b)
    ensures |a| == 1 ==> Total(a) == a[0].storedSize
  {
    if a == [] {
      assert a + b == b;
    } else {
      assert (a + b)[1..] == a[1..] + b;
      TotalAdds(a[1..], b);
    }
  }

  /** What the size rule may drop: none of the newest, nothing held or ahead of now, no kept one's parent. */
  predicate MayGo(newest: seq<Candidate>, kept: set<Id>, policy: KeepPolicy, now: int, c: Candidate) {
    && c in newest && c.id in kept && !c.held && c.createdAt <= now
    && !AmongNewest(newest, now, if policy.last.None? then 1 else policy.last.value, c)
    && !exists k | k in newest && k.id in kept :: k.parent == Some(c.id)
  }

  predicate TooLarge(newest: seq<Candidate>, kept: set<Id>, policy: KeepPolicy) {
    policy.maxTotalSize.Some? && Total(KeptOf(newest, kept)) > policy.maxTotalSize.value
  }

  /** The oldest of those that may go. */
  ghost predicate GoesNext(newest: seq<Candidate>, kept: set<Id>, policy: KeepPolicy, now: int, id: Id) {
    exists c | MayGo(newest, kept, policy, now, c) ::
      c.id == id && forall d | MayGo(newest, kept, policy, now, d) && d != c :: Before(d, c)
  }

  lemma MayGoIs(newest: seq<Candidate>, kept: set<Id>, policy: KeepPolicy, now: int, c: Candidate)
    requires Newest(newest)
    ensures MayGo(newest, kept, policy, now, c)
            <==> c in KeptOf(newest, kept) && !Protected(newest, KeptOf(newest, kept), policy, now, c)
  {
    KeptOfAre(newest, kept, c);
    if c in newest {
      var n := if policy.last.None? then 1 else policy.last.value;
      NewestAre(newest, now, n, c);
      FloorAre(newest, policy, now, c);
      forall k ensures k in KeptOf(newest, kept) <==> k in newest && k.id in kept { KeptOfAre(newest, kept, k); }
    }
  }

  lemma FloorAre(newest: seq<Candidate>, policy: KeepPolicy, now: int, c: Candidate)
    ensures var n, past := if policy.last.None? then 1 else policy.last.value, Past(newest, now);
            c in Floor(newest, policy, now) <==> exists i | 0 <= i < n && i < |past| :: past[i] == c
  {
    var past, floor := Past(newest, now), Floor(newest, policy, now);
    assert forall i | 0 <= i < |floor| :: floor[i] == past[i];
  }

  lemma OldestGoesNext(newest: seq<Candidate>, kept: set<Id>, policy: KeepPolicy, now: int, next: Candidate)
    requires Newest(newest) && Droppable(newest, kept, policy, now) == Some(next)
    requires forall c | MayGo(newest, kept, policy, now, c) ::
               c in KeptOf(newest, kept) && !Protected(newest, KeptOf(newest, kept), policy, now, c)
    requires MayGo(newest, kept, policy, now, next)
    ensures GoesNext(newest, kept, policy, now, next.id)
  {
    GoneIsInOrder(newest, kept);
    var among := KeptOf(newest, kept);
    var i := OldestIsLast(newest, among, policy, now, among);
    hide Protected, MayGo, KeptOf, Newest, Before, Oldest;
    forall d | MayGo(newest, kept, policy, now, d) && d != next ensures Before(d, next) {
      var j :| 0 <= j < |among| && among[j] == d;
      assert j < i;
      InOrder(among, j, i);
    }
  }

  lemma InOrder(cs: seq<Candidate>, i: nat, j: nat)
    requires Newest(cs) && i < j < |cs|
    ensures Before(cs[i], cs[j])
  {
  }

  lemma NextIs(newest: seq<Candidate>, kept: set<Id>, policy: KeepPolicy, now: int)
    requires Newest(newest)
    ensures var next := Droppable(newest, kept, policy, now);
            && (next.None? <==> forall c :: !MayGo(newest, kept, policy, now, c))
            && (next.Some? ==> GoesNext(newest, kept, policy, now, next.value.id))
  {
    forall c ensures MayGo(newest, kept, policy, now, c) <==>
                     c in KeptOf(newest, kept) && !Protected(newest, KeptOf(newest, kept), policy, now, c)
      { MayGoIs(newest, kept, policy, now, c); }
    hide Protected, MayGo, KeptOf, GoesNext, Newest;
    var next := Droppable(newest, kept, policy, now);
    if next.Some? { OldestGoesNext(newest, kept, policy, now, next.value); }
  }

  lemma {:induction false} GoneIsInOrder(newest: seq<Candidate>, kept: set<Id>)
    requires Newest(newest)
    ensures Newest(KeptOf(newest, kept))
  {
    if newest != [] {
      GoneIsInOrder(newest[1..], kept);
      forall c ensures c in KeptOf(newest[1..], kept) <==> c in newest[1..] && c.id in kept {
        KeptOfAre(newest[1..], kept, c);
      }
      var rest := KeptOf(newest[1..], kept);
      assert forall c | c in rest :: Before(newest[0], c);
    }
  }

  function Together(ids: seq<Id>): set<Id> {
    set id | id in ids
  }

  /** The `i`-th drop is due: with those before it gone, what is kept is too large, and it goes next. */
  ghost predicate IsDue(newest: seq<Candidate>, ruled: set<Id>, policy: KeepPolicy, now: int, drops: seq<Id>, i: nat)
    requires Distinct(newest) && ruled <= Ids(newest) && i < |drops|
  {
    var kept := LeastKept(newest, ruled - Together(drops[..i]));
    TooLarge(newest, kept, policy) && GoesNext(newest, kept, policy, now, drops[i])
  }

  lemma OneMoreDue(newest: seq<Candidate>, ruled: set<Id>, policy: KeepPolicy, now: int, before: seq<Id>, id: Id)
    requires Distinct(newest) && ruled <= Ids(newest)
    requires forall i | 0 <= i < |before| :: IsDue(newest, ruled, policy, now, before, i)
    requires var kept := LeastKept(newest, ruled - Together(before));
             TooLarge(newest, kept, policy) && GoesNext(newest, kept, policy, now, id)
    ensures Together(before + [id]) == Together(before) + {id}
    ensures forall i | 0 <= i < |before + [id]| :: IsDue(newest, ruled, policy, now, before + [id], i)
  {
    hide TooLarge, GoesNext;
    var more := before + [id];
    assert more[..|before|] == before;
    forall i | 0 <= i < |before| ensures IsDue(newest, ruled, policy, now, more, i) {
      assert more[..i] == before[..i] && IsDue(newest, ruled, policy, now, before, i);
    }
  }

  /**
   The size rule drops one after the other, each time the oldest that may go while what is kept is too
   large, and stops when it is not or none may go.
   */
  lemma {:induction false} DropsInTurn(newest: seq<Candidate>, ruled: set<Id>, policy: KeepPolicy, now: int,
      before: seq<Id>) returns (drops: seq<Id>)
    requires Newest(newest) && Distinct(newest) && ruled <= Ids(newest)
    requires forall i | 0 <= i < |before| :: IsDue(newest, ruled, policy, now, before, i)
    ensures before <= drops && Dropped(newest, ruled, policy, now, Together(before)) == Together(drops)
    ensures forall i | 0 <= i < |drops| :: IsDue(newest, ruled, policy, now, drops, i)
    ensures var kept := LeastKept(newest, ruled - Together(drops));
            !TooLarge(newest, kept, policy) || forall c :: !MayGo(newest, kept, policy, now, c)
    decreases |LeastKept(newest, ruled - Together(before))|
  {
    var kept := LeastKept(newest, ruled - Together(before));
    var next := Droppable(newest, kept, policy, now);
    NextIs(newest, kept, policy, now);
    hide GoesNext, MayGo, Droppable, IsDue;
    if Fits(newest, kept, policy) || next.None? {
      drops := before;
    } else {
      DropShrinks(newest, ruled, policy, now, Together(before));
      OneMoreDue(newest, ruled, policy, now, before, next.value.id);
      drops := DropsInTurn(newest, ruled, policy, now, before + [next.value.id]);
    }
  }

  /** Of each removed, why: the size where it was dropped, or where a rule had kept it. */
  lemma SaysWhy(newest: seq<Candidate>, policy: KeepPolicy, now: int, plan: Plan, byRule: Reasons, dropped: set<Id>,
      reasons: Reasons, d: Decided)
    requires IsPlan(newest, policy, now, plan, byRule, dropped, reasons)
    ensures d in plan.removed ==>
              d.reasons == [if d.candidate.id in dropped || d.candidate.id in Kept(byRule) then OverSize else NoRule]
    ensures d in plan.kept ==> d.reasons != [] && d.candidate.id in reasons && d.reasons == reasons[d.candidate.id]
  {
    var kept := Kept(reasons);
    if d in plan.removed {
      var i :| 0 <= i < |plan.removed| && plan.removed[i] == d;
      KeptOfAre(newest, Ids(newest) - kept, d.candidate);
    }
    if d in plan.kept {
      var i :| 0 <= i < |plan.kept| && plan.kept[i] == d;
      KeptOfAre(newest, kept, d.candidate);
    }
  }
}
