# Proofs about the backup, search, image and database packages

A Dafny model of the parts of this repository whose promises span many steps, many writers or many
inputs, and the proofs that they keep them. To check it all: `dafny verify dfyconfig.toml`.

## What is modelled

**Backups** (`packages/backup`). `Lock` is the lock of one repository as a state machine: any number
of writers, each with its own wall clock, a store that takes and loses puts, and real time. `Repository`
puts create, prune, hold and unhold on top of it, each with a failure possible at every put and delete.
`Calls` is what each of them is for, that it does that, nothing else, and can.
`Periods` is the calendar of the retention rules, `Policy` the plan they make, `Prune` the decision taken
from a listing. `Chain` is the making of a full, incremental or differential backup over several
repositories, the readers of its catalog and manifest, the walk back when restoring, and what any sequence
of creates and prunes leaves to restore.

**Search sync** (`packages/mongo-meilisearch`). `Changes` is the collection's change log and what a sync
makes of one change. `Sync` is a reindex and a follower against a server that serves its tasks in order, may
fail any of them, and may lose any answer; the process may die at any step, and a stream that stops leaves
its flush going. `Progress` is that it can catch up from wherever it is, and `Overlaps` what holds of the
server's tasks whatever runs beside whatever. `Follower` is the code of the follower and of its batches,
proved to take exactly those steps.

**Change capture** (`packages/mongo-backup`). `Capture` has the database, its change stream, the changes a
backup keeps and their replay. `Bson` is the splitter of a stream of documents.

**Images** (`packages/image`). `Unfilter`, `Crop` and `PngFile` are the streaming crop: filters undone in
place, rows assembled from pieces of any size in two swapped buffers, the early stop, the chunks of the file
and the encoder. `Limit` is the semaphore.

**Data** (`packages/mongo`, `packages/meilisearch`). `GridFs` is the chunked write and the ranged read,
`Coerce` and `Inline` the two recursive rewrites, `Declared` what coercion makes of each place, `Migrations`
the list and its runs, `Rebuild` the index rebuild with its swap. `Octets` and `Wrappers` hold the byte and
the option the others share.

A loop of the source is a loop here, or, where others act between its rounds, steps of a state machine; an
object whose methods change its fields is a class. Each is proved against a function or a state machine, and
what the package promises is proved about that. The properties of a state machine hold in every state of
every run.

## What the proofs found

- The lock excludes exactly when two things hold (`Lock.ExclusiveExactly`). The wall clocks' two errors and
  the pause between the reads at lock.ts:128 and lock.ts:132 take at most one lease together; past that there
  is a run with two holders (`Lock.TwoHolders`). And a request reported as failed changes nothing any more:
  a renewal that rejects is followed by another at the next tick (lock.ts:199-207), and one that lands after
  three later ones puts back a time that others find stale (`Lock.LateRenewal`).
- The same two are exactly what whole backups and kept holds need (`Repository.WholeExactly`,
  `Repository.HeldExactly`). A prune whose delete rejects releases the lock at once (run-locks.ts:70-74);
  should the delete land after all, a backup made in between loses the one it builds on
  (`Repository.Orphans`).
- `isoWeek` (periods.ts:13-22) goes through `Date.UTC`, which reads the years 0 to 99 as 1900 to 1999. Its
  label is wrong there, and for the first days of January 100 too (`Periods.IsoWeekExactly`,
  `Periods.FirstOfTheYear100`). The other rules' labels are exact for every time
  (`Periods.SamePeriod`).
- A search sync is faithful exactly when four things cannot happen (`Sync.FaithfulExactly`): a document
  inserted with its soft-delete field already set is indexed as created; an update whose post-image expired
  comes without a document and is read as a deletion; a batch of a process that died, still waiting when
  the next reindex lists the index, puts back a document that is gone; and a run begins while something of an
  earlier one is still under way. A stream that fails lets its lease go without waiting for its flush
  (follow.ts:133-137), one that is closed waits but renews the lease no more (follow.ts:97-131), and a lease
  found gone does not stop the flush either (follow.ts:178-182). That flush goes on making its requests, and
  takes out what the next follower has just put in and recorded (`Sync.LateFlushCutsIt`).
- The semaphore says tasks start in the order they were submitted (limit.ts:1-5). Places are given in that
  order, but a waiter woken goes on in a later microtask, and a call made before it can find a place that
  was freed meanwhile. `Limit.InOrderExactly` says exactly when order is kept,
  `Limit.ALaterCallStartsFirst` gives the run.
- `kinds[key]` (coerce.ts:250 and 298) also finds what `Object.prototype` holds, so a date written as a
  string under a field called `constructor`, `toString` or the like is read as a date though no kind
  declares it (`Coerce.ConstructorIsRead`). And a key `__proto__` of an object that is rebuilt sets a
  prototype and is lost (`Coerce.ProtoIsLost`). A document or a filter comes back unchanged where no kind is
  declared exactly when it holds neither (`Coerce.FieldsExactly`, `Coerce.FilterExactly`).
- An entry restores to other bytes than the source gave exactly when the source gave, for them, the
  fingerprint the backup built on has under that name (`Chain.HistoryRestoresTheSource`).
- `f.last` is never cleared (follow.ts:60-70), so the idle branch moves the recorded token only before the
  first change queued: from then on a flush takes that change's point (`Sync.PointIsLast`), and the token
  stays there however far the stream moves on (`Sync.IdleStays`).

## Model

| member | source | states |
|---|---|---|
| `Lock.ExclusiveExactly` | packages/backup/src/lock/lock.ts:107-219 | in every run of any number of writers at most one holds the lock, if and only if the wall clocks' two errors and the pause between the two clock reads together take at most one lease and a request reported as failed changes nothing any more |
| `Lock.MutualExclusion` | packages/backup/src/lock/lock.ts:107-219 | the safe half: every interleaving of acquire, list, read, stale removal, renewal, late renewal, release and crash keeps at most one holder |
| `Lock.TwoHolders` | packages/backup/src/lock/lock.ts:124-132 | one other half: past that bound there is a run, given step by step, that ends with two holders |
| `Lock.LateRenewal` | packages/backup/src/lock/lock.ts:190-207 | the other: where a request reported as failed may still land there is such a run with perfect clocks, an early renewal landing after three later ones |
| `Lock.HolderIsAlone` | packages/backup/src/lock/lock.ts:165-219 | while one writer holds the lock, any other that acquired it is past its deadline by more than what is left of the lease of grace, so what it began while held has landed |
| `Lock.StaleIsLost` | packages/backup/src/lock/lock.ts:72-94 | a lock file removed as stale belongs to a writer that does not hold the lock then and never does again, whatever comes later |
| `Lock.LostForGood` | packages/backup/src/lock/lock.ts:183-206 | once the deadline has passed `held()` is false for good: no renewal, however late it lands, brings it back |
| `Lock.NeverBack` | packages/backup/src/lock/lock.ts:139-142 | a writer that gave up or is gone never holds the lock, in any continuation |
| `Lock.AfterAcquiring` | packages/backup/src/lock/lock.ts:173-218 | no step by anyone makes a writer hold that did not, takes its deadline back, or ends its acquisition but its own release or crash |
| `Lock.StepKeepsInv` | packages/backup/src/lock/lock.ts:79-219 | every step of every writer, of the store or of the clock keeps the invariant: of two writers that listed, one still has to judge the other or one is long past |
| `Lock.RunKeepsInv` | packages/backup/src/lock/lock.ts:79-219 | so does every run |
| `Lock.ListingPairOk` | packages/backup/src/lock/lock.ts:146-163 | a writer that lists after its own put resolved sees every lock that was put before, unless its holder is long past |
| `Lock.CheckingPairOk` | packages/backup/src/lock/lock.ts:79-94 | checking or removing one listed lock leaves the pair with its writer in order: nobody is let through past a live lock |
| `Lock.GivesUpExactly` | packages/backup/src/lock/lock.ts:72-94 | whoever reads a listed lock gives up exactly when it is there and not past its end by more than a lease, and goes on when it is gone |
| `Lock.GetsAFreeLock` | packages/backup/src/lock/lock.ts:124-163 | a writer that finds each lock it listed gone or stale, however many there are, gets the lock by its own steps |
| `Lock.LetsGo` | packages/backup/src/lock/lock.ts:190-219 | a writer that gives up or lets go gets out by its own steps, a renewal under way awaited, and its lock is gone, and no other |
| `Lock.FileKept` | packages/backup/src/lock/lock.ts:65-105 | no writer changes the file of another but to remove one judged stale |
| `Lock.HeldLease.constructor` | packages/backup/src/lock/lock.ts:173-182 | a new lease is held to its first deadline, with no renewal under way |
| `Lock.HeldLease.Held` | packages/backup/src/lock/lock.ts:183-189 | answers what the protocol says of the lease at that time, and records a loss for good |
| `Lock.HeldLease.Tick` | packages/backup/src/lock/lock.ts:190-198 | begins a renewal exactly when none is under way and the lease is held, with a deadline one lease on |
| `Lock.HeldLease.Settle` | packages/backup/src/lock/lock.ts:199-207 | a renewal that resolved moves the deadline forward only while the lease is held; one that failed changes nothing |
| `Repository.StandingIsWhole` | packages/backup/src/backups/create.ts:173-244 | in every run of concurrent creates, prunes, holds and unholds with a failure at any put or delete, every backup a create wrote and that still stands has its catalog, all the objects it lists, its signature when it is signed, and every manifest of its chain in the same repository |
| `Repository.WholeExactly` | packages/backup/src/backups/run.ts:18-48 | that, and `NoOrphanIsMade`, hold in every run if and only if reported failures are final and the clocks take at most one lease |
| `Repository.Orphans` | packages/backup/src/lock/run-locks.ts:55-72 | otherwise a run is given: a prune's delete is reported failed and the lock released, or two hold it; another writer builds on the backup, then the delete lands and leaves a written backup without its parent |
| `Repository.HeldIsKept` | packages/backup/src/rotation/holds.ts:61-140 | from the moment a hold resolves until an unhold of that id begins, in every run, no key of the backup is deleted or changed |
| `Repository.HeldExactly` | packages/backup/src/rotation/holds.ts:61-140 | that holds in every run if and only if reported failures are final and the clocks take at most one lease |
| `Repository.TakesTheHeld` | packages/backup/src/rotation/holds.ts:61-140 | otherwise a run is given that deletes the manifest of a held backup |
| `Repository.NoOrphanIsMade` | packages/backup/src/rotation/prune.ts:157-247 | no step of any run takes away the parent a standing manifest names, nor the one bytes that do not read name: a prune stopped after any delete leaves no orphan |
| `Repository.StepKeepsInv` | packages/backup/src/backups/run.ts:18-48 | every put, delete, failure, partial put, decision and lock step keeps the repository's invariant |
| `Repository.RunKeepsInv` | packages/backup/src/backups/run.ts:18-48 | so does every run |
| `Repository.OneActive` | packages/backup/src/backups/run.ts:18-48 | by the lock, at most one writer's puts and deletes can still land at any time |
| `Repository.ManifestGoesLast` | packages/backup/src/backups/create.ts:88-111 | a manifest is only ever put as the last operation of its create |
| `Repository.LastPutMakesWhole` | packages/backup/src/backups/create.ts:123-171 | once the manifest lands, the backup is whole: everything before it had landed, its signature when there is one included, and its chain is still there |
| `Repository.CreateGoesOn` | packages/backup/src/backups/run.ts:25-48 | each put of a create leaves the rest of it in order and the chain it builds on standing |
| `Repository.DecidedIsOk` | packages/backup/src/backups/create.ts:210-224 | what each call checks under the lock before its first write makes its whole program safe to carry out |
| `Repository.ReadsAreOfOneStore` | packages/backup/src/rotation/prune.ts:187-247 | from a writer's acquiring the lock to its decision nobody changes the store, so what it lists and reads one after the other is of one store |
| `Repository.DecisionIsSafe` | packages/backup/src/rotation/prune.ts:157-247 | a prune's program over what was listed deletes each manifest after those of its children, everything else of an id after its manifest, and nothing held |
| `Repository.DeletesGoOn` | packages/backup/src/rotation/prune.ts:162-178 | after each delete the deletes left are still safe in that order |
| `Repository.RemovesAre` | packages/backup/src/rotation/prune.ts:162-178 | removing one backup deletes exactly its listed keys, its manifest first |
| `Repository.PinOutlivesStep` | packages/backup/src/rotation/holds.ts:61-140 | no step but the beginning of its unhold releases what a held backup had |
| `Calls.DoesItsWork` | packages/backup/src/rotation/holds.ts:61-140 | in every run, once a call's last operation landed and none failed, the store shows what it was for: the hold there or lifted, the backup whole and as asked, nothing but holds left under what a prune removed |
| `Calls.ChangesNothingElse` | packages/backup/src/backups/run.ts:18-48 | in every run, whatever fails, a key only changes by a call that is about it: its own backup's, a removed one's, that hold |
| `Calls.CanDoItsWork` | packages/backup/src/lock/run-locks.ts:55-75 | whoever holds the lock can do what any call is asked to do, by its own steps and to the end |
| `Repository.ChainKept` | packages/backup/src/chain/view.ts:22-43 | a chain that could be walked still can after any change that keeps parents |
| `Periods.IsoWeekExactly` | packages/backup/src/rotation/periods.ts:13-22 | `isoWeek` gives the year and week of section 4.1.4 of ISO 8601:2004 for a day if and only if neither the day nor its Thursday is in the years 0 to 99 |
| `Periods.FirstOfTheYear100` | packages/backup/src/rotation/periods.ts:13-22 | the first of January 100, a Friday, is labelled with a week of the year 99 that there is none of |
| `Periods.WeekOfThursday` | packages/backup/src/rotation/periods.ts:13-22 | counting days from January 1st of the Thursday's year and rounding up is the ISO week: Monday starts, first week with a Thursday |
| `Periods.IsoWeekIsUnique` | packages/backup/src/rotation/periods.ts:13-22 | a day is in one ISO week only |
| `Periods.SameWeek` | packages/backup/src/rotation/periods.ts:13-22 | two days whose years and Thursdays' years are not 0 to 99 have one label exactly when they share a week starting on Monday |
| `Periods.SamePeriod` | packages/backup/src/rotation/periods.ts:25-41 | two times have one label exactly when they are in one period: at all times for every rule but the weekly one, for that where its label is the ISO week |
| `Periods.RanksGrow` | packages/backup/src/rotation/periods.ts:25-41 | periods never go back as time goes on |
| `Periods.PeriodsAreIntervals` | packages/backup/src/rotation/periods.ts:25-41 | a period once left is not met again, at the same times |
| `Periods.YearIs` | packages/backup/src/rotation/periods.ts:13-22 | a day is in one year, leap years counted |
| `Policy.MakePlan` | packages/backup/src/rotation/policy.ts:179-225 | the plan is exactly: what the rules keep, less what the size rule drops, closed under parent, each candidate with the reasons it has, newest first, and `overSize` exactly when what is kept does not fit; each candidate is in one of the two lists, once |
| `Policy.ByRules` | packages/backup/src/rotation/policy.ts:81-124 | a candidate has a reason exactly when that rule keeps it: `last`, the newest alone under a size rule, a calendar rule, `within`, newer than now, held |
| `Policy.AddCalendar` | packages/backup/src/rotation/policy.ts:103-114 | the `previous` scan notes exactly the first n places where the label changes |
| `Policy.AddLast` | packages/backup/src/rotation/policy.ts:96-102 | `last` notes exactly the n newest past ones, and the size rule without `last` exactly the newest |
| `Policy.AddOthers` | packages/backup/src/rotation/policy.ts:115-122 | `within`, newer-than-now and held are noted exactly where they apply |
| `Policy.CalendarExactly` | packages/backup/src/rotation/policy.ts:103-114 | whatever its count, the scan keeps the newest past backup of as many of the most recent periods with one, if and only if labels are intervals of the order |
| `Policy.CalendarIsExact` | packages/backup/src/rotation/policy.ts:103-114 | the hourly, daily, monthly and yearly rules keep exactly those whatever the dates; the weekly one for past dates whose label is the ISO week |
| `Policy.WithParents` | packages/backup/src/rotation/policy.ts:126-150 | the worklist ends with the least set holding the undropped candidates the rules keep and closed under parent, each reason explained by a rule or by a kept child |
| `Policy.RulesKeepExactly` | packages/backup/src/rotation/policy.ts:81-124 | the rules alone keep exactly the held, those ahead of now, the `last` newest past ones, those within, and the newest of each of the latest periods a calendar rule counts, said of dates and ids alone |
| `Policy.Walk` | packages/backup/src/rotation/policy.ts:139-148 | the worklist's loop ends, and by then every kept child has given its parent the reason to stay |
| `Policy.LeastKept` | packages/backup/src/rotation/policy.ts:126-150 | there is one least set closed under parent over a base |
| `Policy.FitSize` | packages/backup/src/rotation/policy.ts:190-208 | the size loop ends, having dropped what the rule says and kept the least closed set of the rest |
| `Policy.Oldest` | packages/backup/src/rotation/policy.ts:152-177 | `droppable` is a kept one that is not protected, or none when all are |
| `Policy.OldestIsLast` | packages/backup/src/rotation/policy.ts:152-177 | every kept one older than that one is protected |
| `Policy.DropShrinks` | packages/backup/src/rotation/policy.ts:194-208 | each drop strictly shrinks what is kept |
| `Policy.EndsFittingOrProtected` | packages/backup/src/rotation/policy.ts:190-208 | at the end what is kept fits, or each kept one is of the floor, held, newer than now or the parent of a kept one |
| `Policy.NeverDropped` | packages/backup/src/rotation/policy.ts:152-177 | one of the floor, held or newer than now is never dropped |
| `Policy.DropsOnlyForSize` | packages/backup/src/rotation/policy.ts:194-201 | nothing is dropped while what is kept fits |
| `Policy.DropsInTurn` | packages/backup/src/rotation/policy.ts:150-208 | the size rule drops one after the other the oldest that is not among the newest, held, ahead of now or a kept one's parent, each time because what is kept is too large, until it is not or none may go |
| `Policy.KeepsWhatItMust` | packages/backup/src/rotation/policy.ts:115-122 | a held one, one newer than now and the parent of a kept one are kept whatever the policy |
| `Policy.KeepsTheFloor` | packages/backup/src/rotation/policy.ts:96-102 | under a size rule the floor is kept |
| `Policy.Decide` | packages/backup/src/rotation/policy.ts:209-224 | kept and removed list the candidates newest first, each with its reasons or the right reason to go |
| `Policy.Partition` | packages/backup/src/rotation/policy.ts:215-223 | of any such plan, `kept` and `removed` list every candidate, none in both, and nothing else |
| `Policy.SaysWhy` | packages/backup/src/rotation/policy.ts:217-223 | a removed one says it is over the size exactly when it was dropped or a rule had kept it, and a kept one says all that keeps it |
| `Policy.TotalAdds` | packages/backup/src/rotation/policy.ts:197-199 | the size of what is kept is the sum of its parts |
| `Policy.SortedIsNewest` | packages/backup/src/rotation/policy.ts:185-188 | the sort puts them newest first, ties by id, losing none |
| `Prune.Decide` | packages/backup/src/rotation/prune.ts:187-247 | under the lock, the plan over what the repository holds removes exactly what it does not keep and the old incomplete ids; with one date for id and manifest it is a decision the repository's invariant survives |
| `Prune.GroupById` | packages/backup/src/rotation/prune.ts:57-72 | the keys grouped by id: those with a manifest and those without |
| `Prune.CandidatesOf` | packages/backup/src/rotation/prune.ts:98-137 | one candidate per manifest: date and size as a readable one says and held exactly when a hold is there; an unreadable one stands in held, dated by its id, with no size and with the parent its bytes name |
| `Prune.Incomplete` | packages/backup/src/rotation/prune.ts:187-247 | exactly the ids without a manifest that are old enough |
| `Prune.PlanIsDecision` | packages/backup/src/rotation/prune.ts:187-247 | what a plan removes reads, is not held, has no kept child, and goes children first |
| `Prune.RemovedInOrder` | packages/backup/src/rotation/policy.ts:179-225 | children come before their parents in what is removed |
| `Prune.ChildrenFirst` | packages/backup/src/rotation/policy.ts:185-188 | removal in the plan's order puts no parent before its child, exactly when each child is before its parent in that order |
| `Prune.StaysWithParent` | packages/backup/src/rotation/prune.ts:74-96 | whatever stays, an unreadable one included, has its parent stay |
| `Prune.GoneReads` | packages/backup/src/rotation/prune.ts:98-137 | what is removed reads and is not held |
| `Chain.CreateBackup` | packages/backup/src/backups/create.ts:78-244 | after a create of any kind, whoever fails at whichever put, and whoever took the manifest of a put reported failed, what every repository holds is what it held, or that and a backup made as it should be, built on the newest there is of the right kind and given where the source stood then; exactly those hold it that were free, have the chain and took every put; it succeeds only when all have it, each refusal has its reason, and one for anything but its puts changes nothing |
| `Chain.Finish` | packages/backup/src/backups/create.ts:88-171 | the catalog, the signature and the manifest last: what is written is what was gathered, in exactly the repositories where no put failed and the manifest landed |
| `Chain.CreateKeepsInv` | packages/backup/src/backups/create.ts:123-171 | such a create leaves every backup accepted by its readers, its chain there and every entry to be found |
| `Chain.NothingIsGood` | packages/backup/src/backups/create.ts:173-244 | repositories without a backup are where that begins |
| `Chain.HistoryKeepsInv` | packages/backup/src/backups/create.ts:173-244 | after any sequence, from there, of creates and of prunes that leave no child of what they remove, it holds |
| `Chain.HistoryRestores` | packages/backup/src/chain/view.ts:22-76 | after any such sequence, from any repository that still holds a backup, its chain is walked and each entry found, there, with its digest |
| `Chain.HistoryRestoresTheSource` | packages/backup/src/backups/entries.ts:111-153 | and what is found under each name, there, is what the source gave when that backup was made, whatever was created and pruned since, under the same condition |
| `Chain.RestoresTheSource` | packages/backup/src/backups/entries.ts:111-153 | every entry of a backup made is found under its name, with exactly the bytes the source gave if and only if its fingerprint was not the base's for other bytes |
| `Chain.RestoresFrom` | packages/backup/src/chain/view.ts:22-76 | from any repository that holds a backup the chain is walked to its end and `locate` finds, there, an object sealed from bytes with the entry's digest |
| `Chain.NewIsGood` | packages/backup/src/backups/create.ts:123-171 | a backup written on a good archive leaves it good: manifest and catalog accepted by their readers, every entry found, every older backup as before |
| `Chain.NewFinds` | packages/backup/src/backups/entries.ts:62-109 | every entry of a new backup, pointer or own object, is found from it |
| `Chain.PointerFinds` | packages/backup/src/backups/entries.ts:97-109 | a pointer finds what the entry it was made from found |
| `Chain.OldStaysGood` | packages/backup/src/chain/view.ts:22-76 | a newer backup changes nothing of what an older one is found with |
| `Chain.StoredIsEntries` | packages/backup/src/format/catalog.ts:69-115 | what `storeEntries` gathers is a catalog `entriesProblem` accepts for the objects stored |
| `Chain.StoreEntries` | packages/backup/src/backups/entries.ts:111-153 | entries are recorded in order, each a pointer when the base has its fingerprint or its bytes and an object of its own otherwise; exactly those repositories are left out where a put failed; a bad name or fingerprint is refused |
| `Chain.StoredAnewExactly` | packages/backup/src/backups/entries.ts:62-145 | an entry is stored anew exactly when the base has neither its fingerprint nor its bytes under its name, and else points to where those are |
| `Chain.EntriesProblem` | packages/backup/src/format/catalog.ts:100-115 | accepts exactly the lists whose entries each read, names bounded in UTF-16 units and the other texts in bytes of UTF-8, with names once and as many own objects as the manifest lists |
| `Chain.TakenExactly` | packages/backup/src/format/catalog.ts:66-98 | an entry is accepted exactly when its name has 1 to 4096 units and no NUL, its object 1 to 9 digits, the next ones when it is its own, its size is a safe whole number, its digest is one and its fingerprint has at most 1024 bytes |
| `Chain.KeyIsDigits` | packages/backup/src/format/manifest.ts:54-54 | a key is taken exactly with one to nine digits, and the n-th object's is n in decimal and no other |
| `Chain.LengthIsOfUtf8` | packages/backup/src/format/catalog.ts:57-63 | the bytes counted are those of the text's UTF-8, section 3 of RFC 3629, lone surrogates replaced |
| `Chain.ObjectsProblem` | packages/backup/src/format/manifest.ts:119-135 | accepts exactly objects numbered in order from 0, the catalog apart |
| `Chain.WrittenIsManifest` | packages/backup/src/backups/create.ts:93-102 | a manifest within the size written lists objects whose keys have the digits the reader takes |
| `Chain.ChainOf` | packages/backup/src/chain/view.ts:22-43 | ends, with the whole chain exactly when every manifest down to a full backup is there |
| `Chain.LocatesExactly` | packages/backup/src/chain/view.ts:46-76 | what is located is the one object of its holder that has the entry's key, and nothing exactly when none has |
| `Chain.WalkedAreOlder` | packages/backup/src/format/manifest.ts:99-106 | ids strictly fall along a chain, which is why the walk ends |
| `Chain.NewestFor` | packages/backup/src/chain/base.ts:40-73 | for an incremental the largest id among all listed, readable and older ones, for a differential among the full ones of those, and none exactly when there is no such id |
| `Chain.RequireEverywhere` | packages/backup/src/chain/base.ts:75-107 | exactly the other repositories without the whole chain are left out |
| `Chain.SourceRepository` | packages/backup/src/chain/base.ts:109-123 | the one asked for when it is in the run, else the earliest that is |
| `Chain.LookUp` | packages/backup/src/chain/base.ts:130-150 | the backup built on is that newest one of the source repository, and there is none exactly when no repository is left to ask or it has none |
| `Chain.BaseOf` | packages/backup/src/chain/base.ts:130-189 | the backup built on is the newest of the right kind, with the same recipients and source, its position is what the source is given, and exactly the repositories without it are left out of the run, one at least staying; each refusal has its reason |
| `Chain.KnownEntries` | packages/backup/src/chain/base.ts:137-189 | the base maps every entry of its catalog to the backup that holds its object |
| `Chain.PruneKeepsInv` | packages/backup/src/rotation/prune.ts:187-247 | removing backups no remaining one builds on keeps every chain whole |
| `Changes.HeardRight` | packages/mongo-meilisearch/src/sync/documents.ts:22-59 | a change handed over, whatever was looked up and whenever, gives the entry its document should have unless a later change is on its way, and one not handed over changes nothing |
| `Changes.EntryExactly` | packages/mongo-meilisearch/src/sync/documents.ts:22-59 | a document makes no entry exactly when the transform refuses it, an addition with exactly what the transform gives, and a removal exactly for one gone or kept out |
| `Changes.ToldExactly` | packages/mongo/src/collection/changes/events.ts:108-165 | with the document before, a change is told as a deletion or a restore exactly when it made it so, and an update that leaves it deleted is not told; without, as what the event alone shows |
| `Changes.SteadyBefore` | packages/mongo-meilisearch/src/run/follow.ts:147-171 | one more change makes no document steady that was not, and leaves the view of the others |
| `Sync.FaithfulExactly` | packages/mongo-meilisearch/src/run/follow.ts:50-171 | for a transform that gives the index anything, in every run what has not changed since the recorded token is in the index as it should be, if and only if documents are not inserted already soft-deleted, post-images do not expire, no task of an earlier process is still waiting at a listing, and no run begins while a flush, a request or a recording of an earlier one is still under way |
| `Sync.RecordedIsFaithful` | packages/mongo-meilisearch/src/run/follow.ts:44-139 | the safe half, at every moment of every run: crashes, failed sends, lost answers, streams that stop with a flush under way, and a collection changing throughout |
| `Sync.Converges` | packages/mongo-meilisearch/src/run/follow.ts:44-171 | replaying the changes after the recorded token onto the index gives exactly the transform of the collection |
| `Sync.ReplayIsExact` | packages/mongo-meilisearch/src/run/follow.ts:141-171 | a replay from a point from which nothing was missed ends exact |
| `Sync.CaughtUp` | packages/mongo-meilisearch/src/run/follow.ts:141-171 | a follower that heard every change and has nothing left to send has made the index exact |
| `Sync.ReindexIsFaithful` | packages/mongo-meilisearch/src/run/reindex.ts:107-125 | a reindex that got to recording its token has indexed, or removed, everything that did not change under it |
| `Sync.StepKeepsInv` | packages/mongo-meilisearch/src/sync/start.ts:48-90 | every step of a reindex, of a follower, of a flush left going, of the server and of the collection keeps the invariant |
| `Sync.BornDeletedIsSent` | packages/mongo-meilisearch/src/sync/documents.ts:22-59 | a document inserted with its soft-delete field set is indexed, and stays |
| `Sync.ExpiredImageIsCut` | packages/mongo-meilisearch/src/sync/documents.ts:22-59 | an update whose post-image expired removes a document that should stay |
| `Sync.LateBatchComesBack` | packages/mongo-meilisearch/src/run/reindex.ts:67-89 | a batch of a process that died, served after a reindex listed the index, brings a deleted document back |
| `Sync.LateFlushCutsIt` | packages/mongo-meilisearch/src/run/follow.ts:109-139 | a run of the fourth cause: a stream fails while its flush waits for a batch, the next follower indexes the document again and records, and the old flush's deletion takes it out |
| `Sync.LeavesAFlush` | packages/mongo-meilisearch/src/run/follow.ts:133-137 | how it begins: the stream's failure lets the lease go with a request of the flush waiting and another to make |
| `Sync.FollowsBeside` | packages/mongo-meilisearch/src/sync/start.ts:57-71 | and goes on: the next follower opens at the recorded point beside that flush and hears every change since |
| `Sync.ListKeepsInv` | packages/mongo-meilisearch/src/run/reindex.ts:67-89 | listing the index keeps the invariant: what is there and not wanted is rightly removed |
| `Sync.QueueKeepsInv` | packages/mongo-meilisearch/src/run/follow.ts:162-171 | queuing an entry and its token keeps the invariant: what is recorded later will cover it |
| `Sync.RecordKeepsInv` | packages/mongo-meilisearch/src/run/follow.ts:60-70 | recording a point, or failing to, keeps the invariant: it is only ever one whose entries were sent |
| `Sync.LeavingKeepsInv` | packages/mongo-meilisearch/src/run/follow.ts:96-139 | a stream that stops, with an error or without, leaves its flush to go on without harm as long as nothing else begins |
| `Sync.PointIsSafe` | packages/mongo-meilisearch/src/run/follow.ts:60-70 | once a flush has nothing left to send, whether or not its stream still runs, its point is one from which nothing was missed |
| `Sync.PointIsLast` | packages/mongo-meilisearch/src/run/follow.ts:60-70 | once a change was queued, a flush takes the point of the last one, never where the stream is |
| `Sync.RecordedUpToLast` | packages/mongo-meilisearch/src/run/follow.ts:60-70 | so in every run what is recorded never gets past the last change queued |
| `Sync.IdleStays` | packages/mongo-meilisearch/src/run/follow.ts:44-77 | and once it got there it stays until another change is queued or the process ends, however far the stream moves on |
| `Overlaps.EachStep` | packages/mongo-meilisearch/src/run/follow.ts:97-139 | in every run, whatever runs beside whatever and whatever is late: the server ends its tasks in the order it took them and forgets none, a flush left behind goes on with exactly what it had left, and only what ends records, and only its own point |
| `Overlaps.ServesInOrder` | packages/mongo-meilisearch/src/sync/batch.ts:18-54 | each step adds to the tasks waiting the request it makes, at the end, or ends the oldest, and no other changes the index |
| `Overlaps.StraysMoveOn` | packages/mongo-meilisearch/src/run/follow.ts:109-139 | a flush beside a later run changes only by the end of the task it waits for or by its own requests |
| `Overlaps.GoesOnBeside` | packages/mongo-meilisearch/src/run/follow.ts:97-139 | what a stopped stream's flush has left is neither lost nor doubled when the next run begins |
| `Progress.CatchesUp` | packages/mongo-meilisearch/src/run/follow.ts:44-171 | from every state of every run, with a transform that refuses nothing, there is a way on without a failure or a write that ends with an exact index, a run that failed being closed first and any other going on by itself |
| `Progress.FollowerCatchesUp` | packages/mongo-meilisearch/src/run/follow.ts:44-171 | a follower that has not failed gets there by itself |
| `Progress.HearingGoesOn` | packages/mongo-meilisearch/src/run/follow.ts:147-171 | hearing a change then never stops a follower |
| `Progress.EndsItsLastFlush` | packages/mongo-meilisearch/src/run/follow.ts:97-131 | the flush of a stream that stopped can end, with its point recorded |
| `Follower.Send` | packages/mongo-meilisearch/src/sync/batch.ts:38-54 | the requests, of at most `batchSize` each, hold every entry and nothing else, all documents before all ids |
| `Follower.SendDocuments` | packages/mongo-meilisearch/src/sync/batch.ts:18-26 | batches of at most `batchSize` hold exactly the documents |
| `Follower.DeleteIds` | packages/mongo-meilisearch/src/sync/batch.ts:28-36 | batches of at most `batchSize` hold exactly the ids |
| `Follower.ListUnwanted` | packages/mongo-meilisearch/src/run/reindex.ts:67-89 | paging through the index finds exactly the ids not wanted |
| `Follower.Following.Hear` | packages/mongo-meilisearch/src/run/follow.ts:147-161 | the first half of the handler takes exactly the protocol's step |
| `Follower.Following.Queue` | packages/mongo-meilisearch/src/run/follow.ts:162-163 | the second half does |
| `Follower.Following.Flush` | packages/mongo-meilisearch/src/run/follow.ts:55-66 | the head of a flush does: it takes what is pending and the point that covers it |
| `Follower.Following.Settle` | packages/mongo-meilisearch/src/run/follow.ts:67-74 | its end does, whether or not the stream has stopped: the point recorded, or the failure kept |
| `Follower.Following.StopFollowing` | packages/mongo-meilisearch/src/run/follow.ts:96-103 | stopping takes the protocol's step, and leaves the flush under way |
| `Capture.CaptureSimulates` | packages/mongo-backup/src/source/changes.ts:29-85 | a read succeeds exactly when every event it reads can be said; then replaying what it kept on the taken part of the database where it began gives the taken part where it stopped, and what is followed is what is taken and there |
| `Capture.Simulates` | packages/mongo-backup/src/source/events.ts:103-194 | the same for one event: drops of missing collections, renames in, out and within, time-series and views included |
| `Capture.OperationsUpdate` | packages/mongo-backup/src/target/changes.ts:37-54 | the operations an update is replayed with do, field by field, what its description says: unset ones gone, given ones as given, arrays cut to the smallest size asked, all else as it was |
| `Capture.UpdatedOneWay` | packages/mongo-backup/src/source/events.ts:103-194 | a description leaves one document only |
| `Capture.RestrictExactly` | packages/mongo-backup/src/source/collections.ts:16-24 | what is taken of a database is each collection but `system.*` that is named, or that the test is true of, whole |
| `Capture.RefusedExactly` | packages/mongo-backup/src/source/events.ts:27-50 | an event is refused exactly when no change can say it |
| `Capture.SplitsAnywhere` | packages/mongo-backup/src/source/changes.ts:29-85 | a read from a to c keeps what the reads a to b and b to c keep, the second following what the first left |
| `Capture.ChainIsOneRead` | packages/mongo-backup/src/source/followed.ts:7-34 | however many incrementals there are, together they keep what one read would |
| `Capture.ChainRestores` | packages/mongo-backup/src/source/followed.ts:7-34 | a full backup and its incrementals, or a differential, restore the taken part of the database where the last one stopped |
| `Capture.StopsBecause` | packages/mongo-backup/src/source/changes.ts:29-85 | a read stops caught up, past an invalidation or before what is later than `until`, having read everything before |
| `Capture.ChangeReader.constructor` | packages/mongo-backup/src/source/changes.ts:36-46 | a new reader stands where it was asked to, following what it was given |
| `Capture.ChangeReader.Pull` | packages/mongo-backup/src/source/changes.ts:45-76 | each pull gives the next change kept, the end, or the refusal, of what is left |
| `Capture.ChangesOf` | packages/mongo-backup/src/source/changes.ts:29-85 | a whole read keeps exactly the changes between its two points and resumes at the second |
| `Capture.DifferenceOf` | packages/mongo-backup/src/source/followed.ts:25-34 | what is in one set and not the other, both ways |
| `Capture.FollowedFrom` | packages/mongo-backup/src/source/followed.ts:15-23 | the full backup's names, those added, less those removed |
| `Capture.NextChanges` | packages/mongo-backup/src/source/followed.ts:7-34 | carried through `differenceOf` and `followedFrom`, the next read follows exactly what the last one left |
| `Unfilter.UnfilterRow` | packages/image/src/crop/unfilter.ts:9-51 | in place, a row becomes its reconstruction by section 9.2 of the PNG specification, nothing else changes, and an unknown filter changes nothing |
| `Unfilter.ReconUndoes` | packages/image/src/crop/unfilter.ts:9-51 | reconstruction undoes all five filters, for every row and every row above |
| `Unfilter.ReconEach` | packages/image/src/crop/unfilter.ts:9-51 | each byte is its filtered byte plus what the finished bytes around it predict |
| `Unfilter.PaethIsNearest` | packages/image/src/crop/unfilter.ts:53-60 | `paeth` gives the neighbour nearest to a + b - c, ties to the left then the upper one, as section 9.4 says |
| `Unfilter.UndoSub` | packages/image/src/crop/unfilter.ts:21-25 | the Sub filter undone in place |
| `Unfilter.UndoUp` | packages/image/src/crop/unfilter.ts:26-30 | the Up filter undone in place |
| `Unfilter.UndoAverage` | packages/image/src/crop/unfilter.ts:31-37 | the Average filter undone in place |
| `Unfilter.UndoPaeth` | packages/image/src/crop/unfilter.ts:38-47 | the Paeth filter undone in place |
| `Crop.CropStream` | packages/image/src/crop/crop-png.ts:76-135 | however the inflated bytes are cut into pieces, the read loop gives what the whole stream gives, refusals included |
| `Crop.CropIsDecodeThenCrop` | packages/image/src/crop/crop-png.ts:76-135 | cropping while inflating is decoding whole and then cropping: it succeeds exactly when the bytes settle it, and then gives the region's columns of the region's rows |
| `Crop.CropPixel` | packages/image/src/crop/crop-png.ts:27-48 | pixel (i, j) of a crop is pixel (x + i, y + j) of the image decoded, widened |
| `Crop.CropLine` | packages/image/src/crop/crop-png.ts:27-48 | line j of a crop is the region's columns of row y + j |
| `Crop.SucceedsExactly` | packages/image/src/crop/crop-png.ts:108-130 | a crop succeeds exactly when the rows down to the region's last are whole and known, and the end too when that is the image's |
| `Crop.CropsTheDecoded` | packages/image/src/crop/crop-png.ts:90-130 | row by row, what is kept is the region's part of the decoded rows |
| `Crop.CopyColumns` | packages/image/src/crop/crop-png.ts:27-48 | the region's columns land in the output, widened, and nothing else of it changes |
| `Crop.ColumnsAre` | packages/image/src/crop/crop-png.ts:27-48 | each pixel copied is the row's, grey widened to RGB and grey with alpha to RGBA |
| `Crop.Pixels.OnRow` | packages/image/src/crop/crop-png.ts:94-103 | a row adds exactly what the region takes of it, and reading goes on exactly while more is needed |
| `Crop.RowAssembler.constructor` | packages/image/src/crop/row-assembler.ts:15-24 | the row above the first is zeros |
| `Crop.RowAssembler.Feed` | packages/image/src/crop/row-assembler.ts:31-54 | a piece of any size leaves the outcome of the whole stream as it was, or settles it |
| `Crop.RowAssembler.EndRow` | packages/image/src/crop/row-assembler.ts:41-51 | a whole row is unfiltered against the one above, handed on, and the buffers swapped |
| `Crop.RowAssembler.Fill` | packages/image/src/crop/row-assembler.ts:37-40 | a row takes what it has room for, where it left off |
| `PngFile.CropOfEncoded` | packages/image/src/crop/png.ts:44-73 | cropping the whole of what `encodePng` wrote gives back the image |
| `PngFile.CropPng` | packages/image/src/crop/crop-png.ts:76-135 | the file's header, its chunks, the inflated pieces and the region give the cropped image or the same refusal |
| `PngFile.ReadIdats` | packages/image/src/crop/png-chunks.ts:72-109 | pulled one by one, the payloads and the end are the file's |
| `PngFile.IdatStream.Pull` | packages/image/src/crop/png-chunks.ts:78-109 | each pull gives the next payload, the end or the refusal of what is left |
| `PngFile.ChunkReadBack` | packages/image/src/crop/png-chunks.ts:21-34 | a chunk is read where it was written, and the next starts where it ends |
| `PngFile.HeaderReadBack` | packages/image/src/crop/png-chunks.ts:41-70 | the header encoded is the one read |
| `PngFile.IdatsReadBack` | packages/image/src/crop/png-chunks.ts:72-109 | the one IDAT chunk encoded is the one payload read, with a clean end |
| `PngFile.ReadHeader` | packages/image/src/crop/png-chunks.ts:41-70 | a header let through is one within the format's bounds |
| `PngFile.HeaderExactly` | packages/image/src/crop/png-chunks.ts:41-70 | a header is let through exactly when its bytes, one by one, are the signature, an IHDR chunk of 13, sizes of 1 to 2^31-1 within the pixels allowed, 8 bits, a known colour type and no interlacing, and says those |
| `PngFile.SamplesOf` | packages/image/src/crop/png-chunks.ts:65-68 | the samples of a colour type are those its bits stand for, section 11.2.2 of the PNG specification, and a palette is not read |
| `PngFile.ChunkAt` | packages/image/src/crop/png-chunks.ts:21-34 | a chunk read lies whole within the file |
| `PngFile.EncodePng` | packages/image/src/crop/png.ts:44-73 | signature, header, data and end, one after the other |
| `PngFile.RawRows` | packages/image/src/crop/png.ts:46-53 | each row is written after a zero filter byte |
| `PngFile.UnfilteredDecodes` | packages/image/src/crop/png.ts:46-53 | rows written with filter 0 decode to themselves |
| `PngFile.WholeImage` | packages/image/src/crop/png.ts:44-73 | the whole region of the rows encoded is the pixels |
| `GridFs.WriteChunks` | packages/mongo/src/gridfs/chunks.ts:51-127 | the chunks stored are those of the source's bytes, none empty and none missing, however it is cut; it fails only when an insert did, and then every chunk that landed is recorded |
| `GridFs.ReadChunks` | packages/mongo/src/gridfs/chunks.ts:143-225 | over chunks that may be missing or cut to a prefix, a clean end gives exactly the bytes of the range, and the end is clean if and only if every chunk the range spans is there with all the range takes of it |
| `GridFs.StoredReadBack` | packages/mongo/src/gridfs/chunks.ts:143-225 | what was written is whole, and so enough, for every range: it is read back exactly |
| `GridFs.OneChunk` | packages/mongo/src/gridfs/chunks.ts:207-217 | a chunk adds its part of the range, and all of it exactly when it reaches as far as the range does |
| `GridFs.Writer.constructor` | packages/mongo/src/gridfs/chunks.ts:70-75 | a new write has stored nothing |
| `GridFs.Writer.Put` | packages/mongo/src/gridfs/chunks.ts:106-121 | a piece of any size leaves the chunks those of the bytes so far |
| `GridFs.Writer.Finish` | packages/mongo/src/gridfs/chunks.ts:122-126 | the last, shorter chunk is stored when there are bytes for one |
| `GridFs.Writer.Emit` | packages/mongo/src/gridfs/chunks.ts:90-104 | what is held goes out as the next chunk, numbered in turn, in batches |
| `GridFs.Writer.FlushBatch` | packages/mongo/src/gridfs/chunks.ts:77-89 | what is inserted is recorded before, so a failure leaves nothing unrecorded |
| `GridFs.RangeIsSelected` | packages/mongo/src/gridfs/serve.ts:15-39 | a range accepted is exactly the positions section 14.1.2 of RFC 9110 selects, and one refused selects none |
| `GridFs.ServedIsSelected` | packages/mongo/src/gridfs/serve.ts:15-39 | a range served is the bytes it selects, in order |
| `Bson.BsonDocuments` | packages/mongo-backup/src/format/bson-stream.ts:15-58 | for every cutting of the bytes into chunks, the documents and the outcome are what the bytes alone say |
| `Bson.CleanExactly` | packages/mongo-backup/src/format/bson-stream.ts:15-58 | a stream ends cleanly exactly when its bytes are documents whose headers state their own size within 5 and the maximum, and then yields those |
| `Bson.Int32ReadBack` | packages/mongo-backup/src/format/bson-stream.ts:46-52 | a length is read as the 32-bit integer its four bytes are, least significant first, in two's complement |
| `Bson.SplitOfJoined` | packages/mongo-backup/src/format/bson-stream.ts:15-58 | joined documents are split into themselves |
| `Bson.JoinedOfSplit` | packages/mongo-backup/src/format/bson-stream.ts:15-58 | what is yielded is documents, which joined are the bytes when the end is clean |
| `Bson.Splitter.Feed` | packages/mongo-backup/src/format/bson-stream.ts:15-58 | a chunk of any size leaves the outcome of the whole stream as it was, or refuses it |
| `Bson.Splitter.Fill` | packages/mongo-backup/src/format/bson-stream.ts:32-42 | a document takes what it has room for and is yielded once whole |
| `Inline.RefusesExactlyCycles` | packages/mongo/src/definition/json-schema.ts:84-128 | over definitions that all resolve, a schema is refused exactly when a cycle of references can be reached from it |
| `Inline.RefusesLoops` | packages/mongo/src/definition/json-schema.ts:84-128 | the same below any stack of definitions being inlined |
| `Inline.InlinedIsClean` | packages/mongo/src/definition/json-schema.ts:84-128 | what `inline` gives has only allowed keywords in schema position, no `$ref` and no `integer`, whatever it was given |
| `Inline.SaysEach` | packages/mongo/src/definition/json-schema.ts:62-128 | under each keyword the result says what the record itself says, inlined, or else what the definition it refers to says; where the type names `integer`, the BSON types stand for it, beside any others, with `multipleOf` 1 unless it has one |
| `Inline.StackOnlyRefuses` | packages/mongo/src/definition/json-schema.ts:84-100 | the names being inlined decide what is refused, never what comes out |
| `Inline.RefName` | packages/mongo/src/definition/json-schema.ts:80-82 | the name of a definition is its reference without the place definitions are kept in |
| `Inline.Inline` | packages/mongo/src/definition/json-schema.ts:84-128 | the loop over a record ends on every input, with the measure of definitions not on the stack, then the value |
| `Inline.InlineMap` | packages/mongo/src/definition/json-schema.ts:116-122 | under a map of names to schemas every name is kept and every schema inlined |
| `Inline.ConvertedIsClean` | packages/mongo/src/definition/json-schema.ts:62-78 | `integer` is replaced by the BSON integer types, however the type is written |
| `Inline.PathLoops` | packages/mongo/src/definition/json-schema.ts:84-100 | a path of references that comes back is a loop |
| `Inline.LoopsPath` | packages/mongo/src/definition/json-schema.ts:84-100 | a loop has such a path |
| `Coerce.FilterTwice` | packages/mongo/src/collection/coerce.ts:237-285 | coercing a filter twice is coercing it once, through `$and`, `$or`, `$nor`, `$not`, `$elemMatch` and every operator |
| `Coerce.FieldsTwice` | packages/mongo/src/collection/coerce.ts:291-338 | coercing fields twice is coercing them once, through operator patches, nested objects and lists |
| `Coerce.ValueTwice` | packages/mongo/src/collection/coerce.ts:190-206 | coercing a value twice is coercing it once |
| `Coerce.OperatorsTwice` | packages/mongo/src/collection/coerce.ts:274-285 | so for operators |
| `Coerce.NestedTwice` | packages/mongo/src/collection/coerce.ts:313-324 | so for nested values |
| `Coerce.ElemMatchReadsTheSame` | packages/mongo/src/collection/coerce.ts:266-271 | a field under `$elemMatch` is read as its dotted path is, if and only if it is not called `__proto__` |
| `Coerce.KindUnder` | packages/mongo/src/collection/coerce.ts:331-338 | a field under a path has there the kind its whole path has |
| `Coerce.FieldsExactly` | packages/mongo/src/collection/coerce.ts:291-338 | a document or a patch comes back unchanged wherever no kind is declared, at every depth, if and only if no date written as a string stands there under a name every object inherits, and no object rebuilt there has a key `__proto__` |
| `Coerce.FilterExactly` | packages/mongo/src/collection/coerce.ts:237-285 | so does a filter, through `$and`, `$or`, `$nor`, `$not` and `$elemMatch` |
| `Coerce.KindlessExactly` | packages/mongo/src/collection/coerce.ts:237-324 | one field under no kind, a value or an operator bag, keeps its value in a document and in a filter, if and only if its name is not inherited, or it holds no date written as a string and no key `__proto__` |
| `Coerce.NoKindsExactly` | packages/mongo/src/collection/coerce.ts:291-310 | with no kinds at all a document comes back as it was exactly then |
| `Coerce.ConstructorIsRead` | packages/mongo/src/collection/coerce.ts:237-310 | with no kinds at all, a date string under `constructor` is read as a date |
| `Coerce.ProtoIsLost` | packages/mongo/src/collection/coerce.ts:237-310 | with no kinds at all, a key `__proto__` is lost from a document and from a filter, whatever is under it |
| `Coerce.FilterOf` | packages/mongo/src/collection/coerce.ts:237-263 | the loop fills exactly the coerced filter |
| `Coerce.FieldsOf` | packages/mongo/src/collection/coerce.ts:291-310 | the loop fills exactly the coerced fields |
| `Coerce.UnderOf` | packages/mongo/src/collection/coerce.ts:331-338 | the loop finds exactly the kinds under a path |
| `Declared.FieldsReadExactly` | packages/mongo/src/collection/coerce.ts:291-338 | a document or patch coerced is exactly the one where, at every place whose whole path has a kind, each string that reads as that kind is replaced by what it reads as, and nothing else differs |
| `Declared.FilterReadsExactly` | packages/mongo/src/collection/coerce.ts:237-285 | so is a filter, under every value operator, `$not`, `$and`, `$or`, `$nor`, `$elemMatch` and dotted paths |
| `Declared.NoneIsLeft` | packages/mongo/src/collection/coerce.ts:190-206 | no string that reads as an id or a date is left where that kind is declared |
| `Rebuild.OldOrNew` | packages/meilisearch/src/sync/rebuild-index.ts:164-233 | at every moment of every run, whatever tasks fail and whatever answers are lost, the live index is what it was or everything `fill` wrote |
| `Rebuild.FailedLeavesTheOld` | packages/meilisearch/src/sync/rebuild-index.ts:221-227 | a rebuild that says where it stopped has left the old documents live, and no swap is on its way |
| `Rebuild.UnknownLosesNothing` | packages/meilisearch/src/sync/rebuild-index.ts:216-227 | when it is unknown whether it swapped, the two indexes hold the old documents and the new, one way or the other |
| `Rebuild.RebuiltIsNew` | packages/meilisearch/src/sync/rebuild-index.ts:229-232 | a rebuild that succeeds has everything `fill` wrote live |
| `Rebuild.CanRebuild` | packages/meilisearch/src/sync/rebuild-index.ts:164-233 | whatever is there when it begins, a rebuild in which nothing fails ends with what `fill` wrote, waited for or not, live and no other index left |
| `Rebuild.SaysWhereItStopped` | packages/meilisearch/src/sync/rebuild-index.ts:196-227 | what it reports having stopped at is what failed, and unknown only when the swap's request or the wait for it did |
| `Rebuild.DeletedIsGone` | packages/meilisearch/src/sync/rebuild-index.ts:88-117 | when it reports the next index deleted there is none, and no task that could make one |
| `Rebuild.CanDiscard` | packages/meilisearch/src/sync/rebuild-index.ts:88-117 | one that stopped can discard the index it filled, and says so |
| `Rebuild.StepKeepsInv` | packages/meilisearch/src/sync/rebuild-index.ts:119-233 | every request, the deletion of a leftover among them, every lost answer, failed task and wait keeps the invariant |
| `Rebuild.SettleKeepsInv` | packages/meilisearch/src/sync/rebuild-index.ts:119-150 | each read and wait of `settle`, lost answers included, keeps the invariant, and it goes on to the swap only when every task ended, none after the index's creation failed, and the next index holds everything written |
| `Rebuild.SettlesExactly` | packages/meilisearch/src/sync/rebuild-index.ts:131-149 | finding nothing waiting it leaves its loop exactly when every task ended, and then succeeds exactly when none failed since the index was created |
| `Rebuild.SettledHoldsAll` | packages/meilisearch/src/sync/rebuild-index.ts:119-124 | then the next index holds every write the server took, those `fill` did not wait for among them |
| `Rebuild.NewestFailedIs` | packages/meilisearch/src/sync/rebuild-index.ts:143-149 | the newest failed task says whether any failed since |
| `Migrations.CheckApplied` | packages/mongo/src/migrations/plan.ts:51-80 | accepts exactly the records that are a prefix of the list, and returns its length; what it refuses is recorded and not listed, or listed, not recorded and before one that is |
| `Migrations.CheckList` | packages/mongo/src/migrations/plan.ts:14-25 | accepts exactly the lists that name no id twice |
| `Migrations.StatusOf` | packages/mongo/src/migrations/plan.ts:27-49 | every listed migration in order, applied exactly when recorded, then exactly the recorded ones not listed |
| `Migrations.IndexOf` | packages/mongo/src/migrations/plan.ts:82-95 | the place of an id in the list, or none when it is not there |
| `Migrations.ToApply` | packages/mongo/src/migrations/plan.ts:97-109 | plans what is after the recorded prefix up to and with `to`, or refuses when there is no such plan |
| `Migrations.ToRevert` | packages/mongo/src/migrations/plan.ts:117-142 | plans what is after `to`, or the last one, refusing all of it when any has no `down`, and only when there is no such plan |
| `Migrations.OnePrefix` | packages/mongo/src/migrations/plan.ts:57-80 | records are a prefix of one length only |
| `Migrations.AllBefore` | packages/mongo/src/migrations/plan.ts:70-79 | as many recorded as listed before, all of those, and nothing else: a prefix |
| `Migrations.Store.constructor` | packages/mongo/src/migrations/run.ts:93-95 | a store opens on the database and the records found there, whatever the list |
| `Migrations.Store.Up` | packages/mongo/src/migrations/run.ts:43-68 | one `up` with its record, whatever becomes of it, leaves a prefix, one longer when it went |
| `Migrations.Store.Down` | packages/mongo/src/migrations/run.ts:43-68 | one `down` with its record removed, whatever becomes of it, leaves a prefix, one shorter when it went |
| `Migrations.Store.RemoveRecord` | packages/mongo/src/migrations/run.ts:128-129 | exactly that record is gone |
| `Migrations.Store.Migrate` | packages/mongo/src/migrations/run.ts:82-105 | wherever it stops, the records are the prefix found and what it applied, each while the lock was held; it stops before the end of its plan only when the lock is lost or a step does not go; a reversible list's database is the fold of `up` over them; refused exactly when there is no plan, for the reason given, touching nothing |
| `Migrations.Store.Rollback` | packages/mongo/src/migrations/run.ts:111-134 | the same, downwards |
| `Migrations.GrownListKeeps` | packages/mongo/src/migrations/plan.ts:51-56 | a list that only grew at its end still begins with what was applied, and makes the same database of it |
| `Limit.InvKept` | packages/image/src/set/limit.ts:6-28 | `running` is exactly the places taken and at most `max`; calls wait only while all are taken; places go to calls in the order they were made; every call is in one state and none is lost: every step keeps it |
| `Limit.RunsKeepInv` | packages/image/src/set/limit.ts:6-28 | so does every run |
| `Limit.InOrderExactly` | packages/image/src/set/limit.ts:6-28 | tasks start in the order of the calls throughout a run, if and only if no call finds a place free while a waiter handed one has yet to go on |
| `Limit.ALaterCallStartsFirst` | packages/image/src/set/limit.ts:6-28 | with two places such a run exists: the fourth call starts before the third |
| `Limit.OnePlaceIsInOrder` | packages/image/src/set/limit.ts:6-28 | with one place tasks always start in order |
| `Limit.NoneIsLost` | packages/image/src/set/limit.ts:6-28 | while a call is not over some step other than a new call can be taken, each such step brings the end nearer, and there every call is over |
| `Limit.Limit.Enter` | packages/image/src/set/limit.ts:6-28 | a call takes a place or waits, as the protocol says |
| `Limit.Limit.GoOn` | packages/image/src/set/limit.ts:6-28 | the first waiter woken starts its task |
| `Limit.Limit.Release` | packages/image/src/set/limit.ts:6-28 | the place goes to whoever waits longest, or is freed |

## Left out

Assumptions on what is outside the code:

- A listing shows a key once its put resolved; a put is whole or, when it fails, may leave bytes that do not
  read. A put or delete of a backup's keys begun while the lease was held lands within what is left of the
  grace once the deadline is past, or never. What is reported as failed has landed by then or never will:
  that is `final` of the lock's configuration, a parameter, and the theorems that need it say so.
- A backup's id is new, and its time is that of `createdAt`, except where a member says otherwise. A writer
  that died takes no more steps.
- One run at a time holds a sync's lease, whose own protocol is not modelled: a run that has not noticed yet
  that its lease lapsed stops before the next one begins, but for its flush, or the batches a reindex is
  sending, which go on. The search server applies its tasks in order.
- The stream hands changes over in their order and waits for each to be handled; `position` never passes a
  change not yet handed over.
- inflate undoes deflate, one digest is one sequence of bytes, and encryption, compression, CRC and signing
  are parameters.

Weaker than a reader might expect:

- Prune.Decide: that the plan may be carried out is promised when manifests carry the time of their id
  (`OneDate`) and parents are older (`ParentsOlder`, which `readManifest` checks); the plan itself is promised
  always.
- Policy.CalendarIsExact: the weekly rule only where its labels are the ISO weeks, so not for dates of the years
  0 to 99 nor those first days of January 100 whose Thursday is in 99. The other rules have no such condition,
  nor has `Policy.CalendarExactly`.
- Policy.MakePlan: candidates have different ids, as they do when read from one listing. Which reasons each has
  is said, not the order they are written in, nor that each is written once.
- Periods.SameWeek: for days neither of which is in the years 0 to 99, nor its Thursday.
- Policy.RulesKeepExactly: the weekly rule under the same condition.
- Repository.NoOrphanIsMade: of manifests, unreadable ones included; what a create stopped halfway leaves behind
  is for the next prune, and that one comes is not promised.
- Calls.DoesItsWork: until the call lets go of the lock; what others do after that is theirs. Nothing is said of
  one whose operations failed but what holds of all.
- Progress.CatchesUp: that there is such a way on, not that it is taken: timers and scheduling are left out.
- Sync.CaughtUp: says nothing of a document whose transform is refused; the follower stops there.
- Sync.FaithfulExactly: a document has one index id and one key; two documents whose index ids share a key are
  not modelled, nor a transform that fails only now and then.
- Follower.Following.Settle: timers are left out; a flush may begin at any step, which is more than timers
  allow.
- Capture.CaptureSimulates: the filter is fixed from the full backup on. A collection renamed in from another
  database is not an event of this stream.
- Chain.CreateBackup: of the puts reported failed, only the manifest's may have landed, since the readers see
  nothing of a backup before it; bytes that do not read, and the order in which puts land, are in `Repository`.
  One id is one backup in every repository. The size of the JSON written is a parameter. The outcomes that come
  with an error for a backup stored only in part are left out.
- Chain.HistoryKeepsInv: one create or prune at a time; `Repository` has them interleaved.
- Crop.CropPixel: sizes are whole numbers without the limits of typed arrays.
- PngFile.CropOfEncoded: the deflated rows fit one chunk, under 2^32 bytes.
- GridFs.ReadChunks: chunks are missing or cut to a prefix; other bytes in their place are not noticed by the
  code either.
- GridFs.RangeIsSelected: of a header already parsed into its positions; the expression that parses it is left
  out.
- Coerce.FilterTwice: string readers are parameters: which strings are ids, and the date a string is. Of a key
  `__proto__` only its loss is kept, not the prototype it sets.
- Coerce.KindUnder: declared paths have no part called `__proto__`.
- Inline.RefusesExactlyCycles: definitions all resolve. A property called `__proto__`, which the code loses, is
  kept here.
- Rebuild.OldOrNew: nobody else writes to either index, no task of an earlier run still waits, and every request
  `fill` made was answered or failed by the time it returns, though its tasks need not have ended.
- Migrations.Store.Migrate: the lock is a parameter that says when it is still held; two runs at once are what
  it excludes. Dry runs, which only plan, are left out.
- Limit.NoneIsLost: for at least one place; a task that never ends keeps its place.

Not modelled:

- Text: JSON, BSON values, base64, error messages, keys as paths. Parsed values are datatypes.
- `localRepository`, `s3Repository`, staging folders, syncing of files, progress and cancellation.
- The drivers and their sessions, transactions beyond all or nothing, error translation.
- Options checking, TypeScript types, Zod's output, HTTP headers other than the range.
- The Redis, queue, cache and rate-limit packages, tenant tokens and key files.
- Build scripts and sample applications.
