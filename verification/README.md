# Memory store verification

A Dafny model of the memory service's canonical store and of the algorithms around it that must
agree with something simpler, with proofs that they do. The tables are maps, sets and sequences held
by classes; CHECK, UNIQUE and foreign-key rules are what makes a statement fail and a transaction
roll back; concurrent protocols are state machines over the steps of their processes.

`dafny verify dfyconfig.toml` checks the whole project.

## The modules

| file | what it is about |
|---|---|
| `Wrappers.dfy`, `Sorting.dfy` | results, options and errors; sorting by a key, and what a sorted list determines |
| `StoreModel.dfy`, `MemoryStore.dfy` | the memory tables and every transaction on them, as functions and, statement by statement, as methods of a class |
| `StoreInvariants.dfy`, `StoreTheorems.dfy`, `StoreLineage.dfy`, `LaterReplay.dfy` | what every run keeps: outbox, successors, lineage, and what replays of composes and decomposes answer |
| `CascadePlanner.dfy` | the capped breadth-first plan of a cascading delete, and when executing it succeeds |
| `PopularityCounters.dfy`, `StoreCounters.dfy` | trigger-maintained counters against the counts they stand for, statement by statement and across whole transactions |
| `VersionRace.dfy`, `ComposeProtocol.dfy`, `ComposeDeadlock.dfy`, `DecomposeProtocol.dfy`, `RelationLink.dfy`, `IdentityBootstrap.dfy` | any interleaving of concurrent edits, moves and deletes of one memory, composes (with the row locks of their status triggers), decompositions, link calls and default-agent bootstraps |
| `EntityMerge.dfy`, `MergeSurvivors.dfy` | the relation table rewritten to its quotient under a unique key, and which row survives |
| `Browse.dfy` | keyset pages over a table that may change between requests |
| `LineageWalk.dfy`, `RankedSelection.dfy` | the cycle-marked recursive query, its edge cap, and ranked candidates under a global cap |
| `CursorCodec.dfy`, `Fingerprints.dfy`, `InboxReference.dfy` | cursors, fingerprints and idempotency keys, inbox references |

## What the proofs brought out

Properties that do not hold everywhere, with the exact condition under which they do:

- A superseded memory's successor is not final. It can be superseded again, because
  `is_valid_transition` accepts every status for itself, and it can be moved with a redirect, because
  the move asks nothing of the source's status; either way the first successor is forgotten. The
  successor stays the same exactly unless one of these two names the memory and commits
  (`SupersededIsFinal`, `SupersededTwice`, `SupersededThenMoved`); a supersede leaves all existing
  successors alone exactly when the memory it names is not superseded yet
  (`SupersedeKeepsSuccessorsExactly`).
- The UPDATE of a redirecting move and the DELETE of a plain hard delete carry no version guard. They
  lose no write all the same: the outbox's unique key lets each version be announced once, so whoever
  loaded an older one never commits (`CommitsOntoWhatItSaw`, `StaleNeverCommits`). The price is that a
  delete takes the key before the row, and an edit or move the row before the key, so that two of them
  can wait for each other (`DeleteAndEditCanDeadlock`, `DeleteAndMoveCanDeadlock`). A state is stuck
  exactly when it holds such a pair and everyone else is done or waits for the same row or key
  (`StuckExactly`), and callers that know the current version can deadlock exactly when a delete is
  among them together with an edit or a move (`VersionRace.DeadlockExactly`).
- Locking the sources of a compose in id order and inserting its tags in name order is meant to keep
  composes from deadlocking, and does not. A merge retires its sources, and the status trigger then
  updates the rows of all their counted targets, outside that order: if memory 5 was promoted from 1, a
  merge of 5 and 6 and a promotion of 1 and 5 can wait for each other (`TriggerCanDeadlock`). Every
  deadlock has such a trigger in it (`DeadlockNeedsTrigger`), so that there is none where no possible
  merge has a counted target outside its sources (`NeverDeadlocked`); and composes that share no key
  and no new tag can deadlock exactly when some possible merge does not climb, which is to say that its
  triggers may update a row outside its sources whose id is below that of a row it has by then
  (`ComposeDeadlock.DeadlockExactly`). With a shared new tag even climbing merges can
  (`SharedTagCanDeadlock`).
- `mem_move` without a redirect reuses the source's version for its tombstone and so always meets the
  outbox's unique key (`MoveWithoutRedirectNeverCommits`).
- A cascade plan executes exactly when every superseded member is deleted before its successor and no
  member is the source of a decompose operation (`PlanExecutesExactly`); if the tables have changed
  since, the members must still have their planned versions and nothing new may name one as successor
  (`PlanExecutesLater`, `LateSupersededStops`). A superseded memory whose successor depends on it, by
  whatever path, is never deleted by its own cascade (`SupersededRootNeverDeleted`).
- The replay of a decompose answers the same exactly while all children are there and the source has
  not been made a playbook. The branch for missing children, marked unreachable in the program, is
  reached by a cascade from a child (`DecomposeReplay.ReplayAnswersTheSame`,
  `CascadedChildStopsReplay`).
- The replay of a compose, after any run, answers the same exactly while its sources and the composed
  memory are there and no lineage copy made of one of the sources since is (`SameAnswerExactly`). When
  a source is gone it is refused, and while all are there it reports as sources whatever lineage leads
  to the composed memory now (`ReplayAfterAnyRun`).
- `copy_lineage` makes creation order useless as a rank for acyclicity (`CopyBreaksCreationOrder`),
  and changes the answer of an older compose's replay exactly when it copies one of its sources
  (`CopyChangesReplayExactly`).
- The counter triggers keep the counters exact under conditions stated statement by statement; a
  retirement from `stale` or `archived`, for one, leaves them too high (`SetStatusExactly`). So writes,
  promotions and derivations always keep them exact, and updates, supersedes, merges, splits, copies and
  moves do exactly when they take no memory with counted edges out of counting other than from `active`
  and copy no counted lineage row to a child that no longer counts (`TransactionKeepsExactly`).
- The from-scratch aggregate agrees with exact counters exactly when every memory that still counts as
  a source is active (`BackfillAgreesExactly`).
- Browsing by `updated_at` keeps one half of the guarantee in each direction and loses the other
  (`UpdateOrderKeepsOneHalf`, `NewestFirstCanMiss`, `OldestFirstCanRepeat`): newest first a matching row
  is missed exactly when, between two pages, it is carried back over the cursor it was still behind, and
  oldest first it is returned twice exactly when it is carried ahead of a cursor that had passed it
  (`UpdateOrderExactly`).
- A cursor's order value survives the round trip exactly when it has no high surrogate directly before
  a low one (`CursorRoundTrip`).
- The slug pattern's closing `$` also takes one trailing newline, although the error message speaks of
  kebab case: the accepted slugs that are not kebab case are exactly those with one newline after a
  kebab-case one, which is another accepted slug (`SlugMatchesExactly`, `NotKebabExactly`,
  `NewlineMakesAnotherSlug`).
- When several entities are merged, the relation that survives to a node outside is the one whose
  entity comes first in the list, not the one created first (`ListWinner`, `ListOrderDecides`). Among
  relations between merged entities the one survives whose later end comes first in the list, and the
  time of creation decides only between directions (`InnerWinner`). Such a relation becomes a self-loop,
  which `relation_link` refuses to create: there is one exactly when some relation joined two of the
  merged entities (`LoopsExactly`, `LinkedEntitiesMakeALoop`).
- A default-agent file that is not readable stays so: no request of a process without an id ever
  returns from then on (`StuckForever`, `BadFileFailsEveryone`).

## Assumptions

At least one projection sink is configured for memories, and outbox rows are not pruned. Ids are
naturals in the order of their text, and are never used again. Times are integers, scores and
salience are reals, tags are sets in the store. Hashes and the text forms they are computed from have
no collisions; an operation key is computed from numbers as they are written (`CollisionFreeHashesExist`
shows that the assumption can be met). Transactions on the memory tables are atomic, which the program's row locks and version
guards provide; the order in which a SELECT without ORDER BY yields rows is arbitrary. A proper prefix of
a written default-agent file is not readable.

## Model

| member | source | states |
|---|---|---|
| MemoryStore.Store.Write | src/memory_mcp/memories.py:1122-1250 | the inserts of a write, with their checks, are one atomic step that keeps the store invariant, or an error and no change |
| MemoryStore.Store.Update | src/memory_mcp/memories.py:1434-1612 | an edit checks version and lifecycle, bumps the version and announces it, all or nothing |
| MemoryStore.Store.Supersede | src/memory_mcp/memories.py:2057-2236 | new row, old row superseded, lineage row and two events commit together or not at all |
| MemoryStore.Store.Compose | src/memory_mcp/composers.py:461-850 | locks, dedupe lookup before validation, replay or the whole composition; the answer and the tables are those of the specification |
| MemoryStore.Store.ComposeFirst | src/memory_mcp/composers.py:596-836 | the mutations of a first compose succeed exactly for an unused id, and otherwise leave everything as it was |
| MemoryStore.Store.SupersedeSources | src/memory_mcp/composers.py:708-756 | every merged source takes its superseding version and tombstone in lock order |
| MemoryStore.Store.Decompose | src/memory_mcp/decomposers.py:642-1110 | validation, lookup, claim and children in the program's order equal one atomic step |
| MemoryStore.Store.DecomposeFirst | src/memory_mcp/decomposers.py:865-1048 | children, lineage rows, events and a split source's retirement, after the claim |
| MemoryStore.Store.Copy | src/memory_mcp/memories.py:679-823 | a copy with or without the source's lineage, and the copied_from row |
| MemoryStore.Store.CopyLineage | src/memory_mcp/memories.py:767-788 | every lineage row that touches the source is repeated for the copy, once |
| MemoryStore.Store.Move | src/memory_mcp/memories.py:951-1065 | a move is a copy plus a redirect; without a redirect it never succeeds |
| MemoryStore.Store.HardDelete | src/memory_mcp/memories.py:1805-1900 | version check, tombstone one version on, restricted delete, all or nothing |
| MemoryStore.Store.Cascade | src/memory_mcp/memories.py:1950-2050 | each planned victim is rechecked, buried and deleted in order, or nothing is |
| StoreInvariants.CommitKeeps | src/memory_mcp/memories.py:1227-1238 | every transaction, committed or rolled back, keeps the invariant that the outbox describes the rows |
| StoreInvariants.RunKeeps | src/memory_mcp/memories.py:1549-1606 | so does every run |
| StoreInvariants.LiveOutbox | src/memory_mcp/memories.py:441-451 | a live memory at version v has events 1 to v exactly; the last is a tombstone iff the memory is hidden and otherwise carries every projected field but salience |
| StoreInvariants.DeadOutbox | src/memory_mcp/memories.py:1884-1895 | a hard-deleted memory's events are 1 to n exactly and end in a tombstone |
| StoreInvariants.DeleteBuriesAtNextVersion | src/memory_mcp/memories.py:1884-1897 | deleting at version v adds exactly the tombstone v + 1 and removes exactly the row |
| StoreInvariants.MoveWithoutRedirectNeverCommits | src/memory_mcp/memories.py:1020-1036 | the tombstone of a move without redirect always collides with an event already there |
| ProjectionSink.SinkConverges | src/memory_mcp/memories.py:406-451 | a last-version-wins sink fed all events in any order with repetitions shows exactly the visible memories, each equal to its row up to salience |
| ProjectionSink.FeedKeepsNewest | src/memory_mcp/memories.py:2203-2231 | such a sink holds, of each memory, the newest event delivered |
| Supersession.StatusGoesWithSuccessor | migrations/versions/0001_v1_initial.py:173-184 | superseded iff a successor is set; the successor exists and is later |
| Supersession.ChainEnds | src/memory_mcp/memories.py:2156-2170 | following successors passes only later rows and ends at one not superseded |
| Supersession.SupersededIsFinal | src/memory_mcp/memories.py:1515-1519 | only a delete takes a memory out of superseded, and its successor stays the same iff no committing supersede or redirecting move names it |
| Supersession.SupersedeKeepsSuccessorsExactly | src/memory_mcp/memories.py:2156-2170 | supersede leaves all existing successors alone iff its target is not superseded yet |
| Supersession.SupersededTwice | schemas/src/memory_mcp_schemas/enums.py:177-181 | a run of three transactions that forgets a successor |
| Supersession.SupersededThenMoved | src/memory_mcp/memories.py:986-996 | a run of three transactions in which a redirecting move forgets a successor |
| LineageAcyclic.CopyRanked | src/memory_mcp/memories.py:767-798 | duplicating a node with all its edges and adding source to copy keeps a rank, with a gap made for the copy |
| LineageAcyclic.LineageStaysAcyclic | src/memory_mcp/memories.py:2173-2181 | no run closes a lineage cycle |
| LineageAcyclic.CopyBreaksCreationOrder | src/memory_mcp/memories.py:767-788 | after a lineage copy a later row is the parent of an earlier one |
| ComposeReplay.FirstCompose | src/memory_mcp/composers.py:685-756 | what a first compose leaves behind determines its answer |
| ComposeReplay.ReplayAnswersTheSame | src/memory_mcp/composers.py:354-421 | the case of a run without deletes and lineage copies: the same request gets the same answer and changes nothing |
| LaterReplay.ParentsAfterRun | src/memory_mcp/memories.py:767-788 | after any run the lineage parents of a memory that is still there are those it had and the lineage copies made of its parents, less what is deleted |
| LaterReplay.ReplayAfterAnyRun | src/memory_mcp/composers.py:354-421 | after any run, deletes and lineage copies included: refused if a source is gone; while the composed memory is there, its lineage parents then are reported; a merge whose memory is gone is refused unless its key is in use again |
| LaterReplay.SameAnswerExactly | src/memory_mcp/composers.py:354-421 | the same answer, and no change, iff the sources and the composed memory are all there and no lineage copy of a source made since is |
| ComposeReplay.CopyChangesReplayExactly | src/memory_mcp/composers.py:354-421 | a copy changes what a replay reports iff it copies the lineage of one of the sources |
| DecomposeReplay.RunKeepsOperations | migrations/versions/0021_decompose_operations.py:350-356 | no run loses or changes a decompose operation, and its source stays in its environment |
| DecomposeReplay.ReplayAnswersTheSame | src/memory_mcp/decomposers.py:453-500 | after any run, deletes included, a repeated decompose changes nothing and answers the same iff all children are there and the source is no playbook, and which error it raises otherwise |
| DecomposeReplay.CascadedChildStopsReplay | src/memory_mcp/decomposers.py:484-490 | a cascade from any child can follow a first decompose at once, and the replay is then refused |
| CascadePlanner.Collect | src/memory_mcp/memories.py:1740-1797 | the search ends on every graph, succeeds iff closure size and distances fit the caps, and the member and cap it reports otherwise are real |
| CascadePlanner.LoadDependents | src/memory_mcp/memories.py:1686-1706 | the dependents are the lineage children and the superseded predecessors, each once, lineage first |
| CascadePlanner.Order | src/memory_mcp/memories.py:1677-1683 | the plan is the closure, each member once at its shortest distance, deepest first, the root last |
| CascadePlanner.LevelComplete | src/memory_mcp/memories.py:1759-1795 | when a level is at the head of the queue everything nearer has been visited |
| CascadePlanner.CascadeRunsExactly | src/memory_mcp/memories.py:1950-2050 | deleting in order succeeds iff superseded rows go before their successors and none is an operation's source |
| CascadePlanner.PlanExecutesExactly | src/memory_mcp/memories.py:1677-1706 | a plan executes iff each superseded member precedes its successor and no operation refers to a member; then exactly the closure is gone |
| CascadePlanner.PlanExecutesLater | src/memory_mcp/memories.py:1951-1976 | whatever happened since planning, execution succeeds iff versions are the planned ones and nothing names a member that outlives it; it removes the planned closure only |
| CascadePlanner.LateSupersededStops | src/memory_mcp/memories.py:1950-2033 | a memory outside the plan that came to name a member as successor stops the whole cascade |
| CascadePlanner.SupersededRootNeverDeleted | src/memory_mcp/memories.py:1686-1706 | the cascade from a superseded memory always fails when its successor depends on it by any path |
| CascadePlanner.SuccessorByLineage | src/memory_mcp/memories.py:2173-2181 | as it does whenever a lineage row of any relation leads from the memory to its successor |
| CounterTheorems.InsertRelationExactly | migrations/versions/0017_popularity_counters.py:169-258 | the insert trigger keeps all counters exact iff the edge is not counted or its source counts |
| CounterTheorems.DeleteRelationExactly | migrations/versions/0017_popularity_counters.py:213-246 | the same for direct deletes, clamp included |
| CounterTheorems.InsertLineageExactly | migrations/versions/0021_decompose_operations.py:167-201 | the same for lineage inserts under the re-issued whitelist |
| CounterTheorems.DeleteLineageExactly | migrations/versions/0021_decompose_operations.py:167-201 | the same for lineage deletes |
| CounterTheorems.SetStatusExactly | migrations/versions/0021_decompose_operations.py:204-287 | a status change keeps all counters exact iff it is one the trigger fires on, changes nothing that counts, or the memory has no counted edge |
| CounterTheorems.GroupedIsRepeated | migrations/versions/0017_popularity_counters.py:341-396 | one grouped clamped update of n edges is n single clamped updates |
| CounterTheorems.ClampNeverBites | migrations/versions/0017_popularity_counters.py:349-396 | from exact counters the clamp of a flip out of counting never changes a value |
| CounterTheorems.ClampNeverBitesOnRelation | migrations/versions/0017_popularity_counters.py:213-246 | nor does that of deleting a relation whose source counts |
| CounterTheorems.ClampNeverBitesOnLineage | migrations/versions/0021_decompose_operations.py:167-201 | nor that of deleting a lineage row whose child counts |
| CounterTheorems.ClampIdleInRuns | migrations/versions/0017_popularity_counters.py:169-397 | so no statement of a disciplined run meets the clamp, at any memory |
| CounterTheorems.DisciplinedRunsStayExact | migrations/versions/0017_popularity_counters.py:169-397 | along every run that edits a memory's edges only while it counts and retires or supersedes only from active, every counter equals its count |
| CounterTheorems.BackfillAgreesExactly | migrations/versions/0017_popularity_counters.py:441-478 | exact counters equal the from-scratch aggregate iff every memory still counting is active |
| StoreCounters.FlipAhead | migrations/versions/0021_decompose_operations.py:204-287 | where no counter is below its count, a status change that never makes a memory count leaves none below, and keeps all exact iff they were and it is fair |
| StoreCounters.ComposeExactness | src/memory_mcp/composers.py:685-731 | a promotion keeps the counters exact; a merge does iff none of its stale sources has a counted edge |
| StoreCounters.DecomposeExactness | src/memory_mcp/decomposers.py:865-1048 | a derivation keeps them exact; a split does iff its source is active or has no counted edge |
| StoreCounters.CopyExactness | src/memory_mcp/memories.py:767-798 | a copy keeps them exact iff it takes along no counted lineage row to a child that no longer counts |
| StoreCounters.MoveExactness | src/memory_mcp/memories.py:951-996 | a redirecting move does iff its copy does and the memory left behind was active or has no counted edge |
| StoreCounters.TransactionKeepsExactly | migrations/versions/0017_popularity_counters.py:169-397 | of all transactions that delete nothing, exactly these keep every counter exact, and the statuses and lineage the triggers see stay those of the store |
| CounterStore.CounterTables.AddRelation | migrations/versions/0017_popularity_counters.py:193-211 | the trigger body, in place, has the specified effect |
| CounterStore.CounterTables.ChangeStatus | migrations/versions/0017_popularity_counters.py:325-397 | the flip trigger's grouped updates, in place, have the specified effect |
| CounterStore.CounterTables.GroupRelations | migrations/versions/0017_popularity_counters.py:367-381 | the grouped count per target is the number of that source's counted edges to it |
| DecomposeProtocol.StepKeeps | src/memory_mcp/decomposers.py:711-860 | every statement of every concurrent decompose keeps locks, claims and committed operations in order |
| DecomposeProtocol.RepliesAgree | src/memory_mcp/decomposers.py:727-770 | in every interleaving all successful replies for one key name the same operation and children in the same order, the committed ones |
| DecomposeProtocol.NoOrphans | src/memory_mcp/decomposers.py:800-822 | every committed child belongs to exactly one committed operation |
| DecomposeProtocol.RecoveryOnlyRaises | src/memory_mcp/decomposers.py:823-860 | after a lost claim the winner's scope always differs, so the branch only raises |
| DecomposeProtocol.RecoveryReachable | src/memory_mcp/decomposers.py:823-840 | and that branch does occur |
| DecomposeProtocol.OnlyCommitWrites | src/memory_mcp/decomposers.py:738-770 | replays, lost claims and errors change no table; a commit adds one operation with its children |
| ComposeProtocol.StepKeeps | src/memory_mcp/composers.py:484-663 | every statement of every concurrent compose keeps locks, claims and committed compositions in order |
| ComposeProtocol.RepliesAgree | src/memory_mcp/composers.py:499-530 | in every interleaving all successful replies for one key name the same memory, sources and mode, the committed ones |
| ComposeProtocol.MergedOnce | src/memory_mcp/composers.py:544-548 | no memory is a source of two committed merges |
| ComposeProtocol.OnlyCommitWrites | src/memory_mcp/composers.py:596-663 | replays, lost claims and errors change no table and no request |
| ComposeProtocol.CommitAddsOne | src/memory_mcp/composers.py:596-756 | a commit adds one composition under a free key, with the requested sources and mode |
| ComposeDeadlock.ChainMoves | src/memory_mcp/memories.py:524-539 | with sources and tags in order, every chain of waits ends at a transaction that can go on or at one that waits in a status trigger |
| ComposeDeadlock.DeadlockNeedsTrigger | migrations/versions/0017_popularity_counters.py:313-408 | with sources and tags in order, every deadlock has a merge in it whose trigger waits for a counted target, not among its own sources, of a source it retires |
| ComposeDeadlock.NeverDeadlocked | src/memory_mcp/composers.py:303-332 | where no possible merge has a counted target outside its sources, sorted composes never deadlock, whatever keys and tags they share |
| ComposeDeadlock.ClimbingNeverStuck | src/memory_mcp/composers.py:708-731 | where the triggers of every possible merge update outside rows only in ascending order above its sources, composes that share no key and no new tag never get stuck |
| ComposeDeadlock.NotClimbingDeadlocks | migrations/versions/0021_decompose_operations.py:204-287 | for every possible merge that does not climb there is a promotion with which some run deadlocks |
| ComposeDeadlock.DeadlockExactly | src/memory_mcp/composers.py:708-731 | from given tables, sorted composes that share no key and no new tag can deadlock iff some possible merge does not climb |
| ComposeDeadlock.TriggerCanDeadlock | migrations/versions/0021_decompose_operations.py:204-287 | a merge of 5 and 6 and a promotion of 1 and 5 that deadlock, all in order, because 5 was promoted from 1 |
| ComposeDeadlock.SharedTagCanDeadlock | src/memory_mcp/composers.py:303-332 | a climbing merge and a promotion that deadlock because both insert the same new tag |
| ComposeDeadlock.UnsortedCanDeadlock | src/memory_mcp/memories.py:527-529 | with sources in opposite orders two transactions can deadlock before any trigger |
| ComposeDeadlock.UnsortedTagsCanDeadlock | src/memory_mcp/composers.py:305-307 | and so can two with sorted sources that insert new tags in opposite orders |
| VersionRace.StepKeeps | src/memory_mcp/db/outbox.py:120-200 | every statement of every concurrent writer keeps the row, its events, locks and keys in order |
| VersionRace.CommitsOntoWhatItSaw | src/memory_mcp/memories.py:1549-1560 | every commit, of an edit, a move or a delete, is made on exactly the row its transaction loaded, and adds the next version under an unused key |
| VersionRace.MoveIsFaithful | src/memory_mcp/memories.py:951-996 | a committed move's copy has the body and tags the source has at that moment, and changes nothing of the source but version and successor |
| VersionRace.StaleNeverCommits | src/memory_mcp/memories.py:986-1019 | a transaction that loaded a version no longer the last never commits, guarded or not |
| VersionRace.OnlyCommitWrites | src/memory_mcp/memories.py:1544-1606 | no other step changes the row, its events or the copies |
| VersionRace.EditsAndMovesNeverStuck | src/memory_mcp/memories.py:1549-1606 | among edits and moves, which take the row before the key, some transaction can always go on |
| VersionRace.OneKindNeverStuck | src/memory_mcp/memories.py:1884-1895 | nor are deletes among themselves ever stuck |
| VersionRace.CrossedWait | src/memory_mcp/memories.py:1884-1895 | an edit or move that holds the row and a delete that holds the key it needs: neither can go on, whatever others do, short of a rollback |
| VersionRace.StuckExactly | src/memory_mcp/memories.py:1549-1606 | a state is stuck iff it holds such a pair and everyone else is done or waits for the row or the key |
| VersionRace.DeadlockExactly | src/memory_mcp/memories.py:1884-1895 | callers that know the current version can deadlock iff a delete is among them together with an edit or a move |
| VersionRace.DeleteAndEditCanDeadlock | src/memory_mcp/memories.py:1884-1895 | a delete, which takes the key first, and an edit can wait for each other |
| VersionRace.DeleteAndMoveCanDeadlock | src/memory_mcp/memories.py:986-1019 | and so can a delete and a redirecting move |
| MergeTheorems.WinnerOfKey | src/memory_mcp/entities.py:405-425 | each target key goes to a row already there, else to the earliest moved one |
| MergeTheorems.KeysAreImage | src/memory_mcp/entities.py:447-494 | the keys afterwards are the image of the keys before |
| MergeTheorems.MergedTable | src/memory_mcp/entities.py:447-497 | keys stay unique, no row touches the removed node, rows that did not are unchanged |
| MergeTheorems.ListIsSimultaneous | src/memory_mcp/entities.py:436-497 | merging a list one by one is the simultaneous substitution |
| MergeTheorems.ListWinner | src/memory_mcp/entities.py:436-497 | of the relations of one kind from merged nodes to a node outside, the one survives whose node comes first, the kept node before all, whenever it was created |
| MergeTheorems.KeptNodeWins | src/memory_mcp/entities.py:464-475 | a relation that touches no merged node survives every list unchanged |
| MergeTheorems.ListOrderDecides | src/memory_mcp/entities.py:436-447 | two relations of which the later one survives, and the other if the list is turned round |
| MergeTheorems.NoRowTouchesRemoved | src/memory_mcp/entities.py:495-497 | after the list no row touches any removed node |
| MergeTheorems.ListAdoptsFirstNode | src/memory_mcp/entities.py:443-447 | while the kept entity has no node it takes over the first merged one |
| MergeSurvivors.InnerWinner | src/memory_mcp/entities.py:436-497 | a relation between two merged nodes survives iff none of its kind has both ends merged before its own last end, its other end comes first in its direction, and it is the first made of those left |
| MergeSurvivors.LastEnd | src/memory_mcp/entities.py:436-447 | every relation between merged nodes has such a last end, unless it is a loop at the kept node, which stays |
| MergeSurvivors.RowFollows | src/memory_mcp/entities.py:481-493 | a surviving row keeps its kind and age and has the substituted ends |
| MergeSurvivors.LoopsExactly | src/memory_mcp/entities.py:405-425 | the merge leaves a self-loop of a kind at the kept node iff a relation of that kind joined two of the nodes made one |
| MergeSurvivors.LinkedEntitiesMakeALoop | src/memory_mcp/relations.py:364-365 | merging two linked entities makes the self-loop a link call refuses |
| MergeStore.SelectTouching | src/memory_mcp/entities.py:449-463 | the touching rows, each once, in order of creation |
| MergeStore.PlanRepoint | src/memory_mcp/entities.py:405-425 | a row moves iff its target key is free from the start and not claimed by a row before it, and is deleted otherwise |
| MergeStore.PlanIsSurvival | src/memory_mcp/entities.py:405-425 | the plan drops exactly the rows that do not survive the quotient |
| MergeStore.RelationTable.MergeNode | src/memory_mcp/entities.py:449-494 | no single update meets the unique key, and the table ends as the quotient |
| MergeStore.PlaceFree | src/memory_mcp/entities.py:487-493 | half-way through the updates the next row's place is free |
| MergeStore.RelationTable.MergeGraphNodes | src/memory_mcp/entities.py:428-497 | the loop over the merged entities computes the merge of the list |
| MergeStore.MergeAliases | src/memory_mcp/entities.py:566-590 | merged aliases go to the kept entity except the one equal to its canonical name |
| BrowsePage.Select | src/memory_mcp/browse.py:157-213 | the rows left by all filters and the keyset condition, each once |
| BrowsePage.OrderRows | src/memory_mcp/browse.py:212-215 | ordered by value and id, both in the request's direction |
| BrowsePage.Browse | src/memory_mcp/browse.py:293-336 | a page holds the first due rows, says whether more are due, and its cursor marks its last hit |
| BrowseSessions.ListingAscends | src/memory_mcp/browse.py:206-215 | whatever happens to the table, no (value, id) pair is returned twice |
| BrowseSessions.StaticListing | src/memory_mcp/browse.py:293-336 | without changes the concatenated pages are the filtered table sorted by (value, id) |
| BrowseSessions.ListingUnique | src/memory_mcp/browse.py:197-216 | that sorted table is determined |
| BrowseSessions.StaticSessionEnds | src/memory_mcp/browse.py:316-320 | and the loop ends, every page but the last using up a full limit of rows |
| BrowseSessions.ReturnedAtMostOnce | src/memory_mcp/browse.py:206-211 | a row that does not move towards the end is returned at most once |
| BrowseSessions.ReturnedAtLeastOnce | src/memory_mcp/browse.py:206-211 | a row matching throughout that does not move towards the start is not missed |
| BrowseSessions.MissedExactly | src/memory_mcp/browse.py:206-211 | where rows do not move towards the end, a row matching throughout is missed iff between two pages it moves back over the cursor |
| BrowseSessions.RepeatedExactly | src/memory_mcp/browse.py:206-211 | where rows do not move towards the start, it is returned twice iff between two pages it moves ahead of a cursor that had passed it |
| BrowseSessions.CreationOrderIsExact | src/memory_mcp/browse.py:197-216 | by creation time, over any table states, no row twice and every row matching throughout returned |
| BrowseSessions.UpdateOrderKeepsOneHalf | src/memory_mcp/browse.py:205-215 | by update time, newest first repeats nothing and oldest first misses nothing |
| BrowseSessions.UpdateOrderExactly | src/memory_mcp/browse.py:205-215 | and the other half is lost for a row iff an edit between two pages carries it across the cursor |
| BrowseSessions.NewestFirstCanMiss | src/memory_mcp/browse.py:205-215 | a session, newest first by update time, that misses a row |
| BrowseSessions.OldestFirstCanRepeat | src/memory_mcp/browse.py:205-215 | a session, oldest first by update time, that repeats one |
| LineageWalk.RecursiveRows | src/memory_mcp/provenance.py:93-133 | the recursive query ends on every edge table with exactly one row per walk that is not flagged before its last edge |
| LineageWalk.EdgesFromRows | src/memory_mcp/provenance.py:136-157 | rows deeper than asked for are cut, the others kept in order, and the cut is noted |
| LineageWalk.Lineage | src/memory_mcp/provenance.py:83-165 | the answer has exactly one (edge, depth) for each unflagged walk up to the depth, in order; truncated iff an unflagged walk is one longer than asked for |
| LineageWalk.EdgeAtShortestDepth | src/memory_mcp/provenance.py:97-133 | an edge whose near end is at shortest distance d below the depth is returned at d + 1 and never nearer |
| LineageWalk.RankedNeverFlagged | src/memory_mcp/provenance.py:107-111 | over an acyclic lineage no walk is ever flagged |
| AncestorWalk.CollectAncestors | src/memory_mcp/autowire.py:295-322 | exactly the memories within the depth above a seed |
| EdgeCap.ApplyCap | src/memory_mcp/provenance.py:168-200 | exactly min(n, max) edges, an initial part of each list, none dropped that ranks before one kept |
| AutowireCandidates.Similarities | src/memory_mcp/autowire.py:747-757 | the best similarity at or above the threshold, per memory |
| AutowireCandidates.RankChild | src/memory_mcp/autowire.py:759-765 | the first k of the child's full ranking |
| AutowireCandidates.GlobalCap | src/memory_mcp/autowire.py:767-803 | exactly min(total, cap) candidates, each child's list an initial part of its own, nothing dropped ranks before anything kept |
| AutowireCandidates.FetchCandidates | src/memory_mcp/autowire.py:564-803 | degraded to nothing, or every child position a key with its capped ranking |
| FlatDestinations.Flatten | src/memory_mcp/decomposers.py:613-620 | the flat list of a response holds each destination once, in order of first occurrence |
| FlatDestinations.FirstsUnique | src/memory_mcp/decomposers.py:613-620 | and that determines it |
| Sorting.PrefixOfGroup | src/memory_mcp/autowire.py:780-796 | any initial part of a sorted mix holds an initial part of each sorted group |
| DependencyGraph.WouldCycle | src/memory_mcp/tasks/cycles.py:13-56 | the search answers reachability |
| DependencyGraph.CheckedEdgeKeepsAcyclic | src/memory_mcp/relations.py:371-374 | an edge that passes the check keeps the graph acyclic |
| RelationLink.StepKeeps | src/memory_mcp/relations.py:333-460 | every statement of every concurrent link call, by either entry point, keeps tables, locks and claims in order |
| RelationLink.CommitKeepsAcyclic | src/memory_mcp/tasks/api.py:169-173 | the lock held to the commit keeps the check valid until the edge is visible |
| RelationLink.RefusesExactlyCycles | src/memory_mcp/relations.py:371-374 | the check refuses exactly the edges that would close a cycle |
| RelationLink.RelinkDecidesNothing | src/memory_mcp/relations.py:405-416 | a link call decides to write nothing iff the relation there agrees with it, and has inserted no node by then |
| RelationLink.UnchangedCommit | src/memory_mcp/relations.py:405-416 | and that commit changes no node, row, version or event |
| RelationLink.RelinkChangesNothing | src/memory_mcp/relations.py:349-353 | in any run, a call that finds its relation in agreement changes no table by any step before or after |
| RelationLink.RelinkAlone | src/memory_mcp/tasks/api.py:184-195 | so a run of that call alone ends with the tables it began with |
| RelationLink.OnlyCommitWrites | src/memory_mcp/relations.py:152-161 | nothing but a commit changes what others see, a lost node insert included |
| RelationLink.CommitWritesOneVersion | src/memory_mcp/relations.py:391-455 | a commit adds one version of one relation and one event with an unused key |
| RelationLink.LinksStaySound | src/memory_mcp/relations.py:124-161 | in every run of link and dependency calls dependencies are acyclic across all environments, no record has two nodes, and events match versions |
| RelationLink.LockFreezesDependencies | src/memory_mcp/tasks/api.py:169-173 | while one transaction holds an environment's lock, no step of another changes the dependencies there |
| RelationLink.SearchReadsOneGraph | src/memory_mcp/tasks/cycles.py:13-56 | so a search that issues one query per task reads one graph, whatever runs between its queries |
| IdentityBootstrap.AllReturnTheSame | src/memory_mcp/identity.py:168-224 | whatever the interleaving and crashes, all requests that return get one id, the file's |
| IdentityBootstrap.NeverExhausted | src/memory_mcp/identity.py:200-223 | the retry loop never runs out |
| IdentityBootstrap.StuckForever | src/memory_mcp/identity.py:226-248 | once the file is unfinished with nobody writing, or foreign, a process without an id never gets one |
| IdentityBootstrap.BadFileFailsEveryone | src/memory_mcp/identity.py:176-179 | with such a file in place at the start no request ever returns |
| IdentityBootstrap.DyingWriterLeavesStuck | src/memory_mcp/identity.py:260-269 | and a creator that dies before writing leaves one behind |
| IdentityBootstrap.NoReadFailsAfterComplete | src/memory_mcp/identity.py:226-248 | once the file is complete no read of any process fails, after any crashes, and each gives the file's id |
| DefaultAgentFile.Bootstrap.AtomicCreate | src/memory_mcp/identity.py:251-275 | exactly the first creator wins, and the file then names its id |
| DefaultAgentFile.Bootstrap.ReadOrCreate | src/memory_mcp/identity.py:194-223 | the id returned is the file's, and two attempts are enough |
| Base64Url.UnpaddedRoundTrip | src/memory_mcp/pagination.py:157-181 | stripping and recomputing the padding loses nothing, for every byte string |
| JsonText.StringRoundTrip | src/memory_mcp/pagination.py:156-182 | a JSON string comes back iff it has no split surrogate pair |
| JsonText.ObjectRoundTrip | src/memory_mcp/pagination.py:148-182 | a written flat object is read back member by member |
| CursorCodec.UuidRoundTrip | src/memory_mcp/pagination.py:153-213 | an id's canonical text parses to it |
| CursorCodec.DecodeOfCursor | src/memory_mcp/pagination.py:139-223 | decoding an encoded cursor for the same request returns its fields |
| CursorCodec.CursorRoundTrip | src/memory_mcp/pagination.py:139-223 | exactly, iff the order value has no split surrogate pair |
| CursorCodec.AcceptedExactly | src/memory_mcp/pagination.py:196-210 | a cursor is accepted iff fingerprint, order field and direction match |
| FilterFingerprint.NormalizedAlike | src/memory_mcp/pagination.py:80-112 | two filter values are normalised alike iff they differ only in the order of lists, at any depth |
| FilterFingerprint.FingerprintsAgreeExactly | src/memory_mcp/pagination.py:115-125 | and their fingerprints agree iff they do |
| OperationKeys.FingerprintIsScope | src/memory_mcp/decomposers.py:222-280 | request fingerprints agree iff environment, mode, source and children agree, up to the order of children and tags, trigger texts, expiries and versions |
| OperationKeys.DecomposeKeyIsScope | src/memory_mcp/decomposers.py:163-219 | so do derived decompose keys |
| OperationKeys.ComposeKeyIsScope | src/memory_mcp/composers.py:142-170 | derived compose keys agree iff the requests do up to the order of sources and tags, trigger, expiry and versions |
| OperationKeys.DomainsApart | src/memory_mcp/decomposers.py:252-266 | the three kinds of key never meet |
| OperationKeys.CollisionFreeHashesExist | src/memory_mcp/decomposers.py:163-219 | the assumption of the four results above can be met: there are collision-free texts of children and payloads |
| InboxReference.PatternIsKebab | src/memory_mcp/inbox.py:94-98 | the slug pattern is kebab case |
| InboxReference.SlugMatchesExactly | src/memory_mcp/inbox.py:107-115 | what the pattern accepts is kebab case, with or without one newline at the end |
| InboxReference.NotKebabExactly | src/memory_mcp/inbox.py:107-115 | the accepted slugs that are not kebab case are those with one newline at the end |
| InboxReference.NewlineMakesAnotherSlug | src/memory_mcp/inbox.py:107-115 | so every kebab-case slug below the length limit has a second spelling, accepted as another slug |
| InboxReference.ParseOfFormat | src/memory_mcp/inbox.py:118-163 | parsing a formatted reference gives it back iff the name is non-empty and slash-free and the slug is valid |
| InboxReference.SlashRejected | src/memory_mcp/inbox.py:131-150 | a name with a slash is rejected, never split elsewhere |
| InboxReference.BareSlug | src/memory_mcp/inbox.py:152-154 | a bare valid slug is never taken for a URL |
| InboxReference.FormatOfParse | src/memory_mcp/inbox.py:118-163 | only formatted references parse as URLs |

## Left out

- MemoryStore.Store.HardDelete: foreign keys from environments and graph rows are one boolean parameter, and the archive row written beside the tombstone is not kept.
- MemoryStore.Store.Write: macros, steps, playbook fields, provenance rows, audit rows and visibility checks are not modelled.
- ComposeProtocol.RepliesAgree: of the sources' statuses only superseded is tracked, a stale source being one without counted targets, and only composes run; contents and other transactions are left to `MemoryStore`.
- ComposeDeadlock.DeadlockExactly: graph nodes inserted by auto-wiring, which is off by default, lock nothing here.
- Row locks that the triggers of other transactions take: `DecomposeProtocol` makes no claim about waiting, and `VersionRace` follows the writers of one memory only.
- DecomposeProtocol.RepliesAgree: child contents are left to `MemoryStore`; the protocol tracks ids, locks and claims only.
- AutowireCandidates.FetchCandidates: the salience query, the embedder and the vector search are inputs, and scores are reals.
- CursorCodec.DecodeCursor: base64 characters outside the alphabet, text beyond ASCII, nested JSON and id spellings other than the canonical one are treated as malformed, which the standard library is more lenient about.
- MergeStore.MergeAliases: the entity rows' own versions, deletion and events are not modelled; the merged entity's canonical name is not kept as an alias.
- Lineage rows added to a memory between a copy's or move's reading of its lineage and its commit: the copy lacks them.
- Tags inserted by writes and updates, which the program inserts in the order given: the compose protocol runs composes only.
- `task_substep`: it links a task nobody else can see yet, under the same lock.
- Retrieval and ranking by text or vector, dream workers, schedulers, recount passes, statistics and metrics: easy properties, or code outside these files.
- Tool wrappers, HTTP server, import script, client, configuration and logging: no hard property.
- `relation_browse`, `mem_inbox` listing, sources browsing and shared-entity paging: the same keyset scheme as `memory_browse`.
- Packing source ids into cursor ids: a one-line conversion.
- Cascaded edge deletes in the counter triggers: the source node may already be gone when its type is read.
- The `derives_from` entry of the counter whitelist: no lineage row may carry that relation.
- Environment import, clone and restore, which write relations and lineage rows without the checks of a link call.
- Environments, access control, sessions and agent rows.
