# Rail402: index, responses, keys and limits

A Dafny model of the parts of Rail402 where a fast, incremental or concurrent form must agree with a simple
one, with proofs that it does.

- **The Explorer's index store.** `Index` is the index as a value and each transaction as a function on it.
  `ExplorerStore` is the store as the program has it: a class whose methods change its tables batch by batch and
  page by page, each proved to take its transaction's step and to leave the three derived totals tables the full
  group-by of the settlements (`GroupBy`, `Totals`, `Conservation`). `Effects` says of each transaction, and
  `TotalsMeaning` of each row of the totals, what it comes to in terms of what is stored. `IndexInvariant`,
  `Coverage`, `Runs`, `Progress`, `Reconcile`, `WorldRuns` and `Reports` are about every sequence of transactions.
  `TotalsLock` and `StoreLock` interleave transactions statement by statement under the advisory lock; `Removals`,
  `RemovalRuns`, `Prunes` and `LateCommits` say what the lock does not order.
- **The response-queue server.** `ResponseQueue` says what each event does, `Handling` what that means for requests
  and connections, `ResponseInvariant`, `ResponseRuns` and `Shutdown` what every run keeps, and `ResponseServer` has
  the handlers as they change state in place.
- **Strkey.** `Bits` and `Crc` are the theory, `Strkey` the specification over bits, `StrkeyProgram` the loops and
  `StrkeyLaws` the round trips and the error detection.
- **Bounded prefetch.** `Prefetch` has the window, its byte budget and answers that come in any order.
- **Limits.** `TokenBuckets` is the theory of levels; `RateLimiters`, `SharedRates`, `CostBuckets` and
  `SellerLimits` are the limiters; `Gates` and `Admission` count and queue work in flight; `Ipv6` reads addresses and
  makes their keys.
- **Small state machines.** `CounterWindows`, `Paging` and `KeyFile`.

`Options`, `Tables`, `Batches`, `Reals` and `Pools` hold what several of them use. `dafny verify dfyconfig.toml`
checks the whole project.

What is assumed of the world:

- A transaction hash belongs to one ledger, and a ledger holds one transaction at a position. The rows of a commit
  carry its ledger, its rules and its registry version. Classification depends on the ledger, the rules and the
  fingerprint; attribution on the row and the registry, which its version identifies.
- Deleting a route deletes its candidates. A discovery page vouches relative to the route as stored.
- No clock runs backwards. A timer fires no later than it is set for, as seen by the clock.
- Each ledger is requested once in a read and its answer does not depend on when it comes.

Where the code does not do what one might expect of it:

- `discoveredThrough` is not always the greatest ledger every route has walked to: a route whose first ledger moved
  past its kept checkpoint holds the bound back. `Coverage.ThroughIsGreatestUnlessHeldBack` says exactly when.
- `decodeStrKey` accepts 57 letters, and ignores the last one: `StrkeyLaws.AcceptedExactly`.
- `indexRange` with a byte budget that is not positive hands over nothing and reports nothing: `Prefetch.Reader.Run`.
- `CostBucket.sweep` can be noticed by a key whose size grows: `CostBuckets.SweepShowsExactly`.
- `CounterWindows.increase` is right at each record. Read later, a counter's increase is right exactly while its
  series is fresh or if the counter stood still meanwhile: `CounterWindows.RisingIncreaseIsExact`;
  `CounterWindows.StaleReadExample` shows a read that is wrong.
- The list of resources can be read to the end with any limits exactly when its last item lies at an offset a
  request may ask for: `Paging.EnumerationIsComplete`, and `Paging.LastItemIsLeftOut` for one more item.
- `SharedRate.take` answers a network its own wait without looking at the pool, so that the wait can be too short:
  `SharedRates.LeastExactly` says exactly when, `SharedRates.AnswerTooShort` shows it.
- A removal of ledgers selects their rows and deletes them in two statements. A row committed in between is deleted
  without its totals being refreshed: `RemovalRuns.RemovalsAreExact` says exactly when that shows,
  `Removals.LateRowIsMissed` that it can.
- A prune deletes the orphans' rows and then, in later statements, the orphans. A ledger committed in between leaves
  rows behind that belong to no ledger, with exact totals, and no later prune looks at them:
  `Prunes.PruneLeavesExactly`, `Prunes.LateRowIsLeft` and `Prunes.LeftForGood`.
- A ledger committed under an older registry version while a re-attribution is past it is stamped with the new
  version over its old rows: `LateCommits.LateCommitsExactly` and `LateCommits.MissedThenUncounted`.
- A key file refused for its mode and then put right by a change of mode alone waits for a forced reload, although
  the comment on `reload` promises a report for as long as no good file is there: `KeyFile.SticksAfterChmod`.

## Model

| member | source | states |
|---|---|---|
| `Batches.Chunks` | apps/explorer/src/store.ts:20-25 | The slices, put together, are the items in order; each has at most `size` of them and none is empty |
| `GroupBy.RefreshExtendsAgreement` | apps/explorer/src/store.ts:1007-1022 | Deleting the touched keys and inserting their groups again makes the table exact on them, and keeps it exact wherever it was |
| `GroupBy.RefreshInsertsNoDuplicate` | apps/explorer/src/store.ts:965-1022 | An insert of touched groups never meets a key that is still in the table |
| `GroupBy.AgreesEverywhereIsFull` | apps/explorer/src/store.ts:965-1022 | A table exact on every key, with one row a key, is the full group-by of all rows |
| `Totals.AddedRowsTouch` | apps/explorer/src/store.ts:711-719 | Adding or removing rows leaves the groups of all days, payers and sellers not named alone, so refreshing the named ones is enough |
| `Totals.AttributionLeavesAccounts` | apps/explorer/src/store.ts:722-787 | Re-attribution, which refreshes no account and no seller, leaves their totals the full group-by |
| `Conservation.GroupsAddUp` | apps/explorer/src/store.ts:1007-1022 | When each row has one key, any additive quantity of the groups adds up to that of all rows |
| `Conservation.PaymentsAreConserved` | apps/explorer/src/store.ts:965-1022 | The payments of the daily totals, of the payers, of the sellers, and exact plus upto of the seller summaries each add up to the number of settlements |
| `Conservation.VolumeIsConserved` | apps/explorer/src/store.ts:965-1022 | The volumes of the daily totals, of the payers and of the sellers each add up to the amounts of all settlements |
| `TotalsMeaning.DailyRowsSay` | apps/explorer/src/store.ts:1006-1022 | A row is in the daily totals if and only if it counts the settlements closed between its day's midnights of its tier, facilitator, scheme, asset and kind, of which there are some, and adds up their amounts |
| `TotalsMeaning.AccountRowsSay` | apps/explorer/src/store.ts:964-1004 | A row is in the account totals if and only if it counts and adds up the settlements its address paid, or was paid, in its asset, its first and last time are those of the first and the last of them, and it is verified exactly if one of them is |
| `TotalsMeaning.SellerRowsSay` | apps/explorer/src/store.ts:990-1001 | A row is in the seller summaries if and only if it counts the seller's settlements of each scheme, and its payers, each once |
| `TotalsMeaning.VolumeIs` | apps/explorer/src/store.ts:985 | A volume adds each settlement's amount once |
| `IndexInvariant.SyncKeepsConsistent` | apps/explorer/src/store.ts:314-397 | Moving, adding and removing routes and pruning what no route lists keeps every row with an indexed ledger, every count exact and every candidate inside its route |
| `IndexInvariant.RecordKeepsConsistent` | apps/explorer/src/store.ts:417-482 | A stored page keeps that invariant |
| `IndexInvariant.CommitKeepsConsistent` | apps/explorer/src/store.ts:579-720 | A committed ledger of admissible rows keeps it, with the ledger's row, attributed and failed counts exact |
| `IndexInvariant.MarkFailedKeepsConsistent` | apps/explorer/src/store.ts:631-641 | A failed ledger keeps it: an indexed ledger is never marked failed |
| `IndexInvariant.RetryKeepsConsistent` | apps/explorer/src/store.ts:643-653 | A retry keeps it |
| `IndexInvariant.ResetKeepsConsistent` | apps/explorer/src/store.ts:789-841 | A reset of stale ledgers with their rows keeps it |
| `IndexInvariant.ReattributeKeepsConsistent` | apps/explorer/src/store.ts:722-787 | A re-attribution keeps it, although ledgers that are not stamped are not recounted |
| `Effects.PageMovesCheckpoint` | apps/explorer/src/store.ts:423-482 | A page moves its route's checkpoint to what it vouches for or the route's end, whichever is less, and never back; a page that vouches for nothing from the route's start on leaves it; the other routes stay |
| `Effects.PageListsLedgers` | apps/explorer/src/store.ts:430-457 | A page lists its ledgers inside the bounds; those not listed before wait to be read, and every other ledger stays as it is |
| `Effects.RestartForgetsCheckpoint` | apps/explorer/src/store.ts:490-509 | A restart forgets how far its route was walked, and nothing else |
| `Effects.PlanMovesRoutes` | apps/explorer/src/store.ts:337-390 | The routes after a plan are those it names, with its bounds; a checkpoint stays, up to the new end, exactly if the start did not move back |
| `Effects.PlanKeepsCandidates` | apps/explorer/src/store.ts:338-356 | The candidates that stay are those inside the new bounds of routes still planned |
| `Effects.PlanKeepsLedgers` | apps/explorer/src/store.ts:843-881 | The ledgers that stay are those still listed, as they were with all they held; the others are gone with all they held |
| `Effects.CommitWritesPending` | apps/explorer/src/store.ts:579-629 | If the ledger is pending it then holds exactly the commit's rows, attempts and reasons that occurred, under the commit's versions, and everything else is as it was; otherwise nothing changes |
| `Effects.FailureIsNoted` | apps/explorer/src/store.ts:631-641 | A ledger that is not indexed is marked failed with the first 1,000 characters of the error; nothing else changes |
| `Effects.RetryQueuesFailed` | apps/explorer/src/store.ts:643-653 | Exactly the failed ledgers wait again, with no attempts counted |
| `Effects.ResetEmptiesOutdated` | apps/explorer/src/store.ts:794-838 | A reset empties exactly the indexed ledgers of other rules or another fingerprint, which then wait unread; the others keep all they hold |
| `Effects.ReattributionRewrites` | apps/explorer/src/store.ts:731-786 | A re-attribution changes the registry version and the attribution of the rows under another version, and the version and attributed count of their ledgers; nothing else |
| `Effects.ReconcileKeepsExactly` | apps/explorer/src/store.ts:926-949 | A reconciliation leaves an indexed ledger indexed if and only if it was read under the given rules and fingerprint: with the same rows, attempts and reasons, and only registry and attribution new; any other indexed ledger is pending and holds nothing, failed ones are pending again, and pending ones as they were |
| `Keyset.Page` | apps/explorer/src/store.ts:733-744 | A page is the first rows after the last position, in order, of those still out of date |
| `Keyset.PageDone` | apps/explorer/src/store.ts:733-766 | Although its own updates shrink the query, after each page exactly the rows up to its last one are done, and a short page is the last |
| `Keyset.PageSize` | apps/explorer/src/store.ts:733-766 | A page names no row twice |
| `Keyset.OrderIs` | apps/explorer/src/store.ts:739-743 | Pages go by ledger, and inside a ledger by transaction |
| `ExplorerStore.Store.SyncRoutes` | apps/explorer/src/store.ts:314-397 | The store after it is the plan applied to the store before, its three totals tables the full group-by of the settlements; returns the number of ledgers removed |
| `ExplorerStore.Store.RecordWindow` | apps/explorer/src/store.ts:411-482 | The store takes `Index.RecordWindow`, with totals exact; it returns whether the page vouched for more than the checkpoint, from the route's start on, and how many candidates were new |
| `ExplorerStore.Store.InsertCandidates` | apps/explorer/src/store.ts:430-457 | Batched upserts store every ledger of the page once and count only those the route did not list |
| `ExplorerStore.Store.RestartRoute` | apps/explorer/src/store.ts:484-509 | The walk starts again, candidates and rows stay |
| `ExplorerStore.Store.CommitLedger` | apps/explorer/src/store.ts:574-629 | A pending ledger is written as a whole, its totals refreshed for the touched keys only, and every totals table is then the full group-by; any other ledger is left alone |
| `ExplorerStore.Store.Upsert` | apps/explorer/src/store.ts:655-720 | The batched inserts store all rows, over those of the same hashes, and all failed attempts; the totals are exact except of days, payers and sellers only replaced rows had, so exact when those are among the new ones |
| `ExplorerStore.Store.MarkFailed` | apps/explorer/src/store.ts:631-641 | Only a ledger that is not indexed is marked failed; nothing else changes |
| `ExplorerStore.Store.RetryFailed` | apps/explorer/src/store.ts:643-653 | Exactly the failed ledgers become pending; returns how many |
| `ExplorerStore.Store.RemoveOrphans` | apps/explorer/src/store.ts:843-881 | Exactly the ledgers no candidate names are removed, with everything that belongs to them, and the totals are exact |
| `ExplorerStore.Store.RemoveRows` | apps/explorer/src/store.ts:883-923 | The batched deletes remove exactly the rows of the given ledgers and refresh every day, payer and seller they touched |
| `ExplorerStore.Store.ResetStale` | apps/explorer/src/store.ts:789-841 | The indexed ledgers of other rules or another fingerprint lose their rows, slice by slice, and are read again; totals stay exact; returns how many they are |
| `ExplorerStore.Store.Reattribute` | apps/explorer/src/store.ts:722-787 | Every row of another registry version is rewritten exactly once, its ledger recounted and stamped, and all three totals tables are exact although only the daily ones were refreshed |
| `ExplorerStore.Store.ReattributeRows` | apps/explorer/src/store.ts:731-766 | The keyset loop ends, has written each out-of-date row exactly once and no other, and has collected exactly their days |
| `ExplorerStore.Store.RefreshAggregates` | apps/explorer/src/store.ts:1006-1022 | Of the days whose totals were stale, those refreshed are exact again; if all were, the table is the full group-by |
| `ExplorerStore.Store.RefreshAccountTotals` | apps/explorer/src/store.ts:964-1004 | Of the payers and sellers whose totals were stale, those refreshed, slice by slice, are exact again; if all were, both tables are the full group-by, of which `TotalsMeaning` says what each row tells |
| `ExplorerStore.ReconcileRegistry` | apps/explorer/src/store.ts:926-949 | The store after it is the reset, re-attributed and retried index, with exact totals; returns how many indexed ledgers were of other rules or another fingerprint, and how many of the others under another registry version |
| `Reconcile.ReconcileEqualsFresh` | apps/explorer/src/store.ts:926-949 | From any store whose contents are what classification gives: after a reconciliation, and once everything pending was committed in any order, the whole index equals that of an empty store which indexed the same candidates, in any order, under the new rules and registry |
| `WorldRuns.EveryReconciliationEqualsFresh` | apps/explorer/src/store.ts:926-949 | The same after every run of transactions from an empty store, with nothing assumed of what the run stored |
| `WorldRuns.EveryRunKeepsProvenance` | apps/explorer/src/store.ts:574-629 | In every state a run from an empty store reaches, everything stored is what classifying its ledger under the ledger's versions gives, and the index is consistent |
| `WorldRuns.EveryRunIsCovered` | apps/explorer/src/store.ts:314-397 | Every commit of such a run is admissible, so truthful discovery pages are all its coverage needs |
| `LateCommits.LateCommitsExactly` | apps/explorer/src/store.ts:731-780 | A re-attribution beside workers that commit under another registry version: once it commits, the rows that do not carry their ledger's version are exactly those written before the ledgers were stamped where its pages had passed, every count is exact, and the index is consistent if and only if there are no such rows |
| `LateCommits.NotRecounted` | apps/explorer/src/store.ts:767-780 | A ledger that carries the registry's version already is not recounted when rows of it are rewritten: its count stays exact exactly if as many are attributed as before |
| `LateCommits.MissedThenUncounted` | apps/explorer/src/store.ts:731-780 | A run that shows both: a ledger committed between the last page and the stamp, whose count is wrong after the next re-attribution under the same registry |
| `Reconcile.SameIndex` | apps/explorer/src/store.ts:926-949 | Two consistent indexes of the same ledgers under the same versions are equal |
| `Reconcile.ReconciledVersions` | apps/explorer/src/store.ts:789-841 | After a reconciliation every ledger is pending or indexed under the new rules, registry and fingerprint |
| `Reconcile.ReattributeKeepsProvenance` | apps/explorer/src/store.ts:722-787 | Re-attributed rows are those a fresh commit of their ledger would store |
| `Reconcile.CommitKeepsProvenance` | apps/explorer/src/store.ts:574-629 | After a commit, every stored row, failed attempt and exclusion count is one its ledger's commit would store now, and none is missing |
| `Reconcile.CommitAllReads` | apps/explorer/src/store.ts:574-629 | Committing a queue indexes every ledger in it and changes no route or candidate |
| `Coverage.DiscoveredThrough` | apps/explorer/src/store.ts:225-245 | One pass computes the bound: the least checkpoint of the open routes, else the greatest end, or none before the first ledger |
| `Coverage.ThroughIsWalked` | apps/explorer/src/store.ts:225-245 | Every route has walked each of its own ledgers up to the bound |
| `Coverage.ThroughIsGreatestUnlessHeldBack` | apps/explorer/src/store.ts:225-245 | With a route still open the bound is the greatest every route has walked to, except exactly when the open routes it comes from all start after the next ledger |
| `Coverage.HeldBackExample` | apps/explorer/src/store.ts:225-245 | Such a state exists: the answer is 20 while 99 is walked to |
| `Coverage.ThroughNeverFalls` | apps/explorer/src/store.ts:225-245 | Routes that walk on never lower the bound |
| `Coverage.PageWalksOn` | apps/explorer/src/store.ts:417-482 | A stored page walks its route on, in every bounded and unbounded run |
| `Progress.CheckpointIsFarthest` | apps/explorer/src/store.ts:459-469 | Through any run that plans nothing anew and does not restart the route, its checkpoint is the farthest of what it was and what its pages vouched for, each up to the route's end |
| `Progress.FinishedByPages` | apps/explorer/src/store.ts:459-469 | So a route is walked to its end if and only if it was, or some page vouched for its end |
| `Progress.BoundOfOpenRoutes` | apps/explorer/src/store.ts:225-245 | While a route is open, the covered bound is the least that an open route was walked to; none when that lies before every first ledger |
| `Progress.BoundOfFinishedRoutes` | apps/explorer/src/store.ts:225-245 | Once all routes are walked to their ends, the covered bound is the last of these ends |
| `Runs.EveryRunIsSound` | apps/explorer/src/store.ts:314-397 | After any sequence of transactions the index is consistent and each route's true activity between its first ledger and its checkpoint is stored, through bound changes, restarts and re-read pages |
| `Runs.SyncKeepsCovered` | apps/explorer/src/store.ts:338-390 | Changed bounds keep coverage sound: a start moved back unwalks the route, an end moved back caps the checkpoint |
| `Runs.RecordKeepsCovered` | apps/explorer/src/store.ts:417-482 | So does a page, when it vouches relative to the stored route |
| `Runs.CoveredLedgersAreKnown` | apps/explorer/src/store.ts:225-245 | No activity ledger of any route at or below the bound is unknown to the index |
| `Runs.PageNeverLowersCoverage` | apps/explorer/src/store.ts:417-482 | `recordWindow` never lowers the covered bound |
| `Reports.CoverageIsGreatest` | apps/explorer/src/api/report.ts:61-82 | A report covers the longest range up to the covered bound in which every stored ledger is indexed, lists its ledgers in order, and names the one that ends it early; there is none only when no ledger is covered or that range is empty |
| `Reports.ReportsAreComplete` | apps/explorer/src/api/report.ts:61-82 | After any run with truthful pages, a report lists every ledger in its range that a route's address was active in, and the store holds exactly what classifying it gives |
| `StoreLock.EveryInterleavingIsExact` | apps/explorer/src/store.ts:951-962 | However many commits of ledgers, removals and re-attributions interleave under the lock, statement by statement, in every state all three totals tables are the group-bys of the committed settlements, with no key twice; it takes that a row written over another has its day, payer and seller, and that a removal's look saw those of every row it deletes: `RemovalRuns.RemovalsAreExact` is the removal without that |
| `StoreLock.StepIsSafe` | apps/explorer/src/store.ts:951-962 | Under the same two conditions on the step, each single step of any transaction keeps that, and what every transaction in flight relies on |
| `StoreLock.ChangeCovered` | apps/explorer/src/store.ts:711-719 | Under the same two conditions, the days, payers and sellers each kind of change notes cover what it changes in all three tables, a re-attribution's days alone included |
| `StoreLock.InsertsMeetNoKey` | apps/explorer/src/store.ts:951-962 | Under the lock an insert never meets a key another transaction stored |
| `StoreLock.UpsertIsSeen` | apps/explorer/src/store.ts:655-720 | A transaction sees what it saw, with the rows it wrote |
| `StoreLock.DropIsSeen` | apps/explorer/src/store.ts:883-923 | It sees none of the stored rows of the ledgers it deleted |
| `StoreLock.RewriteIsSeen` | apps/explorer/src/store.ts:745-764 | It sees the rows of the page attributed again, and the others as they were |
| `StoreLock.CommitStoresWhatIsSeen` | apps/explorer/src/store.ts:951-962 | What it saw last is what is stored once it commits, and no other step changes what is stored |
| `Removals.RemovalIsExact` | apps/explorer/src/store.ts:883-923 | A removal that has refreshed all it noted leaves all three tables exact if and only if the rows it deletes had no day, payer or seller that its look at them, a statement before, did not see |
| `RemovalRuns.RemovalsAreExact` | apps/explorer/src/store.ts:883-923 | After any run of any transactions, of which only the removal need not have seen what it deletes: it can commit only once it has refreshed all it noted, and its commit leaves the tables exact if and only if the rows it deletes had no day, payer or seller its look did not see |
| `Prunes.PruneLeavesExactly` | apps/explorer/src/store.ts:843-881 | A prune deletes the orphans' rows and, statements later, the orphans themselves. Whatever ledgers workers commit in between, the rows and failed attempts left with no indexed ledger are exactly those committed to an orphan after its rows were deleted; every count stays exact; the index is consistent if and only if none of these is left, and is then that of the prune as one step |
| `Prunes.LateRowIsLeft` | apps/explorer/src/store.ts:870-881 | A run that leaves such a row |
| `Prunes.LeftForGood` | apps/explorer/src/store.ts:843-881 | Neither a later prune nor a later reset looks at a row whose ledger is gone |
| `Removals.LateRowIsMissed` | apps/explorer/src/store.ts:883-923 | A run in which a worker commits a ledger between a removal's look and its deletion: the row goes, and the totals keep counting it |
| `Removals.WorkerCommits` | apps/explorer/src/store.ts:574-720 | While nobody holds the lock, a worker's commit of new rows runs to its end |
| `TotalsLock.CommitRefreshes` | apps/explorer/src/store.ts:711-719 | A refresh of covering keys from committed plus own rows turns the committed totals into those after the commit |
| `TotalsLock.RefreshedKeysCover` | apps/explorer/src/store.ts:711-719 | The keys a commit or a reset refreshes cover everything it changes in all three tables |
| `TotalsLock.ReattributionCovers` | apps/explorer/src/store.ts:781-784 | The keys a re-attribution refreshes cover its change |
| `TotalsLock.WithoutLockKeysClash` | apps/explorer/src/store.ts:951-957 | Without the lock two commits that share a seller store its key twice |
| `ResponseRuns.EveryRunKeeps` | apps/rail402/src/server.ts:95-262 | After every event of every run: the clocked responses are exactly the longest all-ready prefix, clocks do not decrease, the timer is armed exactly when the head has a clock and for its deadline, no queue exceeds its limit, a connection is tracked exactly while its queue is non-empty, and followed = settled + dropped + pending |
| `ResponseRuns.NextKeeps` | apps/rail402/src/server.ts:112-209 | Each event keeps that |
| `Handling.HandlerKeepsConnection` | apps/rail402/src/server.ts:147-155 | While the oldest request of a connection has arrived as a whole and lacks its answer, every event, the beginning of a shutdown and the look after the parser included, keeps the connection with that request first, except that request being sent and one request too many on the connection |
| `Handling.LossIsAllowed` | apps/rail402/src/server.ts:112-209 | An event loses a request only when its connection's timer fires, when one request too many comes on it, or during a shutdown when the request was still arriving |
| `Handling.LostOnlyWhenAllowed` | apps/rail402/src/server.ts:95-262 | So in every run |
| `Handling.QueueEvolves` | apps/rail402/src/server.ts:166-209 | An event adds, marks or removes the one request it is about, starts clocks, and leaves the rest of every queue as it was |
| `Handling.ConnectionStays` | apps/rail402/src/server.ts:134-164 | An iff on when each event leaves a connection tracked, by what its queue then holds |
| `Handling.ConnectionJoins` | apps/rail402/src/server.ts:173-189 | A connection is tracked anew exactly when a request comes on it that is to be answered |
| `Handling.EventNotes` | apps/rail402/src/server.ts:112-209 | What each event does to the requests followed and settled, to the resets reported, with how many responses, and to clock, shutdown, sockets and pending looks |
| `Handling.ResetWhenDue` | apps/rail402/src/server.ts:105-109 | A timer may fire exactly when its connection's oldest response has been ready for the timeout, or in a shutdown for a second of it, and the clock does not pass that moment before |
| `Handling.ClosesWhenLetGo` | apps/rail402/src/server.ts:112-164 | A connection is closed, and its later requests ignored, exactly when it is let go of; one whose last response was sent is not ignored, and before a shutdown stays open |
| `ResponseInvariant.ClockedIsExact` | apps/rail402/src/server.ts:135-139 | Starting the clocks that are due makes the clocked responses exactly the longest ready prefix, in order |
| `ResponseInvariant.AnsweredQueue` | apps/rail402/src/server.ts:166-171 | An answer anywhere in the queue leaves it ready to be refreshed |
| `ResponseInvariant.SettledQueue` | apps/rail402/src/server.ts:193-198 | A response that leaves from anywhere in the queue leaves it ready to be refreshed |
| `Shutdown.ShutdownNeverExtendsDeadline` | apps/rail402/src/server.ts:105-109 | Beginning a shutdown extends no response's deadline |
| `Shutdown.ShutdownNeverDelaysTimer` | apps/rail402/src/server.ts:251-262 | On each connection that stays, the timer fires no later than before the shutdown |
| `Shutdown.ConnectionsEnd` | apps/rail402/src/server.ts:95-262 | During a shutdown, with requests still arriving and being answered, every connection has ended `SHUTDOWN_WRITE_MS` after work on it was last going on: a complete request without its answer, or an answer just given; whatever its client does, and whatever goes on on the others |
| `Shutdown.ShutdownEnds` | apps/rail402/src/server.ts:251-262 | So once every handler has answered, at or after the close, every connection has ended by that time plus `SHUTDOWN_WRITE_MS` |
| `Shutdown.TimerBoundsTheClock` | apps/rail402/src/server.ts:154-163 | On a connection with no work going on a timer fires before the clock can pass that bound |
| `Shutdown.StepKeepsBound` | apps/rail402/src/server.ts:134-164 | Every event, on this connection or another, keeps the bound on its clocks by the last work on it |
| `ResponseServer.Server.StartClocks` | apps/rail402/src/server.ts:135-139 | The in-place loop gives exactly the clocked queue |
| `ResponseServer.Server.RefreshConnection` | apps/rail402/src/server.ts:133-164 | The handler takes the step `ResponseQueue.Refresh`, of which `Handling` says what it keeps and loses: clocks, timer, an emptied connection let go, a still arriving head dropped in shutdown |
| `ResponseServer.Server.FollowRequest` | apps/rail402/src/server.ts:173-209 | A request is followed, reset for its backlog or ignored as specified, and the invariant is kept |
| `ResponseServer.Server.AnswerGiven` | apps/rail402/src/server.ts:166-171 | An answer takes the specified step and keeps the invariant |
| `ResponseServer.Server.ResponseSettled` | apps/rail402/src/server.ts:193-201 | A settled response takes the specified step and keeps the invariant |
| `ResponseServer.Server.TimerFired` | apps/rail402/src/server.ts:156-161 | A timer that fires resets its connection and keeps the invariant |
| `ResponseServer.Server.ParserDone` | apps/rail402/src/server.ts:202-207 | The look after the parser takes the specified step and keeps the invariant |
| `ResponseServer.Server.Close` | apps/rail402/src/server.ts:251-262 | Closing ends idle connections and looks at every other one, in any order of theirs; those with a handler at work stay (`Handling.HandlerKeepsConnection`) |
| `Crc.StepsAreInjective` | deploy/stellar-keys.ts:33-41 | Only the empty register steps to the empty register |
| `Crc.RunIsLinear` | deploy/stellar-keys.ts:33-41 | The checksum of a sum of messages is the sum of the checksums |
| `Crc.RunAtOnce` | deploy/stellar-keys.ts:36-39 | Laying up to 16 bits over the register and stepping equals feeding them bit by bit |
| `Crc.BurstsAreDetected` | deploy/stellar-keys.ts:33-41 | Two messages of any length that differ only within 16 consecutive bits have different checksums |
| `Crc.LastNibbleIsDetected` | deploy/stellar-keys.ts:33-41 | Two messages that differ only in their last four bits differ in the lowest four bits of their checksums |
| `StrkeyProgram.Crc16Xmodem` | deploy/stellar-keys.ts:33-41 | The byte-wise loop computes the bit-serial CRC-16/XMODEM of the bytes |
| `StrkeyProgram.ChecksumOfOne` | deploy/stellar-keys.ts:33-41 | The checksum of the byte 1 is 0x1021 |
| `StrkeyProgram.Base32` | deploy/stellar-keys.ts:43-57 | The loop writes the Base32 of section 6 of RFC 4648, unpadded, for bytes of any number, although its accumulator wraps at 32 bits |
| `StrkeyProgram.ByteTaken` | deploy/stellar-keys.ts:48-49 | Taking in a byte keeps the bits not yet written in the low end of the wrapped accumulator |
| `StrkeyProgram.EncodeStrKey` | deploy/stellar-keys.ts:59-63 | The text is the strkey of the version and payload |
| `StrkeyProgram.PackBytes` | deploy/stellar-keys.ts:90-95 | The buffer is filled with exactly the whole bytes the bits spell; a few last bits are dropped |
| `StrkeyProgram.DecodeStrKey` | deploy/stellar-keys.ts:83-102 | The loops decide and decode as specified, for every text: letters outside the alphabet, wrong lengths, versions and checksums are refused |
| `StrkeyLaws.DecodingInvertsEncoding` | deploy/stellar-keys.ts:59-102 | Every 32-byte payload under every version byte is decoded back, and refused under any other version; one more letter changes nothing |
| `StrkeyLaws.EncodingInvertsDecoding` | deploy/stellar-keys.ts:83-102 | What is accepted has 56 or 57 letters, and its first 56 are the encoding of what was decoded |
| `StrkeyLaws.AcceptedExactly` | deploy/stellar-keys.ts:83-102 | A text is accepted exactly if it is a key's text, or that and one more letter |
| `StrkeyLaws.RefusedAs` | deploy/stellar-keys.ts:83-102 | A text is refused as no strkey exactly if a letter lies outside `A`-`Z`, `2`-`7`, and as not valid when it is refused otherwise |
| `StrkeyLaws.KeySpells` | deploy/stellar-keys.ts:59-63 | A key's text spells its version, its payload and their checksum, the lower byte first |
| `StrkeyLaws.ChangesAreDetected` | deploy/stellar-keys.ts:83-102 | Every text that differs from a key's text in one letter, also the one that holds body and checksum bits, or only within three adjacent letters of the first 52, is refused under every version |
| `StrkeyLaws.SealedFarApart` | deploy/stellar-keys.ts:97-101 | Two sealed bodies never differ just within one letter's bits |
| `Prefetch.ReadingIsContiguous` | apps/explorer/src/pipeline.ts:99-120 | Reading one by one hands over `from`, `from + 1`, … while they verify; at the first ledger that is not handed over, it ends as aborted exactly if aborted there, else without an error exactly if the source has none, with a read error exactly if it could not be read, and as rejected exactly if it does not verify |
| `Prefetch.Reader.Run` | apps/explorer/src/pipeline.ts:67-126 | For any order of answers the prefetching read hands over and ends as reading one by one does, which `ReadingIsContiguous` says; with a budget that is not positive it ends at once, without an error |
| `Prefetch.Reader.Fill` | apps/explorer/src/pipeline.ts:81-98 | Requests are sent until the range, the concurrency or the budget is used up, and none past that |
| `Prefetch.Reader.Arrive` | apps/explorer/src/pipeline.ts:87-93 | An answer counts its bytes while its ledger is in the window, and all bytes counted are of such answers |
| `Prefetch.Reader.Take` | apps/explorer/src/pipeline.ts:104-107 | The awaited ledger leaves the window and its bytes are let go |
| `Prefetch.RequestedKeeps` | apps/explorer/src/pipeline.ts:81-98 | A request keeps the window exactly the ledgers from the awaited one to the next, and what is held and under way within bounds |
| `Prefetch.ArrivedKeeps` | apps/explorer/src/pipeline.ts:87-93 | So does an answer, in any order |
| `Prefetch.HeldIsBounded` | apps/explorer/src/pipeline.ts:50-56 | What is held stays below the budget plus the largest ledger for each request allowed in flight |
| `TokenBuckets.RunIsBounded` | apps/rail402/src/rate-limit.ts:67-80 | In any run, what a key is let through less what it is given back is at most what a bucket holds plus what flowed in meanwhile |
| `TokenBuckets.FlowIsProduct` | apps/rail402/src/rate-limit.ts:57-61 | What flows in is the rate times the milliseconds |
| `TokenBuckets.LevelIs` | apps/rail402/src/rate-limit.ts:57-66 | A bucket starts full, and holds what it held when touched plus the rate times the milliseconds since, up to its capacity |
| `TokenBuckets.TakenLevel` | apps/rail402/src/rate-limit.ts:67-80 | A take takes what it asks for exactly if so much is there, from that bucket alone |
| `TokenBuckets.SweptExactly` | apps/rail402/src/rate-limit.ts:87-94 | A sweep drops exactly the full buckets |
| `TokenBuckets.WaitIsLeast` | apps/rail402/src/rate-limit.ts:67-80 | The wait answered is the least whole number of seconds after which the take succeeds |
| `TokenBuckets.SameAnswers` | apps/rail402/src/rate-limit.ts:87-94 | Tables with the same levels answer every run alike |
| `TokenBuckets.SweepsAreInvisible` | apps/rail402/src/rate-limit.ts:87-94 | Sweeping, whenever and however often, changes no later answer |
| `RateLimiters.RateLimiter.Take` | apps/rail402/src/rate-limit.ts:67-80 | Takes a token at the level the key has, or answers the wait; a limit that is not positive allows everything |
| `RateLimiters.RateLimiter.Sweep` | apps/rail402/src/rate-limit.ts:87-94 | Drops exactly the buckets that are full |
| `RateLimiters.MinuteFillsBucket` | apps/rail402/src/rate-limit.ts:52-61 | Of a limit a minute, a bucket holds as many, and an empty one is full after a minute |
| `RateLimiters.RefundingLimiter.Take` | apps/playground/src/limits.ts:39-48 | Takes a token at the level the key has, or answers a wait of at least a second |
| `RateLimiters.RefundingLimiter.Refund` | apps/playground/src/limits.ts:50-54 | Gives one token back, up to the capacity, to a key that has a bucket |
| `RateLimiters.RefundingLimiter.Peek` | apps/playground/src/limits.ts:33-37 | The wait a take would answer, without taking |
| `RateLimiters.RefundingLimiter.Sweep` | apps/playground/src/limits.ts:56-62 | Drops exactly the buckets that are full |
| `RateLimiters.RefundUndoes` | apps/playground/src/limits.ts:177-182 | A refund at the moment of the take restores every level |
| `SharedRates.SharedRate.Take` | apps/playground/src/limits.ts:174-185 | A token is taken from the network's share and the pool, or no bucket's level changes, whichever refuses; the answer is the network's wait, or else the pool's |
| `SharedRates.GrantTakesBoth` | apps/playground/src/limits.ts:174-185 | A granted take takes one token from the network's bucket and one from the pool's, and none from another |
| `SharedRates.SucceedsExactly` | apps/playground/src/limits.ts:174-185 | A client that takes again later succeeds exactly once both waits are over |
| `SharedRates.LeastExactly` | apps/playground/src/limits.ts:174-185 | The answer is the least number of seconds after which the take succeeds if and only if the network's own wait is 0 or no shorter than the pool's |
| `SharedRates.AnswerTooShort` | apps/playground/src/limits.ts:174-185 | A run of nine networks over eight tokens a minute in which one is told 6 seconds, and is refused again after them, for the pool needs 8 |
| `Pools.FairShare` | apps/playground/src/limits.ts:158-160 | A share is at least 1 and what one client may take, no more than the pool, and no more than an eighth of it unless one client may take more |
| `CostBuckets.CostBucket.Take` | apps/rail402/src/discovery.ts:382-402 | Spends the cost, or the whole bucket when it costs more, at the size given, or answers the wait |
| `CostBuckets.CostBucket.Sweep` | apps/rail402/src/discovery.ts:404-410 | Drops exactly the buckets that are full at the size they were last taken with |
| `CostBuckets.CostTakeSpends` | apps/rail402/src/discovery.ts:382-402 | A take spends its cost, capped at the size, exactly if the bucket holds so much at that size, answers 0 exactly then, and notes the size |
| `CostBuckets.CostSweepDrops` | apps/rail402/src/discovery.ts:404-410 | A sweep keeps exactly the buckets that have not flowed full at the size noted for them |
| `CostBuckets.CostRunIsBounded` | apps/rail402/src/discovery.ts:382-410 | With one size a key, any run of spendings and sweeps lets a key spend at most what its bucket holds and what flowed in |
| `CostBuckets.AnswersOfOneSize` | apps/rail402/src/discovery.ts:382-410 | With one size a key, a run of spendings and sweeps gives the answers of plain buckets of those sizes |
| `CostBuckets.CostSweepsAreInvisible` | apps/rail402/src/discovery.ts:404-410 | With one size a key, sweeping, whenever and however often, changes no answer |
| `CostBuckets.SweepShowsExactly` | apps/rail402/src/discovery.ts:404-410 | With sizes that change, a take finds the swept bucket as if it had not been swept exactly if it was full at that size too, as it always was at a smaller one |
| `CostBuckets.SweepShowsExample` | apps/rail402/src/discovery.ts:404-410 | A bucket of 60, swept and then taken with 120, is found full instead of half full |
| `SellerLimits.NewestUsed` | apps/demo-seller/src/limits.ts:84-94 | Dropping one key at a time keeps exactly the `max` keys used last |
| `SellerLimits.Buckets.Take` | apps/demo-seller/src/limits.ts:84-94 | Takes a token, whether the key holds one or not; the keys held are those used last, every bucket kept is as if none had been forgotten, and none is overdrawn if the key held a token |
| `SellerLimits.Buckets.Wait` | apps/demo-seller/src/limits.ts:78-82 | The least whole seconds until the key holds a token |
| `SellerLimits.PaidRequestLimits.Admit` | apps/demo-seller/src/limits.ts:132-144 | A payment is taken out of both limits, or out of neither; answers the longer wait |
| `SellerLimits.PaidRequestLimits.AnswerIsLeast` | apps/demo-seller/src/limits.ts:132-144 | That is the least whole number of seconds after which both limits hold a token, and so it is admitted |
| `SellerLimits.AdmissionsAreBounded` | apps/demo-seller/src/limits.ts:136-144 | All admissions between any two, from whichever clients and whichever were forgotten, obey the global limit |
| `Gates.Gate.Enter` | apps/playground/src/limits.ts:88-101 | A slot is given exactly while the key has fewer than its limit |
| `Gates.Gate.Release` | apps/playground/src/limits.ts:94-100 | Giving a slot back again changes nothing |
| `Gates.AllCounted` | apps/playground/src/limits.ts:79-106 | The counts of all keys add up to the slots in flight |
| `Gates.SharedGate.Enter` | apps/playground/src/limits.ts:244-257 | A slot is given exactly while neither the network nor the pool is full, in both or in neither |
| `Gates.SharedGate.Release` | apps/playground/src/limits.ts:253-256 | A release gives back both once, however often it is called |
| `Gates.SharedGate.InFlightIsSum` | apps/playground/src/limits.ts:234-262 | The pool's count is the sum over networks, each within the fair share of the pool's limit and the client's |
| `Gates.SharedGate.SharesThatFitLeaveRoom` | apps/playground/src/limits.ts:244-257 | When the networks with a slot open, and this one, could fill their shares together without filling the pool, a network below its share finds the pool with room |
| `Gates.SharedGate.EightNetworksShare` | apps/playground/src/limits.ts:152-160 | So, where one client may take no more than an eighth of the pool, a network below its share is never refused for the other seven |
| `Admission.DiscoveryAdmission.Enter` | apps/rail402/src/discovery.ts:187-208 | Admitted, refused or queued as slots and queue allow; each request is answered at most once |
| `Admission.DiscoveryAdmission.Leave` | apps/rail402/src/discovery.ts:210-216 | The turn goes to the request that waits longest, else to the free slots; requests wait only while every slot is taken |
| `Admission.DiscoveryAdmission.TimeOut` | apps/rail402/src/discovery.ts:201-205 | A request whose time is up is refused once and leaves the queue in order |
| `Admission.InTurnHanded` | apps/rail402/src/discovery.ts:210-216 | Whoever is handed a turn came before everyone who still waits |
| `Admission.Lane.Arrive` | apps/rail402/src/app.ts:319-346 | A client at its limit is turned away before it takes a place; otherwise the request is admitted exactly if a slot is free, queued exactly if none is and the queue has room, and shed else; it counts toward its client only while admitted or queued, and nobody else's place changes |
| `Admission.Lane.DoorIs` | apps/rail402/src/app.ts:319-346 | Exactly when a request is limited, admitted, queued and shed, by its client's share, the free slots and the queue |
| `Admission.Lane.TimeOut` | apps/rail402/src/app.ts:338-346 | A request that waited its longest leaves its client's share |
| `Admission.Lane.Sent` | apps/rail402/src/app.ts:352-356 | A response handed to its connection frees its slot for the next request and its client's share |
| `Admission.Lane.SharesAreExact` | apps/rail402/src/app.ts:315-336 | Each client's share is what it has running or waiting, at most its limit; all shares together are no more than the lane holds |
| `CounterWindows.RecordKeeps` | apps/rail402/src/health.ts:760-771 | Trimming and then recording keeps what recording in the whole history and trimming keeps |
| `CounterWindows.ReadIsExact` | apps/rail402/src/health.ts:789-796 | A trimmed series begins with the baseline of the whole history exactly while its second sample is less than an hour old, and so at every record; while it does, the increase read is the true one |
| `CounterWindows.IncreaseIsExact` | apps/rail402/src/health.ts:789-796 | For any values at all, the increase read later is the true one if and only if the series is fresh or the newest sample an hour old gives the same increase as the one read against |
| `CounterWindows.RisingIncreaseIsExact` | apps/rail402/src/health.ts:789-796 | For a counter that does not fall: if and only if the series is fresh or the counter has not moved between the sample read against and the newest one an hour old |
| `CounterWindows.StaleReadExample` | apps/rail402/src/health.ts:789-796 | A series that is not read in time: 4 is answered an hour after the counter last moved, and the true increase is 0 |
| `CounterWindows.SeriesIsBounded` | apps/rail402/src/health.ts:769-770 | A series never holds more than 62 samples |
| `CounterWindows.Windows.Record` | apps/rail402/src/health.ts:760-771 | The history keeps the samples of all other minutes, and of this one the new sample alone; the loop keeps the series that history, trimmed |
| `CounterWindows.Windows.IncreaseOf` | apps/rail402/src/health.ts:789-796 | The increase read is that over everything ever recorded exactly when the series is fresh, as at the last record, or the stale baseline gives the same |
| `Paging.ItemsWithin` | apps/rail402/src/discovery.ts:424-431 | The most items, in order, that fit the budget, and at least one |
| `Paging.WeightAddsUp` | apps/rail402/src/discovery.ts:424-428 | Each item weighs its bytes and one separator, and items together what they weigh apart |
| `Paging.FitsIsUnique` | apps/rail402/src/discovery.ts:420-431 | Only one number of items is so |
| `Paging.FollowedIsCatalog` | apps/rail402/src/discovery.ts:555-587 | Following `offset + limit`, with any limits asked for, gives every item once and in order, up to where a page would begin past the largest offset allowed |
| `Paging.ListPageIsFull` | apps/rail402/src/discovery.ts:555-587 | A page holds as many items as were asked for, up to 100, and are left, and says that limit; if these do not fit it holds, and says, as many as do |
| `Paging.VersionsPageIsFull` | apps/rail402/src/discovery.ts:600-631 | So does a page of versions |
| `Paging.EnumerationIsComplete` | apps/rail402/src/discovery.ts:44-50 | Whatever limits are asked for, the pages give the whole catalog if and only if its last item lies at an offset a request may ask for |
| `Paging.CompleteExactly` | apps/rail402/src/discovery.ts:555-587 | Pages of given limits give the whole catalog if and only if none begins past the largest offset and before the end |
| `Paging.EnumerationEnds` | apps/rail402/src/discovery.ts:44-50 | No limits reach the end of a catalog longer than the largest offset and a page |
| `Paging.LastItemIsLeftOut` | apps/rail402/src/discovery.ts:44-50 | Of 1,000,002 items, pages of one leave out the last |
| `Paging.FollowedVersionsAreHistory` | apps/rail402/src/discovery.ts:600-631 | Following `next` gives every later version once and in order |
| `KeyFile.AccessKeys.DoReload` | apps/rail402/src/access.ts:362-385 | A reload takes the specified step for every look and every read, also when the file changes between the two |
| `KeyFile.AccessKeys.constructor` | apps/rail402/src/access.ts:329-344 | A good file is in force from the start, with its digest; a bad one leaves the configured keys and marks nothing as seen |
| `KeyFile.AccessKeys.Apply` | apps/rail402/src/access.ts:387-408 | A refused file changes nothing and is named by its own facts; a good one gives keys, digest and facts from one read |
| `KeyFile.RunKeeps` | apps/rail402/src/access.ts:387-408 | In every run the keys and the digest come from one text, the configured keys are in force beside it, and what is marked as seen is the last file read |
| `KeyFile.ReloadDoes` | apps/rail402/src/access.ts:362-408 | A reload changes nothing when the file looks as it did; puts a good file in force beside the configured keys; and for any other reports a failure, keeps keys and digest, and remembers which file it was |
| `KeyFile.StartDoes` | apps/rail402/src/access.ts:329-344 | A good file is in force from the start, beside the configured keys; any other leaves the keys configured and marks nothing as seen |
| `KeyFile.ReloadKeeps` | apps/rail402/src/access.ts:362-408 | A file that is not valid changes neither the keys nor the digest |
| `KeyFile.NeverSticks` | apps/rail402/src/access.ts:356-385 | After any history, a good file that holds still during a reload is in force after it, when equal facts mean the same content and mode |
| `KeyFile.InForceExactly` | apps/rail402/src/access.ts:367-368 | Without that assumption: exactly unless an unforced reload takes it for the file seen last and the keys in force are others |
| `KeyFile.SticksAfterChmod` | apps/rail402/src/access.ts:367-381 | A file refused for its mode and put right by a change of mode alone is read again only by a forced reload |
| `Ipv6.GroupsInvertSpelling` | apps/rail402/src/rate-limit.ts:136-149 | The groups read from any spelling of an address are those it stands for: any placement of `::`, leading zeros, a dotted tail |
| `Ipv6.KeysAgreeExactly` | apps/rail402/src/rate-limit.ts:116-134 | Two addresses share a key exactly when both map one IPv4 address, or neither maps one and their prefixes agree |
| `Ipv6.UndottedIs` | apps/rail402/src/rate-limit.ts:139-143 | A dotted tail behind anything that ends in a colon is found where it begins, and becomes two groups |
| `Ipv6.PrefixesByGroups` | apps/playground/src/limits.ts:285-295 | The /64, /56 and /48 prefixes agree exactly when their groups do, the last one by half for /56 |
| `Ipv6.ClientsShareNetworks` | apps/playground/src/limits.ts:297-320 | Clients with equal client keys have equal network keys, whether their addresses are IPv4, IPv6 in any spelling, or none |
| `Ipv6.SpellingsShareKeys` | apps/playground/src/limits.ts:297-320 | Two spellings have one key exactly when the addresses they stand for both map one IPv4 address, or neither maps one and their prefixes agree |
| `Ipv6.MappedKeyIsIpv4` | apps/rail402/src/rate-limit.ts:116-129 | A mapped address has the key of its IPv4 address |

## Left out

- Explorer tables: the asset code and issuer columns, anchors, header fields of a ledger (hash, close time, source) and `updated_at`; they are copied and never read back by what is modelled.
- `deferLedger` and `retry_at`: a deferred ledger stays pending, which is all the index depends on.
- Network and epoch: every statement is scoped to one pair, so the model is of one.
- Transaction hashes are numbers, so that aggregates over them can be computed; only their equality matters.
- SQL: a statement is one step, and sees what was committed before it. That row locks keep overlapping transactions to different settlements is a condition on each change; deadlocks and lock timeouts are not modelled.
- `loadRegistry`, pages and the rebuild of a report: easy copies. Of a report, only its range and ledgers are modelled.
- StoreLock.EveryInterleavingIsExact: a row written over another has its day, payer and seller, and a deletion removes only rows whose day, payer and seller its look saw; `Removals` and `RemovalRuns` are about deletions that do not. A refresh of one table is one deletion and one insert, not one for each slice.
- StoreLock.StepIsSafe: the same two conditions on the step.
- StoreLock.ChangeCovered: the same two conditions on the change.
- RemovalRuns.RemovalsAreExact: one removal whose look may have missed rows, among others that are as in `StoreLock`.
- Prunes.PruneLeavesExactly: one prune, beside commits of ledgers, each of them one step. It holds its routes locked, so no page of them is recorded meanwhile.
- Runs, WorldRuns, Reconcile: each transaction is one step; what re-attribution and removal do beside others is in `StoreLock`, `Removals`, `RemovalRuns`, `Prunes` and `LateCommits`.
- LateCommits.LateCommitsExactly: reading a page and rewriting its rows is one step, and no other transaction removes rows or rewrites them meanwhile.
- Server: HTTP, the `dispatched` flag, response headers and 417 answers are left out; a request followed is one event, its answer another. Timers and `setImmediate` are their firing events.
- Shutdown.ConnectionsEnd: a handler that does not answer keeps its connection; that handlers answer is up to them.
- ResponseServer: the times of one event are one reading of the clock.
- Strkey: key pairs, signatures, `signEnvelope`, key files and their tags; Ed25519 and SHA-256 are outside the model.
- Strkey texts are sequences of characters; one outside the alphabet refuses the text wherever it is, also a pair of code units.
- Prefetch: verifying, classifying and the hash chain are one verdict for each ledger; `indexSingle` is straight-line.
- SharedRates.SharedRate: its `refund` and `sweep` are those of both limiters.
- Limiters: tokens are real numbers, so rounding of floating-point levels is not modelled; times are whole milliseconds. Rates are positive, as the configuration demands, except the service's own, which may be off.
- `LocalKeyedRateLimiter`, `LocalCallerRateLimiter` and `KeyedSharedRate`: the same limiters under composed keys.
- `NetworkGate`, `DailyBudget` and the cost of each discovery route: small and easy.
- Admission.Lane: one lane; two lanes share nothing. Metrics and the reply of a refused request are left out.
- `bucketQuantile` and the buckets of histograms: arithmetic in floating point.
- Paging: filters, cursors of search and `asOf` are part of the fixed catalog; item sizes are given.
- KeyFile: what makes a text valid is left to `parse`; the digest, timers and signals are inputs.
- Ipv6: brackets, zones, ports and IPv4 validation happen before; the demo seller's variant, which lets the URL parser write the address first, is not modelled.
- `AccessKeys.decide`, configuration, the classifier, the settlement engine, the catalog and search are not part of this model.
