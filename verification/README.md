# Wallet state that must agree with something simple

This project models the parts of a multi-coin wallet and swap engine that keep redundant, delayed or
derived state, and proves that each of them agrees with a plain description of what it stands for.

- `Ledger`, `RecentlySpent`, `StaleSnapshots`: the cache of recently spent outpoints, held against a log of sends and receipts, the true unspent set after any prefix of it, and who descends from whom.
- `Mountains`, `MountainArray`, `MountainLayout`, `TreeView`, `Appending`, `Truncating`, `Loading`, `HistoryRoot`, `HistoryTree`: the chain-history tree (a Merkle mountain range as in ZIP 221): its loader and the partially loaded tree that appends and truncates leaves, held against lists of perfect binary trees of strictly falling height.
- `SaplingScanner`: the resumable scan that rebuilds the Sapling commitment tree, held against the commitments of all blocks below a height, in order.
- `TimeCache`: the expiring cache with a lazily purged queue, held against a map that never purges and skips what has expired.
- `RefreshedResource`: rate-limited refreshing with late and out-of-order finishes, held against the list of accepted time intervals.
- `SendAll`: forwarding a stream into a sink by polling, held against one list: received, buffered, still to come.
- `JsonRpcBatch`: matching batch responses to requests, held against the last response per id.
- `DuplexMutex`: a compare-and-swap lock for threads and tasks, held against critical sections one after the other.
- `KmdInterest`: Komodo's accrued interest, held against minutes between a start and a stop time.
- `TxHistoryStorage`, `Paging`, `HistoryRequest`: the transaction history tables, their pages and the request that combines both, held against the one ordering of the stored rows.
- `RunLength`: the check on repeated characters, held against windows of equal characters.

Objects that the code updates in place are classes, and its loops are loops. A class carries a `Valid()`
predicate or a `View()` value, and its methods are proved against functions and predicates on plain values,
about which the main results are proved as lemmas. `hide` keeps definitions a proof does not need out of it.

Assumptions about the world, stated in `requires` clauses:

- Sent transactions have new hashes, spend at least one coin of the current true unspent set, and have output
  indices that fit 32 bits; received coins come from new transactions (`Ledger.Legal`).
- Leaves of a history tree are consecutive blocks of one consensus branch, none of them at height 0, where the
  leaf count would underflow (`TreeView.Dated`). A node's hash is kept as the pair it hashes, so hashing is
  collision free by construction; where a root is said to commit to its blocks, a block's own hash is also never
  the hash of two children (`HistoryRoot.Blocks`).
- The node behind the scanner is honest and does not reorganise: a block's root is the root behind it, a zero
  root means no outputs, a missing root says nothing; no outputs exist below the activation height, and a
  checkpoint's tree is the tree behind its block (`SaplingScanner.Honest`, `SaplingScanner.Configured`).
  Answers of the node come as a finite list; the process ends where the list ends, also in the middle of a batch.
- Clocks do not run backwards. Ticks of the refreshed resource are atomic.

## Model

| member | source | states |
|---|---|---|
| `RecentlySpent.RecentlySpentOutPoints.constructor` | mm2src/coins/utxo.rs:346-352 | the new cache is empty and remembers the own script |
| `RecentlySpent.RecentlySpentOutPoints.AddSpent` | mm2src/coins/utxo.rs:354-400 | in whatever order the sets are walked, the nested loops end in one and the same cache: every known ancestor of a spent input points at the new own outputs instead of the inputs, every input points at them, and each new output points back at the inputs and all those ancestors; what an input points at is read off the transaction: own output `i` with outpoint index `i` |
| `Ledger.OwnOutputsAre` | mm2src/coins/utxo.rs:356-372 | the own outputs are exactly the outputs with the own script, output `i` under the outpoint index `i`, cut to 32 bits |
| `RecentlySpent.RecentlySpentOutPoints.ReplaceSpentOutputsWithCache` | mm2src/coins/utxo.rs:402-426 | the recursion ends after at most one replacing round; the result is the listed outputs that are not spent, with their heights, and the replacements of the others, without height |
| `RecentlySpent.RoundIsFinal` | mm2src/coins/utxo.rs:402-426 | after one round nothing listed is spent and no replacement is left to make |
| `StaleSnapshots.CacheMatchesLedger` | mm2src/coins/utxo.rs:336-400 | in every reachable state the keys are exactly the spent coins, the set stored for a spent coin is exactly its live descendants, and on live coins the two maps index each other both ways |
| `StaleSnapshots.ReachableIsSettled` | mm2src/coins/utxo.rs:402-426 | in every reachable state no stored replacement is itself spent, which is what the substitution needs to end |
| `StaleSnapshots.ResolveAnyList` | mm2src/coins/utxo.rs:402-426 | for any list whatsoever: unspent coins stay, live descendants of spent ones are added, nothing known to be spent is returned |
| `StaleSnapshots.StaleSnapshotRepaired` | mm2src/coins/utxo.rs:333-427 | for every run and every prefix the daemon may have indexed, resolving the true unspent set of the prefix gives the current true unspent set, less exactly the coins that reached the wallet later; with sends only, nothing is missing |
| `StaleSnapshots.UnseenIsUnlinked` | mm2src/coins/utxo.rs:354-426 | the coins a snapshot cannot lead to are exactly the live coins that neither are in it nor descend from it |
| `StaleSnapshots.ListedTwiceIff` | mm2src/coins/utxo.rs:323-331 | for any list, the returned set holds two entries of one coin exactly when an unspent coin was listed with two entries, or a live coin was listed with a height together with a spent ancestor; a coin listed as not yet mined equals its replacement and comes back once |
| `StaleSnapshots.SnapshotNeverListedTwice` | mm2src/coins/utxo.rs:402-426 | a list of any true snapshot with one entry per coin comes back with one entry per coin |
| `StaleSnapshots.ChangeListedWithInput` | mm2src/coins/utxo.rs:402-426 | a concrete list with a spent coin and its change: the change comes back twice exactly when the daemon gives it a height |
| `StaleSnapshots.Replay` | mm2src/coins/utxo.rs:354-400 | sending every transaction of a log through the cache object leaves it in the state the proofs speak of |
| `StaleSnapshots.RepairAfter` | mm2src/coins/utxo.rs:333-427 | the object itself, after any legal log, repairs a list of any prefix's unspent coins to the present ones less those that arrived later, one entry per coin |
| `StaleSnapshots.OwnOutputsTotal` | mm2src/coins/utxo.rs:356-372 | with 32-bit indices the set of own outputs is worth the sum read off the transaction |
| `StaleSnapshots.ValueConserved` | mm2src/coins/utxo.rs:354-426 | the resolved set plus what the snapshot cannot lead to is worth the snapshot plus the net flow of all later events; shared descendants count once |
| `Mountains.PushRange` | librustzcash-patched/zcash_history/src/tree.rs:148-174 | carrying a tree through the peaks leaves peaks of strictly falling height |
| `Mountains.PushArray` | librustzcash-patched/zcash_history/src/tree.rs:138-174 | an append only adds at the end of the array: the leaf, then the merged nodes in order |
| `Mountains.PopAfterPush` | librustzcash-patched/zcash_history/src/tree.rs:215-264 | truncating undoes appending |
| `Mountains.PushAfterPop` | librustzcash-patched/zcash_history/src/tree.rs:138-264 | appending the removed leaf undoes truncating |
| `Mountains.PopLeaves` | librustzcash-patched/zcash_history/src/tree.rs:211-264 | truncation drops exactly the last leaf |
| `Mountains.PopArray` | librustzcash-patched/zcash_history/src/tree.rs:211-264 | the array loses exactly the last peak's height plus one nodes, all at its end |
| `Mountains.RangeIsBuild` | librustzcash-patched/zcash_history/src/tree.rs:138-264 | peaks are determined by the leaves alone, so no history of appends and truncations shows |
| `Mountains.Canonical` | librustzcash-patched/zcash_history/src/tree.rs:138-190 | peaks of falling height over given leaves are exactly what appending those leaves one by one builds |
| `MountainArray.FindPeaks` | librustzcash-patched/zcash_history/examples/long.rs:22-55 | for every non-empty array the peak loop ends without underflow and drafts, one behind the other, the greedily chosen mountains |
| `MountainArray.LoadSlope` | librustzcash-patched/zcash_history/examples/long.rs:57-74 | the slope loop drafts both children of every inner node on the right slope |
| `MountainArray.DraftNodes` | librustzcash-patched/zcash_history/examples/long.rs:22-79 | both loops, the second started at the last peak found by the first |
| `MountainLayout.GreedyExact` | librustzcash-patched/zcash_history/examples/long.rs:33-55 | on the length of any list of falling heights the greedy choice finds exactly that list |
| `MountainLayout.BitsAreTheSetBits` | librustzcash-patched/zcash_history/examples/long.rs:25-55 | the list of bit positions used below holds exactly the set bits, as many as the popcount |
| `MountainLayout.PeaksAreTheSetBits` | librustzcash-patched/zcash_history/examples/long.rs:25-55 | for a legal length the peaks are one per set bit of the leaf count, highest first, and cover every position |
| `MountainLayout.TilesIffLegalLength` | librustzcash-patched/zcash_history/examples/long.rs:22-55 | peaks of strictly falling height tile the array exactly when its length is `2L - popcount(L)` for some L |
| `MountainLayout.ArrayLength` | librustzcash-patched/zcash_history/src/tree.rs:713-729 | the array of L leaves has exactly `2L - popcount(L)` nodes |
| `MountainLayout.LoaderFindsPeaks` | librustzcash-patched/zcash_history/examples/long.rs:6-55 | on the array of a range the j-th draft is the j-th peak at its index, with its own entry |
| `MountainLayout.LoaderLoadsSlope` | librustzcash-patched/zcash_history/examples/long.rs:57-74 | the extra list is exactly the entries of both children of every inner node on the last peak's right slope |
| `MountainLayout.SlopeEntryCount` | librustzcash-patched/zcash_history/examples/long.rs:57-76 | that is two entries per level |
| `MountainLayout.LinksLeadToChildren` | librustzcash-patched/zcash_history/examples/long.rs:6-20 | in the array of any range every node is preceded by its own subtree, and the links drafted for an inner node lead to the roots of its two halves |
| `TreeView.AndPredecessor` | librustzcash-patched/zcash_history/src/entry.rs:24-28 | the bit trick accepts exactly the numbers with one set bit |
| `TreeView.CompleteIffOnePeak` | librustzcash-patched/zcash_history/src/entry.rs:24-33 | a root whose heights span its blocks counts all leaves, and is complete exactly when there is one peak |
| `TreeView.MountainComplete` | librustzcash-patched/zcash_history/src/entry.rs:24-33 | a mountain whose data spans its 2^h blocks is reported complete |
| `HistoryTree.Tree.constructor` | librustzcash-patched/zcash_history/src/tree.rs:86-116 | from the peaks and any right extra nodes of an array the view stands for that array's range, bagged left to right, holding just those nodes |
| `HistoryTree.Tree.GetPeaks` | librustzcash-patched/zcash_history/src/tree.rs:118-131 | from the root the walk finds all peaks, left to right, and cannot fail in a valid view |
| `HistoryTree.Tree.MergePeaks` | librustzcash-patched/zcash_history/src/tree.rs:146-173 | merging equal leaf counts right to left is the binary carry; the stack ends up holding the new peaks and every node made is stored behind the last |
| `HistoryTree.Tree.Bag` | librustzcash-patched/zcash_history/src/tree.rs:175-186 | popping the stack bags the peaks from left to right |
| `HistoryTree.Tree.AppendLeaf` | librustzcash-patched/zcash_history/src/tree.rs:138-190 | the view moves to the range with the leaf appended and never fails; the returned links are exactly the new end of the array, one for the leaf and one per merged node, in order; old entries are untouched; the new leaf could be deleted again at once |
| `Truncating.AppendDeletable` | librustzcash-patched/zcash_history/src/tree.rs:138-190 | whatever was loaded before, an append leaves the whole right slope of the new last peak loaded |
| `HistoryTree.Tree.Descend` | librustzcash-patched/zcash_history/src/tree.rs:230-246 | the walk down the right slope collects its left siblings in order, one per level, or stops at a node that is not loaded |
| `HistoryTree.Tree.Rebag` | librustzcash-patched/zcash_history/src/tree.rs:248-255 | what is left is bagged anew, unless one of the peaks is not loaded |
| `HistoryTree.Tree.PopNodes` | librustzcash-patched/zcash_history/src/tree.rs:206-209 | removes exactly the entries at the end of the array |
| `HistoryTree.Tree.TruncateLeaf` | librustzcash-patched/zcash_history/src/tree.rs:215-264 | one leaf: refused; two leaves: succeeds exactly when the right leaf is loaded; more: exactly when the whole right slope is loaded; a success returns the number of nodes the array loses and moves to the range without its last leaf, and the result is a valid view, with its root at hand, exactly when the whole right slope was loaded; a refusal names a link that is not loaded and leaves the tree as it was |
| `HistoryTree.PairWithoutFirst` | librustzcash-patched/zcash_history/src/tree.rs:215-264 | the deletion does not always leave a usable tree: with two leaves of which the first is not loaded it succeeds and the new root is not there |
| `HistoryTree.Tree.RootNode` | librustzcash-patched/zcash_history/src/tree.rs:276-279 | the root of a valid view is there and summarises all its blocks; with more than one peak it hashes the bag of all peaks but the last, then the last peak |
| `HistoryTree.ThereAndBack` | librustzcash-patched/zcash_history/src/tree.rs:637-650 | any number of appends followed by as many truncations all succeed and bring back the same range, the same loaded entries and the same length |
| `HistoryTree.PrepareTree` | librustzcash-patched/zcash_history/examples/long.rs:22-80 | the loader's tree stands for the array's range, and a deletion right after loading has everything it needs |
| `HistoryRoot.RootSummarises` | librustzcash-patched/zcash_history/src/node_data.rs:71-104 | the bagged root starts like the first block, ends like the last one, and adds up work and Sapling transactions of all of them |
| `HistoryRoot.NodeHashes` | librustzcash-patched/zcash_history/src/node_data.rs:71-82 | an inner node hashes its left half, then its right half |
| `HistoryRoot.RootHashes` | librustzcash-patched/zcash_history/src/tree.rs:175-186 | the bagged root hashes the bag of all peaks but the last, then the last peak |
| `HistoryRoot.RootCommits` | librustzcash-patched/zcash_history/src/node_data.rs:71-104 | two ranges with the same root are the same range with the same blocks in the same order |
| `SaplingScanner.Scanner.constructor` | mm2src/coins/z_coin.rs:497-538 | the scan starts at the newest row with its tree rebuilt; without a row or when the query fails, right behind a readable checkpoint with the checkpoint's tree, or else at the activation height with no commitments |
| `SaplingScanner.Scanner.ProcessBlock` | mm2src/coins/z_coin.rs:582-614 | a block with a new root appends its outputs in order and stores one row; any other block changes nothing |
| `SaplingScanner.Scanner.Run` | mm2src/coins/z_coin.rs:543-633 | whatever the batch size, including 0, the nested loops do what one step per answer does |
| `SaplingScanner.UnchangedMeansNoOutputs` | mm2src/coins/z_coin.rs:582-589 | a skipped block has no outputs |
| `SaplingScanner.ScanRight` | mm2src/coins/z_coin.rs:543-633 | under any sequence of failures, tips and blocks the tree is the chain's tree at the processed height, every row rebuilds the chain's tree at its own height, and the newest row's tree is the one in memory |
| `SaplingScanner.ChangedIffNeedsRow` | mm2src/coins/z_coin.rs:582-589 | on an honest chain comparing roots picks exactly the blocks with outputs and those without a reported root |
| `SaplingScanner.RowsWritten` | mm2src/coins/z_coin.rs:572-614 | over every scan the height only grows, exactly the blocks taken on the way that need a row get one, and every other row stays as it was |
| `SaplingScanner.NothingBelowCheckPoint` | mm2src/coins/z_coin.rs:510-614 | after a start from a readable checkpoint no scan takes a block at or below it or touches a row there |
| `SaplingScanner.StartRight` | mm2src/coins/z_coin.rs:497-538 | from right rows every way of starting is right |
| `SaplingScanner.RestartKeepsTree` | mm2src/coins/z_coin.rs:497-508 | killed at any moment and restarted from the rows, the scanner has the tree it had |
| `SaplingScanner.HistoryRight` | mm2src/coins/z_coin.rs:497-633 | all of this over any number of processes one after the other on the same rows |
| `SaplingScanner.SyncedCoversTip` | mm2src/coins/z_coin.rs:545-631 | over every scan from any start the synced flag is up only with every commitment up to the last answered tip in the tree, and never while blocks are fetched |
| `SaplingScanner.SyncedIff` | mm2src/coins/z_coin.rs:545-631 | the flag is up exactly right after the answer that left nothing to fetch |
| `SaplingScanner.ScanCompletes` | mm2src/coins/z_coin.rs:572-631 | with one answer per missing block, however many requests fail in between, the scan ends in sync right behind the tip |
| `TimeCaches.TimeCache.constructor` | mm2src/common/time_cache.rs:156-162 | a new cache is empty |
| `TimeCaches.TimeCache.RemoveExpiredKeys` | mm2src/common/time_cache.rs:164-176 | the pop loop leaves exactly the entries that have not expired, whatever stale elements the queue holds |
| `TimeCaches.TimeCache.Insert` | mm2src/common/time_cache.rs:195-206 | accepted exactly when the naive map holds no live entry for the key, and then stored with a whole life ahead |
| `TimeCaches.TimeCache.OrInsertWith` | mm2src/common/time_cache.rs:137-142 | gives the live value, or stores and gives the default |
| `TimeCaches.TimeCache.OrInsertWithUpdateExpiration` | mm2src/common/time_cache.rs:90-99 | the same, and the entry then holds the value handed out, not the default over a live one, with a whole life ahead |
| `TimeCaches.TimeCache.InsertAndUpdateExpiration` | mm2src/common/time_cache.rs:75-88 | replaces and renews a live entry, gives its old value; a vacant entry stays vacant |
| `TimeCaches.TimeCache.InsertWithoutUpdatingExpiration` | mm2src/common/time_cache.rs:69-72 | replaces a live entry's value only; a vacant entry stays vacant |
| `TimeCaches.TimeCache.Remove` | mm2src/common/time_cache.rs:208-213 | removes the key; the value handed out is the one alive at the previous call, and it has expired exactly when the key was alive then and is not now |
| `TimeCaches.TimeCache.Clear` | mm2src/common/time_cache.rs:215-220 | nothing is left, in the naive map either |
| `TimeCaches.TimeCache.ContainsKey` | mm2src/common/time_cache.rs:222-222 | answers for the time of the last mutating call, because it does not purge |
| `TimeCaches.ApplyLive` | mm2src/common/time_cache.rs:164-213 | what has expired does not matter to any call |
| `TimeCaches.AliveIffYoungGrant` | mm2src/common/time_cache.rs:195-213 | a key is live exactly when some accepted insert or some refresh of it is younger than the time to live and nothing has removed the key since |
| `TimeCaches.ValueIsLastWritten` | mm2src/common/time_cache.rs:62-142 | the value under a key is that of the last call that wrote it: an insert or a refresh that found the key gone, a replacement that found it alive; a refresh of a live key writes nothing |
| `TimeCaches.StaleRemoval` | mm2src/common/time_cache.rs:208-213 | a removal one time to live after the insert returns the expired value |
| `TimeCaches.ZeroTtl` | mm2src/common/time_cache.rs:164-206 | with a zero time to live every insert is accepted |
| `RefreshedResource.RefreshedExternalResource.constructor` | mm2src/common/common.rs:803-813 | the timeout is raised to the rate limit; nothing has started |
| `RefreshedResource.RefreshedExternalResource.AddListeners` | mm2src/common/common.rs:815-819 | listeners are kept in order, none is lost |
| `RefreshedResource.RefreshedExternalResource.Tick` | mm2src/common/common.rs:822-871 | a sync starts exactly after a timeout, or when one was accepted since the last start and the rate limit has passed; all starts ever are further apart than the rate limit |
| `RefreshedResource.RefreshedExternalResource.Finish` | mm2src/common/common.rs:836-869 | a result is taken exactly when its sync started after every accepted sync had finished, so accepted intervals are disjoint and increasing; then every listener is notified once |
| `RefreshedResource.AcceptedSpaced` | mm2src/common/common.rs:822-871 | starts of accepted syncs are further apart than the rate limit |
| `RefreshedResource.NewerResultDropped` | mm2src/common/common.rs:844-867 | newest data does not always win: a late finish of an older sync makes the newer result come too late |
| `SendAlls.SendAll.constructor` | mm2src/common/custom_futures.rs:113-119 | nothing is taken yet |
| `SendAlls.SendAll.TryStartSend` | mm2src/common/custom_futures.rs:138-145 | an item is received, buffered or, on refusal, gone |
| `SendAlls.SendAll.PollStream` | mm2src/common/custom_futures.rs:121-125 | an ended stream stays ended |
| `SendAlls.SendAll.Poll` | mm2src/common/custom_futures.rs:167-191 | under any answers what was taken is what the sink received, then the buffered item; completion means everything up to the stream's end was received and the sink closed; on an error the rest of the stream is given back and an item is missing exactly when the sink refused it; a poll stops only on an answer that says so, and with nothing in the way one poll completes; the sink is asked to start every item once per poll, in order, and then to flush exactly when the stream is pending, to close exactly when it ended |
| `JsonRpcBatch.AllUnique` | mm2src/common/jsonrpc_client.rs:376-385 | accepts exactly the lists without repeated ids |
| `JsonRpcBatch.ByIdFinds` | mm2src/common/jsonrpc_client.rs:467-469 | the map holds exactly the ids of the responses, each with its last response |
| `JsonRpcBatch.TakeInOrder` | mm2src/common/jsonrpc_client.rs:483-504 | taking out one answer per request succeeds exactly when ids are unique, the id sets are equal and every answer is good; result i decodes the answer to request i; a reported error is the first one in request order |
| `JsonRpcBatch.ProcessTransportBatchResult` | mm2src/common/jsonrpc_client.rs:440-505 | the same from the raw delivery, with the transport and kind errors; comparing counts first refuses nothing that could succeed |
| `JsonRpcBatch.SendBatchRequest` | mm2src/common/jsonrpc_client.rs:366-385 | repeated ids are refused, and only they as an invalid request |
| `JsonRpcBatch.PermutationInvariant` | mm2src/common/jsonrpc_client.rs:440-505 | any order of responses with distinct ids gives the same success and the same values |
| `DuplexMutex.NewMutex` | mm2src/common/duplex_mutex.rs:143-152 | a new mutex is unlocked and has no guard |
| `DuplexMutex.StepKeeps` | mm2src/common/duplex_mutex.rs:48-113 | every atomic step keeps the number of live guards equal to the lock word, 0 or 1 |
| `DuplexMutex.RunKeeps` | mm2src/common/duplex_mutex.rs:48-113 | so does every interleaving of steps |
| `DuplexMutex.LoneGuard` | mm2src/common/duplex_mutex.rs:11-29 | there is never a second guard |
| `DuplexMutex.DropNeverFails` | mm2src/common/duplex_mutex.rs:27-29 | unlocking when a guard is dropped succeeds |
| `DuplexMutex.AcquiredIffFree` | mm2src/common/duplex_mutex.rs:49-67 | a swap gets the lock exactly when no guard is live |
| `DuplexMutex.TimeoutChangesNothing` | mm2src/common/duplex_mutex.rs:68-112 | a timed-out attempt changes nothing for anyone else and reports more than its timeout |
| `DuplexMutex.ClockDecides` | mm2src/common/duplex_mutex.rs:57-112 | over every run a look at the clock ends the attempt, with the time passed since the start the attempt itself noted, exactly when that is more than the timeout it was begun with; else it waits on |
| `DuplexMutex.ClockBetweenSwaps` | mm2src/common/duplex_mutex.rs:57-112 | over every run the clock is looked at only after a swap, by a spinning attempt only after a slow one, and a second swap comes without a look only while spinning fast |
| `DuplexMutex.TimeoutSawGuard` | mm2src/common/duplex_mutex.rs:57-112 | over every run, an attempt that times out saw a live guard at its last swap |
| `DuplexMutex.TimeoutWhileFree` | mm2src/common/duplex_mutex.rs:57-75 | a run in which the guard is dropped between the failed swap and the look at the clock: the attempt times out although the lock is free |
| `DuplexMutex.RunsAreSerial` | mm2src/common/duplex_mutex.rs:48-170 | over any run, lock and unlock alternate and each section is left by the attempt that entered it |
| `KmdInterest.RefusedExactlyBeforeStart` | mm2src/coins/utxo.rs:1526-1597 | interest is refused exactly for ineligible outputs and before the start time, with the first reason that applies, and otherwise counts the minutes up to the stop time |
| `KmdInterest.KnownValues` | mm2src/coins/utxo/utxo_tests.rs:618-672 | the amounts and stop times the repository's tests expect |
| `KmdInterest.NeverFalls` | mm2src/coins/utxo.rs:1526-1580 | interest never falls with time |
| `KmdInterest.MaximalExactlyFromStop` | mm2src/coins/utxo.rs:1567-1592 | the maximum is reached exactly from the stop time on |
| `KmdInterest.BelowOneTwentieth` | mm2src/coins/utxo.rs:1575-1579 | interest is strictly below a twentieth of the value and never leaves 64 bits |
| `KmdInterest.MergingNeverLowers` | mm2src/coins/utxo.rs:1575-1579 | merging two accruing outputs of one age never lowers the total |
| `TxHistoryStorage.Storage.constructor` | mm2src/coins/sql_tx_history_storage.rs:214-225 | new tables are empty |
| `TxHistoryStorage.Storage.AddTransactions` | mm2src/coins/sql_tx_history_storage.rs:245-288 | a batch is stored whole exactly when all its ids are new and distinct, else history and cache stay as they were; keys grow, ids stay unique, height and status agree with the details; a new row has its transaction's hash, id, height and token, the empty token if it has none |
| `TxHistoryStorage.AppendedRow` | mm2src/coins/sql_tx_history_storage.rs:245-288 | the row of each transaction of a batch: every column read off the transaction, the key one above the row before |
| `TxHistoryStorage.CachedFirst` | mm2src/coins/sql_tx_history_storage.rs:245-288 | a hash not cached before gets the bytes of the first transaction that has it |
| `TxHistoryStorage.CachedStays` | mm2src/coins/sql_tx_history_storage.rs:245-288 | bytes cached before stay, and no other hashes appear |
| `TxHistoryStorage.Storage.RemoveTx` | mm2src/coins/sql_tx_history_storage.rs:290-312 | removes exactly the row with the id and reports whether there was one |
| `TxHistoryStorage.Storage.UpdateTx` | mm2src/coins/sql_tx_history_storage.rs:359-375 | height, status and details of the row with the id become the transaction's, its key, id, hash and token and all other rows stay, and the table's invariant holds |
| `TxHistoryStorage.UpdatedKeptColumns` | mm2src/coins/sql_tx_history_storage.rs:107-122 | the hash and token columns stay in agreement with the details exactly when the update keeps both |
| `TxHistoryStorage.Storage.GetTx` | mm2src/coins/sql_tx_history_storage.rs:314-328 | finds the stored details with the id if there are any |
| `TxHistoryStorage.Storage.GetUnconfirmed` | mm2src/coins/sql_tx_history_storage.rs:342-357 | gives exactly the stored transactions without a block |
| `TxHistoryStorage.SortedIs` | mm2src/coins/sql_tx_history_storage.rs:178-185 | the order by status, falling height and key is a strict order of the same rows |
| `TxHistoryStorage.OrderUnique` | mm2src/coins/sql_tx_history_storage.rs:178-185 | there is only one such order |
| `TxHistoryStorage.Storage.GetHistory` | mm2src/coins/sql_tx_history_storage.rs:440-511 | the token's rows come without a block first, then by falling height, then by growing key; a page number gives that page of them, an id the rows right behind it, an unknown id none; the skipped count is where the page starts |
| `TxHistoryStorage.StoredPagesTile` | mm2src/coins/sql_tx_history_storage.rs:440-511 | page after page shows every row of the token once, in that order |
| `TxHistoryStorage.StoredFromId` | mm2src/coins/sql_tx_history_storage.rs:470-494 | going on from the last id of a page gives the next page |
| `Paging.TotalPagesCover` | mm2src/common/common.rs:1208-1218 | the number of pages is the least that covers all entries |
| `Paging.PagesTile` | mm2src/coins/my_tx_history_v2.rs:345-361 | the pages concatenate to the whole list and the last one is not empty |
| `Paging.ResponsesTile` | mm2src/coins/my_tx_history_v2.rs:339-377 | asking for every page up to the reported number shows the whole history once, in order, each entry with the number of blocks from its own to the current one |
| `Paging.EntriesShown` | mm2src/coins/my_tx_history_v2.rs:345-377 | each entry is the one of the history that far behind the skipped ones; block height and confirmations add up to the next block, and there are none without a block or above the current one |
| `Paging.FromIdContinues` | mm2src/coins/my_tx_history_v2.rs:325-337 | with unique ids, going on from the last id of a page shows the next page |
| `Paging.UnknownIdGivesNothing` | mm2src/coins/my_tx_history_v2.rs:331-363 | an id that is not there shows nothing |
| `HistoryRequest.PagedTwice` | mm2src/coins/my_tx_history_v2.rs:440-463 | the request pages in storage and again in the response: the first page comes through whole, every later page comes out empty |
| `HistoryRequest.ContinuedTwice` | mm2src/coins/my_tx_history_v2.rs:440-463 | going on from an id always comes out empty |
| `HistoryRequest.ShowsStoredPageIff` | mm2src/coins/my_tx_history_v2.rs:440-463 | the answer shows the stored page exactly when that page is empty or the first page was asked for; the first page shows the stored transactions with their own confirmations |
| `HistoryRequest.ReportedTotal` | mm2src/coins/my_tx_history_v2.rs:440-463 | the reported total is the length of the stored page, which is that of the whole history exactly when there is none or the first page holds it all |
| `RunLength.SequentialCount.Next` | mm2src/common/common.rs:1252-1273 | takes one maximal run off the front |
| `RunLength.Runs` | mm2src/common/common.rs:1237-1274 | the runs spell the entry again and no two neighbours could be joined |
| `RunLength.RunsUnique` | mm2src/common/common.rs:1237-1274 | no other list of runs does that |
| `RunLength.IsAcceptable` | mm2src/common/common.rs:1276-1283 | accepted exactly when no `limit` equal characters stand in a row; with limit 0 exactly the empty entry |

## Left out

- RecentlySpent.RecentlySpentOutPoints.ReplaceSpentOutputsWithCache: asks for a cache in which no stored replacement is itself spent, because the recursion need not end otherwise; `StaleSnapshots.ReachableIsSettled` shows that every reachable cache is one.
- HistoryTree.Tree.AppendLeaf: does not model the 32-bit wrap of array and generated indices or the overflow of summed work and transaction counts, and asks for a view that holds its peaks, which is what construction gives.
- HistoryTree.ThereAndBack: the root link itself may point at a new generated node with the same content, so only the content is claimed.
- SaplingScanner.Scanner.Run: heights are unbounded rather than 32-bit, waiting times are gone, and a panic while a block's transactions are fetched or its row is written counts as the end of the process before that block.
- DuplexMutex.RunsAreSerial: covers the order of the lock word's atomic steps only; what relaxed ordering lets other threads see of the protected data is not modelled, and the retry loops are steps of a machine rather than loops.
- RefreshedResource.RefreshedExternalResource.Tick: times are real numbers without floating-point rounding, and a negative rate limit is excluded.
- KmdInterest.RefusedExactlyBeforeStart: start and stop times are not wrapped at 64 bits.
- TxHistoryStorage.Storage.GetHistory: the SQL engine is taken to do what its statements say; hexadecimal formatting of ids is dropped.
- The relabelling of a stored transaction's coin in the history request.
- The Electrum branch of the Sapling scan, which marks the cache as synced without scanning, and the WebAssembly cache.
- Reading and writing tree entries as bytes, and hashing itself.
- `select_ok_sequential`, `join_all_sequential`, DEX fee splitting, balance sums, HD address counters: true but easy.
- Signing, scripts, key derivation, swaps, order matching, RPC plumbing and error conversions.
