# Verified models of go-opera

A Dafny 4.11 project that models the parts of go-opera whose correctness is hardest to
see from the code, and proves what they promise.  `dafny verify dfyconfig.toml` checks it.

| file | what it is about |
|---|---|
| `Barrier.dfy`, `ParallelSearch.dfy`, `LogIndex.dfy` | parallel log search: every interleaving of the scanners reports what a plain filter reports |
| `NonceHeap.dfy`, `TxSortedMap.dfy`, `TxList.dfy`, `NonceList.dfy` | the lists of an account: heap, map and lazy cache behave as a nonce-sorted map |
| `TxLookup.dfy`, `PoolBook.dfy`, `PoolReorg.dfy`, `FairShare.dfy`, `QueueOrder.dfy`, `TxPool.dfy` | the transaction pool: what every operation keeps, what becomes of every transaction in a reorg run, max-min fair truncation, and who loses when the queue is full |
| `PoolCases.dfy` | what the pool does where one might expect something else, and when |
| `PricedList.dfy`, `PricedPool.dfy` | the two price heaps, eviction, and the capacity of pool and heaps together |
| `Bitmap.dfy`, `VoteWeights.dfy`, `EpochVoting.dfy`, `BlockVoting.dfy`, `BlockNode.dfy` | LLR votes: write-back cache, counting, agreement on epoch and block records |
| `LowestIndex.dfy` | the "lowest to decide" and "lowest to fill" markers under concurrency |
| `BasicCheck.dfy`, `LlrEmitter.dfy` | misbehaviour proofs, and why an honest validator cannot be convicted |
| `WeightedSelect.dfy`, `DrawChance.dfy`, `WeightedShuffle.dfy` | weighted choice with an 8-ary tree and its chances, weighted permutation with a binary one |
| `GasPower.dfy`, `BlockGas.dfy` | gas power along event chains, gas of a block |
| `MedianTime.dfy` | the weighted median of claimed times |
| `Common.dfy`, `Words.dfy`, `Totals.dfy` | addresses, options, machine words and sums, used throughout |

Code that updates objects is modelled by classes and methods with the same loops; each
method is tied to a function or a plain statement, and the theorems are about those.  The
parallel search and the fill markers are step relations over their goroutines.  Random
numbers, the outcome of an EVM execution, cache evictions, map iteration order and the
moment of a crash are parameters or free choices, so that the results hold for all of them.

Where the code and what is said about it part ways:

- `ForEachInBlocks(from, 0)` has no upper bound at all; the documented range is honoured
  exactly when `to` is not zero (`LogIndex.RangeIsHonouredIff`).
- The comment of `truncateQueue` speaks of dropping the oldest; the code takes accounts from
  the end of the list sorted by heartbeat, which are the most recently active ones
  (`TxPool.TxPool.TruncateByHeartbeat`, with the exact condition for an account to be cut;
  `PoolCases.NewestGoes`).
- A replacement that is refused after eviction does not bring the evicted transactions back
  (`PricedPool.Add` says exactly when the pool changes, `PoolCases.LostToRefusal` is a case).
- A remote transaction that leaves the pool and returns before the price heaps are rebuilt
  is held twice (`PricedList.HeldTwice`); `Discard` then counts its slots twice and reports
  more room than there is.  Grants are real if and only if each remote is held once
  (`PricedList.GrantsAreRealIff`).
- The pending nonces of the pool stay gap-free even when a new head lowers a state nonce, as
  long as nothing comes back; with reinjection `PoolCases.GapFreeIffJoins` says exactly when.
- A run with a new head resets the virtual nonces before it promotes.  A queued transaction
  that continues what is still pending is then not promoted, though it is executable;
  `TxPool.TxPool.RunReorg` says exactly when, `PoolCases.LeftInQueue` is a case.
- A block vote is tallied under the epoch of the block, but position, weight and quorum are
  those of the epoch of the event.  `BlockVoting.WrongReachableIff` says exactly when faulty
  validators can use that to decide a block wrongly; a third of the weight in every epoch can
  be enough (`BlockVoting.ThirdDecidesAlone`, `BlockVoting.LighterQuorumDecides`).
- The bitmap of voters has the size of the group of the first voter; votes from a larger group
  can index past it.  That never happens if and only if the groups leave room
  (`BlockVoting.AlwaysFitsIffRoomy`, `BlockVoting.PastTheBitmap`).
- `choose` draws in proportion to current weights only while no weight has gone up since it
  was stored (`DrawChance.ChanceIsShare`, `DrawChance.HeavierIsMissed`).
- Without its file the emitter's memory is the database alone; it can be led to sign a
  second vote that convicts it if and only if the database restored is older than its last
  vote (`LlrEmitter.EpochLedAstrayIff`, `LlrEmitter.BlocksLedAstrayIff`).
- A message refused because of its intrinsic gas has already bought its gas: the sender and
  the block pool lose all of it (`BlockGas.Leak` states exactly when).
- Half of the weight is rounded down in `MedianTime`, so with an odd total a coalition just
  below half can pull the median below all other times; and when half is zero cheaters have
  a say (`MedianTime.CheatersHaveNoSayIff`).
- The gas power bound holds without any assumption on `uint64` wrap-around, and for times
  that go down as well, if the ascents of the times are counted; the elapsed time alone
  is a bound if and only if times never go down (`GasPower.ElapsedBoundsIffNeverDown`).

## Model

| member | source | states |
|---|---|---|
| Barrier.LeastIsUnique | topicsdb/sync.go:124-130 | any search order finds the same minimal block |
| Barrier.Synchronizator.constructor | topicsdb/sync.go:29-38 | the barrier starts with no tokens, no positions and permission to go on |
| Barrier.Synchronizator.AllPositionsLive | topicsdb/sync.go:113-118 | tells exactly whether every position still has a live scanner |
| Barrier.Synchronizator.FindMinBlock | topicsdb/sync.go:124-130 | the least block that still carries tokens |
| Barrier.Synchronizator.Dequeue | topicsdb/sync.go:109-133 | giving back the last token moves minBlock to the least remaining block and closes its channel, which must not be closed yet |
| Barrier.Synchronizator.Finish | topicsdb/sync.go:88-96 | a scanner gives back its token and its position count |
| Barrier.Synchronizator.GoNext | topicsdb/sync.go:53-71 | a scanner moves its token from minBlock to the block it waits for |
| ParallelSearch.UnlockedReadsAreStable | topicsdb/sync.go:53-60 | while a scanner runs, its token is on minBlock and no step of another scanner changes minBlock or goNext, so the read without the lock is safe |
| ParallelSearch.StartedBarrier | topicsdb/sync.go:73-86 | after all scanners have been started, block counters are the tokens held and position counts the live scanners |
| ParallelSearch.ArriveOwes | topicsdb/sync.go:98-107 | queueing for a later block keeps every counter right, except for the one token still owed on minBlock |
| ParallelSearch.DequeueSettles | topicsdb/sync.go:109-133 | with counters equal to tokens, dequeuing never follows a missing counter nor closes a channel twice, and counters equal tokens again |
| ParallelSearch.BarrierStep | topicsdb/sync.go:53-133 | every step of every scanner keeps block counters equal to tokens held, position counts equal to live scanners, running scanners on minBlock |
| ParallelSearch.ScanStep | topicsdb/search_parallel.go:104-120 | every step keeps each scanner's cursor in order with the barrier: nothing relevant below its token is unread |
| ParallelSearch.MatchCounts | topicsdb/search_parallel.go:50-68 | after a hit the shared table holds, for every record of the current block, the number of scanners that met it |
| ParallelSearch.HitsCountPositions | topicsdb/search_parallel.go:63-75 | a position contributes at most one hit to a record, so the counter reaches the number of positions exactly when every position matched |
| ParallelSearch.TableMatchStep | topicsdb/search_parallel.go:50-75 | a record is reported at the step that completes it, once, and in non-decreasing block order |
| ParallelSearch.StopInvStep | topicsdb/sync.go:111-118 | goNext is withdrawn only when every wanted record has already been met by all its scanners |
| ParallelSearch.StepKeepsInv | topicsdb/search_parallel.go:12-120 | the whole invariant is kept by every step |
| ParallelSearch.InitInv | topicsdb/search_parallel.go:81-97 | it holds when the scanners have been started |
| ParallelSearch.RunKeepsInv | topicsdb/search_parallel.go:12-120 | it holds in every state of every run |
| ParallelSearch.RunsAreBounded | topicsdb/search_parallel.go:12-120 | no run is longer than the work of its scanners, so every search ends |
| ParallelSearch.SomeoneCanStep | topicsdb/sync.go:53-133 | as long as a scanner is left, some scanner can step |
| ParallelSearch.ReportedIsWanted | topicsdb/search_parallel.go:12-120 | when all scanners are through, the records reported are exactly those that every position carries |
| LogIndex.Index.constructor | topicsdb/topicsdb.go:33-42 | a new index holds nothing |
| LogIndex.Index.PushLog | topicsdb/topicsdb.go:181-203 | the index then holds exactly the entries of the old logs and of this one |
| LogIndex.Index.Push | topicsdb/topicsdb.go:161-208 | exactly the logs before the first with too many topics are indexed; the error is returned exactly if there is one |
| LogIndex.UniqOnly | topicsdb/topicsdb.go:139-150 | the same words, each once |
| LogIndex.LimitPattern | topicsdb/topicsdb.go:116-137 | the first six positions with the same variants each once; the error exactly when no position within the first six has variants |
| LogIndex.QueryIsValid | topicsdb/search_parallel.go:84-120 | the scans over an index meet what the search protocol needs: sorted, one entry per record and position |
| LogIndex.SearchIsFilter | topicsdb/search_parallel.go:12-120 | for every index, pattern and interleaving the search reports exactly the logs that a filter accepts, each once, in block order |
| LogIndex.RangeIsHonouredIff | topicsdb/topicsdb.go:92-114 | the range from..to is honoured for all logs if and only if `to` is not zero |
| NonceHeap.RootIsLeast | evmcore/tx_list.go:32-48 | the first element of a heap is a least one |
| NonceHeap.Down | evmcore/tx_list.go:32-48 | sifting down restores the heap order below a position, or reports that the element did not move |
| NonceHeap.Up | evmcore/tx_list.go:32-48 | sifting up restores the heap order above a position |
| NonceHeap.Sift | evmcore/tx_list.go:168-189 | down or else up: a heap again, with the same elements |
| NonceHeap.Push | evmcore/tx_list.go:38-40 | a heap again, with one element more |
| NonceHeap.Remove | evmcore/tx_list.go:174-180 | a heap again, without the element at the given place |
| NonceHeap.Pop | evmcore/tx_list.go:42-48 | takes out the first element and leaves a heap of the rest |
| NonceHeap.Init | evmcore/tx_list.go:114-121 | any list becomes a heap of the same elements |
| TxSortedMap.FlatIs | evmcore/tx_list.go:216-226 | the sorted list of a map ascends and holds exactly its transactions |
| TxSortedMap.FlatIsUnique | evmcore/tx_list.go:216-226 | sortedness and contents leave only one list, so the sort algorithm does not matter |
| TxSortedMap.SortNonces | evmcore/tx_list.go:151 | a sorted permutation of the heap |
| TxSortedMap.SortTxs | evmcore/tx_list.go:219-223 | the same transactions in nonce order |
| TxSortedMap.TxSortedMap.constructor | evmcore/tx_list.go:59-64 | an empty map |
| TxSortedMap.TxSortedMap.Put | evmcore/tx_list.go:73-79 | the map with one nonce set; heap and cache stay those of the map |
| TxSortedMap.TxSortedMap.PopFirst | evmcore/tx_list.go:88-92 | the lowest nonce leaves heap and map together |
| TxSortedMap.TxSortedMap.Forward | evmcore/tx_list.go:84-98 | removes exactly the nonces below the threshold and returns them in order; the cut cache is the sorted list of the rest |
| TxSortedMap.TxSortedMap.Filter | evmcore/tx_list.go:105-112 | keeps what the test rejects, returns what it selects, each once; heap and cache are again those of the map |
| TxSortedMap.TxSortedMap.FilterItems | evmcore/tx_list.go:125-139 | splits the map by the test and drops the cache exactly when something left |
| TxSortedMap.TxSortedMap.Reheap | evmcore/tx_list.go:114-121 | heap and cache are those of the map, whatever they were |
| TxSortedMap.TxSortedMap.Cap | evmcore/tx_list.go:143-164 | keeps the lowest nonces up to the threshold and returns exactly the others; the cut cache is the sorted list of the rest |
| TxSortedMap.TxSortedMap.DropHighest | evmcore/tx_list.go:148-156 | dropping the highest nonces one by one leaves the lowest ones |
| TxSortedMap.TxSortedMap.Remove | evmcore/tx_list.go:168-185 | removes one nonce if present, and tells which |
| TxSortedMap.TxSortedMap.Ready | evmcore/tx_list.go:194-209 | takes out the longest gap-free run from the lowest nonce, if that is not above start, in order |
| TxSortedMap.TxSortedMap.Flatten | evmcore/tx_list.go:216-237 | the sorted list, from the cache or newly computed |
| TxSortedMap.TxSortedMap.LastElement | evmcore/tx_list.go:241-244 | the transaction with the highest nonce of a list that is not empty |
| TxList.TxList.constructor | evmcore/tx_list.go:260-266 | an empty list |
| TxList.TxList.Add | evmcore/tx_list.go:279-312 | accepts exactly a free nonce or a transaction that outbids the old one in both prices; the caps stay upper bounds |
| TxList.TxList.Filter | evmcore/tx_list.go:330-359 | kept, removed and invalidated are what a full walk would give, also when the caps cut it short |
| TxList.TxList.LowestNonce | evmcore/tx_list.go:349-354 | the least nonce that was removed |
| TxList.TxList.Remove | evmcore/tx_list.go:370-382 | a strict list loses the nonce and everything above it, which is returned; another list only the nonce |
| TxList.TxList.Forward | evmcore/tx_list.go:317-319 | removes the nonces below the threshold; the caps stay upper bounds |
| TxList.TxList.Cap | evmcore/tx_list.go:363-365 | keeps the lowest nonces; the caps stay upper bounds |
| TxList.TxList.Ready | evmcore/tx_list.go:390-392 | takes out the executable run; the caps stay upper bounds |
| NonceList.FilterPartitions | evmcore/tx_list.go:330-359 | every transaction is kept, invalidated or removed, and only one of these |
| NonceList.KeptInterval | evmcore/tx_list.go:330-359 | filtering a gap-free strict list leaves a gap-free front, and what is invalidated lies above it |
| NonceList.CapInterval | evmcore/tx_list.go:143-164 | capping a gap-free list leaves a gap-free front of the capped length |
| NonceList.CapIsPrefix | evmcore/tx_list.go:143-164 | capping keeps the given number of transactions, all of lower nonce than those dropped |
| NonceList.ReadyInterval | evmcore/tx_list.go:194-209 | when no nonce is below start, what is ready is gap-free from start and the rest lies above it |
| NonceList.ReadyShape | evmcore/tx_list.go:194-209 | what is ready never has a gap |
| TxLookup.SumSlotsWithout | evmcore/tx_pool.go:1827-1859 | the slots of a set do not depend on the order of counting |
| TxLookup.SlotsHold | evmcore/tx_pool.go:1891-1893 | a transaction takes as many slots as its data needs and no more |
| TxLookup.Lookup.Add | evmcore/tx_pool.go:1827-1838 | one transaction more, and the slot counter still is the sum |
| TxLookup.Lookup.Remove | evmcore/tx_pool.go:1842-1859 | one transaction less, unknown ones are ignored, and the slot counter still is the sum |
| TxLookup.Lookup.RemoteToLocals | evmcore/tx_pool.go:1863-1876 | moves transactions between the two sets and loses none |
| TxLookup.Evicted | evmcore/tx_pool.go:715-719 | removing a list of transactions, known or not and with repetitions, takes away exactly its members and keeps the slot counter the sum |
| PoolBook.SetIfLower | evmcore/tx_noncer.go:68-79 | the virtual nonce goes down to the given one or stays |
| PoolBook.RemovedFromPending | evmcore/tx_pool.go:1021-1038 | removing a pending transaction leaves the lookup set equal to the lists plus those waiting to be queued again |
| PoolBook.TakeDemoted | evmcore/tx_pool.go:1539-1583 | dropping the old and unpayable leaves exactly the invalidated ones waiting to be queued again |
| PoolBook.PromotionKeepsChained | evmcore/tx_pool.go:1360-1367 | promoting what is ready extends the gap-free pending nonces and raises the virtual nonce with them |
| PoolBook.PromotionMixes | evmcore/tx_pool.go:1344-1367 | after a new head, promotion leaves each account in a shape that demotion can put right |
| PoolBook.DemotionFronts | evmcore/tx_pool.go:1536-1585 | demotion leaves pending nonces gap-free from the state nonce, with the queue above them |
| PoolBook.ReplacedKeepsChained | evmcore/tx_pool.go:723-745 | replacing a pending transaction keeps lookup set, lists and nonces together |
| PoolBook.RefreshedIsChained | evmcore/tx_pool.go:1207-1211 | setting the virtual nonces from the last pending nonces restores the full chain of nonces |
| PoolBook.HomeHolds | evmcore/tx_pool.go:721-750 | in a consistent, chained pool the only transaction with the sender and nonce of a new one is in the list its nonce belongs to, so admission there decides for the whole pool |
| TxPool.TxPool.constructor | evmcore/tx_pool.go:272-327 | an empty pool, consistent and chained |
| TxPool.TxPool.EnqueueNew | evmcore/tx_pool.go:769-805 | a new transaction enters the queue exactly when it is admitted there; otherwise nothing changes |
| TxPool.TxPool.Enqueue | evmcore/tx_pool.go:769-805 | an internal shuffle never fails: the nonce is free in the queue, so no transaction is stranded |
| TxPool.TxPool.EnqueueEach | evmcore/tx_pool.go:1028-1032 | all invalidated transactions reach the queue and nothing waits any more |
| TxPool.TxPool.PromoteTx | evmcore/tx_pool.go:822-852 | a transaction in transit becomes pending under its nonce, and the virtual nonce follows |
| TxPool.TxPool.Forget | evmcore/tx_pool.go:1345-1356 | removes exactly these transactions from the lookup set, and the slot counter with them |
| TxPool.TxPool.RemoveTx | evmcore/tx_pool.go:1005-1051 | removes exactly this transaction; followers of a pending one go back to the queue; other accounts are untouched; chained nonces stay chained |
| TxPool.TxPool.RemoveEach | evmcore/tx_pool.go:715-719 | removes exactly the listed transactions and keeps the pool consistent and chained |
| TxPool.TxPool.ReplacePending | evmcore/tx_pool.go:723-745 | replaces the transaction with the same pending nonce, in the list and in the lookup set |
| TxPool.TxPool.MarkLocal | evmcore/tx_pool.go:751-756 | the account becomes local, no transaction is lost, and no remote one of a local account is left |
| TxPool.TxPool.InsertQueued | evmcore/tx_pool.go:746-750 | a transaction not pending goes to the queue exactly when admitted there, or nothing changes |
| TxPool.TxPool.Insert | evmcore/tx_pool.go:721-763 | added exactly when no transaction in the pool with its sender and nonce is not outbid; the lookup set is exactly the old one with that one replaced; the account becomes local only with a queued local transaction |
| TxPool.TxPool.Add | evmcore/tx_pool.go:678-764 | whatever the price heaps answer, the pool stays consistent and chained; every refusal exactly under its condition on the pool before; what was evicted before a refused replacement stays gone, and that refusal leaves the pool as it was if and only if there was room or nothing evicted was in it; an added transaction is in the list of its nonce |
| TxPool.TxPool.TakeReady | evmcore/tx_pool.go:1344-1361 | stale and unpayable transactions leave, the executable run is taken out, and is the only thing in transit |
| TxPool.TxPool.PromoteReady | evmcore/tx_pool.go:1360-1367 | the whole run becomes pending, and the virtual nonce ends behind it |
| TxPool.TxPool.CapQueue | evmcore/tx_pool.go:1371-1381 | the queue of an account keeps its lowest nonces within the limit, and the lookup set follows |
| TxPool.TxPool.PromoteAccount | evmcore/tx_pool.go:1339-1393 | one account's turn: stated as one relation between the pool before and after |
| TxPool.TxPool.PromoteExecutables | evmcore/tx_pool.go:1334-1395 | in any order of accounts, each of the given accounts has had its turn as from the lists before the call and all others are as they were; the pool stays consistent, and chained if it was |
| TxPool.TxPool.TakeBack | evmcore/tx_pool.go:1539-1583 | old and unpayable transactions leave; what is no longer executable is taken out and is the only thing in transit, so none is stranded |
| TxPool.TxPool.DemoteAccount | evmcore/tx_pool.go:1538-1584 | one account's turn: kept, requeued and dropped transactions, and no other account changes |
| TxPool.TxPool.DemoteUnexecutables | evmcore/tx_pool.go:1536-1585 | in any order of accounts, each has had its turn as from the lists before the call; every account ends with pending nonces gap-free from the state nonce |
| TxPool.TxPool.Reset | evmcore/tx_pool.go:1233-1331 | a new head with any state nonces leaves the lists consistent and the nonces loosely ordered |
| TxPool.TxPool.CapByOne | evmcore/tx_pool.go:1433-1450 | one account loses its highest pending nonce, and lookup set and virtual nonce follow |
| TxPool.TxPool.Round | evmcore/tx_pool.go:1432-1451 | one round brings all offenders from one level to the next, and the running counter is the true total |
| TxPool.TxPool.Reduce | evmcore/tx_pool.go:1430-1452 | rounds stop at the first level at which the rest fits, or at the floor |
| TxPool.TxPool.CountPending | evmcore/tx_pool.go:1401-1404 | the true number of pending transactions |
| TxPool.TxPool.TruncatePending | evmcore/tx_pool.go:1400-1482 | every non-local account keeps its lowest nonces up to the max-min fair level, locals are untouched, the total fits or nobody is above the allowance; nothing changes if all fit |
| TxPool.TxPool.Pop | evmcore/tx_pool.go:1410-1423 | the account with the longest list, not yet cut |
| FairShare.FairIsUnique | evmcore/tx_pool.go:1400-1482 | fairness determines the outcome: two fair levels leave every account with the same list |
| FairShare.HalfwayStep | evmcore/tx_pool.go:1432-1451 | within a round each step takes one transaction off the total |
| TxPool.TxPool.CountQueue | evmcore/tx_pool.go:1486-1489 | the true number of queued transactions |
| TxPool.TxPool.RemoveHighest | evmcore/tx_pool.go:1519-1525 | an account loses its highest queued nonces, and nothing else changes |
| TxPool.TxPool.TruncateQueue | evmcore/tx_pool.go:1485-1527 | the queue ends exactly at its limit or only locals are left; how many each account keeps is given by the order, each its lowest nonces; locals and pending are untouched |
| TxPool.TxPool.QueuedRemotes | evmcore/tx_pool.go:1494-1501 | the non-local accounts with queued transactions, each once, in order of their heartbeats |
| TxPool.TxPool.InsertByBeat | evmcore/tx_pool.go:1501 | one more account, in order of heartbeat |
| TxPool.TxPool.TruncateByHeartbeat | evmcore/tx_pool.go:1485-1527 | if an account loses anything, every account heard from later loses everything; an account with a heartbeat of its own loses something if and only if locals and those not heard from after it exceed the limit by themselves |
| QueueOrder.LaterLosesFirst | evmcore/tx_pool.go:1504-1527 | of two accounts in the order, the one heard from later has lost everything before the other loses anything |
| QueueOrder.LosesIff | evmcore/tx_pool.go:1485-1527 | exactly when an account is cut, in terms of the sizes and heartbeats before |
| QueueOrder.CutOne | evmcore/tx_pool.go:1510-1525 | one step of the loop, whole list or part of it, leaves every account passed so far with what the order gives it |
| QueueOrder.CutRest | evmcore/tx_pool.go:1505-1525 | stopping when nothing is left to drop leaves the accounts not reached as they were, which is what the order gives them |
| TxPool.TxPool.RefreshNonces | evmcore/tx_pool.go:1207-1211 | every list is non-empty when its last element is asked for, and virtual nonces end one above the last pending nonce |
| TxPool.TxPool.Truncate | evmcore/tx_pool.go:1203-1211 | pending is cut to the fair level and the queue from the accounts heard from last; locals lose nothing, nobody does where all fit; the pool ends chained and within its limits |
| TxPool.TxPool.RunReorg | evmcore/tx_pool.go:1156-1212 | in terms of the pool before: nothing new comes; a transaction leaves only if stale, too large, unaffordable, or of a non-local account whose queue is full or a limit was passed; without a new head no visited account has anything executable or unaffordable left in its queue; with one, every transaction left can be executed some time, and a queue still holds an executable one if and only if it continues a front that was pending before; the pool ends consistent, chained and within its limits |
| TxPool.TxPool.Settle | evmcore/tx_pool.go:1168-1202 | the part before the truncation: who leaves and why, what promotion and demotion leave in the lists |
| TxPool.TxPool.PromoteDirty | evmcore/tx_pool.go:1156-1191 | without a new head exactly the dirty accounts are promoted and end with nothing executable or unaffordable in their queues |
| TxPool.TxPool.Restart | evmcore/tx_pool.go:1169-1191 | with a new head every transaction left can be executed some time, and says exactly whose next transaction is left in the queue |
| PoolReorg.PromotedStep | evmcore/tx_pool.go:1334-1395 | the turns of the accounts do not disturb each other: one more turn is one more account promoted from the lists before |
| PoolReorg.DemotedStep | evmcore/tx_pool.go:1536-1585 | the same for demotion |
| PoolReorg.PromotionFate | evmcore/tx_pool.go:1344-1381 | a queued transaction is stale, cannot be paid, is promoted, stays, or its account is at its limit |
| PoolReorg.DemotionFate | evmcore/tx_pool.go:1539-1583 | a pending transaction is stale, cannot be paid, stays or goes back to the queue, and only those that can be paid do |
| PoolReorg.PromotionLeaves | evmcore/tx_pool.go:1334-1395 | promotion of any accounts brings nothing new, and whatever leaves the lookup set has a reason |
| PoolReorg.ResetLeaves | evmcore/tx_pool.go:1334-1585 | promotion and demotion under a new head bring nothing new, whatever leaves has a reason, and all that stay can be executed some time |
| PoolReorg.PromotionClears | evmcore/tx_pool.go:1334-1395 | without a new head a promoted account has nothing executable left in its queue, nothing unaffordable and no more than its limit |
| PoolReorg.LeftBehindIff | evmcore/tx_pool.go:1316-1361 | on the lists of one account before the run: an executable transaction is left in the queue if and only if a front is pending, all of it can be paid, and the queue holds the next nonce, payable |
| PoolReorg.TrimLeaves | evmcore/tx_pool.go:1400-1527 | truncation brings nothing new and takes only from non-local accounts, when a limit was passed |
| TxPool.TxPool.Run | evmcore/tx_pool.go:678-1212 | over every run of operations the lookup set is the disjoint union of the lists and pending nonces are the interval from state nonce to virtual nonce, below the queue |
| PoolCases.LostToRefusal | evmcore/tx_pool.go:696-728 | in a full pool, with the real price heaps, the refused replacement of a local account costs a remote account its transaction |
| PoolCases.NewestGoes | evmcore/tx_pool.go:1485-1527 | of two queued transactions that of the account heard from last is dropped |
| PoolCases.Reinject | evmcore/tx_pool.go:949-963 | a transaction coming back after a reset is added exactly when it is new, valid and outbids what is in its place, and the nonces pending do not change |
| PoolCases.GapFreeIffJoins | evmcore/tx_pool.go:1334-1585 | after a reset, promotion and demotion leave no gap if and only if nothing is promoted, nothing pending is left, the two runs meet, or the first pending transaction cannot be paid |
| PoolCases.AllBackJoins | evmcore/tx_pool.go:1320-1322 | no gap appears when every nonce between the new and the old state nonce comes back and can be paid |
| PoolCases.Settle | evmcore/tx_pool.go:1334-1585 | the same for an account of the pool, on its lists before the call |
| PoolCases.GapAfterReorg | evmcore/tx_pool.go:1233-1331 | a pool with a gap: two nonces leave the chain and one comes back |
| PoolCases.LeftInQueue | evmcore/tx_pool.go:1316-1361 | nonce zero is pending and nonce one just queued when a new head arrives: one is executable afterwards and still in the queue |
| PricedPool.Ask | evmcore/tx_pool.go:696-714 | the answers of the price heaps to a crowded pool: with each remote held once, a granted request leaves room for the transaction |
| PricedPool.Follow | evmcore/tx_pool.go:729-756 | the price heaps follow an added transaction: they cover the remotes of the new lookup set |
| PricedPool.Add | evmcore/tx_pool.go:678-764 | pool and price heaps together: with each remote held once, a remote transaction is never added beyond the capacity of the pool; a refused replacement leaves the pool as it was if and only if there was room or no remote |
| PricedList.LessIsOrder | evmcore/tx_list.go:429-453 | the heap order is a total preorder compatible with the price comparison |
| PricedList.LessByCap | evmcore/tx_list.go:429-453 | without a base fee, in prices: the lower fee cap is below, then the lower tip cap, then the higher nonce |
| PricedList.LessByTip | evmcore/tx_list.go:441-453 | with a base fee, in prices: first the lower of tip cap and what the base fee leaves of the fee cap, then as without |
| PricedList.Pop | evmcore/tx_list.go:460-467 | takes out an entry that no other is below |
| PricedList.PricedList.Reheap | evmcore/tx_list.go:596-618 | the heaps hold each remote exactly once; the cheapest fifth floats |
| PricedList.PricedList.Removed | evmcore/tx_list.go:511-519 | rebuilds exactly when stale entries pass a quarter; remotes stay covered |
| PricedList.PricedList.Prune | evmcore/tx_list.go:535-543 | only stale entries are dropped, and then a least entry is live |
| PricedList.PricedList.UnderpricedFor | evmcore/tx_list.go:533-551 | true exactly when the heap holds remotes and none of them is cheaper |
| PricedList.PricedList.Underpriced | evmcore/tx_list.go:523-529 | in prices: true exactly when there are remotes, no floating one pays less by fee cap and tip cap, and no urgent one pays less by what the base fee leaves it; stale entries have no say |
| PricedList.PricedList.DemoteUrgent | evmcore/tx_list.go:560-568 | a step that moves or discards one urgent entry keeps the live entries in balance and lowers the measure |
| PricedList.PricedList.TakeFloating | evmcore/tx_list.go:574-583 | a step that takes one floating entry keeps the live entries in balance and shrinks the heap |
| PricedList.PricedList.Discard | evmcore/tx_list.go:557-593 | terminates without popping an empty heap; drops only live remotes, none more than needed; succeeds exactly when forced or the live entries occupy the slots; every live entry is kept or dropped; in prices: what came from the urgent heap pays no more than what stays there, and nothing dropped pays more than what was floating all along and stays |
| PricedList.OnceIsSum | evmcore/tx_list.go:557-593 | when each remote is held once, the slots that Discard can count are the slots of the remotes |
| PricedList.SlotsMatchIffOnce | evmcore/tx_list.go:557-593 | for heaps that hold every remote, the slots counted are the slots there are if and only if each remote is held once |
| PricedList.GrantsAreRealIff | evmcore/tx_list.go:557-593 | every granted request could be honoured if and only if each remote is held once |
| PricedList.PricedList.Track | evmcore/tx_pool.go:736-737 | a new remote is covered; it is held once exactly when no stale entry of it was left |
| PricedList.PricedList.Untrack | evmcore/tx_pool.go:1013-1017 | the rest stays covered; says exactly when the heaps are rebuilt |
| PricedList.PricedList.Forget | evmcore/tx_pool.go:1539-1560 | removal without notice to the heaps leaves the rest covered, and held once if it was |
| PricedList.PricedList.UntrackBatch | evmcore/tx_pool.go:1345-1390 | removal of a batch with one notice for all leaves the rest covered, and held once if it was |
| PricedList.PricedList.Migrate | evmcore/tx_pool.go:752-756 | remotes that become local leave the others covered |
| PricedList.PricedList.SetBaseFee | evmcore/tx_list.go:622-627 | a changed base fee rebuilds the heaps |
| PricedList.PricedList.MakeRoom | evmcore/tx_pool.go:696-720 | after eviction and removal the rest is covered; succeeds exactly when forced or granted; a request for slots that succeeds drops something exactly if there are remotes; with each remote held once the pool shrinks by exactly the slots dropped, at least those asked for |
| PricedList.PricedList.Run | evmcore/tx_list.go:500-627 | over every run, with notices at once, in batches or never, every remote in the lookup set is in at least one of the heaps |
| PricedList.Overcount | evmcore/tx_list.go:557-593 | in every list that holds a remote twice, some request is granted although the pool does not get smaller by the slots asked for |
| PricedList.HeldTwice | evmcore/tx_list.go:511-519 | a remote that leaves and returns before the heaps are rebuilt is held twice |
| Bitmap.New | utils/bitmap/bitset.go:5-11 | an empty set with room for the members |
| Bitmap.Put | utils/bitmap/bitset.go:13-17 | exactly one member more |
| Bitmap.HasWithBit | utils/bitmap/bitset.go:13-29 | setting a bit answers for that member and for no other |
| VoteWeights.Uint32RoundTrip | gossip/store_llr_block.go:49-59 | the four bytes give back the weight |
| VoteWeights.DecodesEncoded | gossip/store_llr_block.go:49-63 | a written row gives back weight and voters |
| VoteWeights.VoteStore.Write | gossip/store_llr_block.go:58-63 | the table then holds this weight and these voters, other rows are untouched |
| VoteWeights.VoteStore.Evict | gossip/store_llr_block.go:219-229 | letting go of any entry changes no vote |
| VoteWeights.VoteStore.CacheAdd | gossip/store_llr_block.go:250-252 | sets one vote and changes no other, whatever is evicted |
| VoteWeights.VoteStore.GetVoteWeight | gossip/store_llr_block.go:38-56 | returns what cache and table stand for, and changes no vote |
| VoteWeights.VoteStore.AddVoteWeight | gossip/store_llr_block.go:70-88 | a validator counts once; other votes do not change, whatever is evicted; fails exactly when the stored bitmap, made for the group of the first voter, has no bit for it |
| VoteWeights.VoteStore.Clean | gossip/store_llr_block.go:231-241 | writing one entry changes no vote |
| VoteWeights.VoteStore.FlushMutated | gossip/store_llr_block.go:231-241 | afterwards the table alone equals the map of votes |
| VoteWeights.VoteStore.Reopen | gossip/store_llr_block.go:215-252 | a restart after a flush loses no vote |
| VoteWeights.VoteStore.Run | gossip/store_llr_block.go:38-98 | under every run and every eviction schedule cache plus table refine the plain map from vote to weight and voters, up to the first vote without a bit, and stop nowhere else |
| EpochVoting.TallyStep | gossip/store_llr_block.go:70-88 | counting a ballot keeps the stored weight equal to the weight of the distinct voters, without wrap-around, and the bitmap always has a bit for the voter |
| EpochVoting.OnlyTheTruthWins | gossip/c_llr_callbacks.go:174-187 | with faulty weight at most a third no hash but the true one reaches the quorum |
| EpochVoting.FaultyWinAlone | gossip/c_llr_callbacks.go:174-187 | the bound is exact: more than a third of faulty weight wins any hash on its own |
| EpochVoting.DecidedStep | gossip/c_llr_callbacks.go:174-187 | after each ballot an epoch has a result exactly when some hash has reached the quorum |
| EpochVoting.Node.constructor | gossip/c_llr_callbacks.go:174-225 | a node without votes has no results |
| EpochVoting.Node.CountVote | gossip/store_llr_epoch.go:41-49 | the new weight is that of the distinct voters received so far |
| EpochVoting.Node.ProcessRawEpochVote | gossip/c_llr_callbacks.go:174-187 | a result appears as soon as a hash has won, is never overwritten, and the decide marker is the least undecided epoch |
| EpochVoting.Node.ProcessEpochVote | gossip/c_llr_callbacks.go:189-225 | each refusal, also of an unknown validator, exactly under its condition and without effect; no panic; otherwise one ballot more, the vote stored under its epoch and the event it came in, and the last vote of the creator never goes down |
| EpochVoting.Node.LearnEpoch | gossip/c_llr_callbacks.go:238-241 | recording the state of an epoch changes no vote and no result |
| EpochVoting.Node.Receive | gossip/c_llr_callbacks.go:189-225 | over any history of votes and epochs, with any evictions: every vote of an existing validator whose epoch is known by then ends up stored and counted, nothing else is counted, results stay and no last vote goes down |
| EpochVoting.Agreement | gossip/c_llr_callbacks.go:174-225 | two nodes that received votes in any order and repetition decide only the true hash |
| EpochVoting.HonestQuorumDecides | gossip/c_llr_callbacks.go:174-225 | once the honest voters counted weigh more than a third, the node has decided, on the truth |
| EpochVoting.ReceivedQuorumDecides | gossip/c_llr_callbacks.go:174-225 | a node that starts empty and receives, in any order and among anything else, votes of honest validators of more than a third, has decided on the truth |
| EpochVoting.TwoVotersDecide | gossip/c_llr_callbacks.go:174-225 | of four equal validators, one vote decides nothing and the votes of two in different events decide |
| BlockVoting.ResultsStay | gossip/c_llr_callbacks.go:36-44 | a result never changes, whatever votes follow |
| BlockVoting.TallyIsWeight | gossip/store_llr_block.go:70-98 | when all votes on a block come from the group of its epoch, a tally is the weight of the distinct validators that voted, and all of them have a bit |
| BlockVoting.OnlyTheTruth | gossip/c_llr_callbacks.go:33-89 | then faulty validators of at most a third in every epoch cannot decide a block wrongly |
| BlockVoting.QuorumDecides | gossip/c_llr_callbacks.go:33-46 | and a hash backed by more than a third of an epoch leaves the block decided |
| BlockVoting.AlwaysFitsIffRoomy | gossip/store_llr_block.go:70-88 | no votes ever index past a stored bitmap if and only if every position at which a validator of an epoch may vote fits the bitmap of every group in which one may vote first |
| BlockVoting.PastTheBitmap | gossip/store_llr_block.go:70-88 | eight validators, then nine: the second vote of one of them indexes past the bitmap of the first |
| BlockVoting.WrongReachableIff | gossip/c_llr_callbacks.go:33-89 | a block can be decided wrongly by some votes if and only if, in an epoch it may be claimed for, faulty validators hold positions, in any later epochs, that fit one bitmap and whose weights, summed in 32 bits, make the quorum of an epoch in which one of the positions is held |
| BlockVoting.ClaimsOf | gossip/store_llr_block.go:70-88 | the tally of a hash that only faulty validators back is a sum of one weight per position, each from an epoch in which the position is held |
| BlockVoting.Enlist | gossip/c_llr_callbacks.go:61-77 | conversely, any such choice of positions and epochs is the tally of some votes |
| BlockVoting.SteadyIsSafe | gossip/c_llr_callbacks.go:61-77 | with one group in all later epochs a third of the weight is never enough |
| BlockVoting.NobodyTwiceIffKeepPlaces | gossip/c_llr_callbacks.go:61-77 | no validator is ever counted twice for a hash if and only if validators keep their positions in later epochs |
| BlockVoting.MovedDecidesIff | gossip/c_llr_callbacks.go:61-77 | a validator that votes at two positions: exactly when it has a bit, and then exactly when it decides a block alone |
| BlockVoting.ThirdDecidesAlone | gossip/c_llr_callbacks.go:61-77 | two epochs with the same three validators, where a third of the weight decides a block wrongly from two positions |
| BlockVoting.LighterQuorumDecides | gossip/c_llr_callbacks.go:33-46 | two epochs in which nobody moves but all become lighter: a third of the weight decides a block wrongly, because the weight counted first meets the lower quorum |
| BlockNode.Node.constructor | gossip/c_llr_callbacks.go:33-89 | a node without votes has no results |
| BlockNode.Node.ProcessBlockVote | gossip/c_llr_callbacks.go:33-46 | tallies and results stay those of the votes counted, the decide marker stays the least undecided block; fails exactly on a vote without a bit |
| BlockNode.Node.ProcessBlockVotes | gossip/c_llr_callbacks.go:48-89 | each refusal, also of an unknown validator, exactly under its condition and without effect; otherwise one vote per block of the batch, in order, up to the first without a bit; the batch stored under its epoch, last block and the event it came in, and the last vote of the creator never goes down |
| BlockNode.Node.Receive | gossip/c_llr_callbacks.go:48-89 | over any history of batches and epochs: every batch of an existing validator whose epoch is known by then ends up stored and counted, nothing else is counted, results stay and no last vote goes down; it stops only at a vote without a bit, and never if the groups leave room |
| BlockNode.Node.ReceiveVotes | gossip/c_llr_callbacks.go:48-89 | one more batch in such a history |
| BlockNode.BlockAgreement | gossip/c_llr_callbacks.go:33-89 | two nodes that received votes on a block from the group of its epoch, in any order and repetition, decide only its true record |
| BlockNode.BlockAgreementIfSafe | gossip/c_llr_callbacks.go:33-89 | and so they do, whatever the epochs of the events, when faulty validators cannot outweigh a quorum across epochs |
| BlockNode.ReceivedQuorumDecides | gossip/c_llr_callbacks.go:33-89 | a node that starts empty and receives, in any order and among anything else, the votes of honest validators of more than a third has decided the block, on the truth |
| LowestIndex.LeastMissingIsUnique | gossip/c_llr_callbacks.go:23-31 | there is only one least missing index |
| LowestIndex.Actualize | gossip/c_llr_callbacks.go:23-31 | terminates at the next missing index, and only if the updated index was the current one |
| LowestIndex.DecidingKeepsMarker | gossip/c_llr_callbacks.go:33-46 | a result with its update keeps the marker at the least undecided index |
| LowestIndex.WriteKeepsInv | gossip/c_llr_callbacks.go:141-160 | writing a record, also while another goroutine scans, keeps the marker invariant |
| LowestIndex.MoveKeepsInv | gossip/c_llr_callbacks.go:279-293 | every step of an update, scanning record by record while others write, keeps it |
| LowestIndex.RunKeepsInv | gossip/c_llr_callbacks.go:141-293 | it holds in every state of every interleaving |
| LowestIndex.MarkerIsSafe | gossip/c_llr_callbacks.go:141-293 | all records below the marker are present, and a record at the marker means an update is still to come |
| LowestIndex.QuietMarkerIsExact | gossip/c_llr_callbacks.go:141-293 | when all goroutines are through, the marker is the least missing index |
| LowestIndex.SomeoneMoves | gossip/store_llr_state.go:20-26 | a goroutine that is not through can always be served |
| LowestIndex.MovesApproachQuiet | gossip/c_llr_callbacks.go:279-293 | without further writes the updates come to an end |
| BasicCheck.ValidateBVs | eventcheck/basiccheck/basic_check.go:255-299 | passes exactly the block votes that can be held against their creator |
| BasicCheck.ValidateVotes | eventcheck/basiccheck/basic_check.go:255-276 | passes exactly no votes at all, unless they are demanded, or up to 64 votes from a block on in an epoch that has begun |
| BasicCheck.ValidateVote | eventcheck/basiccheck/basic_check.go:278-292 | passes exactly no vote, unless one is demanded, or a vote with a hash in an epoch that has begun |
| BasicCheck.ValidateEV | eventcheck/basiccheck/basic_check.go:278-306 | passes exactly the epoch votes that can be held against their creator |
| BasicCheck.CheckEvents | eventcheck/basiccheck/basic_check.go:79-102 | passes exactly two different events of one validator with one sequence number |
| BasicCheck.CheckBlockVotes | eventcheck/basiccheck/basic_check.go:103-126 | passes exactly two different votes of one validator on one block |
| BasicCheck.CheckWrongBlock | eventcheck/basiccheck/basic_check.go:127-155 | comparing neighbours suffices: passes exactly different validators that all agree on the block |
| BasicCheck.CheckEpochVotes | eventcheck/basiccheck/basic_check.go:156-176 | passes exactly two different votes of one validator on one epoch |
| BasicCheck.CheckWrongEpoch | eventcheck/basiccheck/basic_check.go:177-196 | passes exactly different validators with the same epoch vote |
| BasicCheck.ValidateMP | eventcheck/basiccheck/basic_check.go:77-201 | a proof is accepted if and only if it makes one accusation and that accusation holds; malformed if and only if all its accusations hold but it does not make exactly one |
| LlrEmitter.Above | gossip/emitter/emitter_llr.go:23-31 | the least number from the marker on above both memories |
| LlrEmitter.Emitter.constructor | gossip/emitter/emitter.go:88-127 | a new emitter has sent nothing |
| LlrEmitter.Emitter.AddBlockVotes | gossip/emitter/emitter_llr.go:18-61 | the one batch of known blocks of one epoch above everything remembered, full or ended by the epoch; nothing exactly when skipped, a block is missing or has no epoch |
| LlrEmitter.OnlyBatch | gossip/emitter/emitter_llr.go:18-61 | what is known and where the batch starts decide the batch |
| LlrEmitter.Emitter.AddEpochVote | gossip/emitter/emitter_llr.go:63-84 | the node's own record of the least epoch above everything remembered, if it has one; otherwise no vote |
| LlrEmitter.Emitter.EmitEvent | gossip/emitter/emitter.go:246-267 | sends exactly the votes chosen above both memories, which are the node's own records, and only after remembering them; database and files are what the stage reached says; wherever the process dies, what has been sent stays increasing and remembered, with or without the files |
| LlrEmitter.BatchRecorded | gossip/emitter/emitter_llr.go:18-61 | every block vote of a batch is the node's own record of that block, and all are of one epoch |
| LlrEmitter.Emitter.Restart | gossip/emitter/prev_action_files.go:44-101 | for blocks and epochs separately: with the file any database will do, without it the database must not be older; then everything sent is still remembered |
| LlrEmitter.Emitter.Run | gossip/emitter/emitter.go:246-267 | over any run of emissions, crashes and restarts the ranges sent are disjoint and increasing and the epochs strictly increase, if each kind has its file or never gets an older database; every vote sent was the node's own record when it was sent |
| LlrEmitter.BlockVotesAreInnocent | eventcheck/basiccheck/basic_check.go:103-126 | no proof built from two block votes of the emitter is accepted |
| LlrEmitter.EpochVotesAreInnocent | eventcheck/basiccheck/basic_check.go:156-176 | no proof built from two epoch votes of the emitter is accepted |
| LlrEmitter.BlocksStillKept | gossip/emitter/emitter.go:246-267 | dying anywhere in the emission of a block vote leaves all sent ones remembered |
| LlrEmitter.EpochsStillKept | gossip/emitter/emitter.go:246-267 | dying anywhere in the emission of an epoch vote leaves all sent ones remembered |
| LlrEmitter.EpochLedAstrayIff | gossip/emitter/emitter_llr.go:63-84 | after a restart without the file, some world makes the emitter sign an epoch vote that convicts it if and only if the database restored is below the last vote sent |
| LlrEmitter.BlocksLedAstrayIff | gossip/emitter/emitter_llr.go:18-61 | the same for block votes, where only blocks that a proof may contest count |
| LlrEmitter.ForgetfulEpoch | gossip/emitter/emitter.go:246-267 | an emitter that restarts with such a database goes on to send the convicting epoch vote |
| LlrEmitter.ForgetfulBlocks | gossip/emitter/emitter.go:246-267 | an emitter that restarts with such a database goes on to send the convicting block votes |
| WeightedSelect.Insert | gossip/randselect.go:90-114 | into a node that is not full it never panics, takes the first vacant position and returns its number; all sums and counts fit again |
| WeightedSelect.FindBranch | gossip/randselect.go:91-97 | the first branch with room; the search does not run off the end |
| WeightedSelect.SetWeight | gossip/randselect.go:118-139 | changes exactly one position, vacates it for weight zero, and corrects every sum and count above |
| WeightedSelect.Choose | gossip/randselect.go:142-153 | the item whose interval of summed weights holds the value; never runs off the end |
| WeightedSelect.ChoiceIsUnique | gossip/randselect.go:142-153 | the intervals do not overlap, so the value decides the item |
| WeightedSelect.Grown | gossip/randselect.go:47-53 | a new root keeps every position number and adds vacant ones behind |
| WeightedSelect.BranchChanged | gossip/randselect.go:118-139 | changing one branch changes one position of the node, and the adjusted counters are right |
| WeightedSelect.PositiveCells | gossip/randselect.go:142-153 | every item in the tree has positive weight |
| WeightedSelect.WeightedRandomSelect.constructor | gossip/randselect.go:21-23 | an empty map |
| WeightedSelect.WeightedRandomSelect.Set | gossip/randselect.go:37-58 | the map from item to weight with one item set or removed; other items keep weight and position |
| WeightedSelect.WeightedRandomSelect.Draw | gossip/randselect.go:62-77 | terminates because each retry lowers the sum, and draws what the same random numbers draw on the plain positions; the item drawn has its current weight stored, nothing is returned only when nothing is left |
| DrawChance.ChanceIsShare | gossip/randselect.go:58-77 | with uniform random numbers, and averaged over all retries, an item is drawn in proportion to the lower of its stored and its current weight |
| DrawChance.ChanceIsCurrentShare | gossip/randselect.go:58-61 | so in proportion to its current weight as long as no weight has gone up since it was stored |
| DrawChance.HeavierIsMissed | gossip/randselect.go:58-61 | a weight that has gone up does not count before it is stored: of two items of stored weight one, the doubled one is still drawn every second time |
| WeightedShuffle.BelowSplits | utils/weighted_shuffle.go:25-31 | an index below another is in its left or its right side, never in both |
| WeightedShuffle.UnderUpdate | utils/weighted_shuffle.go:66-84 | changing one weight changes the sums above it and no other |
| WeightedShuffle.ThreeWays | utils/weighted_shuffle.go:66-84 | for three weights in plain numbers: the residue picks the index, then its left child, then its right child |
| WeightedShuffle.RootIsSum | utils/weighted_shuffle.go:33-51 | the sum at the root is the sum of all weights |
| WeightedShuffle.DrawMany | utils/weighted_shuffle.go:89-110 | drawing from what remains gives distinct indexes in range, and exactly the drawn weights are gone |
| WeightedShuffle.SomethingLeft | utils/weighted_shuffle.go:66-70 | while not all are drawn the modulus at the root is positive |
| WeightedShuffle.ShorterIsPrefix | utils/weighted_shuffle.go:89-110 | a shorter request is a prefix of a longer one with the same random stream |
| WeightedShuffle.ResiduesAreWeights | utils/weighted_shuffle.go:66-84 | of the residues at a node, exactly as many stop there as it weighs and as many go to either side as weigh there |
| WeightedShuffle.ChanceIsShare | utils/weighted_shuffle.go:66-84 | the average over all residues, at every node on the way, of descending to an index is the share of its remaining weight, and zero for indexes not below |
| WeightedShuffle.Tree.Build | utils/weighted_shuffle.go:33-51 | every node below holds the sums of its sides, and no other node changes |
| WeightedShuffle.Tree.Retrieve | utils/weighted_shuffle.go:66-84 | the tree draws what drawing from the remaining weights draws, never divides by zero, and its sums again are those of the remaining weights |
| WeightedShuffle.DrawOne | utils/weighted_shuffle.go:105-108 | one more draw of the permutation, with no uint32 overflow |
| WeightedShuffle.WeightedPermutation | utils/weighted_shuffle.go:89-110 | distinct indexes in range, the same as drawing without the tree |
| GasPower.PerSec | eventcheck/gaspowercheck/gas_power_check.go:143-151 | a share never exceeds the allocation |
| GasPower.CalcValidatorGasPowerPerSec | eventcheck/gaspowercheck/gas_power_check.go:134-166 | the configured minima hold for every validator with stake, whatever wraps around |
| GasPower.RatesAre | eventcheck/gaspowercheck/gas_power_check.go:134-166 | the rate, the maximum and the startup amount of a validator in plain numbers, when they fit a word |
| GasPower.CalcValidatorGasPower | eventcheck/gaspowercheck/gas_power_check.go:109-132 | at most the maximum, and with a self-parent at most what was left plus what time allocates |
| GasPower.PowerIsSum | eventcheck/gaspowercheck/gas_power_check.go:109-132 | unless the sum leaves the word, the power is what was left, raised to the startup amount for a first event, plus the allocation, up to the maximum |
| GasPower.SharesFit | eventcheck/gaspowercheck/gas_power_check.go:134-151 | the shares of all validators sum to at most the allocation, and rounding loses less than one unit each |
| GasPower.Validate | eventcheck/gaspowercheck/gas_power_check.go:169-180 | irrelevant exactly when of another epoch; accepts exactly events of this epoch that account for their power in every configuration |
| GasPower.FirstPower | eventcheck/gaspowercheck/gas_power_check.go:87-132 | an accepted first event has and uses exactly what the validator had left in the epoch before plus its refund, at least the startup amount, plus the allocation since its last event or the start of the epoch, up to the maximum |
| GasPower.NextPower | eventcheck/gaspowercheck/gas_power_check.go:87-132 | any other accepted event has and uses exactly what its self-parent had left plus the allocation since, up to the maximum |
| GasPower.StepBound | eventcheck/gaspowercheck/gas_power_check.go:87-132 | an accepted event has and uses at most what its parent had left plus the allocation; the size check rules out wrap-around |
| GasPower.ChainBound | eventcheck/gaspowercheck/gas_power_check.go:87-180 | all that a chain used and has left was available to its first event or allocated while time went up |
| GasPower.FirstBound | eventcheck/gaspowercheck/gas_power_check.go:87-132 | a first event brings at most what was left before, the refund, the startup amount and the allocation |
| GasPower.CareerBound | eventcheck/gaspowercheck/gas_power_check.go:87-180 | across any number of epochs: all that a validator used and has left was left before the first of them or is refund, startup amount or allocation of one of them |
| GasPower.ElapsedBound | eventcheck/gaspowercheck/gas_power_check.go:87-180 | with times that do not go down: at most the first event's power plus rate times elapsed time, rounded down once |
| GasPower.ChainBoundIsTight | eventcheck/gaspowercheck/gas_power_check.go:87-180 | for all times, no two neighbours 292 years apart, there is an accepted chain that uses everything the bound allows |
| GasPower.ElapsedBoundsIffNeverDown | eventcheck/gaspowercheck/gas_power_check.go:118-127 | the elapsed time bounds every accepted chain over given times if and only if they never go down, when no two neighbours are 292 years apart |
| GasPower.DownIsNotBounded | eventcheck/gaspowercheck/gas_power_check.go:118-127 | for all times that go down somewhere, an accepted chain that exceeds the elapsed time |
| GasPower.LongJumpIsBounded | eventcheck/gaspowercheck/gas_power_check.go:118-127 | beyond a jump of 2^63 - 2 nanoseconds between two events going down need not show: times that go down and every accepted chain is bounded by the elapsed time |
| BlockGas.IntrinsicGas | evmcore/state_transition.go:116-150 | fails exactly when base and data do not fit a word; otherwise the price of bytes and access list |
| BlockGas.IntrinsicIs | evmcore/state_transition.go:116-150 | the intrinsic gas in plain numbers, and what it leaves for the execution |
| BlockGas.GasPool.SubGas | evmcore/gaspool.go:39-45 | succeeds exactly when the pool has the gas, and takes it |
| BlockGas.StateTransition.BuyGas | evmcore/state_transition.go:188-203 | succeeds exactly with funds and pool gas, then charges both; short of funds exactly if the balance is below gas times price; otherwise changes nothing |
| BlockGas.StateTransition.PreCheck | evmcore/state_transition.go:205-225 | each error exactly under its condition on nonce, sender, funds and pool, and then nothing changes; otherwise gas times price is charged |
| BlockGas.StateTransition.RefundGas | evmcore/state_transition.go:314-329 | the refund is the counter or the capped share of the gas spent; sender and pool get back the same gas |
| BlockGas.StateTransition.Execute | evmcore/state_transition.go:283-311 | for any execution that returns no more than it was given, the pool ends short of exactly the gas used; what an execution costs is in BlockGas.UsedGasIs |
| BlockGas.StartIs | evmcore/state_transition.go:188-291 | an execution starts with gas times price taken from the sender, whose nonce is one higher unless a contract is created, and everyone else as before |
| BlockGas.UsedGasIs | evmcore/state_transition.go:283-329 | exactly what an execution costs, in plain numbers: the gas it took, a tenth of what it returned unless the sender is the zero address, less the refund capped at a half or, since EIP-3529, a fifth |
| BlockGas.StateTransition.TransitionDb | evmcore/state_transition.go:245-311 | runs exactly the messages that may buy and cover their intrinsic gas; says what each refusal leaves behind |
| BlockGas.ChargeIsUsed | evmcore/state_transition.go:188-329 | the sender is charged the gas used times the price, whatever the execution moved |
| BlockGas.UsedIsAtLeast | evmcore/state_transition.go:296-320 | the refund leaves at least half, or since EIP-3529 four fifths, of the gas spent used |
| BlockGas.ApplyTransaction | evmcore/state_processor.go:98-162 | a receipt exactly for a message that runs where it stands; says what state and pool become in either case |
| BlockGas.Process | evmcore/state_processor.go:58-96 | the transactions run one after the other from the given state and gas limit: each leaves a receipt or its index according to what it finds; cumulative gas is the running sum; stops at the first transaction without a sender |
| BlockGas.SkippedIff | evmcore/state_processor.go:76-92 | the indexes skipped are exactly those of transactions that may not buy their gas or do not cover the intrinsic gas in the state they meet |
| BlockGas.BlockSharesOut | evmcore/state_processor.go:76-92 | receipts and skipped indexes share out the block, in order |
| BlockGas.BlockGasAddsUp | evmcore/state_processor.go:58-96 | pool plus receipts plus what refused messages took is the gas limit, and they take nothing when all cover their intrinsic gas |
| BlockGas.ChargesAddUp | evmcore/state_transition.go:188-329 | over a block the senders pay the gas of each receipt at its price, plus the gas that refused messages took, apart from what executions move |
| BlockGas.Leak | evmcore/state_transition.go:245-275 | for a message that may buy gas, pool and receipt add up if and only if it covers its intrinsic gas |
| BlockGas.FilterSkippedTxs | inter/block.go:24-40 | with ascending indexes exactly the transactions not listed, in order, up to 2^32 of them |
| BlockGas.KeptTransactions | inter/block.go:24-40 | filtering a processed block of up to 2^32 transactions by its skipped indexes gives those with receipts, in order |
| MedianTime.MedianIsUnique | vecmt/median_time.go:56-71 | only one time is the median |
| MedianTime.MedianOfPermutation | vecmt/median_time.go:56-60 | the order of the entries, and so of equal times, does not matter |
| MedianTime.StopIsMedian | vecmt/median_time.go:62-71 | stopping where the running weight reaches half finds the least claimed time at which the weight reaches half |
| MedianTime.Sort | vecmt/median_time.go:56-60 | a permutation in order of time |
| MedianTime.MedianTime | vecmt/median_time.go:21-84 | the least claimed time at which the honest weight reaches half; the sanity check never fires |
| MedianTime.MedianIsHonest | vecmt/median_time.go:43-49 | unless half is zero, a validator with weight claims the median |
| MedianTime.NotBelowTheRest | vecmt/median_time.go:62-71 | a coalition lighter than half cannot pull the median below everyone else |
| MedianTime.NotAboveTheRest | vecmt/median_time.go:62-71 | when the others weigh at least half, a coalition cannot push the median above all of them |
| MedianTime.HalfPullsDown | vecmt/median_time.go:62-71 | the first bound is exact: as heavy as half, a coalition decides a time below everyone else |
| MedianTime.LightRestIsPassed | vecmt/median_time.go:62-71 | the second bound is exact: against less than half a coalition decides a time above everyone else |
| MedianTime.MinorityPullsDown | vecmt/median_time.go:63 | half is rounded down: one of three equal validators pulls the median below the other two |
| MedianTime.CheaterDecides | vecmt/median_time.go:43-71 | one input: with one unit of honest weight a cheater's time is the result |
| MedianTime.HalfZeroIsLeast | vecmt/median_time.go:62-71 | when half is zero the median is the least claimed time, whoever claims it |
| MedianTime.BelowMedian | vecmt/median_time.go:62-71 | below the median the weight does not reach half |
| MedianTime.CheatersDoNotMove | vecmt/median_time.go:43-49 | unless half is zero, changing the times of cheaters does not change the median |
| MedianTime.CheatersHaveNoSayIff | vecmt/median_time.go:43-71 | for given weights, no change of the times of cheaters ever changes the median if and only if half is positive or there are no cheaters |

## Left out

- ParallelSearch: `Halt`, fetch errors, cancellation and handlers that stop the search are not modelled, nor is the fetch of the record itself; that the store iterates keys in order is built into what a scan yields.
- TxPool: accounts hold their lists as values here; that the objects behave as these values is what the TxList classes prove.  The journal, events, metrics and the scheduling of `scheduleReorgLoop` are not modelled.
- TxPool.TxPool.Add: takes the answers of the price heaps as a parameter, so its result holds for any answer; PricedPool.Add asks the heaps.
- TxPool.TxPool.Reset: the search for the common ancestor, its early returns and the reinjection itself are not part of it; PoolCases treats one account after reinjection.
- TxPool.TxPool.RemoveTx: does not delete the heartbeat of an account that becomes empty, and the notice to the price heaps is in PricedList.
- TxPool.TxPool.TruncateByHeartbeat: among accounts with equal heartbeats the order is left open, as the sort of the source leaves it.
- PoolCases.Reinject: leaves out evictions from a full pool during reinjection, and that the account may be local.
- PricedList: a heap is modelled by what it holds, without the array; the counter of stale entries is modelled but nothing is claimed about its accuracy.
- VoteWeights: the byte slice of a set is a value; the sharing of one slice between cache and caller is not modelled.
- EpochVoting: signatures are assumed checked.
- BlockVoting: the limits on the size of block and epoch numbers and on the length of a batch are left out; signatures are assumed checked.
- BlockNode.Node.Receive: ends with a panic; what a restart finds in the database then is not modelled.
- LowestIndex: the shortcut in block processing for networks without LLR, which advances a decide marker by one without looking further, is not modelled.
- BasicCheck.ValidateMP: which error a false accusation gets is not stated.
- LlrEmitter: the heuristics that skip votes are parameters; an event that peers fetch before its votes are remembered is treated as not sent.
- WeightedSelect: nodes are values, so update in place of a shared node is not captured.
- WeightedSelect.WeightedRandomSelect.Set: sums of weights are unbounded integers, without the overflow of int64.
- WeightedShuffle: the hash chain of the random stream is a parameter; weights are positive and their sum fits 32 bits, as the source demands.
- GasPower.ElapsedBoundsIffNeverDown: not stated for times with neighbours 2^63 - 2 nanoseconds apart or more, like GasPower.ChainBoundIsTight and GasPower.DownIsNotBounded; there it is false (GasPower.LongJumpIsBounded), and which of these times are bounded is left open.  That the elapsed time bounds chains whose times never go down (GasPower.ElapsedBound) has no such limit.
- GasPower: where the validation context of an epoch comes from is not modelled.
- BlockGas: the EVM is an arbitrary function that returns no more gas than it was given; logs, blooms and roots are not modelled.
- BlockGas.FilterSkippedTxs: says nothing about blocks of more than 2^32 transactions, whose indexes do not fit the list.
- MedianTime: the vector clocks that deliver the observations are not modelled; weights sum without wrap-around, as validator groups guarantee.
- Serialization, signatures, tries, p2p, RPC, databases and the launcher are outside this project.
