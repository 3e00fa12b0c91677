# A model of the go-hpb node core

This project models the stateful heart of the go-hpb blockchain node in Dafny and proves what its
parts keep over whole runs. Its modules follow the program's structure.

* `Chain`, `HeaderChain`, `Ancestry`, `BlockChain`: headers, fork choice by total difficulty, the
  number-to-hash index, ancestor walks, reorganisation and the transaction lookup index.
* `TaskLane`, `Scheduler`, `Skeleton`: the download scheduler, which hands tasks to peers and
  releases finished blocks in order through a sliding cache.
* `NonceHeap`, `TxSpec`, `TxSortedMap`, `TxList`, `PoolState`, `TxPool`, `PoolLimits`, `PoolOps`,
  `PoolEager`, `PoolGap`: the transaction pool, from the binary heap up to runs of the whole pool.
* `ChainIndexer`, `StateSync`: two concurrent background machines. Each stretch of code that runs
  under a lock, or inside one turn of an event loop, is one step; the steps interleave freely.
* `Accounting`: gas and money over a message and over a block.
* `AbiBytes`, `Abi`: the contract ABI codec.
* `Options`: a value that may be absent.

## How to read it

Hashing is ideal: the digest of a header is a term that contains the header, so equal hashes mean
equal headers, and a pool keyed by hash is a set. Roots of transaction, uncle and receipt lists
are ideal in the same way. Time, randomness and the network are parameters: the coin flip at equal
difficulty, which requests have expired, what a peer answers, the order of Go's map iteration, and
what the virtual machine returns.

State that the program changes in place is a class, and its methods are proved against functions
and predicates on values. Loops are methods with invariants; where a loop works on a local copy,
it is a method on values. An operation that takes tasks or transactions out of one container
before it puts them into another is proved with what it has in hand counted in, so that nothing is
lost between two steps. Definitions that code and contracts share are also stated in other terms, by
lemmas named `...Exactly` or in the contracts themselves: a price rule as an inequality, a packed
word as the number its bytes stand for, a kept section by its block numbers. The strongest
statements are the `Run` methods: they take an arbitrary sequence of events, drive the object
through it, and return the trace. Each step of the trace is tied to its event, and every state in it
is safe.

Some things that reading one function does not tell:

* The index check in `reserveHeaders` cannot fail. The space computed from the cache size, the done
  pool and the requests in flight, together with lowest-number-first popping, already forces every
  index into range (`TaskLane.LowestInRange`).
* `ReserveHeaders` uses 0 for "nothing found", so it loses a skeleton task exactly if index 0 is
  queued and the peer is not known to miss it (`Skeleton.PickConserves`, and `Skeleton.ZeroIsLost`
  for a skeleton that starts at block 0).
* `cancel` trusts the request it is given. It conserves the tasks if and only if that is the request
  in flight for the peer (`TaskLane.CancelExactly`); the same request cancelled twice is queued twice
  (`TaskLane.CancelTwice`).
* `keepFit` cuts all large accounts to one common level, the highest one that fits
  (`PoolLimits.LimitPending`).
* Promotion is complete: at no point of any run is the next transaction of an account, the one at its
  virtual nonce, left in the queue (`PoolEager.RunIsEager`).
* Demotion on a new head looks for a gap in front of an account's list only. `PoolOps.GroundedExactly`
  says for which lists that leaves a gap, and `PoolGap.GapReached` is a run of the pool that gets
  there: a transaction becomes pending at nonce 5, then a reorganisation moves the chain back to
  nonce 3 and returns the transactions 3 and 4, of which the account can no longer pay the second.
* A reset sets the virtual nonces of accounts with pending transactions only. If the returning
  transactions are too many, an account can lose a transaction the new head already contains; its
  virtual nonce then stays below the chain nonce, and its next transaction waits in the queue
  (`PoolGap.NonceLeftBehind`). `PoolOps.Reset` says exactly when demotion leaves neither kind of gap.
* Big integers are decoded as unsigned words, so a negative `int256` never comes back
  (`Abi.DecodesExactlyWhen`, `Abi.NegativeComesBackPositive`).
* A plain transfer that fails for want of value after the gas was bought has cost exactly the price
  of that gas (`Accounting.FailureCosts`, `Accounting.ShortTransfer`); the block is then rejected.

## Model

| member | source | states |
|---|---|---|
| Chain.PathTdIsSum | blockchain/headerchain.go:137-148 | total difficulty added up parent by parent is the sum of the difficulties over all numbers of the path |
| HeaderChain.HeaderChain.WriteHeader | blockchain/headerchain.go:131-195 | a header with an unknown parent, and only that, is refused; any other is stored with its total difficulty, canonical or not, nothing else is added or lost, and it becomes the head exactly if it is heavier, or equally heavy and the coin says so; difficulties, heaviest head and index stay exact |
| HeaderChain.HeaderChain.Reroute | blockchain/headerchain.go:156-180 | the index moves from exactly the path of the old head to exactly the path of the new one |
| HeaderChain.HeaderChain.DeleteAbove | blockchain/headerchain.go:156-163 | deleting until the first gap removes every entry above the new head and no other |
| HeaderChain.HeaderChain.OverwriteStale | blockchain/headerchain.go:164-176 | the overwrite loop ends, at the fork point, with all lower entries those of the new path |
| HeaderChain.HeaderChain.SetHead | blockchain/headerchain.go:410-443 | leaves exactly the index prefix of length head+1, deletes exactly the abandoned headers, reports them highest first |
| HeaderChain.HeaderChain.DropHeaders | blockchain/headerchain.go:416-425 | walks down the path, deleting headers and difficulties of exactly the part above the new head |
| HeaderChain.HeaderChain.TruncateIndex | blockchain/headerchain.go:427-429 | keeps exactly the index entries up to the new head |
| HeaderChain.WriteKeepsTds | blockchain/headerchain.go:309-337 | after a write every stored total difficulty is that of its path |
| HeaderChain.WriteKeepsHeaviest | blockchain/headerchain.go:152-189 | no stored header outweighs the head, and the head never gets lighter |
| HeaderChain.WriteKeepsInv | blockchain/headerchain.go:131-195 | a write keeps the store closed under parents, the difficulties, the heaviest head and the exact index |
| HeaderChain.WriteMovesHead | blockchain/headerchain.go:152-189 | a canonical write makes the header the head, any other leaves head and index alone; an unknown parent, and only that, is refused |
| HeaderChain.WriteStores | blockchain/headerchain.go:137-154 | what one write stores and when it is canonical |
| HeaderChain.RunFromGenesis | blockchain/headerchain.go:131-195 | over every run of writes from genesis: difficulties are path sums, the head is heaviest, the index is the head's path and nothing above |
| HeaderChain.RunStores | blockchain/headerchain.go:137-151 | a run stores, of the headers written, exactly those whose parent was stored when their turn came |
| HeaderChain.HeadBeatsAll | blockchain/headerchain.go:137-189 | the head is at least as heavy as every header written when its parent was known, whether it ever became canonical or not |
| HeaderChain.HeadTdMonotone | blockchain/headerchain.go:152-189 | over every run the head's total difficulty never decreases |
| Ancestry.ForkExists | blockchain/database_util.go:663-687 | two rooted headers have exactly one fork number |
| Ancestry.ForkIsDeepest | blockchain/database_util.go:663-687 | any common ancestor is at or below the fork |
| Ancestry.SegmentsDisjoint | blockchain/blockchain.go:1117-1135 | above the fork the two sides share no block |
| Ancestry.FindCommonAncestor | blockchain/database_util.go:663-687 | returns the deepest common ancestor; on a store that holds both paths it never fails |
| Ancestry.ReorgWalk | blockchain/blockchain.go:1095-1135 | the walk meets at the fork and collects exactly the blocks and transactions above it, each side highest first |
| Ancestry.ResetWalk | txpool/tx_pool.go:214-243 | the pool's walk meets at the same fork with the same collected transactions |
| Ancestry.Reinject | txpool/tx_pool.go:203-246 | what a reset re-adds: for heads whose numbers are at most 64 apart, exactly the transactions only the old side had |
| BlockChain.BlockChain.WriteBlockAndState | blockchain/blockchain.go:791-857 | fork choice; afterwards the canonical index up to the head is the head's path and the lookup index maps exactly its transactions |
| BlockChain.BlockChain.MakeCanonical | blockchain/blockchain.go:829-854 | with or without a reorganisation both indexes become those of the new head |
| BlockChain.BlockChain.Reorg | blockchain/blockchain.go:1072-1165 | cannot fail on a parent-closed store, and leaves both indexes exact for the new chain |
| BlockChain.BlockChain.Adopt | blockchain/blockchain.go:1149-1157 | inserting the new segment highest first sets the entries above the fork and touches none below |
| BlockChain.BlockChain.Insert | blockchain/blockchain.go:460-482 | the block becomes canonical at its number and the head block; the head header and the fast block follow if and only if it was not canonical before |
| BlockChain.BlockChain.WriteTxLookupEntries | blockchain/database_util.go:519-536 | the block's transactions point to their positions, all other entries are unchanged |
| BlockChain.BlockChain.DeleteTxLookupEntries | blockchain/blockchain.go:1159-1165 | removes exactly the given entries |
| BlockChain.ReorgLookup | blockchain/blockchain.go:1147-1165 | overlaying the new segment and then deleting what only the old one had makes the lookup index exact |
| BlockChain.ExtendLookup | blockchain/blockchain.go:835-838 | writing a child of the head makes the lookup index exact for the child |
| BlockChain.TdsStep | blockchain/blockchain.go:795-812 | stored difficulties stay path sums and the head the heaviest |
| BlockChain.Run | blockchain/blockchain.go:791-857 | after every write of every run from genesis both indexes are those of the head, which is the heaviest block |
| TaskLane.LowestInRange | synctrl/scheduler.go:476-494 | the throttle arithmetic puts the lowest queued header inside the result cache |
| TaskLane.OnePlace | synctrl/scheduler.go:466-597 | every live header is queued, in one request, in hand or done, in exactly one of these, and the task pool is exactly the ones not done |
| TaskLane.FinishKeeps | synctrl/scheduler.go:832-839 | completing a header in hand keeps conservation |
| TaskLane.RetireKeeps | synctrl/scheduler.go:351-367 | releasing a finished prefix keeps conservation |
| TaskLane.ScheduleKeeps | synctrl/scheduler.go:323-334 | a header next in order is new to the pool and enters it once |
| TaskLane.CancelExactly | synctrl/scheduler.go:562-576 | cancelling conserves the tasks if and only if the request is the one in flight for the peer |
| TaskLane.CancelTwice | synctrl/scheduler.go:562-576 | cancelling a request twice queues its headers twice |
| Scheduler.ReserveOne | synctrl/scheduler.go:486-521 | one turn of the reservation loop: the index is in range, and the header ends up done, sent or skipped |
| Scheduler.ReserveBatch | synctrl/scheduler.go:476-521 | the loop with its moving bounds keeps the invariant and sends only headers the peer may have |
| Scheduler.Reserve | synctrl/scheduler.go:466-542 | a request takes its headers out of the queue, empty blocks complete at once, skipped ones go back, and it stops only for want of capacity, tasks or cache space |
| Scheduler.Deliver | synctrl/scheduler.go:793-860 | accepts exactly the longest prefix of a delivery whose transactions and uncles, or receipts, hash to the roots of the requested headers, requeues the rest; which error is reported |
| Scheduler.CompleteParts | synctrl/scheduler.go:811-840 | the assembly loop stops at the first part that does not hash to the roots of its header |
| Scheduler.MatchesBoth | synctrl/scheduler.go:756-790 | a body matches if and only if its transactions and its uncles hash to the two roots of the header, receipts if they hash to theirs |
| Scheduler.NoopExactly | synctrl/scheduler.go:433-464 | nothing has to be fetched if and only if the lists the header commits to are empty |
| Scheduler.CountProcessableItems | synctrl/scheduler.go:372-391 | the longest processable prefix of the cache, the pivot rule included |
| Scheduler.ProcessableExactly | synctrl/scheduler.go:372-391 | a complete result is processable, except that in fast sync the pivot waits for 24 cached results after it |
| Scheduler.TakeReady | synctrl/scheduler.go:342-369 | the processable prefix leaves the cache; it is the next live headers, each complete and with contents that hash to its roots |
| Scheduler.ScheduleOneKeeps | synctrl/scheduler.go:314-334 | after the order checks the duplicate checks cannot trigger, and scheduling keeps the invariant |
| Scheduler.Scheduler.Schedule | synctrl/scheduler.go:297-337 | accepts the longest prefix in number and parent order, whatever numbers the headers claim; each header gets a body task and, in fast sync up to the pivot, a receipt task |
| Scheduler.Scheduler.ReserveTasks | synctrl/scheduler.go:433-542 | what a reservation does to the lane of its kind, and that the history is untouched |
| Scheduler.Scheduler.DeliverTasks | synctrl/scheduler.go:756-860 | what a delivery does to the lane of its kind, and that the history is untouched |
| Scheduler.Scheduler.Cancel | synctrl/scheduler.go:549-576 | whatever the request holds is queued and the peer is free; the scheduler stays valid if and only if it is the request in flight |
| Scheduler.Scheduler.Revoke | synctrl/scheduler.go:581-597 | both requests of a dropped peer go back |
| Scheduler.Scheduler.Expire | synctrl/scheduler.go:632-663 | exactly the late requests go back, with their sizes reported |
| Scheduler.Scheduler.WaitResults | synctrl/scheduler.go:342-369 | the released results continue the scheduled sequence, up to the first one not processable |
| Scheduler.IdleMeansAllReleased | synctrl/scheduler.go:207-216 | the scheduler is idle if and only if it has released everything it ever scheduled and no request is in flight |
| Scheduler.FetchedMeansReady | synctrl/scheduler.go:372-391 | with nothing queued or in flight the first live block is complete, and only the pivot rule can hold it back |
| Scheduler.Run | synctrl/scheduler.go:297-860 | at every point of every run, all output is a prefix of the accepted headers, each once and in number order, with transactions, uncles and, in fast sync up to the pivot, receipts that hash to the roots of its header; every other accepted header is in one place, with the exact number of missing parts |
| Skeleton.FillingUnique | synctrl/scheduler.go:684-711 | only one batch of headers can fill a gap |
| Skeleton.CheckBatch | synctrl/scheduler.go:684-711 | accepts a batch if and only if it fills the gap |
| Skeleton.PickConserves | synctrl/scheduler.go:404-423 | popping and pushing back conserves the tasks if and only if index 0 is not queued and available |
| Skeleton.ZeroIsLost | synctrl/scheduler.go:404-423 | the first reservation from a skeleton that starts at block 0 drops its first gap |
| Skeleton.PickLoop | synctrl/scheduler.go:404-419 | the loop finds the lowest task not known to be missing at the peer and puts the skipped ones back |
| Skeleton.AssemblyUnique | synctrl/scheduler.go:726-745 | a complete assembly is determined by the skeleton, whoever delivered it |
| Skeleton.PlaceKeeps | synctrl/scheduler.go:726-728 | storing a batch fills its gap and no other |
| Skeleton.CountReady | synctrl/scheduler.go:730-733 | the ready headers are whole filled gaps, up to the first open one |
| Skeleton.SkeletonFill.constructor | synctrl/scheduler.go:258-281 | one task for each skeleton header |
| Skeleton.SkeletonFill.ReserveHeaders | synctrl/scheduler.go:395-431 | reserves a gap the peer is not known to miss, otherwise nothing changes; everything stays valid if and only if index 0 is not the gap to reserve |
| Skeleton.SkeletonFill.GiveBack | synctrl/scheduler.go:562-576 | a cancelled or expired gap is queued again |
| Skeleton.SkeletonFill.DeliverHeaders | synctrl/scheduler.go:672-751 | a filling is stored whole, anything else is requeued and marked missing; what is passed on has consecutive numbers from the first |
| NonceHeap.TopIsLeast | txpool/tx_list.go:30-46 | the top of the heap is its least nonce |
| NonceHeap.Down | txpool/tx_list.go:116-116 | sifting down restores the heap order from a position on, moving only inside its subtree |
| NonceHeap.HeapPush | txpool/tx_list.go:74-74 | the heap gains one nonce and stays a heap |
| NonceHeap.HeapRemove | txpool/tx_list.go:159-159 | the heap loses the nonce at a position and stays a heap |
| NonceHeap.HeapPop | txpool/tx_list.go:87-87 | removes a least nonce |
| NonceHeap.HeapInit | txpool/tx_list.go:112-116 | any sequence becomes a heap of the same nonces |
| NonceHeap.SortNonces | txpool/tx_list.go:133-133 | ascending, same nonces |
| TxSpec.FlatUnique | txpool/tx_list.go:201-214 | the nonce-sorted contents are unique |
| TxSpec.ReadyExactly | txpool/tx_list.go:176-191 | the executable run is empty if and only if every nonce is above the start; otherwise it is the least nonce and all that follow it without a gap, and nothing else is taken |
| TxSortedMap.TxSortedMap.Put | txpool/tx_list.go:71-77 | the map gains or replaces one nonce; heap index and cache stay right |
| TxSortedMap.TxSortedMap.Forward | txpool/tx_list.go:82-96 | removes and returns, in order, everything below the threshold; the shifted cache is still the sorted contents |
| TxSortedMap.TxSortedMap.Filter | txpool/tx_list.go:100-121 | removes exactly what the predicate selects |
| TxSortedMap.TxSortedMap.Cap | txpool/tx_list.go:125-146 | keeps the lowest nonces up to the limit, returns the rest highest first; the cut cache is still the sorted contents |
| TxSortedMap.TxSortedMap.Remove | txpool/tx_list.go:150-167 | removes one nonce if present and says whether it was |
| TxSortedMap.TxSortedMap.Ready | txpool/tx_list.go:176-191 | removes and returns the run of consecutive nonces from the least one, if that is not above the start |
| TxSortedMap.TxSortedMap.Flatten | txpool/tx_list.go:201-214 | the contents in nonce order, from the cache or sorted anew |
| TxList.AddKeeps | txpool/tx_list.go:250-268 | the cached caps still bound every listed transaction |
| TxList.NoSelfReplacement | txpool/tx_list.go:253-257 | a listed transaction is never accepted again |
| TxList.BumpCompounds | txpool/tx_list.go:253-257 | k replacements at one nonce raise the price by more than the k-th power of the bump |
| TxList.AcceptsExactly | txpool/tx_list.go:253-257 | a replacement is accepted if and only if old price * (100 + bump) < new price * 100 |
| TxList.FilterIsScan | txpool/tx_list.go:286-310 | the short circuit by the caps gives what a full scan would |
| TxList.ScanExactly | txpool/tx_list.go:286-310 | a transaction stays if and only if value + price * gas and the gas are within the limits and, in strict mode, the same holds of everything below it |
| TxList.StrictScanPrefix | txpool/tx_list.go:297-308 | strict filtering cuts a contiguous list to a prefix that ends at the first unpayable transaction |
| TxList.StrictRemovePrefix | txpool/tx_list.go:327-330 | strict removal keeps a contiguous prefix |
| TxList.CapPrefix | txpool/tx_list.go:314-316 | capping keeps a contiguous prefix |
| TxList.TxList.AddTx | txpool/tx_list.go:250-268 | accepted exactly if the nonce is free or old price * (100 + bump) < new price * 100; the replaced transaction is returned |
| TxList.TxList.FilterTxs | txpool/tx_list.go:286-310 | the removed and the invalidated transactions, and exactly which ones stay |
| TxList.TxList.RemoveTx | txpool/tx_list.go:321-332 | whether it was found, what it invalidates, and the list that stays |
| TxList.TxList.Forward | txpool/tx_list.go:273-275 | drops and returns everything below the threshold |
| TxList.TxList.CapTxs | txpool/tx_list.go:314-316 | drops and returns everything above the limit, highest first |
| TxList.TxList.ReadyTxs | txpool/tx_list.go:341-343 | takes out the consecutive run |
| TxList.TxList.Flatten | txpool/tx_list.go:358-360 | the listed transactions in nonce order |
| PoolState.EnqueueKeeps | txpool/tx_pool.go:448-465 | queueing a new transaction, in place of a cheaper one or not, keeps the partition |
| PoolState.RequeueKeeps | txpool/tx_pool.go:539-550 | a demoted transaction always finds its nonce free in the queue |
| PoolState.PromoteKeeps | txpool/tx_pool.go:563-588 | a promoted transaction never meets a pending one with its nonce |
| PoolState.ReplaceKeeps | txpool/tx_pool.go:416-427 | replacing a pending transaction keeps the partition and the pending nonces |
| TxPool.EnqueueAll | txpool/tx_pool.go:539-543 | moving transactions back to the queue loses none and touches no other account |
| TxPool.PromoteAll | txpool/tx_pool.go:498-502 | moving a run to the pending list; a run that continues the nonces keeps them without gaps |
| TxPool.ReadyStartsAtVirtual | txpool/tx_list.go:176-191 | the executable run starts exactly at the virtual nonce |
| TxPool.PromoteAccount | txpool/tx_pool.go:479-514 | the exact pending and queued lists of the account afterwards; others untouched; no gaps appear |
| TxPool.RemoveTx | txpool/tx_pool.go:700-736 | exactly this transaction leaves the index; a queued one never touches pending, a pending one takes everything above it back to the queue |
| PoolLimits.LevelStep | txpool/tx_pool.go:620-636 | one round of cuts costs one transaction per account above the level |
| PoolLimits.LoweredStep | txpool/tx_pool.go:628-631 | cutting one level lower frees exactly the highest nonce that was left |
| PoolLimits.DropEach | txpool/tx_pool.go:621-635 | one round lowers the common level by one, and the running count stays the true sum |
| PoolLimits.CutDown | txpool/tx_pool.go:619-657 | repeated rounds end when the total fits or the floor is reached |
| PoolLimits.LimitPending | txpool/tx_pool.go:593-659 | every pending list is cut to one common level, at least the guaranteed slots, no higher level would fit, and virtual nonces fall to the lowest nonce dropped |
| PoolLimits.LevelIsFair | txpool/tx_pool.go:598-659 | accounts within their slots are untouched, no offender falls below them, and the total is undershot by less than the number of offenders |
| PoolLimits.DropQueued | txpool/tx_pool.go:680-693 | removes exactly the highest nonces of one queue |
| PoolLimits.LimitQueue | txpool/tx_pool.go:660-695 | the queued total becomes exactly the smaller of itself and the limit; every list is cut from the top |
| PoolOps.KeepFit | txpool/tx_pool.go:592-696 | both limits hold afterwards, how the lists and the virtual nonces are cut to get there, and both invariants are kept |
| PoolOps.FitIsWithin | txpool/tx_pool.go:592-696 | the cut to one level, low enough or at the guaranteed slots, and the cut of the queue meet the limits |
| PoolOps.PromoteExecutables | txpool/tx_pool.go:470-516 | each account's run is promoted and its virtual nonce moved behind it, then the limits are enforced; both invariants are kept |
| PoolOps.InFitQueueExactly | txpool/tx_pool.go:479-496 | a queued transaction survives promotion if and only if it is not outdated and its sender can pay value + price * gas within the gas limit |
| PoolOps.Add | txpool/tx_pool.go:405-443 | when an addition is refused and why: the pool is full, or the price does not exceed that of the transaction with the same nonce by more than the bump; otherwise exactly the displaced transaction leaves and the new one enters |
| PoolOps.AddTx | txpool/tx_pool.go:383-395 | a replacement changes nothing else, a new transaction also promotes its sender and enforces the limits |
| PoolOps.AddTxs | txpool/tx_pool.go:360-380 | a batch is added in order, exactly the senders with something new are promoted, and the pool never outgrows its size |
| PoolOps.DirtyExactly | txpool/tx_pool.go:363-370 | an account is promoted after a batch if and only if one of its transactions found room in the pool and its nonce free |
| PoolOps.Evict | txpool/tx_pool.go:179-188 | an idle account's queue is gone, the pending lists are untouched |
| PoolOps.DemoteAccount | txpool/tx_pool.go:523-557 | only the outdated and the unpayable are lost; what stays pending is the payable prefix, or nothing if the chain nonce is missing |
| PoolOps.DemoteUnexecutables | txpool/tx_pool.go:521-558 | over all accounts, exactly the outdated and the unpayable pending transactions leave the pool; what stays pending is the same as for one account |
| PoolOps.UnpayableExactly | txpool/tx_pool.go:523-538 | what demotion drops: pending transactions below the chain nonce, above the balance, or above the gas limit |
| PoolOps.DemotedIsGrounded | txpool/tx_pool.go:544-551 | a list that was an interval ends up contiguous from the chain nonce |
| PoolOps.InFit | txpool/tx_list.go:286-310 | a transaction survives the filters if and only if it and everything listed from the chain nonce up to it is payable |
| PoolOps.GroundedExactly | txpool/tx_pool.go:544-551 | demotion leaves no gap if and only if the list before it has, unless its chain nonce is missing or unpayable, no gap below a transaction that comes before every unpayable one |
| PoolOps.GapMissed | txpool/tx_pool.go:544-551 | a list with a gap behind its first transaction survives demotion as it is and violates that condition |
| PoolGap.GapReached | txpool/tx_pool.go:247-278 | a run of two events, an addition and a reorganisation that brings back transactions 3 and 4, after which an account has nonces 3 and 5 pending and 4 missing |
| PoolOps.GroundedIsGapless | txpool/tx_pool.go:270-274 | setting the virtual nonces after the last pending transaction restores contiguity if and only if every list is contiguous from the chain nonce and accounts without a list have the chain nonce as virtual nonce |
| PoolOps.DemotedExactly | txpool/tx_pool.go:265-274 | demotion and the new virtual nonces leave no gap in any account if and only if no list before had a reachable hole, and accounts whose chain nonce was missing or unpayable had it as virtual nonce |
| PoolOps.ReaddedNonces | txpool/tx_pool.go:257-263 | while transactions come back a virtual nonce rises above the chain nonce only with a payable transaction there, and falls below it only if too many became pending |
| PoolOps.GapShows | txpool/tx_pool.go:275-277 | the promotion at the end closes no gap that demotion has left |
| PoolGap.NonceLeftBehind | txpool/tx_pool.go:247-278 | a run after which all lists are contiguous from the chain nonce, but an account has virtual nonce 1 with 2 on the chain, and its transaction 2 stays queued |
| PoolOps.Reset | txpool/tx_pool.go:247-278 | the stages of a new head, each fixing pending lists, index and virtual nonces; the partition survives; exactly when demotion leaves no gaps; then there are none in the end, and only then if nothing has to be cut at the end |
| PoolOps.TransactionPool.AddTransaction | txpool/tx_pool.go:383-395 | the pool after an addition, and which error is returned when |
| PoolOps.TransactionPool.AddTransactions | txpool/tx_pool.go:360-380 | the pool after a batch |
| PoolOps.TransactionPool.RemoveTransaction | txpool/tx_pool.go:700-736 | the pool after a removal |
| PoolOps.TransactionPool.EvictAccount | txpool/tx_pool.go:179-188 | the pool after an eviction |
| PoolOps.TransactionPool.ResetTo | txpool/tx_pool.go:247-278 | the pool after a new head, stage by stage |
| PoolOps.Run | txpool/tx_pool.go:360-736 | at every point of every run of additions, removals, evictions and head changes: the partition and the size bound hold, the global limits as long as no pending transaction has been removed, and contiguity as long as no discarded transactions have come back |
| PoolOps.StepKeepsLimits | txpool/tx_pool.go:360-736 | every event keeps the global limits, except the removal of a pending transaction |
| PoolOps.RunKeepsLimits | txpool/tx_pool.go:360-736 | over every run from the empty pool the global limits hold until a pending transaction is removed |
| PoolEager.RunIsEager | txpool/tx_pool.go:360-736 | at every point of every run no account has the transaction at its virtual nonce in the queue |
| PoolEager.StepIsEager | txpool/tx_pool.go:360-736 | every event leaves it so: what becomes executable is promoted in the same step |
| PoolEager.PromotedIsEager | txpool/tx_pool.go:479-514 | a promoted account keeps nothing executable in its queue, and nothing is both pending and queued |
| ChainIndexer.ChainIndexer.NewHead | blockchain/chain_indexer.go:191-230 | a reorganisation to block h keeps a section, with its head, if and only if (section + 1) * size <= h, and cuts the known and cascaded counts at the same place; a new head makes known the largest number of sections that end before it with the confirmations, unless more are known |
| ChainIndexer.ReorgReverts | blockchain/chain_indexer.go:196-217 | which sections a reorganisation keeps, by their block numbers |
| ChainIndexer.HeadAdvances | blockchain/chain_indexer.go:218-230 | how many sections a new head makes known; the count wraps only at block 2^64 - 1 with no confirmations asked for |
| ChainIndexer.ChainIndexer.SetValidSections | blockchain/chain_indexer.go:370-382 | removes exactly the heads of the sections given up |
| ChainIndexer.ChainIndexer.Begin | blockchain/chain_indexer.go:246-265 | starts on the next section with the head before it |
| ChainIndexer.ChainIndexer.ReadHeader | blockchain/chain_indexer.go:316-329 | goes on exactly if the header is there and follows the last one |
| ChainIndexer.ChainIndexer.CommitBackend | blockchain/chain_indexer.go:330-334 | a full section gives its last hash, a failed commit an error |
| ChainIndexer.ChainIndexer.Finish | blockchain/chain_indexer.go:270-291 | the section is stored if and only if it was processed and no reorganisation cut below it; then it is the next one |
| ChainIndexer.CheckIsExact | blockchain/chain_indexer.go:273-273 | the comparison with the old head passes if and only if the stored sections still end where processing began |
| ChainIndexer.TruncateKeeps | blockchain/chain_indexer.go:370-382 | fewer sections are still joined by full runs |
| ChainIndexer.ExtendKeeps | blockchain/chain_indexer.go:274-275 | a full run on top of the last head extends the index |
| ChainIndexer.RunUnique | blockchain/chain_indexer.go:316-329 | the headers between two section heads are determined by the upper one |
| ChainIndexer.OneChain | blockchain/chain_indexer.go:310-335 | the stored sections together are one unbroken chain from the first block, and the heads are the ends of its sections |
| ChainIndexer.Run | blockchain/chain_indexer.go:191-335 | under every interleaving the indexer refines the step function, heads exist exactly for the stored sections, those are one unbroken chain, and every reorganisation and new head along the way does what NewHead says |
| StateSync.Fill | synctrl/synstate.go:218-235 | takes up to n tasks the peer was not asked for, as many as there are, and loses none |
| StateSync.Absorb | synctrl/synstate.go:251-273 | exactly the delivered hashes are taken off; when a delivery is stale |
| StateSync.PutBack | synctrl/synstate.go:280-296 | the others go back with their attempts, unless one has failed with all peers |
| StateSync.StateSync.Assign | synctrl/synstate.go:187-236 | a new request, or every waiting task was already tried with the peer |
| StateSync.StateSync.Track | synctrl/syncer.go:519-544 | the request is active; one already active for the peer is finished, not lost |
| StateSync.StateSync.Respond | synctrl/syncer.go:478-490 | the peer's request is finished with its answer; unrequested data changes nothing |
| StateSync.StateSync.DropPeer | synctrl/syncer.go:493-504 | the request of a leaving peer is finished |
| StateSync.StateSync.Timeout | synctrl/syncer.go:507-516 | an active request is finished without an answer, a stale timeout changes nothing |
| StateSync.StateSync.Deliver | synctrl/syncer.go:455-475 | the oldest finished request is delivered, for the first time |
| StateSync.StateSync.Process | synctrl/synstate.go:241-298 | arrived hashes are resolved, the others go back, and the peer may be asked for them again unless it answered with nothing; exactly when the sync is given up |
| StateSync.LostExactly | synctrl/synstate.go:280-296 | the sync is given up if and only if a blob is invalid or a missed hash has been tried with all peers |
| StateSync.NothingLost | synctrl/syncer.go:454-545 | with no request in flight every unresolved hash is up for retry |
| StateSync.Run | synctrl/syncer.go:454-545 | at every point of every run each request is in exactly one place, and each hash named is in the retry set, in exactly one outstanding request, or resolved |
| Accounting.StateTransition.UseGas | blockchain/state_transition.go:147-154 | gas is deducted or the state unchanged |
| Accounting.StateTransition.SubGas | hvm/gaspool.go:35-42 | the pool gives the gas or is unchanged |
| Accounting.StateTransition.BuyGas | blockchain/state_transition.go:156-179 | which error, and the debits on success |
| Accounting.StateTransition.PreCheck | blockchain/state_transition.go:181-195 | an error leaves everything as it was |
| Accounting.StateTransition.RefundGas | blockchain/state_transition.go:271-288 | unused gas and at most half of the used gas return to sender and pool |
| Accounting.StateTransition.TransitionOnNative | blockchain/state_transition.go:197-224 | fails exactly if the value is not covered; otherwise the four payments |
| Accounting.StateTransition.TransitionOnEvm | blockchain/state_transition.go:229-269 | the same settlement around the virtual machine |
| Accounting.PaidSettles | blockchain/state_transition.go:197-224 | the payments settle the message and keep the sum of balances, whoever coincides |
| Accounting.ApplyMessage | blockchain/state_transition.go:95-121 | the steps together have the stated effect; when each nonce error occurs |
| Accounting.ErrorsExactly | blockchain/state_transition.go:95-224 | which of the six errors a message ends with, and when, for transfers and for the machine |
| Accounting.GasConserved | blockchain/state_transition.go:271-292 | the pool loses exactly the used gas, which is at most what was bought and at least half of the intrinsic gas |
| Accounting.TransferConserves | blockchain/state_transition.go:95-224 | when a plain transfer goes through, the gas it uses, what everybody pays and gets, and that the sum of all balances is unchanged |
| Accounting.FailureCosts | blockchain/state_transition.go:95-205 | what a failed transfer costs: nothing, or exactly the gas price if the gas was bought |
| Accounting.ShortTransfer | blockchain/state_transition.go:202-205 | a transfer that covers its gas but not its value loses the price of the gas |
| Accounting.ExecuteConserves | blockchain/state_transition.go:229-269 | a machine run changes the sum of balances by exactly what the machine does |
| Accounting.ExecuteSettles | blockchain/state_transition.go:229-288 | the gas a machine run is charged, and what sender and beneficiary get on top of what the machine did |
| Accounting.Process | blockchain/state_processor.go:57-108 | rejected exactly if a message fails; otherwise each receipt says what its message did to the state it met, pool remainder plus used gas is the limit, receipts hold prefix sums, transfers keep the sum of balances |
| Accounting.SetReceiptsData | blockchain/blockchain.go:683-688 | the gas of each receipt becomes the difference of the running totals |
| Accounting.DifferencesInvert | blockchain/blockchain.go:683-688 | on prefix sums that gives back the gas used |
| Accounting.OnlyPrefixSums | blockchain/blockchain.go:683-688 | and only on prefix sums |
| AbiBytes.FromTo | account/abi/numbers.go:60-63 | a number written in n bytes and read back is the number modulo 256^n |
| AbiBytes.BigEndian | account/abi/numbers.go:60-63 | byte i of n bytes is the digit n-1-i of the number in base 256 |
| AbiBytes.Suffix | account/abi/unpack.go:140-161 | the last bytes of a word are the smaller word |
| AbiBytes.SuffixValue | account/abi/unpack.go:140-161 | the last k bytes of any word hold its value modulo 256^k |
| Abi.WordRoundTrip | account/abi/pack.go:36-79 | a packed integer, boolean or address is read back as it was, big integers modulo 2^256 |
| Abi.PackedIsWord | account/abi/pack.go:36-79 | the bytes of a packed word: an integer of any size in two's complement over 32 bytes, a boolean as 0 or 1, an address behind twelve zero bytes |
| Abi.ReadIntegerExactly | account/abi/unpack.go:140-161 | a sized integer is the one in its range congruent to the word, a big one the whole word, unsigned |
| Abi.ReadBoolExactly | account/abi/unpack.go:163-185 | a boolean is read from the words 0 and 1 and from no other |
| Abi.WordOkExactly | account/abi/numbers.go:28-58 | the ranges of the native integer types |
| Abi.WordsAt | account/abi/type.go:186-195 | element i of a slice is at position 32 * i |
| Abi.Layout | account/abi/method.go:42-78 | every slot is at 32 * i and every offset is where that argument's tail starts |
| Abi.BytesAre | account/abi/method.go:42-78 | every argument is where it should be, byte for byte: a word in its slot, or an offset and there a length word, the contents and zero padding |
| Abi.RoundTrip | account/abi/unpack.go:186-235 | decoding position i of packed arguments gives argument i, big integers modulo 2^256 |
| Abi.ExactlyWhen | account/abi/unpack.go:158-160 | the decoded form equals the value if and only if every big integer in it fits an unsigned word |
| Abi.DecodesExactlyWhen | account/abi/unpack.go:186-235 | decoding position i gives back the very argument if and only if every big integer in it fits an unsigned word |
| Abi.NegativeComesBackPositive | account/abi/unpack.go:158-160 | an int256 of -1 is decoded as 2^256 - 1 |
| Abi.EncodingInjective | account/abi/method.go:42-78 | two argument lists have the same encoding if and only if they agree up to multiples of 2^256 in their big integers |
| Abi.WordFails | account/abi/unpack.go:186-235 | a word is refused if and only if the output is too short or a boolean is neither 0 nor 1 |
| Abi.DataFails | account/abi/unpack.go:186-235 | exactly when decoding strings and bytes gives an error, panics, or gives which bytes |
| Abi.SliceFails | account/abi/unpack.go:30-138 | exactly when decoding a slice gives an error, panics, or gives a value |
| Abi.PackType | account/abi/type.go:178-204 | packs an argument of the right type into the bytes of the specification, refuses any other |
| Abi.Pack | account/abi/method.go:42-78 | the head and tail loop produces the encoding: one slot for each argument, then the tails without a gap, every byte as specified; and it decodes to the arguments |
| Abi.ToGoSlice | account/abi/unpack.go:30-138 | the loop reads what the specification reads, errors included |

## Left out

- Network sends, peer quality, timers, metrics, logging, events and LRU caches.
- RLP, Merkle roots, Keccak, signatures, the trie scheduler and the virtual machine's interpreter: ideal functions or parameters.
- The fetch loops in synctrl/synfull.go, synfast.go and synlight.go, and the puller: channel plumbing around the scheduler.
- What the head-header and fast-head pointers are over a run, and canonical entries above a shorter, heavier head, which `insert` does not delete.
- `Rollback`, and writing headers after `SetHead` has cut under a side branch: the store is then no longer closed under parents.
- BlockChain.Run: the genesis block has no transactions, and no chain repeats a transaction.
- Scheduler.Scheduler.Schedule: `from` is the number after the last scheduled header, as the callers count it; block numbers stay below 2^24, because queue priorities are `float32` and are exact only up to there; the skeleton queue is modelled as exact as well.
- Scheduler.Run: cancelling a request that is not in flight is skipped, because it is outside the order in which the fetch loops call the scheduler; `TaskLane.CancelExactly` says what it would do.
- Scheduler.Scheduler.WaitResults: does not model waiting; with nothing processable it returns an empty batch, as after closing.
- Scheduler.Scheduler.DeliverTasks: the peer's record of what it lacks is a parameter of the next reservation, not part of the state.
- PoolOps.Add: `validateTx` and the check for known transactions happen before; the heartbeats only choose the order in which `keepFit` drops queues, which is arbitrary here.
- PoolOps.RunKeepsLimits: makes no claim once a pending transaction has been removed, because `removeTx` then queues what lay above it without looking at the limit; all its callers in the pool pass queued transactions.
- PoolOps.Reset: a failed state lookup, which leaves the pool as it was, is not modelled; discarded transactions come from `Ancestry.Reinject`.
- ChainIndexer.Run: does not claim that a stored section is canonical when a reorganisation lands inside the section being processed, nor anything about child indexers or a crash between two database writes.
- StateSync.Run: the trie scheduler never names a hash twice, and a cancelled assignment ends the run.
- Accounting.ApplyMessage: nonces are only compared, not increased; the intrinsic gas is a parameter; account creation has no effect on balances.
- Accounting.Process: `Finalize`, logs and blooms are not modelled.
- Abi.Pack: fixed-size arrays, `bytesN`, function values, nested slices, and addresses given as arrays of another length are not modelled, nor that packing a big integer reduces the caller's value in place.
- Abi.RoundTrip: the encoding is shorter than 2^63 bytes, the range of the length type.
