# A verified model of go-ethereum's bookkeeping

This project models the parts of a go-ethereum fork where several structures have to
describe the same thing after every step, and proves that they do. The models follow the
source's own form: objects that are updated in place are classes, loops are loops, and each
method is proved against a specification over plain values.

| file | component |
|---|---|
| `Options.dfy` | optional values |
| `BinaryHeap.dfy` | the binary heap behind nonce lists and the price heap |
| `Transactions.dfy`, `TxSortedMap.dfy`, `TxList.dfy` | per-account transaction lists: map, nonce heap and sorted cache |
| `ListTable.dfy` | the table of an account's lists, pending or queued |
| `TxPricedList.dfy` | the hash lookup and the lazily cleaned price heap |
| `PoolState.dfy`, `PoolFairness.dfy`, `PoolAdmission.dfy`, `PoolOrder.dfy`, `TxPool.dfy` | the transaction pool: invariants over values, fair truncation, what a submission does, what becomes of the order of nonces, and the pool itself |
| `RandSelect.dfy` | the 8-ary tree for weighted random selection |
| `Headers.dfy`, `HeaderChain.dfy`, `HeaderQuery.dfy` | the header chain, its fork choice, and header queries of peers |
| `Retrieve.dfy`, `Distributor.dfy` | on-demand retrieval: the request state machine and the distributor |
| `ChainIndexer.dfy` | background indexing of chain sections |
| `LightTxPool.dfy` | the light client's transaction pool |
| `Feed.dfy` | the event feed |
| `Gas.dfy` | gas accounting of messages and blocks |
| `HdPath.dfy` | the text form of key derivation paths |

`dafny verify dfyconfig.toml` checks the whole project.

## Conventions

- Hashes are ideal: a hash is an injective image of what it identifies. The ancestor path
  of a header is therefore part of the header, and "the sender of a transaction" is a
  function of it.
- A stretch of code under a lock is one step. Which step comes next, what time it is, what
  a random draw gives, which cache entries are evicted and whether a fetch succeeds are
  arbitrary choices, so that every statement holds for all of them.
- Where the source works on 64-bit numbers and the width matters, the model says so:
  in gas arithmetic, header numbers and header queries. Elsewhere numbers are unbounded.
- From line 145 of `core/state_transition.go` and line 179 of `event/feed.go` on, the source is
  a machine translation of code; the model follows the code that it evidently stands for.
- What the virtual machine does with a message is an input: what it leaves of the gas, the
  balances and nonces, and how it ends. It returns no more gas than it was given.

## What the code does not promise

Some properties that one might expect do not hold of the code. The model keeps the code as
it is and states when they do hold.

- Pending nonces can have a gap after a reorganisation that reinjects transactions:
  `PoolState.ReinjectionLeavesGap` shows how. `PoolState.DemotionIsGapFree` says exactly which
  lists demotion leaves gap-free. `TxPools.TxPool.Reset` says that no gap arises if no account with
  pending transactions has its nonce set back, and `TxPools.TxPool.Run` that none arises if no
  account ever has.
- The virtual nonce of an account can fall below its state nonce, and then nothing of the account is
  promoted until the next head, also not what can run (`PoolOrder.EvictionStrands`,
  `PoolOrder.StrandedGetsNothing`). This is the only way to miss a gap-free run up to the virtual
  nonce when no nonce is set back (`TxPools.TxPool.Reset`, `TxPools.TxPool.Run`). It happens exactly
  to accounts of which a used-up pending transaction is given up while transactions are reinjected,
  hence to none if nothing is reinjected, or nothing pending is used up.
- The count of stale entries in the price heap is not exact when a transaction is pooled again
  over a stale entry (`TxPricedLists.PooledTwice`). `TxPricedLists.StalesMean` says what it is in
  every state, and exactly when it is the number of stale entries. A full pool can then evict fewer
  transactions than it should; `TxPools.TxPool.Run` keeps the capacity if no transaction is offered
  twice. Which transactions are evicted does not depend on it.
- Rewinding the chain can leave side headers without parents (`Headers.CutCanOrphan`), exactly
  when a header that stays had its parent cut (`Headers.ClosedAfterCut`). A heavier child of such a
  header makes the node crash: `HeaderChains.HeaderChain.WriteHeader` says exactly when, and
  `HeaderChains.OrphanCrashes` is a run.
- Looking up a stored header under a wrong number succeeds or not depending on what is cached;
  the contracts of the lookups say so.
- The ancestor shortcut treats the zero hash above the head as canonical; the contract of
  `HeaderChains.HeaderChain.GetAncestor` states the result for it.
- A retrieval whose last outstanding attempt ends with an invalid reply or a hard timeout launches
  no other attempt, and stays so until it is stopped: `Retrieval.SentReq.HandleEvent` says exactly
  when, `Retrieval.InvalidReplyStalls` is a run and `Retrieval.SentReq.Run` says that it lasts.
- A transaction that reaches the light pool after the chain has left the pool's head can be pending
  and recorded as mined (`LightTxPools.AddedWhileMined`), exactly if it is on the path of that head
  (`LightTxPools.LightTxPool.Add`). It stays so only while it is on the path of every new head
  (`LightTxPools.LightTxPool.Run`).
- A reorganisation inside the section that is being indexed is not noticed at commit
  (`ChainIndexers.ReorgInsideIsMissed`). The claim for stored sections is linkage, not that they are
  canonical.

## Model

| member | source | states |
|---|---|---|
| `BinaryHeap.RootIsLeast` | core/tx_list.go:38-56 | the root of every heap is a minimum of its elements |
| `BinaryHeap.Push` | core/tx_list.go:46-48 | pushing keeps the heap order and adds exactly one element |
| `BinaryHeap.Pop` | core/tx_list.go:50-56 | popping returns a minimum and removes exactly that occurrence, keeping the heap order |
| `BinaryHeap.RemoveAt` | core/tx_list.go:167-172 | removing at a position removes exactly that occurrence, keeping the heap order |
| `BinaryHeap.Init` | core/tx_list.go:121-127 | any slice becomes a heap with the same elements |
| `TxSortedMaps.TxSortedMap.constructor` | core/tx_list.go:67-72 | an empty map with an empty heap and no cache |
| `TxSortedMaps.TxSortedMap.Get` | core/tx_list.go:75-77 | the transaction filed under the nonce, or none |
| `TxSortedMaps.TxSortedMap.Put` | core/tx_list.go:81-87 | the map is updated at the nonce; the heap stays a duplicate-free heap of the keys and the cache empty or the sorted contents |
| `TxSortedMaps.TxSortedMap.Forward` | core/tx_list.go:92-106 | exactly the nonces below the threshold leave, listed by increasing nonce; heap and cache stay exact |
| `TxSortedMaps.TxSortedMap.Filter` | core/tx_list.go:110-131 | exactly the selected transactions leave, each listed once; heap and cache stay exact |
| `TxSortedMaps.TxSortedMap.Cap` | core/tx_list.go:135-156 | the given number of lowest nonces stays and the others are listed once; heap and cache stay exact |
| `TxSortedMaps.TxSortedMap.Remove` | core/tx_list.go:160-177 | removes exactly the nonce and reports whether it was present |
| `TxSortedMaps.TxSortedMap.Ready` | core/tx_list.go:186-201 | takes out the maximal consecutive run from the lowest nonce when that nonce is not beyond the start, else nothing |
| `TxSortedMaps.TxSortedMap.Flatten` | core/tx_list.go:211-224 | the contents by increasing nonce, from the cache or rebuilt |
| `TxSortedMaps.SortYieldsListing` | core/tx_list.go:211-224 | sorting any enumeration of a map by nonce yields its unique sorted listing |
| `Transactions.SortedUnique` | core/tx_list.go:211-224 | a map has only one listing by increasing nonce |
| `Transactions.RunEnd` | core/tx_list.go:186-201 | the first unused nonce from a given one on, everything before it being used |
| `TxLists.TxList.constructor` | core/tx_list.go:240-246 | an empty list whose cost and gas bounds are zero |
| `TxLists.TxList.Add` | core/tx_list.go:259-280 | inserted exactly if the nonce is free, or the price is higher than the old one and at least the old one raised by the bump, rounded down; returns what it replaced; the cost and gas bounds grow to cover it and no further |
| `TxLists.AcceptsMeans` | core/tx_list.go:259-270 | a replacement is accepted exactly if its price reaches the raised price, which is above the old one and above the old one times 1 + bump/100, less one |
| `TxLists.ReplacementsRaise` | core/tx_list.go:259-270 | after any number of replacements in a row the price is at least the first one raised that many times |
| `TxLists.TxList.Forward` | core/tx_list.go:285-287 | exactly the nonces below the threshold leave, in order |
| `TxLists.TxList.Filter` | core/tx_list.go:298-322 | the result equals that of the full scan although the cached bounds may skip it: exactly the transactions that cost more than the limit or ask for more gas are removed; a strict list also gives up everything above the lowest of them |
| `TxLists.StrictFilter` | core/tx_list.go:298-322 | filtering and then dropping everything above the lowest match is keeping what is below it |
| `TxLists.TxList.Cap` | core/tx_list.go:326-328 | the lowest nonces stay |
| `TxLists.TxList.Remove` | core/tx_list.go:333-344 | removes by nonce; a strict list keeps only what is below and lists the rest as invalid |
| `TxLists.RemoveAbove` | core/tx_list.go:333-344 | what a strict removal leaves and gives up, as nonce intervals |
| `TxLists.TxList.Ready` | core/tx_list.go:353-355 | takes out the maximal executable run |
| `TxLists.TxList.Flatten` | core/tx_list.go:370-372 | the contents by increasing nonce |
| `TxPricedLists.WorseOrders` | core/tx_list.go:381-391 | worse is cheaper, or of equal price and higher nonce; a total preorder |
| `TxPricedLists.TxPricedList.constructor` | core/tx_list.go:414-419 | an empty price heap over a lookup |
| `TxPricedLists.TxPricedList.Put` | core/tx_list.go:422-424 | the heap gets one entry more and covers the lookup; what was ever put in is recorded |
| `TxPricedLists.TxPricedList.Removed` | core/tx_list.go:429-444 | counts a stale entry, or rebuilds the heap to exactly the lookup once a quarter is stale |
| `TxPricedLists.TxPricedList.Cap` | core/tx_list.go:448-475 | drops exactly the pooled remote transactions below the threshold |
| `TxPricedLists.TxPricedList.Underpriced` | core/tx_list.go:479-501 | for a remote transaction and a non-empty pool, true exactly when its price is at most that of every pooled one |
| `TxPricedLists.TxPricedList.Discard` | core/tx_list.go:505-528 | drops no local transaction; everything remote that stays has a higher price than what is dropped, or the same and no higher nonce; falls short of the count only when no remote one is left; what entries say of the pool is kept apart from those dropped, and none is lost exactly if no transaction is dropped twice |
| `TxPricedLists.TxPricedList.GiveUp` | core/tx_list.go:505-528 | everything remote that stays has a higher price than what is given up, or the same and no higher nonce; as many transactions as entries are given up if nothing was ever put in twice, or no pooled one has two entries |
| `TxPricedLists.TxPricedList.PopWorst` | core/tx_list.go:507-523 | the worst entry is forgotten if stale, saved if spared, and else given up; the books stay balanced |
| `TxPricedLists.StalesMean` | core/tx_list.go:398-444 | in every state the count of stale entries is the stale ones plus the surplus entries of pooled ones plus those lost; it is exact if and only if every pooled transaction has one entry and none was lost |
| `TxPricedLists.PooledTwice` | core/tx_list.go:505-528 | a run in which a transaction is pooled again over its stale entry: the count is one although no entry is stale, and discarding two entries gives up one transaction |
| `TxPricedLists.TxPricedList.NothingLost` | core/tx_list.go:505-528 | nothing is lost as long as no transaction is put in twice |
| `TxPricedLists.TxPricedList.Covered` | core/tx_list.go:407-411 | every pooled transaction is in the heap or has been taken out of it for eviction |
| `TxPricedLists.TxLookup.Add` | core/tx_pool.go:1261-1266 | the hash leads to the transaction |
| `TxPricedLists.TxLookup.Remove` | core/tx_pool.go:1269-1274 | the hash is gone and nothing else |
| `TxPricedLists.Range` | core/tx_pool.go:1233-1242 | every pooled transaction exactly once |
| `ListTables.ListTable.Count` | core/tx_pool.go:991-994 | the sum of all list lengths |
| `ListTables.ListTable.Add` | core/tx_pool.go:703-713 | adds to the sender's list, which is created if there is none; other accounts are unchanged |
| `ListTables.ListTable.RemoveAndPrune` | core/tx_pool.go:900-924 | removes by nonce and deletes the list exactly when nothing is left |
| `TxPools.TxPool.constructor` | core/tx_pool.go:225-269 | an empty pool that meets all invariants and has room |
| `TxPools.TxPool.Add` | core/tx_pool.go:627-698 | the pool changes exactly as submitting one transaction should: unchanged if it is known, invalid or not worth it, and otherwise room is made and it is filed; no account's fate is decided, executability is kept, and capacity if nothing was pooled twice |
| `TxPools.TxPool.Admit` | core/tx_pool.go:641-698 | for a valid new transaction: refused exactly if not worth the room, otherwise filed in a pool that made room; capacity is kept if nothing was pooled twice |
| `TxPools.TxPool.MakeRoom` | core/tx_pool.go:641-655 | refuses exactly the remote transactions not above the cheapest of a full pool; otherwise only remote transactions leave, the worst first, their lists are cut and the rest queued; as many leave as needed as long as there are remote ones, less the entries lost to duplicates, of which there are none if nothing was pooled twice |
| `TxPools.TxPool.EvictWorst` | core/tx_pool.go:649-654 | the same for a full pool |
| `PoolAdmission.Validate` | core/tx_pool.go:576-617 | passes exactly what is signed, payable, not stale, within the block limit, of admissible size and value, covers its intrinsic gas, and is local or not below the price limit |
| `PoolAdmission.EvictedStep` | core/tx_pool.go:649-654 | removing one transaction after another has the effect of removing the set, in whatever order: lists are cut at the lowest one pending, the others above it are queued |
| `PoolAdmission.RemovedMeans` | core/tx_pool.go:886-925 | a removal, transaction by transaction |
| `PoolAdmission.RoomMade` | core/tx_pool.go:649-654 | evicting what the price heap gives up is how room should be made: of the remote transactions those of lowest price go first, and among equal prices those of highest nonce |
| `PoolAdmission.HighestLeaveFirst` | core/tx_pool.go:649-654 | of one sender's remote transactions of equal price, one is given up only if all of higher nonce are |
| `PoolAdmission.OnePriceStaysPending` | core/tx_pool.go:649-654 | of a remote account whose pending transactions all have one price, whatever is not given up stays pending |
| `PoolAdmission.AddedMeans` | core/tx_pool.go:627-698 | what each outcome says: known exactly if pooled before, accepted ones are valid and pooled, nothing else is new, refusals other than for the price of a replacement change nothing, local accounts only grow |
| `PoolAdmission.RefusalsMean` | core/tx_pool.go:576-698 | when each error is reported, spelled out: the checks in their order, the first that fails decides, and what passes them all is refused only as a cheap replacement or as no better than anything in a full pool |
| `PoolAdmission.ReplacementPrice` | core/tx_pool.go:627-698 | in the pool with room made, a transaction is accepted exactly if every pooled one of its sender and nonce is cheaper and reaches its price when raised by the bump; one that replaces another makes it leave |
| `PoolAdmission.ListedAfterRoom` | core/tx_pool.go:641-713 | after room is made the lookup still has exactly what is listed, and nothing new |
| `PoolAdmission.LocalsStay` | core/tx_pool.go:627-698 | a transaction of a local account leaves only when replaced |
| `PoolOrder.FatesAfterAdding` | core/tx_pool.go:627-698 | submission decides no account's fate: gap-free ones stay so up to their virtual nonces, through eviction and replacement, and stranded ones stay stranded |
| `PoolOrder.TailsAfterAdding` | core/tx_pool.go:627-698 | submission keeps lists free of gaps above the state nonce |
| `PoolAdmission.CapacityKept` | core/tx_pool.go:641-698 | with enough room made, an accepted transaction leaves the pool within its capacity, or with no two remote ones |
| `PoolAdmission.AddedStep` | core/tx_pool.go:840-846 | a batch is its transactions submitted in turn |
| `TxPools.TxPool.ReplacePending` | core/tx_pool.go:657-681 | a pending transaction is replaced exactly when the price bump is met, and the lookup follows |
| `TxPools.TxPool.File` | core/tx_pool.go:657-694 | exactly how lists and lookup change when a new transaction is filed: in place of the pending or queued one with its sender and nonce, or in the queue |
| `TxPools.TxPool.EnqueueTx` | core/tx_pool.go:703-726 | the queue gets the transaction exactly when it is acceptable, and the lookup follows |
| `TxPools.TxPool.PromoteTx` | core/tx_pool.go:744-777 | a transaction in transit becomes pending and the virtual nonce follows it |
| `TxPools.TxPool.AddTx` | core/tx_pool.go:808-823 | the old pool, submission of the transaction and, if it was accepted without replacing another, promotion of its sender make up the new pool; nobody gets stranded, nothing to promote is left behind, executability and capacity are kept |
| `TxPools.TxPool.AddTxsLocked` | core/tx_pool.go:835-856 | the old pool, submission of each transaction in turn and one promotion of the senders of those accepted without replacing make up the new pool; nobody gets stranded, nothing to promote is left behind, executability and capacity are kept |
| `TxPools.TxPool.AddEach` | core/tx_pool.go:837-846 | the batch is submitted in turn, and exactly the senders to promote are collected |
| `TxPools.TxPool.Settle` | core/tx_pool.go:847-854 | exactly the given accounts are promoted, and nothing happens without any |
| `TxPools.TxPool.RemoveTx` | core/tx_pool.go:886-925 | removal by nonce removes precisely the named transaction from the lookup; later pending ones of the account are queued, the virtual nonce is lowered, and pending nonces stay gap-free |
| `PoolState.KnownIsListed` | core/tx_pool.go:886-925 | a known transaction is listed on exactly one side, under its nonce |
| `PoolState.RemoveFromPending` | core/tx_pool.go:895-915 | what a removal takes off the pending list, and why the pool stays consistent |
| `PoolState.RemoveFromQueue` | core/tx_pool.go:919-924 | removing from the queue keeps the pool consistent |
| `PoolState.CutByRemoval` | core/tx_pool.go:900-915 | removal cuts the pending list at the nonce and lowers the virtual nonce to it |
| `PoolState.CutTwice` | core/tx_pool.go:900-915 | cuts compose: the virtual nonce is the lowest nonce given up |
| `PoolOrder.FatesAfterCut` | core/tx_pool.go:900-915 | cutting lists decides no account's fate: gap-free ones stay so up to the lowered virtual nonce, stranded ones stay stranded |
| `PoolState.TailsAfterCut` | core/tx_pool.go:900-915 | cutting lists keeps them free of gaps above the state nonce |
| `PoolState.FileNew` | core/tx_pool.go:703-726 | a new transaction displaces what is queued under its nonce and the lookup stays the disjoint union of the lists |
| `PoolState.TakeOff` | core/tx_pool.go:948-979 | what is taken off a list is in transit and known |
| `PoolState.PutDown` | core/tx_pool.go:744-777 | what is in transit can be filed under its nonce |
| `TxPools.TxPool.EvictAll` | core/tx_pool.go:649-654 | exactly the transactions given up by the price heap leave the pool, with the effect of removing the whole set |
| `TxPools.TxPool.PromoteReady` | core/tx_pool.go:964-970 | exactly the run that continues the pending list moves over |
| `TxPools.TxPool.CleanQueued` | core/tx_pool.go:948-962 | exactly the stale and unpayable queued transactions of the account leave |
| `TxPools.TxPool.TrimQueued` | core/tx_pool.go:972-984 | a remote account's queue is capped to its lowest nonces, and an empty list is dropped |
| `TxPools.TxPool.PromoteAccount` | core/tx_pool.go:942-985 | the whole effect of a promotion on one account; no empty list stays in the queue |
| `TxPools.TxPool.PromoteAccounts` | core/tx_pool.go:942-985 | the whole effect of a promotion on the given accounts |
| `PoolState.RunAfterPromotion` | core/tx_pool.go:964-970 | a promoted run continues the pending run without a gap |
| `PoolState.PromotionKeepsRun` | core/tx_pool.go:942-985 | promotion as a whole keeps an account gap-free |
| `PoolOrder.FatesAfterPromotion` | core/tx_pool.go:942-985 | promotion of any accounts decides no account's fate |
| `PoolState.TailPromotion` | core/tx_pool.go:942-985 | promotion keeps a list free of gaps above the state nonce, also when it holds used-up nonces |
| `PoolOrder.PromotionComplete` | core/tx_pool.go:942-985 | after a promotion the virtual nonce is not queued, and no nonce is both pending and queued |
| `PoolOrder.StrandedGetsNothing` | core/tx_pool.go:964-970 | with the virtual nonce below the state nonce nothing is promoted, and an executable transaction stays queued |
| `PoolOrder.CaughtAfterAdding` | core/tx_pool.go:627-698 | after a submission only the sender may have something to promote, and only if the transaction was accepted without replacing another |
| `PoolOrder.CaughtAfterRebalance` | core/tx_pool.go:930-1101 | promotion, truncation and trimming leave nothing that could be promoted |
| `TxPools.TxPool.Shave` | core/tx_pool.go:1020-1033 | gives up the pending transaction of highest nonce and lowers the virtual nonce to it |
| `TxPools.TxPool.Equalize` | core/tx_pool.go:1018-1057 | cuts the offenders evenly until the pool is small enough or they are at the threshold |
| `TxPools.TxPool.NextOffender` | core/tx_pool.go:1007-1037 | the next largest account joins the offenders and the others are cut down to its size |
| `TxPools.TxPool.TruncatePending` | core/tx_pool.go:991-1060 | max-min fairness: one level, not below the guaranteed slots, cuts all remote accounts; it suffices unless it is the guaranteed one, and one level more would exceed the limit; locals untouched; every virtual nonce is lowered to the lowest nonce given up |
| `PoolFairness.AtLevelTotal` | core/tx_pool.go:991-1060 | cutting at a level leaves the sum of the smaller of length and level |
| `PoolFairness.LoweringStep` | core/tx_pool.go:1018-1035 | one round of cuts lowers the level by one, account by account |
| `PoolFairness.CutByShave` | core/tx_pool.go:1028-1030 | giving up the highest nonce cuts the list and lowers the virtual nonce |
| `PoolOrder.OrderAfterRebalance` | core/tx_pool.go:930-1101 | promotion, truncation and trimming decide no account's fate, keep lists free of gaps above the state nonce, and leave nothing to promote if only the promoted accounts had anything |
| `TxPools.TxPool.TruncateQueue` | core/tx_pool.go:1062-1100 | the queued transactions end within the limit unless only local accounts remain queued; no more are dropped than needed, highest nonces first, locals untouched |
| `TxPools.TxPool.RemoveAllQueued` | core/tx_pool.go:1085-1090 | the whole queue of the account leaves |
| `TxPools.TxPool.RemoveTopQueued` | core/tx_pool.go:1093-1098 | exactly the given number of highest nonces leaves |
| `TxPools.TxPool.PromoteExecutables` | core/tx_pool.go:930-1101 | promotion followed by fair truncation, with virtual nonces, and queue trimming; consistency and order are kept, and nothing to promote is left |
| `TxPools.TxPool.DemoteAccount` | core/tx_pool.go:1109-1144 | the payable run from the state nonce on stays pending; what is still good of the rest is queued, the other transactions leave |
| `TxPools.TxPool.DemoteUnexecutables` | core/tx_pool.go:1106-1146 | the same for every account at once |
| `PoolState.RunnableGapFree` | core/tx_pool.go:1106-1146 | a gap-free list becomes a gap-free list from the new state nonce on, or nothing |
| `PoolState.RunnableMeans` | core/tx_pool.go:1109-1139 | membership in what stays pending: before the first unpayable transaction, with the state nonce present |
| `PoolState.DemotionIsGapFree` | core/tx_pool.go:1133-1139 | for lists with gaps: the result is gap-free exactly when everything beyond the first gap comes after something unpayable |
| `PoolState.DemotedInStages` | core/tx_pool.go:1109-1144 | the stages of demotion add up to its effect, for every transaction |
| `PoolState.ReinjectionLeavesGap` | core/tx_pool.go:412-443 | how a gap arises: an account's nonce is set back by two or more and only the first transaction gets in again; it is promoted in front of the pending run and demotion leaves the gap |
| `PoolOrder.EvictionStrands` | core/tx_pool.go:909-914 | how an account gets stranded: its first pending transactions are used up by a new block, the first is evicted before demotion, the virtual nonce falls to its nonce, and what can run is queued |
| `PoolOrder.RunsMean` | core/tx_pool.go:412-443 | every account is gap-free up to its virtual nonce exactly if every account is that or stranded, and none is stranded |
| `PoolOrder.SpentAfterSubmission` | core/tx_pool.go:835-856 | through any batch, a virtual nonce is below the state nonce exactly if a used-up pending transaction of the account was given up |
| `PoolOrder.StrandedAfterDemotion` | core/tx_pool.go:431-440 | demotion and renumbering of lists without gaps above the state nonce leave every account gap-free or stranded, the latter exactly if its virtual nonce was below the state nonce |
| `PoolOrder.NoneGetsStranded` | core/tx_pool.go:412-443 | if no pending transaction is used up by the new state, no account is stranded, whatever is reinjected |
| `PoolOrder.FatesMean` | core/tx_pool.go:808-823 | between new heads exactly the same accounts are stranded |
| `PoolState.TailsAtReset` | core/tx_pool.go:416-424 | lists that start at the state nonce have no gap above the new one if no nonce is set back |
| `PoolState.TailsAfterDemotion` | core/tx_pool.go:431-440 | demotion and renumbering keep lists free of gaps above the state nonce |
| `PoolState.TailsStartAll` | core/tx_pool.go:412-443 | with everything executable, lists without such gaps run gap-free from the state nonce |
| `TxPools.TxPool.AssignNonces` | core/tx_pool.go:437-440 | every virtual nonce follows the last pending transaction, and accounts without one keep theirs |
| `PoolState.RunsAfterReset` | core/tx_pool.go:412-443 | after a reset without reinjection every account is gap-free from its new state nonce to its new virtual nonce |
| `TxPools.TxPool.Reset` | core/tx_pool.go:412-443 | every pooled transaction fits the new state: nonce, balance and block gas limit; the reinjected transactions are submitted and the tables then demoted, renumbered, promoted and truncated; nothing to promote is left. Without reinjection runs stay gap-free up to the virtual nonces. With it, if no account with pending transactions has its nonce set back, every account is gap-free up to its virtual nonce or stranded, the latter exactly if one of its used-up transactions was given up on the way, and none is if nothing pending was used up; capacity is kept |
| `TxPools.TxPool.Readmit` | core/tx_pool.go:426-444 | the same from the point where the new state is in place |
| `TxPools.TxPool.Reorganise` | core/tx_pool.go:431-444 | demotion, renumbering and promotion make up the new tables; accounts are gap-free or stranded, the latter exactly if their virtual nonces were below the state nonce |
| `PoolFairness.DemotedFit` | core/tx_pool.go:1106-1146 | what stays pending after demotion fits the new state |
| `PoolFairness.PromotedFit` | core/tx_pool.go:942-985 | promoting every queued account leaves only transactions that fit |
| `TxPools.TxPool.SetGasPrice` | core/tx_pool.go:477-486 | exactly the remote transactions below the new limit leave, lists being cut at the lowest one pending and the rest queued; no account's fate is decided, and nothing to promote is left behind |
| `TxPools.TxPool.EvictIdle` | core/tx_pool.go:324-338 | exactly the queues of the idle remote accounts are dropped |
| `TxPools.TxPool.Run` | core/tx_pool.go:274-351 | over every sequence of events: each event in turn does to the pool what it should; consistency and executability always; if no nonce is set back, every account is gap-free up to its virtual nonce or stranded, and all are gap-free exactly if none is stranded; without reinjection all are gap-free; what can be promoted is; between new heads the same accounts are stranded; within capacity, or without two remote transactions, if no transaction is offered twice |
| `TxPools.TxPool.Step` | core/tx_pool.go:274-351 | the same for one event, which does to the pool what a submission, a new head, a new price limit or an eviction of idle accounts should |
| `RandSelect.WrsNode.constructor` | les/randselect.go:46-48 | an empty node with a free table of its size |
| `RandSelect.WrsNode.Over` | les/randselect.go:71-76 | a new level keeps every stored index, sum and count |
| `RandSelect.WrsNode.FirstOpen` | les/randselect.go:116-122 | a node that is not full has a branch with room, so insertion never panics |
| `RandSelect.WrsNode.Insert` | les/randselect.go:115-139 | the item takes the first free place of the flat table, whose index is returned; sums and counts stay exact |
| `RandSelect.WrsNode.SetWeight` | les/randselect.go:143-164 | exactly the cell at the index changes, or becomes free for weight zero; sums and counts stay exact |
| `RandSelect.WrsNode.Choose` | les/randselect.go:167-178 | the item whose weight interval the value falls into, with its stored weight; never a panic below the sum |
| `RandSelect.PickRange` | les/randselect.go:167-178 | a cell is picked by exactly its interval of values |
| `RandSelect.PickCount` | les/randselect.go:167-178 | a cell is picked by exactly as many values as its weight |
| `RandSelect.Chances` | les/randselect.go:167-178 | an item is chosen by exactly as many values as its weight, an absent one by none |
| `RandSelect.Totals` | les/randselect.go:62-81 | the stored sum and count are the total and the size of the item-to-weight map |
| `RandSelect.WeightedRandomSelect.constructor` | les/randselect.go:46-48 | the empty map on a tree of eight places |
| `RandSelect.WeightedRandomSelect.Fair` | les/randselect.go:62-102 | sum, count and chances agree with the map in every reachable state |
| `RandSelect.WeightedRandomSelect.AddLevel` | les/randselect.go:71-77 | a full tree grows by a level and stands for the same map |
| `RandSelect.WeightedRandomSelect.SetWeight` | les/randselect.go:62-81 | the map is updated at the item, or loses it for weight zero; nothing else changes, and in the table only the item's place |
| `RandSelect.WeightedRandomSelect.Choose` | les/randselect.go:87-102 | for all draws and reported weights: the choice and the table left behind are those of a scan of the flat table, which passes over an item whose weight has fallen unless the second draw, modulo the old weight, is below the new one; the map is what looking at the items in turn and storing what they report gives; every item passed over reported less than was stored, the choice is stored, and nothing is chosen only if nothing is left; steady weights stay |
| `RandSelect.WeightedRandomSelect.Look` | les/randselect.go:90-99 | the item looked at is the one that the draw, modulo the sum of the weights, falls on in the table, and its reported weight is stored in its place |
| `RandSelect.OneMoreLook` | les/randselect.go:90-99 | one more look stores one more report |
| `Headers.AtIsWalk` | core/headerchain.go:326-356 | positions on a path are parent steps from its end |
| `Headers.AtAt` | core/headerchain.go:183-189 | a path is also the path of every header on it |
| `Headers.ReroutingStep` | core/headerchain.go:183-189 | overwriting one stale index entry; the genesis entry is never stale |
| `Headers.ReroutingEnds` | core/headerchain.go:183-191 | once an entry is right all below it are, and the index is the new path |
| `Headers.WrittenHeader` | core/headerchain.go:155-160 | a header with a stored parent keeps the store consistent and parent-closed, and difficulty sums exact |
| `Headers.ClosedPaths` | core/headerchain.go:183-189 | in a parent-closed store every path is stored |
| `Headers.Rewound` | core/headerchain.go:462-478 | cutting the path above a number leaves a consistent store and the path below |
| `Headers.ClosedAfterCut` | core/headerchain.go:463-473 | a rewind keeps the store parent-closed exactly when no header that stays had its parent cut |
| `Headers.CutCanOrphan` | core/headerchain.go:463-473 | a rewind can leave a side header without its parent |
| `HeaderChains.HeaderChain.constructor` | core/headerchain.go:81-117 | the chain of the genesis header alone |
| `HeaderChains.HeaderChain.GetTd` | core/headerchain.go:360-372 | the difficulty sum of the path exactly when the header is stored and cached or asked for under its number |
| `HeaderChains.HeaderChain.GetHeader` | core/headerchain.go:394-406 | the header exactly when it is stored and cached or asked for under its number |
| `HeaderChains.HeaderChain.GetBlockNumber` | core/headerchain.go:121-131 | the number, from cache or store, exactly when the header is stored |
| `HeaderChains.HeaderChain.GetHeaderByHash` | core/headerchain.go:410-416 | the header exactly when it is stored |
| `HeaderChains.HeaderChain.GetHeaderByNumber` | core/headerchain.go:428-434 | the canonical header with that number, exactly up to the head |
| `HeaderChains.HeaderChain.HasHeader` | core/headerchain.go:419-424 | true exactly when the header is stored and cached or asked for under its number |
| `HeaderChains.HeaderChain.WriteHeader` | core/headerchain.go:142-206 | an unknown parent changes nothing; the header becomes the head exactly when it is heavier, or equally heavy and the coin says so, and then the index is its path and empty above, or the write crashes exactly when its parent's path is not all stored, which a parent-closed store rules out; sums are exact and the head stays a heaviest header |
| `HeaderChains.HeaderChain.MakeCanonical` | core/headerchain.go:166-195 | the index becomes the path of the new head exactly when that path is stored |
| `HeaderChains.HeaderChain.DropAbove` | core/headerchain.go:167-175 | exactly the entries above the number are deleted |
| `HeaderChains.HeaderChain.Reroute` | core/headerchain.go:178-189 | stale entries are overwritten down to the first right one, which makes the whole index right; a missing header is met exactly when the path is not stored |
| `HeaderChains.HeaderChain.ParentPath` | core/headerchain.go:178-189 | storing a header does not complete its parent's path, and a parent-closed store has it |
| `HeaderChains.OrphanCrashes` | core/headerchain.go:142-206 | a run of writes and a rewind after which a heavier child of an orphaned side header crashes the write |
| `HeaderChains.HeaderChain.InsertHeaderChain` | core/headerchain.go:270-296 | over every run of writes: stops exactly at an unknown parent or a crash, which a parent-closed store rules out; otherwise index, sums, closure and heaviest head are kept |
| `HeaderChains.HeaderChain.SetHead` | core/headerchain.go:456-491 | the head is the ancestor at the number, the index is defined exactly up to it, exactly the cut headers are deleted, and the caches are empty |
| `HeaderChains.HeaderChain.GetAncestor` | core/headerchain.go:326-356 | with the right number a non-zero result is the plain parent walk of that length; on a stored path it is non-zero exactly when the walk exists and the off-chain steps fit the budget, which pays exactly for them; the zero hash above the head is answered from the index |
| `HeaderQueries.StepDown` | eth/handler.go:388-396 | the next header down is the ancestor skip + 1 steps away; on a stored path there is none exactly if skip + 1 wraps or exceeds the number, or the off-chain steps exceed the budget, which otherwise pays for exactly them, and for nothing without a skip |
| `HeaderQueries.StepUp` | eth/handler.go:397-419 | the next header up has this one as its ancestor skip + 1 steps away; there is one exactly if this header is canonical and the head high enough |
| `HeaderQueries.OffCounts` | eth/handler.go:388-396 | a walk down costs the number of headers before the first canonical one |
| `HeaderQueries.OffAdds` | eth/handler.go:388-396 | the costs of successive walks down a stored path add up |
| `HeaderQueries.StrideCosts` | eth/handler.go:388-396 | the cost of one more stride, and when the genesis is too near for it |
| `HeaderQueries.Stride` | eth/handler.go:385-419 | one stride of a reply keeps the account of where it is and what is left of the budget |
| `HeaderQueries.CanonicalWalk` | eth/handler.go:388-419 | from a canonical header all ancestors are canonical and cost no budget |
| `HeaderQueries.ReplyMore` | eth/handler.go:364-384 | a reply grows by a header that continues it |
| `HeaderQueries.AnswerByHash` | eth/handler.go:364-419 | the reply starts at the hash and neighbours are skip + 1 parent steps apart in the direction asked for; bounded by amount and fetch limit, empty exactly if the hash is unknown or nothing is asked for; from any header with a stored path it is as long as asked for unless it ends, exactly, where the genesis is too near or the off-chain steps from the start exceed 100, and upwards where the head is too near or at once off the chain |
| `HeaderQueries.AnswerByNumber` | eth/handler.go:377-432 | exactly the canonical headers at the numbers asked for, in 64-bit arithmetic, ending early only where there is none |
| `HeaderQueries.Answer` | eth/handler.go:354-432 | both kinds of query: by hash, neighbours skip + 1 parent steps apart, empty exactly if the hash is unknown or nothing is asked for, ending early exactly at the genesis side, at the head or with the budget of off-chain steps; by number, exactly the canonical headers, ending early only where there is none |
| `Retrieval.QueuedIsSilent` | les/retrieve.go:297-308 | an attempt still in the distributor has no event queued |
| `Retrieval.FollowsEvent` | les/retrieve.go:309-368 | an attempt's next event keeps the queue a legal continuation of what the loop has seen |
| `Retrieval.TalliesUpdate` | les/retrieve.go:269-286 | handling any legal event keeps the flags and the counter equal to what the loop has seen |
| `Retrieval.WaitingMeans` | les/retrieve.go:290-292 | the loop waits exactly while some attempt's last event is unseen; the counter is never negative |
| `Retrieval.AllSeen` | les/retrieve.go:261-266 | when all last events are seen, nothing is queued and every attempt is past its last event |
| `Retrieval.SentReq.constructor` | les/retrieve.go:190-193 | the loop starts with one queued attempt |
| `Retrieval.SentReq.AlwaysHolds` | les/retrieve.go:190-292 | in every reachable state at most one attempt is queued or freshly sent, the counter is the number of soft-timed-out unfinished attempts, and a finished loop has handled every final event |
| `Retrieval.SentReq.Assign` | les/retrieve.go:149-163 | a peer is asked only if no attempt holds it |
| `Retrieval.SentReq.Send` | les/retrieve.go:310-323 | the table is sure to have the peer, so there is no panic |
| `Retrieval.SentReq.NoPeer` | les/retrieve.go:297-313 | an attempt without a peer reports that and ends |
| `Retrieval.SentReq.SoftTimeOut` | les/retrieve.go:352-355 | the attempt becomes slow and queues one soft timeout event |
| `Retrieval.SentReq.HardTimeOut` | les/retrieve.go:364-367 | the attempt ends and queues one hard timeout event |
| `Retrieval.SentReq.Receive` | les/retrieve.go:344-363 | the verdict on the reply is reported and ends the attempt |
| `Retrieval.SentReq.Leave` | les/retrieve.go:339-341 | the peer's entry is removed last |
| `Retrieval.SentReq.Update` | les/retrieve.go:269-286 | the flags and the counter after each kind of event |
| `Retrieval.SentReq.Tally` | les/retrieve.go:269-286 | the flags and the counter, case by case |
| `Retrieval.SentReq.HandleEvent` | les/retrieve.go:206-266 | the next phase for every phase and event; a new attempt is launched exactly after a soft timeout while requesting; unless stopped before, a valid reply means success and running out of peers with nothing outstanding means failure for want of peers; a stall begins exactly with an invalid reply or hard timeout that was the last thing outstanding |
| `Retrieval.SentReq.React` | les/retrieve.go:206-266 | what the loop does about an event it has counted |
| `Retrieval.SentReq.Retry` | les/retrieve.go:243-246 | after a pause without peers one attempt is launched |
| `Retrieval.SentReq.SeeStop` | les/retrieve.go:233-256 | a stop leads to the stopped phase |
| `Retrieval.SentReq.Exit` | les/retrieve.go:261-266 | a stopped loop ends only when it waits for nothing |
| `Retrieval.SentReq.Deliver` | les/retrieve.go:371-386 | each peer asked may answer once; anything else is refused; only a reply found valid vouches for its peer |
| `Retrieval.SentReq.Halt` | les/retrieve.go:390-398 | the first reason to stop stays |
| `Retrieval.SentReq.WaitsForSomething` | les/retrieve.go:290-292 | the loop waits exactly while an event is queued or some attempt will send one |
| `Retrieval.SentReq.TakeStep` | les/retrieve.go:190-386 | one step: what it does to the retrieval, which event it takes, and when and with which outcome it stops it |
| `Retrieval.SentReq.Run` | les/retrieve.go:190-386 | over every interleaving, also with the retry timer firing after a stop: every step does what it should and the invariant is kept; the retrieval succeeds exactly if the step that stopped it took a valid reply or was an outside stop that says so, and every valid reply taken was delivered before by that peer and found valid; a stalled loop stays so until it is stopped |
| `Retrieval.InvalidReplyStalls` | les/retrieve.go:206-236 | one invalid reply can leave the loop requesting with nothing outstanding |
| `Distributors.Distributor.Queue` | les/distributor.go:237-264 | a request goes to its place in the order of creation, which numbers new requests one by one, also when queued again; the others keep their order |
| `Distributors.Distributor.Cancel` | les/distributor.go:269-280 | removes the request and says whether it was still queued |
| `Distributors.Distributor.Remove` | les/distributor.go:283-289 | exactly the request leaves the queue |
| `Distributors.Distributor.Offer` | les/distributor.go:197-217 | every peer is considered for a request exactly if it is the oldest that it can take |
| `Distributors.Distributor.Consider` | les/distributor.go:197-217 | a peer that needs no wait becomes a candidate with the weight of its buffer, another one the best if its wait is the shortest |
| `Distributors.Distributor.NextRequest` | les/distributor.go:182-231 | the pick is the oldest request its peer can take, without wait if any peer needs none, else with the shortest wait; among peers that need no wait each is picked by as many of the possible draws as its buffer would have left, plus one; exactly the maximal leading run that nobody can take is dropped |
| `Distributors.Distributor.Turn` | les/distributor.go:135-144 | a picked request without wait leaves the queue, and only that one |
| `Distributors.OldestStays` | les/distributor.go:218-222 | dropping what a peer cannot take does not change its oldest request |
| `Distributors.FrontServable` | les/distributor.go:218-222 | while nobody can take what came before, a request is servable exactly when it is the oldest for some peer |
| `ChainIndexers.SpansIsWalk` | core/chain_indexer.go:363-393 | a section of linked headers is a parent walk of that length |
| `ChainIndexers.ChainIndexer.constructor` | core/chain_indexer.go:105-124 | starts from any intact database, also one whose last writes were cut short |
| `ChainIndexers.ChainIndexer.PutHead` | core/chain_indexer.go:457-462 | a single write above the count leaves the database intact |
| `ChainIndexers.ChainIndexer.DeleteHead` | core/chain_indexer.go:466-471 | a single deletion above the count leaves the database intact |
| `ChainIndexers.ChainIndexer.PutCount` | core/chain_indexer.go:428-432 | a single write of the count leaves all counted heads present and linked |
| `ChainIndexers.ChainIndexer.SetValidSections` | core/chain_indexer.go:428-440 | count first, then exactly the heads above it are removed; intact after each write |
| `ChainIndexers.ChainIndexer.NewHead` | core/chain_indexer.go:237-276 | known and stored sections after a head or a reorganisation; kept heads are unchanged, also in the middle of a section; a section in progress counts as overtaken exactly if a section below it was changed |
| `ChainIndexers.ChainIndexer.Begin` | core/chain_indexer.go:296-310 | the next section starts from the last stored head with no header taken in |
| `ChainIndexers.ChainIndexer.ProcessNext` | core/chain_indexer.go:373-388 | a header is taken in exactly if it continues the last one |
| `ChainIndexers.ChainIndexer.ResetFails` | core/chain_indexer.go:368-371 | all sections are given up |
| `ChainIndexers.ChainIndexer.Abandon` | core/chain_indexer.go:339-343 | a failed section leaves the stored ones alone |
| `ChainIndexers.ChainIndexer.Append` | core/chain_indexer.go:327-328 | head first, then count; intact after each write |
| `ChainIndexers.ChainIndexer.Commit` | core/chain_indexer.go:326-343 | a section is stored exactly if no section below it was rolled back meanwhile, one section of linked headers above its predecessor |
| `ChainIndexers.ReorgInsideIsMissed` | core/chain_indexer.go:326-343 | a run in which the chain is reorganised inside the section being indexed, and the abandoned section is stored all the same |
| `ChainIndexers.ChainIndexer.TakeStep` | core/chain_indexer.go:280-357 | what each step does: a reorganisation rolls back to its section, a new head makes known what it confirms, and a processed section is stored exactly if none below it was rolled back since it was begun |
| `ChainIndexers.ChainIndexer.Run` | core/chain_indexer.go:280-357 | over every interleaving: each step does what it should, and all counted heads are present and each is one section of parent steps above the one before |
| `LightTxPools.OnlyBlock` | light/txpool.go:173-205 | a transaction is in at most one block of a path |
| `LightTxPools.StatusIsExact` | light/txpool.go:173-286 | a tracked transaction is recorded as mined in exactly the block on the path that contains it, and is pending otherwise; never both |
| `LightTxPools.DifferenceMined` | light/txpool.go:149-156 | the change map stays the exact difference when a pending transaction is mined |
| `LightTxPools.DifferenceRolledBack` | light/txpool.go:149-156 | the change map stays the exact difference when a transaction is pending again, one that was pending all the while counting as mined before |
| `LightTxPools.RolledBack` | light/txpool.go:209-221 | rolling back the last block makes the other records fit its parent, and no transaction goes astray |
| `LightTxPools.Checked` | light/txpool.go:183-203 | checking the next block makes the records fit it, and no transaction goes astray |
| `LightTxPools.LightTxPool.constructor` | light/txpool.go:97-118 | nothing is tracked and the records fit the current head |
| `LightTxPools.LightTxPool.Add` | light/txpool.go:401-431 | a transaction not on the current header's path becomes pending; it goes astray exactly if it is on the path of the pool's head, which cannot be if that head is on the current header's path |
| `LightTxPools.AddedWhileMined` | light/txpool.go:401-431 | a transaction added after the chain has left the pool's head: it is pending and recorded as mined, and rolling back reports a change that is none |
| `LightTxPools.LightTxPool.RollbackTxs` | light/txpool.go:209-221 | the block's transactions are pending again, the records fit its parent, the same transactions are tracked, and only those astray can be misreported |
| `LightTxPools.LightTxPool.Collect` | light/txpool.go:183-188 | exactly the pending transactions of the block |
| `LightTxPools.LightTxPool.CheckMinedTxs` | light/txpool.go:173-205 | succeeds exactly if nothing is pending, or the block, and if it has a pending transaction also its receipts, can be fetched; then the block's pending transactions are recorded, and else nothing changes; the same transactions are tracked and none goes astray |
| `LightTxPools.LightTxPool.Fork` | light/txpool.go:232-248 | the highest common ancestor and both branches above it, from the top down |
| `LightTxPools.LightTxPool.Clear` | light/txpool.go:267-283 | exactly the records of canonical blocks between the two limits are forgotten |
| `LightTxPools.LightTxPool.ReorgOnNewHead` | light/txpool.go:229-286 | the new head is reached, or the block below the first that cannot be checked; the records fit the block reached; a transaction stays astray only if it is on the new head's path too; the change map is exactly the status difference, except for transactions astray; a transaction is dropped only if its block is more than 500 below the head, and the limit for that starts at the fork |
| `LightTxPools.LightTxPool.CheckAll` | light/txpool.go:257-264 | the blocks of the new branch are checked from the bottom up, to the top or to the first that cannot be checked |
| `LightTxPools.LightTxPool.Run` | light/txpool.go:229-431 | over every sequence of submissions and head changes: each does what it should, what is recorded as mined is, and a transaction is astray only if it was submitted and has been on the path of every new head since |
| `Feeds.Find` | event/feed.go:221-228 | the first position of the channel, or -1 exactly if it is absent |
| `Feeds.Deactivated` | event/feed.go:236-240 | deactivating moves one case from the active to the inactive part |
| `Feeds.Deleted` | event/feed.go:231-233 | deleting takes one case out of the part it is in |
| `Feeds.Feed.constructor` | event/feed.go:69-74 | no subscriptions |
| `Feeds.Feed.Subscribe` | event/feed.go:81-101 | one subscription more |
| `Feeds.Feed.Remove` | event/feed.go:112-133 | one subscription less |
| `Feeds.Feed.TryAll` | event/feed.go:167-173 | every active channel is tried once, and exactly those that are ready get the value |
| `Feeds.Feed.RemoveDuring` | event/feed.go:178-185 | a subscription that ends during a send is taken out of its part |
| `Feeds.Feed.Deliver` | event/feed.go:170-198 | a delivery moves one case to the inactive part |
| `Feeds.NextIsSubscribed` | event/feed.go:178-185 | a request to unsubscribe finds its subscription, so there is no panic |
| `Feeds.Feed.Send` | event/feed.go:137-198 | for any requests to unsubscribe during the send: deliveries are a part of the snapshot, what is not delivered was asked to be removed, exactly the requests served are removed from the subscriptions, and the result counts deliveries; ends for every pattern of readiness |
| `Feeds.ExactlyOnce` | event/feed.go:137-198 | a channel that nobody asked to remove gets the value exactly as often as it is subscribed, none more often, and a removed one at most as often |
| `Gas.IntrinsicGas` | core/state_transition.go:88-118 | the true cost, failing exactly when it exceeds 64 bits |
| `Gas.IntrinsicMeans` | core/state_transition.go:88-118 | the true cost is 21000, or 53000 for a creation since Homestead, and 68 for each byte of data but 4 for a zero |
| `Gas.StateTransition.BuyGas` | core/state_transition.go:161-174 | fails exactly for a balance below gas times price or a pool below the gas, with no effect; else pool and balance are debited |
| `Gas.StateTransition.PreCheck` | core/state_transition.go:176-187 | passes exactly with the right nonce, balance and pool, and else gives the first reason |
| `Gas.StateTransition.RefundGas` | core/state_transition.go:239-254 | the refund is the counter, at most half of the used gas; no sum exceeds 64 bits |
| `Gas.StateTransition.Settle` | core/state_transition.go:233-254 | the used gas is what was not left less the refund; sender and pool get the rest back and the coinbase the fee |
| `Gas.StateTransition.TransitionDb` | core/state_transition.go:192-237 | refused exactly by the first failing check, and then nothing runs; otherwise the machine gets the gas less the intrinsic gas, the balances less the price of all the gas and for a call the sender's next nonce, the pool loses exactly the used gas, and against what the machine did the fee leaves the sender and reaches the coinbase; after an error the gas is bought exactly if the checks of nonce, balance and pool passed |
| `Gas.FeeAlwaysMoves` | core/state_transition.go:161-254 | apart from what the machine does, each balance changes by the fee debited from the sender and credited to the coinbase |
| `Gas.ChargedBounds` | core/state_transition.go:239-254 | the charge is at most the gas limit and at least half of what was used and of the intrinsic gas |
| `Gas.ChargedMeans` | core/state_transition.go:239-254 | the charge is what was spent less the refund counter, but no less than half of it, rounded up |
| `Gas.GasPool.AddGas` | core/gaspool.go:37-43 | adds within 64 bits |
| `Gas.GasPool.SubGas` | core/gaspool.go:47-53 | subtracts exactly when there is enough |
| `Gas.ApplyTransaction` | core/state_processor.go:139-188 | passes exactly with a known type, the right nonce, the balance and block gas for all its gas, the intrinsic gas covered, a value that can be transferred and the engine's consent, and else gives the first reason; then the cumulative count grows by the used gas, count plus pool is constant, the machine got what the message gives it, and the fee moves from sender to coinbase |
| `Gas.VerdictMeans` | core/state_processor.go:139-188 | there is an error exactly if the transaction does not pass, and each error says which check failed |
| `Gas.Process` | core/state_processor.go:64-91 | a block passes exactly if every transaction does on the balances, nonces and gas that those before it leave, and else the error is that of the first which does not; then used gas plus remaining pool is the limit, each receipt counts the gas up to it and says whether the machine failed, each transaction runs on the balances its predecessor left less the price of its gas, and its fee moves |
| `HdPaths.DecimalRoundTrip` | accounts/hd.go:108-111 | a printed number reads back |
| `HdPaths.Notations` | accounts/hd.go:108-118 | hexadecimal, binary and octal notations read back, and a sign is minded |
| `HdPaths.UpperCase` | accounts/hd.go:108-111 | upper-case hexadecimal digits are read like lower-case ones, and digits are exactly those |
| `HdPaths.WhiteSpace` | accounts/hd.go:97-106 | white space around a component is ignored |
| `HdPaths.Trimmed` | accounts/hd.go:97-106 | nothing trimmed starts or ends with white space |
| `HdPaths.ComponentRoundTrip` | accounts/hd.go:97-123 | a printed component, hardened or not, reads back |
| `HdPaths.RoundTrip` | accounts/hd.go:75-143 | the text of a path reads back exactly when the path is not empty |
| `HdPaths.RelativeRoundTrip` | accounts/hd.go:90-91 | without the prefix the components follow the default root |
| `HdPaths.ParsedInRange` | accounts/hd.go:97-123 | whatever parses has one 32-bit component per part |
| `HdPaths.ToText` | accounts/hd.go:129-143 | the canonical text |
| `HdPaths.ParseDerivationPath` | accounts/hd.go:75-125 | the components in order or the first error, which is an empty path, an ambiguous one, no number, or one out of range |

## Left out

- TxPools.TxPool.Reset: when an account with pending transactions has its nonce set back and transactions are reinjected, nothing is claimed about gaps, because the code does not prevent them; the walk over old and new blocks that computes what to reinject is a parameter.
- TxPools.TxPool.MakeRoom: the claim that enough is evicted leaves out entries lost to duplicates, because the code counts entries.
- TxPools.TxPool.NextOffender: priorities are exact numbers where the source rounds list lengths to 32-bit floating point, so lists beyond 2^24 transactions may be ordered differently.
- TxPools.TxPool.TruncateQueue: the order of accounts by heartbeat is arbitrary.
- TxPools.TxPool.EvictIdle: which accounts are idle is a parameter, as clocks are not modelled.
- TxSortedMaps.TxSortedMap.Filter: filters are a data type with the filters the pool uses, not arbitrary functions.
- RandSelect.WeightedRandomSelect.SetWeight: weights are not negative and unbounded, so overflow of 64-bit sums is not modelled.
- RandSelect.WrsNode.Insert: weights are not negative, where the source would also take negative ones.
- RandSelect.WrsNode.SetWeight: weights are not negative, where the source would also take negative ones.
- RandSelect.WeightedRandomSelect.Choose: random numbers are given and taken modulo their bound; it says which of them choose an item, not a probability distribution over retries.
- HeaderChains.HeaderChain.WriteHeader: header numbers stay below 2^64 - 1, and a header whose number does not follow its parent's is outside the contract.
- HeaderChains.HeaderChain.constructor: starts a chain from its genesis header; opening a database that already holds one is not modelled.
- Retrieval.SentReq.Run: the event queue is unbounded where the source has room for ten, which only adds interleavings; response times and peer removal are not modelled.
- Distributors.Distributor.Queue: a request that is still queued is not queued again, as the callers see to.
- ChainIndexers.ChainIndexer.constructor: starts from a database whose counted heads are present and linked, as every run leaves it.
- ChainIndexers.ChainIndexer.NewHead: head numbers stay below 2^64 - 1.
- ChainIndexers.ChainIndexer.ResetFails: is one step, although the source runs it without the lock.
- ChainIndexers.ChainIndexer.Run: child indexers and trusted section heads are not modelled, and neither is the signal that wakes the update loop.
- LightTxPools.LightTxPool.ReorgOnNewHead: assumes complete header ancestry and that no transaction occurs twice on a path; lookup entries in the database and the relay are not modelled.
- LightTxPools.LightTxPool.Fork: both branches are complete, where the source stops at a missing header.
- LightTxPools.LightTxPool.Add: the nonce check against the state of the current header is the requirement that the transaction is not on its path.
- Feeds.Feed.Send: subscriptions that begin during a send only touch the inbox, which the send does not look at again, and are left out of it.
- Journals, metrics, logging and event notifications of the pools: input and output only.
- The 64-bit limit of account nonces.
- Reset of the pool before its main part: the early returns for deep or missing reorganisations.
- Unregistering and registering of peers in the distributor, and its wake-up timer: they would only add easy members.
- The block chain itself, consensus engines, tries, encodings, signatures and the virtual machine.
- Fetching by light clients, the server pool and its statistics: floating-point weights and node trees that are changed while being walked.
