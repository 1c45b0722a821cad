# Consensus bookkeeping of an Ethereum node, modelled and proved in Dafny

The project models the bookkeeping at the heart of a Go Ethereum client (1.9 series) and proves what it is meant to
keep over every run. `dafny verify dfyconfig.toml` checks all of it.

- **Transaction pool.** Five structures (pending lists, queued lists, the lookup of all transactions, the price heap and
  the virtual nonces) agree after every step of every run; between two head changes the pending lists stay gapless; a
  transaction of a local account leaves only if it is outbid or a new head makes it unusable; every transaction it holds
  is local or pays the price floor, covers its intrinsic gas and takes at most four slots, and remote ones never exceed
  the capacity; what becomes pending is announced, once and in nonce order; the truncation of pending lists is
  water-filling to one level. What becomes of an offered transaction is a function of what the pool holds. Each
  per-account list is a map, a binary heap and a lazily cut sorted cache, and means the same as a plain map. Modules
  `BinaryHeap`, `Options`, `Transactions`, `Totals`, `TxSortedMaps`, `TxLists`, `TxPricedLists`, `TxPoolSpec`,
  `TxNoncers`, `Admission`, `WaterFilling`, `TxPools`, `TxPoolExamples`.
- **Canonical chain.** Whatever headers or blocks arrive in whatever order, the canonical index is the path to the head,
  the stored difficulties are sums along ancestors, the head is best, and after a reorganisation the transaction lookup
  is that of the new path. Fast ancestor lookups agree with the naive walk. Modules `Ancestry`, `HeaderChains`,
  `BlockHashes`, `BlockChains`.
- **Section indexer.** Under every interleaving of reorganisations with the unlocked processing of sections, checking the
  newest stored section head is enough for all of them; on a chain that stands still, a new head leads to every section
  that it confirms. Module `ChainIndexers`.
- **Event feed.** In every interleaving of sends, select choices and unsubscriptions, every subscriber gets the value
  exactly once unless it leaves before, and over every run a channel that is left alone gets every value. Module
  `EventFeeds`.
- **Light client retrieval and light server queue.** Three variables describe any number of concurrent attempts exactly;
  over every run success comes from a valid answer of a peer that was asked; overload shedding cancels or keeps each task exactly once. Modules `Retrieval`, `ServingQueues`.
- **Gas.** Gas and value are conserved over a whole block, the sender pays and the coinbase earns exactly the gas used,
  and no two messages of a sender have the same nonce; gas limits converge to their target range. Modules `Gas`,
  `GasLimit`.
- **Derivation paths.** Printing and parsing round-trip. Module `DerivationPaths`.

How things are modelled:

- Hashes are injective identifiers; a transaction is an immutable record. Databases are maps, caches in front of them are
  transparent, and a section under one lock is one atomic step. Goroutines are steps in any order.
- Random choices, clocks, the results of the network and of the virtual machine are parameters or arbitrary values.
- Numbers are unbounded, except in `Gas`, `GasLimit` and `DerivationPaths`, where widths matter and are explicit.
- Objects that the source updates in place are classes. Their methods are proved against functions on values, and the
  properties are lemmas about these functions and invariants that every method keeps. In the pool, the lists of the
  accounts are such values; class `TxList` and class `TxSortedMap` show that the source's structures compute the same.
- `container/heap` is implemented; `prque` and `sort.Sort` appear as methods with their contracts.

Where a promise turned out not to hold for all inputs, the model follows the code and the exact condition is proved:
`BlockChains.BlockChain.AdoptHead` (a single heavier block below the old head leaves a stale entry above the new one,
with `BlockChains.StaleEntryExample` as an instance), `TxPricedLists.TxPricedList.Discard` and `TxPools.TxPool.Add`
(making room panics when more slots must be freed than the price heap has entries and no account is local, with
`TxPoolExamples.CapacityPanicExample` as an instance), `TxPools.TxPool.MakeRoom` (the slots that are counted are freed if
and only if no transaction is popped twice; one that was evicted and came back can be, with
`TxPoolExamples.CountsTwiceExample` as an instance), `GasLimit.ObeysBoundExactly` (parent limits below 5120, with
`GasLimit.BoundCanBreak` as an instance) and `HeaderChains.HeaderChain.GetAncestor` (when an answer is found at all).
The comment on `truncateQueue` says that the oldest transactions go first; the code takes the accounts with the latest
heartbeat first, and so does the model.

## Model

| member | source | states |
|---|---|---|
| BinaryHeap.RootIsMinimal | core/tx_list.go:30-48 | the root of a heap is minimal, for any strict weak order |
| BinaryHeap.Push | core/tx_list.go:38-40 | pushing keeps the heap order and adds exactly the element |
| BinaryHeap.Pop | core/tx_list.go:42-48 | popping returns a minimum, keeps the heap order and removes exactly that element |
| BinaryHeap.Remove | core/tx_list.go:168-185 | removing at any index keeps the heap order and removes exactly that element |
| BinaryHeap.Init | core/tx_list.go:114-121 | any sequence becomes a heap with the same elements |
| BinaryHeap.PoppedLosesRoot | core/tx_list.go:42-48 | popping, as a function of the heap array, takes the root and nothing else |
| BinaryHeap.PoppedIsHeap | core/tx_list.go:42-48 | popping, as a function of the heap array, leaves a heap |
| TxSortedMaps.TxSortedMap.Put | core/tx_list.go:73-79 | the map gets the transaction; heap still holds each key once, cache dropped or right |
| TxSortedMaps.TxSortedMap.Forward | core/tx_list.go:84-98 | exactly the nonces below the threshold leave, listed in order; the cache cut at its front is still the sorted content |
| TxSortedMaps.TxSortedMap.FilterItems | core/tx_list.go:125-139 | exactly the selected transactions leave; the heap is left alone |
| TxSortedMaps.TxSortedMap.Reheap | core/tx_list.go:114-121 | the heap again holds every key of the map once |
| TxSortedMaps.TxSortedMap.Filter | core/tx_list.go:105-112 | exactly the selected transactions leave and map, heap and cache agree |
| TxSortedMaps.TxSortedMap.Cap | core/tx_list.go:143-164 | the lowest nonces stay, the others are returned highest first; the cache cut at its back is still the sorted content |
| TxSortedMaps.TxSortedMap.Remove | core/tx_list.go:168-185 | the nonce leaves map and heap; says whether it was there |
| TxSortedMaps.TxSortedMap.Ready | core/tx_list.go:194-209 | the gapless run from the lowest nonce leaves in order if that nonce is at most the start, else nothing |
| TxSortedMaps.TxSortedMap.Flatten | core/tx_list.go:216-237 | the full nonce-sorted content, from the cache or rebuilt |
| TxSortedMaps.TxSortedMap.LastElement | core/tx_list.go:241-244 | the transaction with the highest nonce |
| TxSortedMaps.RootIsLowest | core/tx_list.go:34-36 | the root of the nonce heap is the lowest nonce of the map |
| TxSortedMaps.FrontCut | core/tx_list.go:93-97 | cutting as many as were removed off the front of the cache lists what is left |
| TxSortedMaps.CapKeepsLowest | core/tx_list.go:151-156 | dropping the end of the sorted index keeps exactly the lowest nonces |
| TxSortedMaps.Run | core/tx_list.go:73-237 | any sequence of all operations keeps map, heap and cache in step and does what it would do to a plain map |
| TxSortedMaps.Partition | core/tx_list.go:128-134 | exactly the selected transactions are taken out of the map, each once |
| TxSortedMaps.Apply | core/tx_list.go:73-237 | every operation does to the map what it means and keeps heap and cache in step |
| Transactions.AscendingIsUnique | core/tx_list.go:216-228 | there is only one nonce-sorted order of a set of nonces |
| Transactions.RankOfPosition | core/tx_list.go:151-156 | the i-th nonce in order has i nonces below it |
| Transactions.LowestSize | core/tx_list.go:143-164 | capping leaves as many as allowed or all |
| Transactions.LowestOfLowest | core/tx_list.go:143-164 | capping twice is capping to the smaller size |
| Transactions.SlotsHoldSize | core/tx_pool.go:1603-1605 | as many slots of 32768 bytes as the size needs |
| TxLists.TxList.constructor | core/tx_list.go:260-266 | a new list is empty and its caps bound it |
| TxLists.TxList.Add | core/tx_list.go:279-304 | a transaction enters if its nonce is free or it outbids the one there by the price bump; the caps still bound every transaction |
| TxLists.OutbidsByPercent | core/tx_list.go:279-291 | a replacement pays more than the one there, and by the bump in percent more, up to rounding down |
| TxLists.TxList.Forward | core/tx_list.go:309-311 | exactly the nonces below the threshold leave |
| TxLists.TxList.Filter | core/tx_list.go:322-351 | despite the short cut by caps, removes what a full scan would; in strict mode the invalidated ones are exactly the survivors above the lowest removed nonce |
| TxLists.TxList.Cap | core/tx_list.go:355-357 | the lowest nonces stay, the others are returned |
| TxLists.TxList.Remove | core/tx_list.go:362-373 | the nonce leaves; in strict mode so does everything above it, as invalidated |
| TxLists.TxList.Ready | core/tx_list.go:382-384 | the ready run leaves in order |
| TxLists.TwoPassesScan | core/tx_list.go:330-348 | the two filter passes together are one full scan |
| TxLists.FilterKeepsGapless | core/tx_list.go:322-351 | filtering a gapless strict list leaves a gapless list that ends at the first transaction beyond the limits |
| TxPricedLists.TxLookup.Add | core/tx_pool.go:1581-1590 | an absent transaction is added and slots grows by its size |
| TxPricedLists.TxLookup.Remove | core/tx_pool.go:1592-1600 | a present transaction is removed and slots shrinks by its size; slots stays the sum over all |
| TxPricedLists.PriceOrder | core/tx_list.go:416-426 | price, then higher nonce first, is a strict weak order |
| TxPricedLists.SlotsCountRepeats | core/tx_list.go:577-578 | the slots counted entry by entry are those of the transactions if and only if none is listed twice |
| TxPricedLists.DiscardedFromHeap | core/tx_list.go:566-579 | what is discarded, as a function of the heap array, are live remote entries of it and no more of each than it has |
| TxPricedLists.DiscardedOnce | core/tx_list.go:566-579 | nothing is discarded twice if every live transaction has one entry |
| TxPricedLists.CleanedCovers | core/tx_list.go:521-529 | popping stale roots leaves an entry for every live transaction |
| TxPricedLists.TxPricedList.Put | core/tx_list.go:458-460 | the heap gets the entry |
| TxPricedLists.TxPricedList.Removed | core/tx_list.go:465-480 | counts stale entries; up to a quarter the heap stays as it is, beyond that it becomes exactly the live transactions, once each, and the count starts again |
| TxPricedLists.TxPricedList.Cap | core/tx_list.go:484-511 | takes off exactly the live remote entries below the threshold; every other live transaction keeps its entry |
| TxPricedLists.TxPricedList.Underpriced | core/tx_list.go:515-537 | true exactly if the sender is remote and no live transaction is cheaper, in spite of stale entries; only stale roots are popped |
| TxPricedLists.TxPricedList.Discard | core/tx_list.go:541-585 | returns normally if and only if the slots are zero, or positive and there is a local account or the heap has as many entries, else panics at line 563 or 564; what it returns is a function of heap, lookup, local accounts and slots: cheapest live remote entries until enough slots are counted or none is left, and no more; every other live entry stays |
| TxPricedLists.TxPricedList.Take | core/tx_list.go:566-584 | the loop of Discard: takes exactly what the function says; cheapest first, live entries conserved, stops as soon as enough is counted; the stale counter falls by the stale entries taken |
| TxPricedLists.TxPricedList.Sift | core/tx_list.go:566-579 | what is left, dropped and saved when the loop ends, and the stale counter |
| TxNoncers.TxNoncer.constructor | core/tx_noncer.go:36-41 | a new noncer answers with the nonces of the state |
| TxNoncers.TxNoncer.Get | core/tx_noncer.go:45-55 | reading changes no answer, now or later |
| TxNoncers.TxNoncer.Set | core/tx_noncer.go:59-64 | changes the answer for one account only |
| TxNoncers.TxNoncer.SetIfLower | core/tx_noncer.go:68-79 | lowers the answer for one account only, and never raises it |
| TxPoolSpec.TakeOut | core/tx_pool.go:1199-1210 | shrinking a list keeps the structures in agreement up to the transactions taken out |
| TxPoolSpec.Forget | core/tx_pool.go:1592-1600 | a transaction that was taken out is in the lookup and can leave it |
| TxPoolSpec.PutIn | core/tx_pool.go:697-732 | a transaction that was taken out can enter a list, and nothing is there at its nonce |
| TxPoolSpec.SwapIn | core/tx_pool.go:602-616 | a transaction that outbids a listed one takes its place, also in the lookup |
| TxPoolSpec.QueuedBeyondPending | core/tx_pool.go:1215-1221 | with gapless pending nonces, everything queued lies beyond the pending run |
| TxPoolSpec.CountsAgree | core/tx_pool.go:450-462 | there are as many transactions as the pending and queued lists have together |
| WaterFilling.ShaveLowersLevel | core/tx_pool.go:1284-1306 | one pass over the accounts that reach the level lowers the level by one |
| WaterFilling.PassLowersLevel | core/tx_pool.go:1284-1306 | such a pass over the offenders keeps the lists a water-filling of the original lengths |
| WaterFilling.NextOffender | core/tx_pool.go:1274-1282 | taking the longest remaining account as next offender keeps offenders at the level and the others below |
| WaterFilling.FillRises | core/tx_pool.go:1254-1336 | one level more is one transaction more for each account that is cut |
| WaterFilling.ShortByFewerThanCut | core/tx_pool.go:1254-1336 | the limit is undershot by fewer than the accounts that are cut |
| TxPools.TxPool.constructor | core/tx_pool.go:257-284 | an empty pool with sanitized limits and the configured local accounts agrees and has gapless nonces |
| TxPools.TxPool.Agreement | core/tx_pool.go:570-732 | in every reachable state all is the disjoint union of pending and queued, no nonce is in both, counts and slots add up, every transaction has a price heap entry, every queued account a heartbeat, and the heap has at most as many entries as there are live transactions and counted stale ones |
| TxPools.TxPool.EnqueueTx | core/tx_pool.go:649-679 | a transaction enters the queue, replacing one it outbids; never fails for one that comes back from pending |
| TxPools.TxPool.RemoveTx | core/tx_pool.go:882-927 | exactly this transaction leaves; later pending ones of its sender go to the queue and the virtual nonce falls |
| TxPools.TxPool.EnqueueAll | core/tx_pool.go:905-908 | exactly these nonces join the queue of the account |
| TxPools.TxPool.RemoveDropped | core/tx_pool.go:594-598 | transactions whose heap entries are gone leave everywhere |
| TxPools.TxPool.SetGasPrice | core/tx_pool.go:419-428 | what is left is exactly the local transactions and those at or above the price, which is the price floor from then on |
| TxPools.TxPool.Add | core/tx_pool.go:570-644 | the outcome is the one that rules and holdings determine: which error when, in both directions, including the panic while making room; exactly which transactions are evicted, cheapest remote ones and no more than needed; what the lookup is afterwards; a caller who knows slots, count and limits can exclude the panic; agreement and gaplessness are kept; a new transaction within the six limits, written out, is refused only as an underpriced replacement while the pool is not full; a replacement pays the percentage more; the limits that all held transactions meet are kept; of the pending ones at most one is replaced |
| Admission.ValidExactly | core/tx_pool.go:519-560 | a transaction is valid if and only if it meets the six limits, written out in its fields |
| Admission.RefusedRightly | core/tx_pool.go:519-629 | what every error blames, in the fields of the transaction and of those in the pool |
| Admission.HandledIsDecent | core/tx_pool.go:570-644 | if all transactions are local or pay the price floor, cover their intrinsic gas and take at most four slots, so do all afterwards |
| Admission.HandledIsLimited | core/tx_pool.go:584-629 | the transactions of remote accounts never exceed the capacity |
| TxPools.TxPool.Settle | core/tx_pool.go:600-643 | a transaction enters if it beats the one with its nonce; the account becomes local exactly if the transaction is, and was queued; a queued one joins queue, heap and heartbeats |
| TxPools.TxPool.Exchange | core/tx_pool.go:606-616 | the outbid transaction leaves lookup and is reported to the heap, the new one enters both |
| TxPools.TxPool.MakeRoom | core/tx_pool.go:584-599 | room exactly if the pool is not full, or something is cheaper or the sender is local, and the allocation does not panic; exactly what goes, only remote transactions, cheapest first, until enough slots are counted or no remote one is left, and no more; the slots counted are freed if and only if what goes has no repetition, which the state before tells |
| TxPools.TxPool.Place | core/tx_pool.go:600-629 | succeeds exactly if it outbids the one transaction with its nonce, if any; what pending, queue and lookup become |
| TxPools.TxPool.ReplacePending | core/tx_pool.go:602-624 | succeeds exactly if the pending transaction is outbid, swaps the two everywhere and refreshes the heartbeat |
| TxPools.TxPool.PromoteTx | core/tx_pool.go:697-732 | joins the pending list, where its nonce is free, sets the virtual nonce past it and refreshes the heartbeat |
| TxPools.TxPool.PromoteReady | core/tx_pool.go:1214-1223 | the ready part moves from queue to pending, in nonce order, and keeps pending gapless |
| TxPools.TxPool.PromoteRun | core/tx_pool.go:1216-1221 | a run of consecutive nonces joins pending, lowest first |
| TxPools.TxPool.PromoteUsable | core/tx_pool.go:1198-1223 | what stays queued and what becomes pending before the queue is capped |
| TxPools.TxPool.DropUnusable | core/tx_pool.go:1198-1212 | exactly the stale and unpayable queued transactions leave |
| TxPools.TxPool.CapQueued | core/tx_pool.go:1225-1235 | a remote account keeps only its lowest nonces |
| TxPools.TxPool.PromoteAccount | core/tx_pool.go:1193-1247 | exactly what is left queued, what becomes pending and what is returned, for one account: the newly pending transactions, each once and in nonce order |
| TxPools.TxPool.PromoteExecutables | core/tx_pool.go:1188-1249 | the same for every given account; the other accounts are untouched; a transaction is returned if and only if it is pending now and was not before, each once and per account in nonce order |
| TxPools.AnnouncedByListing | core/tx_pool.go:1214-1223 | since their nonces are free in the pending list, the ready transactions are exactly those that become pending |
| TxPools.TxPool.DropStale | core/tx_pool.go:1391-1397 | exactly the pending nonces below the state nonce leave |
| TxPools.TxPool.FilterPending | core/tx_pool.go:1398-1412 | exactly the unpayable ones leave, those after them go to the queue |
| TxPools.TxPool.RequeueGapped | core/tx_pool.go:1417-1428 | a list that does not start at the state nonce goes to the queue as a whole |
| TxPools.TxPool.DemoteAccount | core/tx_pool.go:1388-1433 | exactly the stale or unpayable pending transactions of the account leave the pool; what stays pending starts at the state nonce and is payable |
| TxPools.TxPool.DemoteUnexecutables | core/tx_pool.go:1386-1434 | the same for all accounts; every current and payable pending transaction stays pending or is queued, and what was queued stays queued |
| TxPools.TxPool.DropHighestPending | core/tx_pool.go:1287-1299 | only the highest pending nonce leaves; the virtual nonce falls to it |
| TxPools.TxPool.Shave | core/tx_pool.go:1286-1305 | every given account loses its highest transaction |
| TxPools.TxPool.LowerTo | core/tx_pool.go:1311-1334 | the offenders sink together until all fits or the floor is reached |
| TxPools.TxPool.Equalize | core/tx_pool.go:1272-1308 | the longest lists are cut to the next longest one after the other |
| TxPools.TxPool.TruncatePending | core/tx_pool.go:1254-1336 | one level at or above AccountSlots cuts all remote accounts above it and no other; the result fits or the level is AccountSlots; undershoots by fewer than the accounts cut; the lowest nonces are kept |
| TxPools.TxPool.DropQueued | core/tx_pool.go:1373-1379 | exactly the highest queued nonces of the account leave |
| TxPools.TxPool.TruncateQueue | core/tx_pool.go:1339-1381 | ends exactly at the limit or with local accounts only; an account is cut only if those with later heartbeats are gone; the lowest nonces are kept |
| TxPools.ByHeartbeat | core/tx_pool.go:1348-1355 | each remote account once, in the order of heartbeats |
| Admission.Sanitized | core/tx_pool.go:172-205 | every limit is kept if it is positive and else gets its default, whatever the others are |
| TxPools.FreedSlots | core/tx_pool.go:592-598 | the lookup loses exactly the slots that were counted if and only if nothing was dropped twice |
| TxPoolExamples.CapacityPanicExample | core/tx_pool.go:593 | a pool for two transactions with two of four slots each panics on a dearer third one |
| TxPoolExamples.CountsTwiceExample | core/tx_pool.go:593 | a run of a pool for four slots: a transaction is evicted for inactivity, comes back, and is then counted twice when room for two slots is made; the pool ends with five slots |
| TxPools.RivalsDecide | core/tx_pool.go:600-629 | at most one transaction has the sender and nonce of a new one, and it alone decides whether the new one is accepted |
| TxPools.TxPool.AddTxs | core/tx_pool.go:832-844 | each result is that of adding the transaction to what the ones before it have left, and so is the lookup; it stops only where adding panics; dirty are exactly the senders that gained one without replacing; when it cannot panic; agreement and gaplessness are kept; so are the limits of all held transactions; pending ones are only replaced |
| Admission.HandledKeeps | core/tx_pool.go:570-644 | only the offered transaction comes in; if all were usable all stay so; one of a local account leaves only if it is outbid |
| Admission.PanicLeaves | core/tx_pool.go:592-593 | a panic leaves transactions and local accounts as they were, and the heap with fewer entries than slots to free |
| Admission.BatchKeeps | core/tx_pool.go:832-844 | the same over a whole batch |
| Admission.BatchIsDecent | core/tx_pool.go:832-844 | a batch keeps price floor, intrinsic gas, size and capacity limits |
| Admission.BatchEvictsNone | core/tx_pool.go:832-844 | if everything fits, what is not outbid stays |
| Admission.BatchTakesIn | core/tx_pool.go:832-844 | if everything fits, a valid transaction without rivals enters and stays |
| TxPools.TxPool.Reset | core/tx_pool.go:1099-1183 | an unreadable head changes nothing; otherwise state, gas limit and nonces are new and the reinjected transactions are added one after the other as by AddTxs; agreement is kept |
| TxPools.TxPool.RefreshNonces | core/tx_pool.go:1073-1077 | afterwards every virtual nonce is one past the last pending one |
| TxPools.TxPool.Flattened | core/tx_pool.go:1503-1512 | each account of the set once |
| TxPools.TxPool.RunReorg | core/tx_pool.go:1032-1078 | of local accounts, and of any account within the limits, exactly the stale or unpayable transactions leave, after a new head all of them and without one only queued ones of dirty accounts; after a new head everything is usable and pending lists are executable, without one gaplessness is kept and every account keeps its guaranteed slots; limits hold as far as local accounts and guaranteed slots allow; nonces are refreshed; what is announced is what became pending, and whatever is pending in the end was before, is announced, or is a reinjected one in the place of another; the limits of all held transactions are kept |
| TxPools.NewOnesAreAnnounced | core/tx_pool.go:1059-1096 | why nothing becomes pending without being announced, except a replacement |
| TxPools.TxPool.Update | core/tx_pool.go:1059-1077 | the same for what follows the reset; without a head change, lists that are not truncated are pending as announced |
| TxPools.TxPool.Shift | core/tx_pool.go:1059-1067 | promotion and demotion lose exactly what is looked at and not usable, up to the queue limit per account; what promotion announces is what it made pending, and demotion only removes |
| TxPools.PromotedKeeps | core/tx_pool.go:1193-1247 | promotion of an account within its queue limit loses exactly its unusable queued transactions |
| TxPools.UnusableInTwo | core/tx_pool.go:1391-1405 | dropping stale and then unpayable transactions drops exactly the unusable ones |
| TxPools.SlotsAreGranted | core/tx_pool.go:1254-1336 | truncation leaves every account as many pending transactions as it is granted |
| TxPools.LocalsAreNotCut | core/tx_pool.go:1262-1270 | truncation leaves the lists of local accounts |
| TxPools.TxPool.EvictInactive | core/tx_pool.go:357-373 | exactly the queues of remote accounts that were inactive too long are emptied, and exactly their transactions leave; the price heap is told how many, and up to a quarter their entries stay; the limits are kept |
| TxPools.TxPool.Run | core/tx_pool.go:314-387 | over every run of steps the structures agree, and without a head change the pending lists stay gapless from the state nonce; transactions stay usable; one of a local account is still there unless a step outbids it or moves to a head where it is not usable; it stops early only at a panic, whose cause is stated, and never if an account is local or every transaction takes one slot; price floor, intrinsic gas, size and capacity limits of all held transactions are kept |
| TxPools.TxPool.Admit | core/tx_pool.go:584-643 | a valid new transaction is refused, crashes, is underpriced as a replacement or enters, each under its exact condition |
| TxPools.TxPool.EnoughEntries | core/tx_pool.go:593 | if slots in use plus those of the transaction do not exceed count plus limit, making room cannot panic |
| TxPools.TxPool.EvictFor | core/tx_pool.go:592-598 | the same from the state in which Discard is called |
| TxPools.TxPool.TakeCostly | core/tx_pool.go:1398-1412 | exactly the unpayable ones are forgotten and those after them taken out; the price heap is told of stale and unpayable ones together |
| TxPools.TxPool.Enforce | core/tx_pool.go:1069-1077 | truncating and refreshing: one level cuts the remote lists, local and unlimited ones stay, guaranteed slots are kept, executable lists stay executable, limits are established |
| TxPools.TxPool.Take | core/tx_pool.go:314-387 | one step of any kind keeps agreement and usability; only submitted transactions come in and local ones leave only if outbid or outdated; it panics only on a submitted transaction that is overdrawn |
| Ancestry.AncestorsCompose | core/headerchain.go:364-397 | walking j and then k parents is walking j + k |
| Ancestry.AtOfAncestor | core/headerchain.go:364-397 | the path of an ancestor is the lower part of the path |
| HeaderChains.IndexIsLinked | core/headerchain.go:141-225 | the canonical index is a gapless parent-linked chain from genesis to the head with nothing above |
| HeaderChains.ChoiceIsBest | core/headerchain.go:166-176 | the choice keeps the head best by difficulty, then lower number, among all stored headers |
| HeaderChains.HeaderChain.constructor | core/headerchain.go:79-116 | a chain of the genesis only is sound |
| HeaderChains.HeaderChain.WriteHeader | core/headerchain.go:141-225 | unknown parent exactly if it is not stored; otherwise stored, and head exactly if it is heavier, or as heavy and lower, or as heavy and high and the coin says so; index, sums and best head are kept |
| HeaderChains.HeaderChain.Reroute | core/headerchain.go:177-207 | the batched deletions and overwrites turn the old path into the path of the new head |
| HeaderChains.HeaderChain.DeleteAbove | core/headerchain.go:183-191 | exactly the entries above the new head go |
| HeaderChains.HeaderChain.OverwriteStale | core/headerchain.go:193-205 | stopping at the first canonical ancestor is right |
| HeaderChains.HeaderChain.WriteHeaders | core/headerchain.go:141-225 | any sequence of headers in any order keeps all of this and forgets nothing; no stored header is heavier than the head, nor as heavy and lower |
| HeaderChains.HeaderChain.InsertHeaderChain | core/headerchain.go:293-334 | without failure all headers of the batch are stored; a failure is at a header with unknown parent; a batch of known headers that are not heavier than the head changes nothing |
| HeaderChains.HeaderChain.GetAncestor | core/headerchain.go:364-397 | an answer is the true ancestor although it jumps through the index; it is found exactly if a canonical block or the ancestor is in reach; what is left of the counter |
| HeaderChains.JumpIsRight | core/headerchain.go:376-383 | from a canonical block the index at a lower number is its ancestor |
| BlockHashes.HashFn.constructor | core/evm.go:62-65 | the cache starts empty |
| BlockHashes.HashFn.Get | core/evm.go:62-93 | answers as an uncached walk from the parent would |
| BlockHashes.Queries | core/evm.go:62-93 | so does every sequence of queries |
| BlockHashes.CacheEnd | core/evm.go:75-90 | where the walk continues from the end of the cache, and when it ends |
| BlockChains.WalkDown | core/blockchain.go:2102-2115 | collects exactly the blocks and transactions down to the given number; fails only if a block is missing |
| BlockChains.WalkBoth | core/blockchain.go:2122-2146 | finds where two branches of the same height meet |
| BlockChains.FindFork | core/blockchain.go:2102-2146 | finds the fork point, both branches and the abandoned transactions |
| BlockChains.BlockChain.constructor | core/blockchain.go:710-737 | a chain of the genesis only is sound |
| BlockChains.BlockChain.WriteHeadBlock | core/blockchain.go:710-737 | index entry, lookup entries and current block of the new head |
| BlockChains.BlockChain.InsertBranch | core/blockchain.go:2163-2174 | rewrites index and lookup for the new branch except its head |
| BlockChains.BlockChain.DeleteCanonicalAbove | core/blockchain.go:2181-2189 | deletes the run of entries above the given number |
| BlockChains.BlockChain.Reorg | core/blockchain.go:2046-2191 | what reorg makes of index and lookup, up to the new head that is written next |
| BlockChains.LookupSwitches | core/blockchain.go:2163-2180 | unlabelling the abandoned and labelling the new transactions gives exactly the lookup of the new path |
| BlockChains.IndexSwitches | core/blockchain.go:2163-2191 | up to the new head the index is its path |
| BlockChains.IndexIsExact | core/blockchain.go:2175-2191 | whatever was above the old head, nothing is left above the new one if and only if more than one block is new or the new head is not lower |
| BlockChains.BranchLength | core/blockchain.go:2163-2182 | the same condition in terms of the parent of the new head |
| BlockChains.BlockChain.AdoptHead | core/blockchain.go:1538-1552 | reorg and writeHeadBlock together, also as used for known blocks at lines 1411-1423, keep index and lookup those of the head; from every state, exactly when nothing is above it |
| BlockChains.BlockChain.WriteBlockWithState | core/blockchain.go:1435-1572 | status and head by difficulty, then lower number, then the given tie; head stays best, difficulties stay sums, indexes stay those of the head, exactly when nothing is above it |
| BlockChains.WriteBlocks | core/blockchain.go:1435-1572 | any sequence of blocks of a block tree in any order keeps all of this; no stored block is heavier than the head, nor as heavy and lower |
| BlockChains.StaleEntryExample | core/blockchain.go:2182-2189 | a run in which an entry above the head stays |
| BlockChains.TrimmedAll | core/blockchain.go:2181-2189 | deleting up to the first missing number deletes everything above |
| BlockChains.ExtendsExactly | core/blockchain.go:1549-1552 | a block on top of the head leaves nothing above it if and only if there was nothing |
| ChainIndexers.ChainedOnIndex | core/chain_indexer.go:422-429 | parent links from a canonical block stay on the canonical chain |
| ChainIndexers.NewestDecides | core/chain_indexer.go:422-429 | if the newest section head is canonical, so are all above the checkpoint |
| ChainIndexers.ChainIndexer.constructor | core/chain_indexer.go:103-126 | an empty index is sound |
| ChainIndexers.ChainIndexer.ChainChanges | core/chain_indexer.go:197-240 | the chain may grow and be re-routed at any time without breaking the links of stored heads |
| ChainIndexers.ChainIndexer.SetValidSections | core/chain_indexer.go:479-491 | exactly the heads beyond the count are removed |
| ChainIndexers.ChainIndexer.AddCheckpoint | core/chain_indexer.go:130-143 | a checkpoint, whatever its head, is taken exactly if it is ahead of the index and of the last checkpoint |
| ChainIndexers.ChainIndexer.VerifyLastHead | core/chain_indexer.go:422-429 | the newest stored section above the checkpoint is canonical, none that was removed is, and then every one above the checkpoint is, though only the newest was compared |
| ChainIndexers.ChainIndexer.NewHead | core/chain_indexer.go:243-300 | after a rollback exactly which sections are known and stored, how far was cascaded and what children are told; after a head, known sections never fall, rise only to what has the required confirmations, pass the checkpoint only if the chain has its head, and then include every section with the confirmations |
| ChainIndexers.ChainIndexer.Confirm | core/chain_indexer.go:275-300 | the same for a head without rollback |
| ChainIndexers.ChainIndexer.GiveUp | core/chain_indexer.go:479-491 | removing the newest sections keeps the others linked |
| ChainIndexers.ChainIndexer.BeginUpdate | core/chain_indexer.go:317-337 | a section is started exactly if one is known and not stored, the first such, and only from a verified index |
| ChainIndexers.ChainIndexer.ResetFails | core/chain_indexer.go:391-395 | the job has failed and all sections are given up; the index stays sound |
| ChainIndexers.ChainIndexer.ProcessHeader | core/chain_indexer.go:397-412 | advances exactly if the canonical header is there, links to the last one and is accepted, else fails |
| ChainIndexers.ChainIndexer.CommitFails | core/chain_indexer.go:413-415 | the job has failed; the index stays sound |
| ChainIndexers.ChainIndexer.EndUpdate | core/chain_indexer.go:348-368 | the section is stored exactly if it was read without error and the section before is unchanged; else exactly the sections that are not canonical any more are removed from the top |
| ChainIndexers.ChainIndexer.StartSection | core/chain_indexer.go:317-337 | if the chain agrees with the index at the checkpoint, work starts where the stored canonical sections end |
| ChainIndexers.ChainIndexer.ReadSection | core/chain_indexer.go:397-412 | on a chain that stands still all headers of a section are read |
| ChainIndexers.ChainIndexer.StoreSection | core/chain_indexer.go:348-358 | a section read so is stored |
| ChainIndexers.ChainIndexer.IndexSection | core/chain_indexer.go:304-385 | on a chain that stands still one round stores the next section |
| ChainIndexers.ChainIndexer.CatchUp | core/chain_indexer.go:304-385 | on a chain that stands still rounds lead to all known sections, and the newest is canonical |
| ChainIndexers.ChainIndexer.Follow | core/chain_indexer.go:243-385 | a new head leads to every section from the checkpoint on that it confirms |
| ChainIndexers.ChainIndexer.Handle | core/chain_indexer.go:130-429 | every event has its effect whenever it can happen |
| ChainIndexers.CompletionKeepsSections | core/chain_indexer.go:350-353 | a section processed from the stored head before it is linked to it |
| ChainIndexers.ChainIndexer.Run | core/chain_indexer.go:304-429 | every interleaving keeps the stored heads a parent-linked chain at section distance |
| EventFeeds.Find | event/feed.go:213-220 | the first index of the channel, or none |
| EventFeeds.Deactivate | event/feed.go:228-232 | the in-place swap, as a function of the old slice |
| EventFeeds.Delete | event/feed.go:223-225 | the in-place shift, as a function of the old slice |
| EventFeeds.DeactivateMoves | event/feed.go:228-232 | exactly one case moves from the active to the served ones |
| EventFeeds.DeleteActive | event/feed.go:171-177 | deleting an active case takes it out and skips or repeats no other |
| EventFeeds.DeleteServed | event/feed.go:171-177 | deleting a served case leaves the active ones alone |
| EventFeeds.Feed.constructor | event/feed.go:60-65 | only the removal channel, at index 0 |
| EventFeeds.Feed.Subscribe | event/feed.go:72-92 | the channel joins the inbox |
| EventFeeds.Feed.Remove | event/feed.go:103-124 | one subscription leaves, from the inbox if it is there, else from the cases |
| EventFeeds.Feed.TakeInbox | event/feed.go:134-137 | the inbox joins the cases |
| EventFeeds.Feed.TryAll | event/feed.go:156-165 | every active case is tried exactly once; those whose channel received the value are moved behind the active ones |
| EventFeeds.Feed.Receive | event/feed.go:171-177 | a removal received while sending is counted as dropped if it was not served, else as late |
| EventFeeds.Feed.Select | event/feed.go:169-181 | either one waiting removal is received or one channel receives the value, and which |
| EventFeeds.Feed.Send | event/feed.go:128-190 | the channels receive exactly the tallied deliveries: the subscriptions at the start are delivered to exactly once or were dropped before; nsent counts the deliveries; what stays is what was delivered and did not leave; whoever left had asked, and a channel nobody asked to remove is delivered to and stays; the removal channel stays at index 0 |
| EventFeeds.Feed.Interfere | event/feed.go:103-124 | others change the inbox and ask for removals, each subscription once; a request is accepted whenever that many are subscribed |
| EventFeeds.Feed.DeleteCase | event/feed.go:171-173 | the first case of the channel goes and one subscription with it |
| EventFeeds.Feed.Listen | event/feed.go:103-124 | removals asked for are collected and none is lost |
| EventFeeds.Feed.TryOnce | event/feed.go:156-165 | a pass adds to the deliveries what the channels have received, and nothing else |
| EventFeeds.Feed.SendToAll | event/feed.go:151-183 | the loop of Send, down to no active case |
| EventFeeds.Feed.Unblock | event/feed.go:117-122 | a removal that is still blocked when Send ends goes on: one subscription of the channel leaves |
| EventFeeds.Feed.Take | event/feed.go:72-190 | a step changes the subscriptions of the channels it concerns as it says, and of no other; a value reaches all that are left alone |
| EventFeeds.Feed.Run | event/feed.go:72-190 | over every run a channel that nobody subscribes or removes stays subscribed and receives every value, once for each subscription |
| Retrieval.UpdateCounts | les/retrieve.go:275-292 | update counts right although it sees neither the attempt nor its phase |
| Retrieval.CountersTell | les/retrieve.go:294-298 | what the counters say about the attempts, in both directions |
| Retrieval.CalmStarts | les/retrieve.go:218-229 | an attempt may start when none is queued or sent, whatever is still in the channel |
| Retrieval.EmitLinks | les/retrieve.go:303-370 | an event keeps every future reading of the channel orderly |
| Retrieval.NothingIsOwed | les/retrieve.go:267-272 | when all attempts are seen done, nothing is in the channel and no attempt will send an event |
| Retrieval.DebtFalls | les/retrieve.go:267-272 | every received event lowers the number of events still to come |
| Retrieval.SentReq.constructor | les/retrieve.go:185-188 | one queued attempt |
| Retrieval.SentReq.Update | les/retrieve.go:275-292 | the new counters, and that they describe the attempts |
| Retrieval.SentReq.Receive | les/retrieve.go:203-204 | the loop takes the next event and counts it; a delivery is called valid exactly if the attempt has had a valid answer |
| Retrieval.SentReq.StartAttempt | les/retrieve.go:220-221 | a new attempt is queued |
| Retrieval.SentReq.AfterRequesting | les/retrieve.go:205-234 | next state and whether a new attempt starts, for every event |
| Retrieval.SentReq.StepRequesting | les/retrieve.go:201-238 | one step in the requesting state: next state and attempts for every event; a delivery ends the retrieval with success exactly if the attempt has had a valid answer |
| Retrieval.SentReq.StepNoMorePeers | les/retrieve.go:243-263 | one step in the waiting state: a valid answer ends it with success, else it waits on exactly as long as some attempt is waited for |
| Retrieval.SentReq.StepStopped | les/retrieve.go:267-272 | exits exactly when nothing is waited for, and otherwise comes closer to it |
| Retrieval.SomeoneIsActive | les/retrieve.go:267-272 | while the loop waits and the channel is empty, some attempt has not ended |
| Retrieval.Tells | les/retrieve.go:303-370 | an attempt that has not ended has a next step that sends one event, whatever its peer does |
| Retrieval.SentReq.Nudge | les/retrieve.go:267-272 | in a waiting loop with an empty channel, a step of some attempt sends an event |
| Retrieval.SentReq.Drain | les/retrieve.go:267-272 | from every stopped state the loop can be led to its exit |
| Retrieval.SentReq.Stop | les/retrieve.go:414-422 | only the first outcome is kept |
| Retrieval.SentReq.Cancel | les/retrieve.go:108-118 | cancellation at any time; it is the outcome exactly if there was none |
| Retrieval.SentReq.Assign | les/retrieve.go:133-149 | a peer that is not being asked gets an entry |
| Retrieval.SentReq.Emit | les/retrieve.go:303-370 | an attempt moves on and says so |
| Retrieval.SentReq.StepAttempt | les/retrieve.go:303-370 | the new stage, the event sent and the entries of the peers after each step of an attempt |
| Retrieval.SentReq.Cleanup | les/retrieve.go:330-343 | the entry of the ended attempt is deleted |
| Retrieval.SentReq.Deliver | les/retrieve.go:373-395 | an answer is accepted exactly once per asking attempt; the attempts with a valid answer are those before and, if this one is valid and accepted, the one that asked this peer |
| Retrieval.TruthEmits | les/retrieve.go:345-369 | an attempt that reports what its entry says keeps every event in the channel true |
| Retrieval.TruthAnswers | les/retrieve.go:373-395 | an answer makes no event that is already in the channel false |
| Retrieval.SentReq.Conclude | les/retrieve.go:201-238 | a valid answer to a request that is waited for leads to success, an invalid one does not stop the retrieval |
| Retrieval.SentReq.Take | les/retrieve.go:185-395 | what a step of each kind changes; an outcome is kept; only a valid answer adds to the attempts answered validly |
| Retrieval.SentReq.StepEvent | les/retrieve.go:201-272 | an event that can be received is, in every state of the loop |
| Retrieval.SentReq.Run | les/retrieve.go:185-395 | every interleaving of loop, attempts, answers and cancellation keeps the accounting; from a start without answers it succeeds only if some step was a valid answer; it has stopped if it was cancelled |
| Retrieval.SentReq.Accounting | les/retrieve.go:185-298 | the three variables are exactly the queued, sent and soft-timed-out attempts, at most one is queued or sent, the loop exits only when nothing is owed, success means a valid answer |
| ServingQueues.TimeOfOne | les/servingqueue.go:213-260 | the sum of expected times does not depend on the order |
| ServingQueues.SortByRatio | les/servingqueue.go:203-238 | the same groups, lowest buffer ratio first |
| ServingQueues.RatioTellsFuller | les/servingqueue.go:213-238 | the ratio orders the buffers by how full they are, a limit below one counting as one |
| ServingQueues.LowestIsEmptiest | les/servingqueue.go:213-260 | so the frozen peers have the emptiest buffers |
| ServingQueues.DecayIsFloor | les/servingqueue.go:263-276 | the decay is elapsed time times rate, rounded down, and zero if the clock goes back |
| ServingQueues.ServingQueue.constructor | les/servingqueue.go:124-142 | an empty queue is sound |
| ServingQueues.ServingQueue.UpdateRecentTime | les/servingqueue.go:263-276 | the recent time falls by savings and decay, not below zero |
| ServingQueues.ServingQueue.GroupTasks | les/servingqueue.go:220-237 | all waiting tasks, each once, in one group per peer with its total time |
| ServingQueues.ServingQueue.DropGroups | les/servingqueue.go:239-256 | groups are dropped from the front until enough is saved, the others go back |
| ServingQueues.ShedWholePeers | les/servingqueue.go:239-256 | exactly the tasks of the frozen peers are cancelled |
| ServingQueues.ShedLowestFirst | les/servingqueue.go:238-256 | frozen peers are those with the lowest ratios, in this order |
| ServingQueues.ServingQueue.FreezePeers | les/servingqueue.go:213-260 | each waiting task is cancelled or kept exactly once, whole peers, emptiest buffers first, as few as needed but at least one; ends under the drop limit or empty |
| ServingQueues.ServingQueue.PutTask | les/servingqueue.go:279-287 | the task waits and the best has maximal priority; it is replaced only by a higher one |
| ServingQueues.ServingQueue.AddTask | les/servingqueue.go:279-295 | freezes exactly if the burst limit is exceeded; queued time is the sum over waiting tasks |
| ServingQueues.ServingQueue.SendBest | les/servingqueue.go:302-317 | a task of maximal priority leaves; its time moves from queued to recent without underflow |
| ServingQueues.Run | les/servingqueue.go:300-332 | over every run what waited or arrived was served, cancelled or waits, each once; every send serves one as long as enough waited, and never more; without arrivals nothing that waits has a higher priority than what was served; nothing is cancelled if all of it is within the limit |
| ServingQueues.Take | les/servingqueue.go:300-332 | one step conserves the tasks; a send serves exactly the best task, if any waits; a finished task gives back its saved time; nothing is cancelled unless the waiting time exceeds the burst limit |
| Gas.IntrinsicGas | core/state_transition.go:107-141 | overflow exactly if the per-byte sum exceeds 64 bits, else that sum |
| Gas.IntrinsicCounts | core/state_transition.go:107-141 | the sum from the numbers of zero and other bytes, with the prices written out |
| Gas.GasPool.AddGas | core/gaspool.go:29-35 | adds, given that it fits; every caller shows that it does |
| Gas.GasPool.SubGas | core/gaspool.go:39-45 | subtracts exactly if there is enough |
| Gas.TransferConserves | core/evm.go:102-105 | a transfer conserves the total, also to oneself |
| Gas.StateTransition.BuyGas | core/state_transition.go:175-188 | charges sender and pool, or changes nothing |
| Gas.StateTransition.CheckAndBuy | core/state_transition.go:190-201 | nonce errors first, then as buying gas |
| Gas.StateTransition.RefundGas | core/state_transition.go:272-287 | refund at most half of the used gas; the rest goes back to sender and pool |
| Gas.Charged | core/state_transition.go:272-292 | the charge is between half of the used gas and all of it, and all but the refund |
| Gas.StateTransition.TransitionDb | core/state_transition.go:216-270 | which error when, the used gas, the pool and all balances and nonces afterwards |
| Gas.AppliedExactly | core/state_transition.go:175-254 | a message is applied if and only if its nonce is the sender's, the balance covers gas and value, and the gas is at least intrinsic and fits the pool |
| Gas.RejectedRightly | core/state_transition.go:175-254 | what every error blames, in the fields of the message and its sender |
| Gas.UsedExactly | core/state_transition.go:216-292 | the gas used, from intrinsic gas, the machine and a refund of at most half |
| Gas.WhoPays | core/state_transition.go:175-270 | apart from what the machine moves, the sender loses and the coinbase earns gas used times price, and nobody else gains or loses |
| Gas.NonceIsSpent | core/state_transition.go:190-254 | an applied message raises the nonce of its sender by one and lowers nobody's |
| Gas.SettledConserves | core/state_transition.go:175-287 | buying, refunding and paying gas conserve the total balance |
| Gas.UsedGasIsBounded | core/state_transition.go:216-292 | used gas is at most what was bought and at least half the intrinsic gas |
| Gas.ApplyTransaction | core/state_processor.go:88-129 | pool plus used gas is unchanged; the receipt has the cumulative gas, and gas and status of this message |
| Gas.Process | core/state_processor.go:56-82 | succeeds exactly if every transaction applies; then gas left plus used is the limit, every receipt tells gas and status of its transaction, cumulative gas adds up, the total balance is conserved, and the nonces of a sender rise |
| Gas.NoReplay | core/state_processor.go:56-82 | two messages of one sender in a block have different nonces, in the order of the block |
| Gas.CumulativeRises | core/state_processor.go:110-116 | cumulative gas never falls |
| GasLimit.StaysAboveMinimum | core/block_validator.go:109-140 | the next limit is at least the minimum and admitted again |
| GasLimit.ObeysBoundExactly | core/block_validator.go:109-140 | within parent/1024 if and only if the parent limit is at least 5120 or a stated condition on usage and range holds |
| GasLimit.BoundCanBreak | core/block_validator.go:109-140 | an instance below 5120 |
| GasLimit.FollowsUsage | core/block_validator.go:109-140 | where the range does not interfere, the limit rises after two thirds of usage, does not after less, and never rises less for more usage |
| GasLimit.Approaches | core/block_validator.go:109-140 | in the range it stays, outside it comes closer by at least three |
| GasLimit.RangeIsReached | core/block_validator.go:105-140 | over any run of blocks the range is reached after a third of the distance in blocks, and never left |
| DerivationPaths.ParseDerivationPath | accounts/hd.go:68-118 | the path, or the error of the first bad component |
| DerivationPaths.AppendComponents | accounts/hd.go:90-117 | all components in order, or the first error |
| DerivationPaths.RelativeContinuesRoot | accounts/hd.go:68-118 | a relative path means the same as after the printed default root, in success and in failure |
| DerivationPaths.ParseComponent | accounts/hd.go:91-112 | number, hardening mark and range of one component |
| DerivationPaths.String | accounts/hd.go:122-136 | the printed form |
| DerivationPaths.ParsePrinted | accounts/hd.go:68-136 | parsing the printed form of any non-empty path gives the path back |
| DerivationPaths.ParsePrintParse | accounts/hd.go:68-136 | for any accepted text, parse, print and parse again is parse |
| DerivationPaths.PrintedIsUnique | accounts/hd.go:122-136 | distinct paths print differently |
| DerivationPaths.LargeIsHardened | accounts/hd.go:95-136 | a number from 2^31 up is the same as its hardened form and prints as such |
| DerivationPaths.BasesAreRead | accounts/hd.go:101 | a number written in binary, octal or hexadecimal with its prefix, in either case, is read back |
| DerivationPaths.SignsAreRead | accounts/hd.go:101-104 | a sign in front of a numeral is read |
| DerivationPaths.DigitsExactly | accounts/hd.go:101-104 | exactly figures of the base, with single underscores between them or after a prefix, are numerals |
| DerivationPaths.SpacesAre | accounts/hd.go:92 | which characters are white space |
| DerivationPaths.WhiteSpaceIsIgnored | accounts/hd.go:91-99 | white space around a component does not matter |

## Left out

- EVM execution, tries, the state database, snapshots, the ancient store: foreign code, present only as parameters with stated assumptions.
- `InsertReceiptChain`, `SetHead`, index maintenance, start-up repair: dominated by disk batches and restarts.
- Sender recovery, the journal, metrics, logs and notifications of the pool and of the chain.
- TxPools.TxPool.Reset: the list of transactions to reinject is a parameter; the walk over two branches that computes it is the one of `BlockChains.FindFork`, and where it or the state cannot be read the head is unreadable.
- TxPools.TxPool.PromoteTx: the branches for a transaction that does not enter or replaces another one are not there, because its nonce is proved free.
- TxPools.TxPool.DemoteUnexecutables: gaplessness across head changes is not claimed, since only a gap in front is repaired.
- TxPools.TxPool: the lists of the accounts are values, so that in-place change of a list shared between variables is not captured there; an empty list leaves its map at once.
- TxPricedLists.TxPricedList.Removed: the stale counter is proved to be large enough, so that the heap never has more entries than live and counted stale ones; it is not claimed to be exact, since a transaction that comes back makes its old entry live again and one that is popped twice is reported once.
- BlockChains.BlockChain.WriteHeadBlock: the head markers of the header chain and of fast sync are not modelled.
- ChainIndexers.ChainIndexer.NewHead: child indexers appear only as the value they are told.
- EventFeeds.Feed.Send: type checks and the closing of subscriptions are not modelled.
- Retrieval.SentReq: a server freeze is left out, because it deletes an entry before the event is sent and the counters are then not exact; peers and distributor appear as arbitrary steps; the channel is unbounded.
- ServingQueues.ServingQueue: ratios and decay are real numbers instead of floating point; the thread controllers and the suspension of running tasks are left out; priorities do not wrap around.
- Gas.Process: the fork block that moves balances and the block reward are left out; that a machine conserves value and returns no more gas than it was given is an assumption on the parameter.
- DerivationPaths.ParseDerivationPath: texts are sequences of characters, and numerals follow `math/big` with base 0.
- Networking, peers, handshakes, server pools, cost tracking, crypto, encodings, consoles and account backends: plumbing around what is modelled.
