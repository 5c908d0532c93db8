# Verified model of FSPCoin's core

FSPCoin is a blockchain node derived from go-ethereum: a main chain and a second, sharded "elephant" chain. This
project models the parts of it that keep state over long runs, and proves what every run keeps. `dafny verify
dfyconfig.toml` checks everything.

| file | part of the node |
|---|---|
| `Types.dfy`, `Seqs.dfy` | transactions, addresses, symbolic hashes; sequences without repetition |
| `Heap.dfy`, `NonceMap.dfy`, `TxSortedMap.dfy` | the nonce heap, nonce maps as values, the sorted transaction map |
| `TxList.dfy`, `TxPricedList.dfy` | the per-account list with its caps, the price heap with lazily dropped entries |
| `PoolView.dfy`, `PoolNonces.dfy`, `PoolTotals.dfy`, `PoolSteps.dfy` | the pool's contents as values: consistency and leaks, nonces, truncation, whole operations |
| `PoolRules.dfy`, `PoolSizes.dfy` | what becomes of a submission, of a batch of them and of a reset, in every case; how large the pool gets |
| `PoolHistory.dfy`, `PoolFates.dfy` | the pool's events, what each does, whole histories: where transactions come from, why they go, which stay |
| `TxPool.dfy`, `PoolReset.dfy`, `PoolLives.dfy` | the pool itself, whole runs, following the chain's head, and two lives that go wrong |
| `Blocks.dfy`, `Ancestry.dfy` | blocks, stored ancestry, common ancestors, reinjection |
| `HeaderChain.dfy`, `BlockChain.dfy` | fork choice, the number index, rewinding, caches; reorganization and the lookup index |
| `ChainIndexer.dfy` | sections indexed while notifications interleave |
| `Gas.dfy`, `Ledger.dfy`, `StateTransition.dfy`, `StateProcessor.dfy` | intrinsic gas, balances, executing one message, processing a block |
| `Admission.dfy` | what the pool's admission means for execution |
| `Batches.dfy`, `CrossShard.dfy`, `Delivery.dfy` | batches from other shards, all shards together, which batches can arrive |
| `ShardTree.dfy`, `Slices.dfy`, `HdPath.dfy` | the shard tree, slice striping, wallet paths |

## How the source is modelled

- Hashes are symbolic: the hash of a thing is a constructor applied to it, so hashes never collide and a block's
  ancestry is finite. A header commits to its block, so one value stands for both. Sender recovery is two fields of
  a transaction, the sender and whether recovery succeeds. The pool panics if it does not, so runs of its events end
  at the first such transaction.
- What the source leaves to chance is left open: the order in which maps are walked, ties between equal prices or
  list lengths, heartbeats, which cache entries are evicted, the coin tossed between equally heavy heads, what code
  run by the virtual machine does. Every theorem holds for all choices.
- One locked method is one step. The chain indexer lets go of its lock while it processes a section, so each lookup
  of a number there is a step of its own.
- The pool holds its lists as values; `TxLists.TxList` is the mutable list, proved against the same value functions.
  `headRemovals` and `uncovered` are specification-only fields.
- Quantities that the program keeps in 64 bits are bounded where they can overflow: gas, gas pools, cumulative gas,
  intrinsic gas, offsets, slice indices. Account and batch nonces never take the last 64-bit value.
- The interfaces of code that is not part of this model are parameters: account states, block gas limits, rewards,
  which shard an address is in, the address of a created contract, and whether there is code at it.

## Where the code does less than its comments say

- `txPool.removeTx` of the head of a longer pending list empties the list and does not requeue the followers, which
  stay known by hash but in no list. `PoolViews.LeakFreeRemovalIff` says exactly when this happens;
  `PoolLives.RepriceLeaks` is a life in which raising the minimum price between two of an account's prices does it.
- `txList.Filter` lowers `costcap` and still keeps free acts above it, so its short circuit can keep what is no longer
  payable once acts stop being free: `TxLists.FilterAgreesIff`, `TxLists.StaleClaimSurvives`.
- A replacement that is refused for its price may already have evicted others: it leaves the pool as it was exactly if
  the pool was not full or all transactions in it were local (`PoolRules.RefusalKeepsIff`, `TxPools.TxPool.AddTx`).
  `PoolLives.RefusalEvicts` is a life in which one account's refused replacement evicts another's only transaction.
- `txPool.add` asks for the transaction's type before it validates the signature, and that dereferences the sender
  (common/types.go:513-516): a submission panics exactly if its sender cannot be recovered (`PoolRules.PanicsIff`), and
  the later answer that the sender is invalid is never given.
- The pool does not ask a free act for the value it carries, which execution does: it is pooled and cannot be executed
  exactly if its sender owns less than that (`Admissions.FreeActsUnfunded`). For all other transactions admission and
  execution agree (`Admissions.AcceptableIff`).
- A transaction submitted as local makes its account local, and so exempt from limits and the minimum price, only if
  it does not replace a pending one, which `txPool.add` answers before it comes to that (`PoolFates.WhitelistedIff`).
- `HeaderChain.SetHead` deletes the canonical headers only; a header on top of a branch that lost its base makes
  `WriteHeader` dereference a missing ancestor: `HeaderChains.RewindThenCrash`, on forks as in `HeaderChains.SomeFork`.
- `WriteBlockWithState`, unless archiving, looks up the canonical block below the new one's number and dereferences
  it even if a long light branch has outgrown the canonical chain: `BlockChains.BlockChain.WriteBlock`, and
  `BlockChains.OutgrownCrash` for a chain that does.
- A reorganization during section processing can leave more sections stored than known. Every step keeps the stored
  ones within the known ones, except recording the section after them when it is not known any more; a run keeps that
  exactly if no step is such: `ChainIndexers.ChainIndexer.Finish`, `ChainIndexers.ChainIndexer.Run`,
  `ChainIndexers.ReorgWhileProcessing`. And a section's head is not canonical when it is recorded exactly if its last
  number was given to another block since it was read: `ChainIndexers.ChainIndexer.Run`.
- Batches are counted under the key of the receiving shard, so all source shards share one numbering. What waits for a
  shard can all be applied exactly if it is numbered consecutively from the shard's counter on, without repetition, with
  heights rising along the numbers: `Deliveries.AllArriveIff`. Of two batches with one number at most one is ever
  applied, and the value of the other one never arrives: `Batches.SourcesShareNumbers`, `CrossShards.SameNumberStrands`,
  `CrossShards.StrandedForever`. `Deliveries.SecondCoinStrands` is a run from a fresh start in which two shards send a
  coin each to a third one and the second coin is stranded.
- A sender takes a batch's number from its own state (elephant/backend.go:1155), which counts what it received. What it
  sent is counted only after the block was written (miner_elephant/worker.go:583-599), in a state that the next block
  does not start from (miner_elephant/worker.go:654). With numbers from the processed state every batch is a number 1,
  and of all that is ever sent to a shard at most one batch is applied: `Deliveries.AtMostOneArrives`.
- A block sends all its outputs, also those that failed and left their value with the sender; and the value given to a
  contract whose address lies in another shard leaves its creator without being sent. So the wealth of all shards is
  constant up to the rewards exactly if no output that fails carries value, for plain transactions whose contracts stay
  at home: `CrossShards.WealthIsConstantIff`, `CrossShards.FailedOutputMints`, `CrossShards.StrayCreationBurns`. An
  output fails, for one, if it calls a precompiled contract at an address of another shard with less gas than that
  takes; a free act gets no gas at all.
- Slice indices are cut to 32 bits, so an operation starts at the offset exactly if that is below 2^52:
  `Slices.SliceClient.BaseIsOffsetIff`, `Slices.SeekBeyondWraps`.

## Model

| member | source | states |
|---|---|---|
| Heap.RootIsMin | core_elephant/tx_list.go:34-48 | the smallest nonce (or price) is at the root of the heap the container library keeps |
| SortedMap.TxSortedMap.Put | core_elephant/tx_list.go:73-79 | overwrites one nonce of the plain nonce map; the heap holds exactly its keys; the cache is dropped |
| SortedMap.TxSortedMap.Forward | core_elephant/tx_list.go:84-98 | returns exactly what is below the threshold, in nonce order, keeps the rest, and a filled cache stays the sorted contents |
| SortedMap.TxSortedMap.Filter | core_elephant/tx_list.go:102-123 | returns exactly what the filter selects, keeps the rest, and keeps the cache only if nothing went |
| SortedMap.TxSortedMap.Cap | core_elephant/tx_list.go:127-148 | keeps exactly the lowest nonces up to the limit and returns the others, highest first |
| SortedMap.TxSortedMap.Remove | core_elephant/tx_list.go:152-169 | removes one nonce from the map and from the heap, and says whether it was there |
| SortedMap.TxSortedMap.Ready | core_elephant/tx_list.go:178-193 | returns exactly the maximal consecutive run from the lowest nonce, provided that is not above the start |
| SortedMap.TxSortedMap.Flatten | core_elephant/tx_list.go:203-216 | returns the contents in nonce order and caches exactly that |
| TxLists.TxList.Add | core_elephant/tx_list.go:251-272 | replaces a transaction only if the price both exceeds the old one and reaches the bumped threshold; raises the caps |
| TxLists.OutbidsIff | core_elephant/tx_list.go:255-261 | a replacement is taken exactly if it is dearer and, in whole units, reaches the old price raised by the bump but for less than one unit |
| TxLists.TxList.Filter | core_elephant/tx_list.go:290-316 | removes what is unpayable and, in strict mode, all that follows the lowest removed nonce, unless the caps short-circuit it |
| TxLists.TxList.Remove | core_elephant/tx_list.go:327-338 | removes a nonce and, in strict mode, returns and removes everything above it |
| TxLists.RunKeepsBounded | core_elephant/tx_list.go:251-338 | over every run of additions, filters, caps and removals, gascap bounds every gas and costcap every cost that is never free |
| TxLists.RunKeepsBoundedAt | core_elephant/tx_list.go:251-338 | if no filter of the run crosses the free height, costcap bounds every cost that is not free in that era |
| TxLists.FilterAgreesIff | core_elephant/tx_list.go:290-302 | after any run the filter leaves what a full scan would, unless the caps short-circuit it beyond the free height while a claim costs more than the limit |
| TxLists.FilterAgreesInEra | core_elephant/tx_list.go:290-302 | while acts do not change their free status the short circuit equals the full scan |
| TxLists.StaleClaimSurvives | core_elephant/tx_list.go:293-301 | a concrete run after which the short circuit keeps an unpayable claim |
| TxLists.StrictFilterPrefix | core_elephant/tx_list.go:290-316 | filtering a gapless strict list leaves a gapless payable prefix and splits the rest into removed and invalid |
| PricedList.TxPricedList.Removed | core_elephant/tx_list.go:412-426 | counts a stale entry; beyond a quarter of the heap rebuilds it to hold the pool exactly, each transaction once |
| PricedList.TxPricedList.Cap | core_elephant/tx_list.go:430-457 | drops exactly live remote entries below the threshold, keeps locals, and accounts for every popped entry |
| PricedList.TxPricedList.Underpriced | core_elephant/tx_list.go:461-483 | true exactly for remote transactions no dearer than the cheapest live entry, if there is one |
| PricedList.TxPricedList.Discard | core_elephant/tx_list.go:487-510 | drops the cheapest live remote entries, up to the count, and accounts for every popped entry |
| TxPools.TxPool.UnderpricedInPool | core_elephant/tx_pool.go:652-657 | decides whether a transaction is remote and no dearer than the cheapest one in the whole pool |
| TxPools.TxPool.MakeRoom | core_elephant/tx_pool.go:658-665 | removes remote transactions one after the other, cheapest first; removes something exactly if some known transaction is remote; in a pool within its limits leaves room for one more or only local ones |
| PoolViews.RemovalLeaksIff | core_elephant/tx_pool.go:949-988 | a removal by hash leaves a known transaction in no list exactly if it takes the head of a longer pending list or another one's slot |
| PoolViews.LeakFreeRemovalIff | core_elephant/tx_pool.go:961-973 | from a pool whose lists hold all it knows, removal keeps that exactly unless the removed one heads a longer pending list |
| PoolViews.EnqueuedKeeps | core_elephant/tx_pool.go:717-742 | queueing keeps every listed transaction known and filed under its sender, and pending and queued nonces disjoint |
| PoolViews.PromotedKeeps | core_elephant/tx_pool.go:760-793 | so does promotion, and it leaks nothing |
| PoolSteps.LeakFreeIsExact | core_elephant/tx_pool.go:949-988 | leak-free means that pending and queue together are exactly what is known by hash |
| TxPools.TxPool.constructor | core_elephant/tx_pool.go:186-241 | an empty pool |
| TxPools.TxPool.EnqueueTx | core_elephant/tx_pool.go:717-742 | inserts into the sender's queue or refuses an insufficient bump; the replaced transaction is forgotten |
| TxPools.TxPool.PromoteTx | core_elephant/tx_pool.go:760-793 | inserts into the sender's pending list and moves the expected nonce past it, or forgets a transaction that does not outbid |
| TxPools.TxPool.RemoveTx | core_elephant/tx_pool.go:949-988 | takes a nonce with its successors out of pending and requeues them unless the list is empty, or takes it out of the queue; counts leaky removals |
| TxPools.TxPool.PromoteAccount | core_elephant/tx_pool.go:1007-1054 | forgets outdated and unpayable queued transactions, promotes exactly the ready run, caps the rest of a remote account |
| PoolNonces.PromotionSettles | core_elephant/tx_pool.go:1007-1054 | promotion leaves an account's pending nonces gapless up to the expected one and its queue above |
| TxPools.TxPool.PromoteExecutables | core_elephant/tx_pool.go:998-1177 | promotes the given accounts, then truncates pending fairly and the queue, leaking nothing and keeping accounts lined up |
| TxPools.TxPool.TruncatePending | core_elephant/tx_pool.go:1055-1133 | terminates with the total within GlobalSlots or every remote account within AccountSlots; locals untouched; survivors are nonce prefixes; nobody is cut below AccountSlots nor below a remote account that lost nothing |
| PoolTotals.LeveledIsFair | core_elephant/tx_pool.go:1066-1131 | cutting all offenders to one level that no other remote account exceeds is fair |
| PoolTotals.RoundLowersLevel | core_elephant/tx_pool.go:1092-1126 | one round off accounts at the common level brings all of them to the next lower level |
| TxPools.TxPool.TruncateQueue | core_elephant/tx_pool.go:1136-1176 | removes the highest nonces of remote queues until the total fits or none is left; at most one queue is cut in part |
| TxPools.TxPool.DemoteAccount | core_elephant/tx_pool.go:1184-1221 | drops outdated and unpayable pending transactions, requeues what follows a gap, deletes empty lists |
| TxPools.TxPool.DemoteUnexecutables | core_elephant/tx_pool.go:1182-1222 | the same for every account, leaking nothing |
| PoolSteps.DemotionLinesAll | core_elephant/tx_pool.go:1182-1222 | against a state in which no nonce went back, demotion leaves every account's pending nonces gapless from its state nonce |
| TxPools.TxPool.ValidateTx | core_elephant/tx_pool.go:569-612 | passes exactly the acceptable transactions; the error is that of the first broken demand |
| Admissions.ReportMeans | core_elephant/tx_pool.go:569-612 | what each error says, in the order of the checks, with the limits spelled out: the first thing wrong with the transaction is reported |
| Admissions.AcceptableIff | core_elephant/tx_pool.go:569-612 | a transaction that pays for its gas and whose nonce is due is acceptable exactly if execution on the same state applies it in an empty block of the pool's gas limit, provided its size, value and price suit the pool |
| Admissions.AddedExecutes | core_elephant/tx_pool.go:628-711 | what the pool takes, execution applies once the nonce is due, unless it is a free act that carries value |
| Admissions.FreeActsUnfunded | core_elephant/tx_pool.go:594-598 | an acceptable free act is applied exactly if its sender owns the value, for which the pool does not ask |
| Admissions.RefusedMeans | core_elephant/tx_pool.go:569-612 | a transaction refused for its gas does not fit a block, or cannot cover its charge; one refused for its nonce or funds fails execution's demand of the same kind |
| Admissions.PayableIff | core_elephant/tx_list.go:290-302 | a listed transaction stays payable exactly if a block has room for it and its sender can buy the gas and transfer the value |
| Admissions.ListedExecutes | core_elephant/tx_pool.go:186-331 | at any moment of any life, what is listed, due and not outdated is applied if it is executed on the pool's state |
| TxPools.TxPool.Add | core_elephant/tx_pool.go:628-711 | the outcome in every case: panic, not this shard's, known, unacceptable with the first broken demand, too cheap for a full pool, or inserted after room was made; nothing changes if it is turned away |
| TxPools.TxPool.Insert | core_elephant/tx_pool.go:668-711 | replaces a pending transaction or joins the queue exactly if its nonce is free there or it outbids, and makes the sender local only in the queue |
| PoolRules.RoomRemoves | core_elephant/tx_pool.go:659-665 | room is made from something exactly if a known transaction is remote, and then the pool shrinks |
| PoolRules.RefusalKeepsIff | core_elephant/tx_pool.go:628-711 | a refusal changes nothing, except that one for the price of a replacement leaves the pool as it was exactly if it was not full or everything in it is local |
| PoolRules.PanicsIff | core_elephant/tx_pool.go:629-633 | a sequence of submissions panics exactly if some sender cannot be recovered |
| TxPools.TxPool.AddTx | core_elephant/tx_pool.go:825-842 | the outcome of the submission, when a refusal leaves the pool as it was, and that an addition promotes the sender's ready run and truncates fairly, keeping accounts lined up |
| TxPools.TxPool.AddTxs | core_elephant/tx_pool.go:890-916 | the outcome of every submission in its turn, up to a panic, then the promotion of exactly the senders of what was added |
| TxPools.TxPool.SetGasPrice | core_elephant/tx_pool.go:478-487 | afterwards the pool knows exactly what it knew that is local or reaches the new price; the others were removed one after the other |
| TxPools.TxPool.Evict | core_elephant/tx_pool.go:294-311 | empties the queues of inactive remote accounts and touches nothing else |
| TxPools.TxPool.Reset | core_elephant/tx_pool.go:413-444 | the outcome of every reinjected transaction, the exact demotion of every pending list, the raised nonces, and the promotion that follows; after a head that reinjects nothing and takes no nonce back, all accounts are lined up if they were |
| TxPools.TxPool.Run | core_elephant/tx_pool.go:246-331 | every run of events, up to the first that panics: what each event did, moment by moment; the pool stays consistent, within its limits, leak-free unless a leaky removal happened, and, while the chain only advances, each account's pending nonces are exactly the interval from state nonce to expected nonce |
| TxPools.Lifetime | core_elephant/tx_pool.go:186-331 | the same for a whole life from creation, and whatever is listed at its end was submitted in it and answered as added |
| TxPools.TxPool.Handle | core_elephant/tx_pool.go:246-331 | one event does what its operation does: submissions are decided and promoted, the new minimum price holds, inactive queues are emptied, a new head's state and limit are taken over and the abandoned transactions reinjected |
| PoolHistories.HandledOnly | core_elephant/tx_pool.go:246-331 | after an event nothing is listed but what was before and what the event submitted and was answered as added |
| PoolHistories.Provenance | core_elephant/tx_pool.go:246-331 | so over every run: whatever is listed at any moment was listed at the start or added since |
| PoolHistories.ListedIsSound | core_elephant/tx_pool.go:569-612 | whatever a pool that started empty lists has a recoverable sender, a limited size, no negative value, and gas for the intrinsic charge |
| PoolFates.HandledSpares | core_elephant/tx_pool.go:246-331 | an event takes a transaction off the lists only if it is displaced by a dearer one, outdated, of an inactive remote account, of a remote account squeezed by a limit, or of a remote sender whose transactions went for their price |
| PoolFates.NothingLost | core_elephant/tx_pool.go:246-331 | so over every run: what is listed stays until an event has one of these reasons, and no account stops being local |
| PoolFates.LocalsStay | core_elephant/tx_pool.go:246-331 | over every run a local account's transaction stays listed until it is superseded by a dearer one or outdated by the chain or the lamp height |
| PoolFates.AddedStays | core_elephant/tx_pool.go:825-842 | a submission answered as added is listed right after its insertion, and after its event it is gone only if its sender is remote and a limit had to be kept |
| PoolFates.NextIsPending | core_elephant/tx_pool.go:825-842 | a transaction added at the expected nonce of a settled account is pending after its event, unless a limit had to be kept |
| PoolFates.FloorHolds | core_elephant/tx_pool.go:478-487 | at every moment every listed transaction offers the minimum price then in force, unless its account is local or it was submitted as a local one |
| PoolFates.FullPoolTakesDearer | core_elephant/tx_pool.go:652-657 | a full pool takes a remote transaction only if it is dearer than some known one, and refuses for its price only one that is dearer than none |
| PoolFates.WhitelistedIff | core_elephant/tx_pool.go:668-711 | a transaction submitted as local makes its account local exactly if it does not replace a pending one |
| PoolFates.TurnLeavesDue | core_elephant/tx_pool.go:413-444 | after a new head no listed transaction has a used nonce, and all are payable but those whose list was waved through by its caps |
| PoolFates.LimitsKept | core_elephant/tx_pool.go:1045-1176 | promotion leaves every remote account it promotes within its share of the queue, and the pool within its two totals, unless no remote account has more pending than it is guaranteed or none has anything queued |
| PoolFates.ExpiredGone | core_elephant/tx_pool.go:294-311 | after an eviction exactly what an inactive remote account had queued is gone |
| PoolSizes.RoomLeaves | core_elephant/tx_pool.go:652-666 | making room leaves one transaction less than the limit at most, or only local ones, although the heap may hold an entry twice |
| PoolSizes.DecidedStays | core_elephant/tx_pool.go:628-711 | no submission takes the pool over GlobalSlots + GlobalQueue, unless all it knows is local but for one transaction at most |
| PoolSizes.KnownShrinks | core_elephant/tx_pool.go:998-1222 | promotion, truncation, demotion and eviction, which list nothing new and leak nothing, make nothing new known |
| PoolLives.RefusalEvicts | core_elephant/tx_pool.go:652-678 | a concrete life in which a replacement is refused for its price and has evicted another account's transaction |
| PoolLives.RefusedAfterEviction | core_elephant/tx_pool.go:652-678 | in that full pool every outcome of the submission that the rules allow is that one |
| PoolLives.RepriceLeaks | core_elephant/tx_pool.go:478-487 | a concrete life in which a new minimum price leaves a transaction known but in no list |
| PoolSteps.SteadyMeans | core_elephant/tx_pool.go:423-444 | what lined up means: pending nonces are exactly that interval, lists are not empty, queued nonces lie at or above it |
| PoolResets.FollowHead | core_elephant/tx_pool.go:345-444 | a head that builds on the old one reinjects nothing and keeps accounts lined up; otherwise exactly the abandoned transactions are reinjected, with the outcome of the reset in every case |
| Gas.IntrinsicGas | core_elephant/state_transition.go:82-113 | the stepwise computation yields the exact charge, or fails exactly if that exceeds 64 bits |
| Gas.ChargeIs | core_elephant/state_transition.go:82-113 | the charge in units of gas: 21000, or 53000 for a creation, 68 for each byte and 64 less for each zero |
| HeaderChains.HeaderChain.GetTd | core_elephant/headerchain.go:311-323 | the stored difficulty, with or without the cache |
| HeaderChains.HeaderChain.GetHeader | core_elephant/headerchain.go:343-355 | the stored header, with or without the cache, which ignores the number |
| HeaderChains.HeaderChain.GetBlockNumber | core_elephant/headerchain.go:111-120 | the stored number or the missing one |
| HeaderChains.HeaderChain.GetHeaderByNumber | core_elephant/headerchain.go:374-380 | the canonical header of every number up to the head and none above |
| HeaderChains.HeaderChain.Reroute | core_elephant/headerchain.go:151-182 | the number index becomes exactly the new head's chain, and this fails exactly if an ancestor is missing |
| HeaderChains.HeaderChain.WriteHeader | core_elephant/headerchain.go:131-195 | the outcome in all cases, on difficulties; that the index stays a gap-free linked chain with agreeing caches, and that without rewinding the head stays the heaviest |
| HeaderChains.HeaderChain.SetHead | core_elephant/headerchain.go:403-436 | deletes exactly the canonical headers above the number; the index is cut there and the caches are empty |
| HeaderChains.HeaderChain.Run | core_elephant/headerchain.go:131-436 | what every write and rewind of a run did, and the one way to crash it; the chain invariant over every run; runs of writes never crash and keep the head heaviest |
| HeaderChains.WritesStore | core_elephant/headerchain.go:131-195 | between rewinds no header is lost, and one whose parent is there when it is written is there from then on |
| HeaderChains.SideSurvives | core_elephant/headerchain.go:403-436 | a rewind deletes no header that was not canonical |
| HeaderChains.CanonicalIsAncestry | core_elephant/headerchain.go:163-178 | the index holds exactly the head and its ancestors |
| HeaderChains.RewindThenCrash | core_elephant/headerchain.go:169-178 | on every such fork, rewinding and then extending a sibling's branch dereferences a missing ancestor |
| HeaderChains.SomeFork | core_elephant/headerchain.go:169-178 | there are such forks |
| Ancestry.FindCommonAncestor | core_elephant/database_util.go:608-632 | finds the highest common ancestor reachable over stored parents exactly if there is one |
| Ancestry.GenesisReached | core_elephant/database_util.go:608-632 | in a store with one genesis every block reaches it, so a common ancestor exists |
| Ancestry.BranchesDiffer | core_eth/blockchain.go:1624-1664 | the two branches above the highest common ancestor hold exactly what one head has and the other has not |
| Ancestry.TxDifference | core/types_elephant/transaction.go:368-387 | keeps exactly the transactions not in the second list |
| Ancestry.Reinjected | core_elephant/tx_pool.go:345-411 | what a reset reinjects: exactly the old branch's transactions absent from the new branch, or nothing for a child or a deep reorganization |
| BlockChains.BlockChain.Insert | core_eth/blockchain.go:517-539 | sets number and head; the header heads follow unless the number already was the block's |
| BlockChains.BlockChain.WriteTxLookupEntries | core_eth/database_util.go:464-481 | every transaction of the block looks up to its position and other entries stay |
| BlockChains.BlockChain.Branches | core_eth/blockchain.go:1624-1664 | collects exactly the two branches above the highest common ancestor, or fails exactly if there is none |
| BlockChains.BlockChain.Adopt | core_eth/blockchain.go:1676-1686 | inserting the new branch from its lowest block up indexes and locates the whole new chain |
| BlockChains.BlockChain.Reorg | core_eth/blockchain.go:1601-1706 | afterwards numbers up to the head are its ancestry and the lookup index is exactly its transactions |
| BlockChains.DeletedExactly | core_eth/blockchain.go:1687-1693 | deleting what the old branch alone had leaves exactly the new chain's entries |
| BlockChains.LookupFinds | core_eth/blockchain.go:1680-1693 | a lookup finds a transaction, at the recorded place of a canonical block, exactly if the chain holds it |
| BlockChains.BlockChain.WriteBlock | core_eth/blockchain.go:957-1142 | the status in every case, on difficulties and numbers: the heavier block wins, among equally heavy ones the lower, and at one height the coin decides; the head stays the lowest of the heaviest blocks and both indexes its own, unless the chain crashes |
| BlockChains.OutgrownCrash | core_eth/blockchain.go:957-1142 | a chain that does not archive crashes on every light branch of three blocks beside one heavy block |
| BlockChains.SomeOutgrown | core_eth/blockchain.go:957-1142 | there are such blocks |
| BlockChains.BlockChain.Run | core_eth/blockchain.go:957-1142 | what every block of a run did; both indexes stay those of the head, and the head the lowest of the heaviest stored blocks, over every sequence of blocks |
| BlockChains.TrailStores | core_eth/blockchain.go:957-1142 | over a run no block is lost, one whose parent is there when it is written is there from then on, and nothing else comes in |
| BlockChains.InOrderStored | core_eth/blockchain.go:957-1142 | blocks that come after their parents are all stored |
| BlockChains.OrderIsForgotten | core_eth/blockchain.go:1101-1104 | the head is told by the stored blocks, in whatever order they came: any two choices have one difficulty and one number, and coincide unless two blocks tie in both |
| ChainIndexers.ChainIndexer.SetValidSections | core_eth/chain_indexer.go:432-445 | exactly the heads below the new count are kept |
| ChainIndexers.ChainIndexer.NewHead | core_eth/chain_indexer.go:248-287 | a reorganization lowers both counts to its section; progress only raises the known count |
| ChainIndexers.ChainIndexer.Begin | core_eth/chain_indexer.go:304-323 | starts the next section from the previous section's head |
| ChainIndexers.ChainIndexer.ProcessNext | core_eth/chain_indexer.go:378-390 | reads the next number off the chain of that moment and goes on only if it continues the chain read so far |
| ChainIndexers.ChainIndexer.Finish | core_eth/chain_indexer.go:327-349 | records the section exactly if the head before it is unchanged, else gives up until further notice; stays within the known sections exactly unless it records a section that had become unknown |
| ChainIndexers.ChainIndexer.Run | core_eth/chain_indexer.go:248-397 | over every interleaving with chains becoming canonical, what every step did; heads are recorded exactly for the stored sections, each a section of parent links above the previous one; the stored sections stay within the known ones exactly if no step overtakes, which takes a reorganization; a head is not canonical when recorded exactly if its number changed since it was read, and later only where a change was not notified yet |
| ChainIndexers.ChainIndexer.Take | core_eth/chain_indexer.go:226-397 | each step does what its phase does: a reorganization takes back the sections that do not end at or below it, progress makes sections known that end so many blocks before the head, a number is read, a section committed, recorded or given up |
| ChainIndexers.SectionRecorded | core_eth/chain_indexer.go:285-397 | a known section that continues what is stored is recorded, with its last block as head, if nothing comes in between |
| ChainIndexers.OneChain | core_eth/chain_indexer.go:304-397 | all recorded section heads lie on one chain |
| ChainIndexers.AllCanonicalIff | core_eth/chain_indexer.go:304-397 | the recorded heads are all canonical exactly if the newest one is |
| ChainIndexers.ChainIndexer.StrayingIffLate | core_eth/chain_indexer.go:327-390 | a finished section's head is not canonical exactly if its last number was given to another block since it was read |
| ChainIndexers.ReorgWhileProcessing | core_eth/chain_indexer.go:322-341 | a concrete run in which a reorganization during processing leaves more sections stored than known, with a block of the abandoned chain as head |
| StateTransitions.GasPool.AddGas | core_elephant/gaspool.go:29-35 | fails exactly on overflow |
| StateTransitions.GasPool.SubGas | core_elephant/gaspool.go:39-45 | fails exactly if too little is left |
| Ledger.TransferInflow | core_elephant/evm.go:80-95 | a transfer changes the shard's total by what enters minus what leaves, and a funded one overdraws nobody |
| Ledger.TransferMoves | core_elephant/evm.go:80-95 | account by account: the sender's balance falls and the recipient's rises by the amount, if they are in this shard; a transfer to oneself and all other accounts stay as they were |
| StateTransitions.Evm.Call | core/vm_elephant/evm.go:150-212 | a failed call restores all balances; only a revert or lack of funds keeps gas |
| StateTransitions.Evm.Create | core/vm_elephant/evm.go:332-409 | the same for creations, which collide exactly with code or a nonce; the creator's nonce is used up except for lack of funds, and the contract starts with nonce 1 |
| StateTransitions.StateTransition.BuyGas | core_elephant/state_transition.go:172-189 | takes all the message's gas from the block and its price from the sender, or nothing |
| StateTransitions.StateTransition.PreCheck | core_elephant/state_transition.go:191-208 | passes exactly if nonce, funds and block gas allow it, and otherwise gives the error of the first that does not; free acts buy no gas |
| StateTransitions.StateTransition.RefundGas | core_elephant/state_transition.go:272-289 | refunds at most half of what was used and gives the rest back to sender and block |
| StateTransitions.StateTransition.Perform | core_elephant/state_transition.go:238-268 | lack of funds exactly if the value is not covered; otherwise gas left, balances and nonces as after the call or the creation |
| StateTransitions.StateTransition.TransitionDb | core_elephant/state_transition.go:215-270 | a message is applied exactly if it meets every demand, and otherwise the error is that of the first it does not meet; gas used, balances, nonces and block gas of an applied one; the block's gas never overflows |
| StateTransitions.ApplyMessage | core_elephant/state_transition.go:135-137 | the same, and an applied message changes the total by exactly its transfers' and acts' inflow and overdraws nobody |
| StateTransitions.ApplicableMeans | core_elephant/state_transition.go:172-263 | when a message is applied, in terms of balances, nonces and gas, with the intrinsic charge spelled out |
| StateTransitions.AppliedShares | core_elephant/state_transition.go:215-294 | what an applied message that runs no code changes every account's balance by, whoever coincides |
| StateTransitions.TransferIs | core_elephant/state_transition.go:215-294 | between three different accounts: a home recipient rises by exactly the value, the sender falls by it, if it is at home, and by the gas used, which the block's author gets; nobody else notices |
| StateTransitions.FailsIff | core/vm_elephant/evm.go:332-409 | execution fails exactly if the virtual machine says so or a contract would be created where code or a nonce already is |
| StateTransitions.FailureRestores | core/vm_elephant/evm.go:150-212 | a failed execution leaves no trace but the nonce and what is paid for gas, whatever its code did |
| StateTransitions.UsedIs | core_elephant/state_transition.go:226-294 | the gas used: the intrinsic charge and what execution spends, or all of it if that fails otherwise than by reverting, less a refund of half at most |
| StateTransitions.NoncesAre | core_elephant/state_transition.go:245-254 | exactly one nonce of the sender is used up, a new contract starts with nonce 1, no other nonce changes |
| StateTransitions.MoveShows | core_elephant/evm.go:80-95 | each funded transfer by running code shows in the balances of its two accounts, and an unfunded one does not happen |
| StateTransitions.AppliedTotal | core_elephant/state_transition.go:250-294 | prepayment, refund and fee cancel out even if sender, recipient and coinbase coincide |
| StateTransitions.AppliedSolvent | core_elephant/state_transition.go:172-294 | without storage acts no balance becomes negative |
| StateTransitions.PlainTransferInflow | core_elephant/evm.go:88-95 | a transfer within the shard keeps the total, an output lowers it by exactly its value |
| StateProcessors.ApplyTransaction | core_elephant/state_processor.go:121-160 | a transaction joins the block exactly if its sender is recoverable and its message applicable with the gas left; its receipt and the new state |
| StateProcessors.ApplyTransactions | core_elephant/state_processor.go:72-85 | succeeds exactly if every transaction joins in its turn, and then all are applied |
| StateProcessors.RunTotals | core_elephant/state_processor.go:72-85 | the receipts cumulate within the gas limit, and the total changes by exactly the inflows, whatever is paid for gas |
| StateProcessors.PlainInflows | core_elephant/state_processor.go:72-85 | for plain transactions the inflows are minus what the successful outputs carry |
| StateProcessors.NoReplay | core_elephant/state_processor.go:72-85 | a sender's transactions of a block have increasing nonces, so none executes twice |
| StateProcessors.RunShows | core_elephant/state_processor.go:72-85 | account by account, the receipts of transactions that run no code tell what was moved and what was paid for gas |
| StateProcessors.ContractsCreated | core_elephant/state_processor.go:155-158 | a receipt names a contract exactly if its transaction creates one, and one whose creation has not failed is there from then on |
| StateProcessors.ApplyBatch | core_elephant/state_processor.go:89-111 | accepts a batch exactly if height and number are right and all its transactions are inputs, and then credits each once |
| StateProcessors.ApplyBatches | core_elephant/state_processor.go:89-111 | succeeds exactly if each batch is accepted in its turn |
| StateProcessors.Process | core_elephant/state_processor.go:67-115 | succeeds exactly if all transactions apply and all batches are accepted in their turn; then accounts, counters and receipts are those, used gas is within the limit, the total changes by inflows, rewards and inputs, and so does each account if no code runs |
| StateProcessors.ProcessedShows | core_elephant/state_processor.go:67-115 | account by account, what a block moves by its transactions, as its rewards, and as inputs from other shards |
| StateProcessors.SetReceiptsData | core_elephant/blockchain.go:852-874 | fills hashes, addresses and the 64-bit difference of cumulative gas |
| StateProcessors.Restore | core_elephant/blockchain.go:852-874 | for processed receipts differencing recovers exactly each one's own gas, without wrapping |
| Batches.InOrder | core_elephant/state_processor.go:89-103 | under one key heights and numbers strictly increase and consecutive batches are numbered consecutively |
| Batches.FirstInOrder | core_elephant/state_processor.go:89-103 | the first batch under a key continues the stored counters |
| Batches.NeverTwice | core_elephant/state_processor.go:89-111 | no batch is applied twice, over any number of blocks |
| Batches.CreditedShows | core_elephant/state_processor.go:105-110 | every recipient gets exactly what the batch sends to it |
| Batches.CreditsCrossing | core_elephant/state_processor.go:105-110 | whatever an accepted batch credits was sent to this shard from another one |
| Batches.BlockByBlock | core_elephant/state_processor.go:89-111 | accepting blocks of batches one after the other is accepting all of them |
| Batches.AcceptedKey | core/types_elephant/transaction.go:635-644 | the key of an accepted batch is the receiving shard, whichever shard sent it |
| Batches.SourcesShareNumbers | core_elephant/state_processor.go:89-103 | so of two batches with one number, from whatever sources, at most one is ever applied |
| Batches.AcceptedIff | core_elephant/state_processor.go:89-111 | batches of inputs under one key are all accepted, in their order, exactly if their numbers continue the counter one by one and their heights rise above its height |
| CrossShards.SentValue | elephant/backend.go:1131-1171 | the batches of a block, one for each shard, together carry exactly the value of its outputs |
| CrossShards.AcceptedIsNew | core_elephant/state_processor.go:89-103 | an input of an accepted block has not been applied before and occurs once in it |
| CrossShards.StepWealth | core_elephant/state_processor.go:67-115 | one processed block changes what all shards hold plus what is in flight by the rewards, its transactions' inflows and its outputs |
| CrossShards.WealthChanges | core_elephant/state_processor.go:67-115 | so over every run of blocks in any shards, with batches delivered late, repeatedly, misdirected or never |
| CrossShards.PlainGain | core_elephant/state_processor.go:67-115 | plain transactions add exactly the value of failed outputs less that of contracts created in another shard |
| CrossShards.WealthIsConstantIff | core_elephant/state_processor.go:67-115 | over every run of plain transactions whose contracts stay at home, wealth changes by exactly the rewards if and only if no failed output carries value |
| CrossShards.FailedOutputMints | core/types_elephant/block.go:513-523 | a concrete block whose failed output is sent all the same and makes a coin |
| CrossShards.StrayCreationBurns | core/vm_elephant/evm.go:358 | a concrete block whose creation in another shard loses a coin |
| CrossShards.StrandedForever | core_elephant/state_processor.go:89-103 | a batch whose number or height its shard has reached is applied in no continuation |
| CrossShards.SameNumberStrands | core_elephant/state_processor.go:89-103 | applying a batch strands every other one sent to that shard under its number |
| CrossShards.NeverExecutedAgain | core_elephant/state_transition.go:196-203 | a transaction executed in a block of a shard is executed in no later block of it |
| Deliveries.AllArriveIff | core_elephant/state_processor.go:89-111 | what waits for a shard can all be applied, in some order and any number of blocks that send nothing, exactly if it is numbered consecutively from the shard's counter, without repetition, with heights rising along the numbers |
| Deliveries.AtMostOneArrives | elephant/backend.go:1153-1158 | with numbers taken from the sender's processed state all batches are number 1, and at most one batch is ever applied in a shard, over any run from a fresh start |
| Deliveries.AllArriveIfOne | elephant/backend.go:1153-1158 | so what was sent to a shard that has applied nothing can all arrive exactly if it is one batch at most |
| Deliveries.SecondCoinStrands | elephant/backend.go:1131-1171 | a concrete run from a fresh start, numbered as the program does it, after which a sent coin arrives in no continuation |
| ShardTrees.ShardTree.constructor | common/types.go:552-578 | every level lists its shards in bit-reversed order |
| ShardTrees.ReversalMirrors | common/types.go:552-578 | bit for bit an entry is its position mirrored |
| ShardTrees.ReversalTwice | common/types.go:552-578 | the reversal is an involution, so every level is a permutation |
| ShardTrees.ShardTree.GetParentSharding | common/types.go:580-596 | the parent among 2T shards is the remainder modulo T; -1 exactly for the root and for what is no shard |
| ShardTrees.ShardTree.GetChildSharding | common/types.go:598-614 | the children of s among T are s and s+T; -1 exactly for leaves and for what is no shard |
| ShardTrees.ShardTree.GetBrotherSharding | common/types.go:616-632 | the other child of the parent |
| ShardTrees.BrotherIsInvolution | common/types.go:616-632 | the brother is another shard with the same parent, whose brother is this one |
| ShardTrees.RealSharding | common/types.go:470-480 | bit k of the real shard is the parity of the k-th byte from the end |
| ShardTrees.ShardRefines | common/types.go:488-490 | an address's shard among T is the parent of its shard among 2T |
| Slices.SliceClient.WriteSlices | blizcs/rw.go:81-140 | the exact result for every offset and length, with sums on 64 bits and indices on 32; a write splices the flat array at its place and nowhere else |
| Slices.SliceClient.ReadSlices | blizcs/rw.go:479-540 | the exact result for every offset and length, with sums on 64 bits and indices on 32: the interval from where reading really starts, or which failure |
| Slices.SliceClient.BaseIsOffsetIff | blizcs/rw.go:87-92 | an operation starts at the offset exactly if that is below 2^52 |
| Slices.SliceClient.WritePieces | blizcs/rw.go:113-140 | writes piece by piece, and runs out of slices exactly if the interval is not within the object |
| Slices.SliceClient.Fetch | blizcs/rw.go:509-540 | fetches one piece per slice, exactly the interval's part in each |
| Slices.SliceClient.Assemble | blizcs/rw.go:619-634 | the pieces joined in slice order are the interval; fails exactly if asked for one slice too many |
| Slices.PieceWritten | blizcs/rw.go:110-140 | writing inside one slice changes the flat array only there |
| Slices.WriteThenRead | blizcs/rw.go:81-634 | what was written is read back |
| Slices.SeekBeyondWraps | blizcs/rw.go:88-95 | an offset of 2^32 slices wraps: writing there overwrites the object's beginning |
| HdPaths.ParseDerivationPath | accounts/hd.go:67-117 | the result for every string: absolute or relative path, or the first failure |
| HdPaths.RelativeIsBelowRoot | accounts/hd.go:82-117 | a relative path is the absolute one below m/44'/60'/0'/0 |
| HdPaths.AbsoluteIs | accounts/hd.go:67-93 | after `m/` the path is what its components are; a leading slash is ambiguous and a bare `m` empty |
| HdPaths.BlanksIgnored | accounts/hd.go:72-80 | white space around the `m` is ignored |
| HdPaths.FirstBelowRoot | accounts/hd.go:30-37 | the text `0` is the first path below the default root |
| HdPaths.ComponentIs | accounts/hd.go:88-113 | a number stands for itself up to 2^32 - 1, with an apostrophe for 2^31 more up to 2^31 - 1, with white space ignored around both |
| HdPaths.Notations | accounts/hd.go:96-101 | one number in decimal, octal, hexadecimal and binary, with and without a sign, and what is no number |
| HdPaths.ToString | accounts/hd.go:121-135 | the canonical text |
| HdPaths.TextRoundTrip | accounts/hd.go:67-135 | every non-empty path is read back from its text; the empty one's text is refused |
| HdPaths.ReparsedUnchanged | accounts/hd.go:67-135 | printing and reparsing whatever was parsed changes nothing |
| HdPaths.DecimalIsSet | accounts/hd.go:101-113 | a printed number is read back as decimal, never as octal, hexadecimal or binary |

## Left out

- Networking, peers, farmers, timers, journals, metrics, logs, event feeds and locks.
- The consensus engines, the trie database, the account state beyond balances and nonces, and the interpreter: what
  they do enters as parameters. The storage acts' own changes of balances are an arbitrary list of adjustments.
- A contract that destroys itself in its own favour, which makes its balance vanish: executed code moves value by
  transfers only.
- Input batches waiting in the pool (`allInput`) and their journal.
- The lists inside the pool are values: two references to one list object are not modelled.
- The order in which an account's transactions are removed within one eviction: the outcome does not depend on it.
- The exact value of the price heap's `stales` counter between operations.
- HeaderChains.HeaderChain.WriteHeader: demands of a header with a parent that it is numbered right after it, which
  the consensus engine checks before (consensus/elephanthash/consensus.go:329-333).
- BlockChains.BlockChain.WriteBlock: demands that no transaction occurs twice on the chain of a block that becomes
  head, which account nonces rule out in valid blocks; receipts, logs and trie garbage collection are not modelled.
- ChainIndexers.ChainIndexer.Run: child indexers, `cascadedHead` and `AddKnownSectionHead` are not modelled.
- HdPaths.ParseDerivationPath: numerals follow Go's big-integer scanner without digit separators and without the
  `0o` prefix that later releases accept.
- StateTransitions.ApplyMessage: a call of a missing account with no value skips execution; the model lets execution
  be anything there, which includes nothing.
- CrossShards.WealthChanges: is about one lamp height, at which no shard splits, and about inputs that were sent; proofs
  that a batch is genuine are not modelled, and a batch may be numbered in any way.
- Deliveries.AllArriveIff: is about what waits at one moment; batches sent later may fill a gap in the numbers.
- StateProcessors.RunShows: is about transactions that run no code; each transfer that running code makes is told by
  `StateTransitions.MoveShows`.
- StateProcessors.NoReplay: code that creates contracts while it runs raises their nonces, which is not modelled.
- Deliveries.AtMostOneArrives: takes a block's state to start from the one that its parent was written with, as the
  worker loads it; a change made to a state in memory after that is not modelled.
