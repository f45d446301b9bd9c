# A verified model of AionR's chain bookkeeping and transaction executor

AionR is a blockchain node. This project models, in Dafny, the part of it that has to stay right
through reorganisations and nested failures, and proves what the node relies on:

- the tree of stored blocks, the canonical chain, and the indexes from numbers and from transaction
  hashes (`BlockTree`, `RouteLaws`, `Chain`, `ChainInvariant`, `NumberIndex`, `IndexTrace`,
  `TransactionIndex`, `TransactionLookup`, `BlockChainStore`, `ImportRoutes`);
- the account cache shared by all readers, on whatever fork they stand (`StateCache`,
  `StateCoherence`, `CacheService`, `AccountLru`, `StateDatabase`, `ClientNode`), and the cache of the
  last 256 hashes (`LastHashes`);
- the world state with its stack of checkpoints, and the executor that runs nested calls and
  creations over it (`WorldState`, `Execution`, `Executor`, `ExecutionLaws`, `BalanceLaws`,
  `FrameLaws`, `SenderLaws`, `TransferLaws`, `CallLaws`, `Effects`, `TransactLaws`);
- filling a block with transactions, one by one or in batches (`BlockAssembly`, `AssemblyLaws`,
  `PushLaws`, `NonceLaws`, `BlockEffects`, `BlockBalances`), and the gas limit of the next block
  (`GasLimit`);
- enumerating logs (`Logs`), reading through caches (`CacheManagement`, `CacheLayer`), repairing the
  database at start-up (`Repair`, `RepairRecovery`), framing peer messages (`Codec`) and state
  differences (`StateDiff`).

## How the model is built

Objects whose methods change their fields are classes (`BlockChain`, `StateDB`, `AccountCache`,
`State`, `Executive`, `Client`, `OpenBlock`, `CacheManager`, `CachedChain`, `BlockDatabase`,
`Buffer`); each method is proved against a function of the old state, and the theorems are about
those functions and about whole runs of them. Loops of the original are loops here. Blocks, routes,
receipts and differences are datatypes. Hashes are values of which only equality matters.

What stands outside the model is a parameter: the virtual machines (a finite tree of operations, any
tree, for the FastVM; any function of state and batch for the AVM), the derivation of contract
addresses, the evictor of the cache manager, and the contents of each block's world state.

The central results:

- `StateCoherence.CacheCoherence`: at every moment of every run of commits, side branches,
  reorganisations, second syncs of sealed blocks and evictions, a reader on top of any block gets from
  the shared cache either nothing or that block's own account.
- `ChainInvariant.RunValid`, `BestIsFirstHeaviest`, `TotalDifficultyIsSum`: what every insertion keeps.
- `TransactionIndex.RunExact`, `TransactionLookup.RoundLocatedIff`, `NumberIndex.BeaconListAlwaysRightIff`,
  `IndexTrace.RunBlockHashRightIff`, `ImportRoutes.FoldedRoutesExact`: the indexes and the reported routes
  against the canonical path, over whole runs.
- `RouteLaws.RouteIff`: `tree_route` returns the one and only route.
- `Executor.Executive.TransactIn`: the executor over the checkpoint stack refines a semantics without
  checkpoints; `ExecutionLaws.TransactConserves`, `BalanceLaws.NoBalanceOverflow`,
  `FrameLaws.TransactLogs`, `SenderLaws.NonceRisesByOne` are proved of that semantics for every tree of
  nested frames.
- `TransactLaws.TransactDecides` and `TransactLeaves`: when a transaction is accepted, written out over its
  nonce, gas and money, and that every account's balance, nonce, code and storage afterwards are decided by
  the effects of its surviving frames, in program order. `BlockEffects.BlockLeaves` and
  `NonceLaws.BlockNonces` carry both over whole blocks.
- `RepairRecovery.RepairThenReimport`: whatever run led to a chain and whatever headers and bodies it
  lost, after the start-up repair the dropped blocks can be imported again, and then everything of them is
  back but the lists of children.
- `AssemblyLaws.PushAllInOrder`, `LimitBindsIff`, `BatchIsOneByOne`, `BlockBalances.BlockConserves`,
  `Logs.FindLogs`, `CacheLayer.CacheTransparent`, `Repair.RepairSettles`, `Codec.CutDoesNotMatterIff`,
  `GasLimit.BandHolds`, `RangeIsSafeIff`, `StateDiff.StateRoundTripIff`.

## Where the code does less than one might expect

Each of these is proved as an exact condition, most with a lemma at a failing input beside it.

- `beacon_list` can name a block that is no longer canonical: it is right about every known block
  exactly when the best block is as high as it has ever been (`NumberIndex.BeaconListAlwaysRightIff`,
  `LowerReorgGoesStale`, `StaleEntryExample`).
- A failed nested call leaves the touched set of its caller changed when it had transferred value
  (`FrameLaws.FailedCallRollsBack`, `TouchedSurvivesFailure`).
- Below the 256-block window `blockhash` reads the number index, stale entries included. It is the
  executing block's own ancestor exactly when the latest best block that stood at that height or above
  forks off higher up, and beyond the parent it is zero exactly when no best block was ever that high
  (`IndexTrace.RunBlockHashRightIff`, `BlockHashExample`).
- The historical exception for one transaction lets three block heights exceed their gas limit, and no
  others (`AssemblyLaws.LimitBindsIff`, `PushOneWithinIff`, `ExceptionOverruns`).
- With a low floor configured, a block can be built with a gas limit below the chain's minimum, which its
  own verification refuses. A range is safe for every parent up to 2^61 exactly when its floor leaves room
  for one step down, as the default range does (`GasLimit.RangeIsSafeIff`, `DefaultRangeIsSafe`,
  `LowFloorUndercuts`). The built limit leaves the parent's bounds exactly from 2^61 on
  (`GasLimit.BuiltIsAcceptedIff`).
- A byte stream is received the same however it is cut exactly when decoding it reaches no invalid head
  with more bytes behind it (`Codec.CutDoesNotMatterIff`, `BadHeadDependsOnCut`).
- The start-up repair gives up exactly when it falls back to the genesis block and its header is lost
  (`Repair.RepairFailsIff`, `RepairGivesUp`).
- A state difference rebuilds the new state exactly when code is known and no empty storage value comes
  or goes (`StateDiff.StateRoundTripIff`, `EmptyValueIsLost`).

## What callers keep true

Four conditions are exact as well, but the code's own callers always meet them.

- An answer from the cache of last hashes equals the walk of parents exactly when it was built on a block
  already known, or on one that is unknown to this day (`LastHashes.HitRightIff`). Every caller passes a
  stored block or the parent of a stored header (core/src/client/client.rs:303, 349-402, 1710, 1780).
- A batch is checked against the block but not against itself, so it stays free of repetitions exactly
  when it has none (`AssemblyLaws.BatchDistinctIff`). A block that repeats a transaction is refused
  beforehand by its nonces (core/src/client/client.rs:412-426).
- A reorganisation deletes the address of a transaction that stands in a leaving block even if it also
  stands below the fork: every canonical transaction is still found exactly when each such transaction
  also stands in an entering block (`TransactionLookup.RoundLocatedIff`, `SiblingLoses`, `LostPayment`).
  The index does not exclude such blocks; the same nonces do.
- Reverting to a checkpoint restores it exactly when no recorded account was killed since
  (`WorldState.RevertRestoresIff`, `KilledStaysGone`). The executor kills only after its last revert
  (core/src/executor/fvm_exec.rs:582-670).

## Model

| member | source | states |
|---|---|---|
| BlockTree.FindRoute | core/src/blockchain/blockchain.rs:774-818 | `tree_route` terminates on every pair and returns the route read off the two root paths; nothing exactly when an end is unknown |
| BlockTree.ClimbDown | core/src/blockchain/blockchain.rs:780-796 | one levelling loop: stops at the given height and has collected the blocks passed, in order |
| RouteLaws.RouteIff | core/src/blockchain/blockchain.rs:774-818 | a triple of blocks, ancestor and index is the route if and only if it descends by parents to the ancestor, climbs from there to the end, and never doubles back |
| RouteLaws.AncestorIsDeepest | core/src/blockchain/blockchain.rs:774-818 | a block is above both ends if and only if it is at or above the route's ancestor |
| RouteLaws.RouteBack | core/src/blockchain/blockchain.rs:774-818 | the route back is the same blocks reversed, with the same ancestor and the complementary index |
| BlockTree.GrowChildren | core/src/blockchain/blockchain.rs:1234-1261 | inserting a block keeps the children lists the duplicate-free inverse of the parent relation |
| BlockTree.GrowPath | core/src/blockchain/blockchain.rs:1234-1261 | the new block's root path is its parent's path and itself |
| BlockTree.PathFrame | core/src/blockchain/blockchain.rs:1234-1261 | growing the tree changes the root path of no block already there |
| ChainInvariant.KnownIffChild | core/src/blockchain/blockchain.rs:723-727 | in a valid chain a block is listed as its parent's child if and only if it is stored |
| ChainInvariant.NewBestRoute | core/src/types/blockchain/import_route.rs:49-76 | a heavier block retracts exactly the canonical blocks above the fork, newest first, and enacts exactly its own ancestors above the fork and itself, oldest first |
| ChainInvariant.NewBestNumbers | core/src/blockchain/blockchain.rs:1199-1230 | the staged renumbering turns a right number index of the old path into a right one of the new path |
| ChainInvariant.HeavierRound | core/src/blockchain/blockchain.rs:997-1049 | a heavier block becomes best, its path canonical, and the reported route is that of the fork |
| ChainInvariant.LighterRound | core/src/blockchain/blockchain.rs:997-1049 | any other new block leaves best, index and canonical path alone and is reported as omitted |
| ChainInvariant.RoundValid | core/src/blockchain/blockchain.rs:942-994 | a round keeps the whole invariant: rooted tree, total difficulties, children lists, best block, and the number index equal to the canonical path at every height up to best |
| ChainInvariant.RunValid | core/src/blockchain/blockchain.rs:942-994 | the invariant holds after every sequence of imports |
| ChainInvariant.ReinsertChangesNothing | core/src/blockchain/blockchain.rs:942-950 | a round changes nothing, and reports an empty route, if and only if the block was known |
| ChainInvariant.TotalDifficultyIsSum | core/src/blockchain/blockchain.rs:1000-1006 | in a valid chain the recorded total difficulty is the sum of difficulties back to the genesis block |
| ChainInvariant.BestIsFirstHeaviest | core/src/blockchain/blockchain.rs:1007-1011 | over any run the best block is the first to have arrived among the heaviest |
| BlockChainStore.BlockChain.BlockInfo | core/src/blockchain/blockchain.rs:997-1049 | the location computed from the published columns is that of the specification |
| BlockChainStore.BlockChain.PrepareBlockHashesUpdate | core/src/blockchain/blockchain.rs:1199-1230 | the loop stages exactly the consecutive numbers of the enacted blocks and the new one |
| BlockChainStore.BlockChain.PrepareBlockDetailsUpdate | core/src/blockchain/blockchain.rs:1234-1261 | merged into the details, the update is the tree grown by the block; it names the block and its parent only |
| BlockChainStore.BlockChain.InsertBlock | core/src/blockchain/blockchain.rs:942-994 | stages every update of a new block, publishes none, and reports the round's route; a known block stages nothing |
| BlockChainStore.BlockChain.Commit | core/src/blockchain/blockchain.rs:1135-1183 | publishes whatever is staged on every column and leaves nothing staged |
| BlockChainStore.BlockChain.CommitAddresses | core/src/blockchain/blockchain.rs:1150-1169 | additions first, then removals |
| BlockChainStore.BlockChain.InsertAndCommit | core/src/blockchain/blockchain.rs:942-1183 | insert and commit together are exactly one round on every column, with its route |
| BlockChainStore.BlockChain.ImportBlock | core/src/blockchain/blockchain.rs:942-1183 | a round of the stored chain keeps it valid |
| BlockChainStore.BlockChain.BeaconList | core/src/blockchain/blockchain.rs:382-408 | answers with the number exactly when the block is known and the index names it at its number |
| NumberIndex.BeaconListExact | core/src/blockchain/blockchain.rs:382-408 | in a valid chain, for a known block no higher than best, it succeeds if and only if the block is an ancestor-or-self of best |
| NumberIndex.BeaconListAlwaysRightIff | core/src/blockchain/blockchain.rs:382-408 | after any run from the genesis block it is right about every known block if and only if best is as high as it has ever been |
| NumberIndex.LowerReorgGoesStale | core/src/blockchain/blockchain.rs:1199-1230 | every reorganisation to a lower block leaves the old best listed though it is not canonical |
| NumberIndex.StaleEntryExample | core/src/blockchain/blockchain.rs:1199-1230 | a concrete chain of four blocks on which this happens |
| NumberIndex.RunIndexed | core/src/blockchain/blockchain.rs:1199-1230 | over any run the indexed numbers are exactly those up to the highest best number so far |
| IndexTrace.RunTraced | core/src/blockchain/blockchain.rs:1199-1230 | over any run every entry of the number index, stale or not, is the ancestor of its number on the path of the latest best block that stood at least that high |
| IndexTrace.BlockHashRightIff | core/src/executor/fvm_externality.rs:197-236 | at any number `blockhash` is the real hash for the executing block if and only if the number is in the window, or the latest best block at least that high forks off above it; beyond the parent, if and only if no best block was ever that high |
| IndexTrace.RunBlockHashRightIff | core/src/executor/fvm_externality.rs:197-236 | the same after every run from the genesis block |
| IndexTrace.BlockHashExample | core/src/executor/fvm_externality.rs:222-236 | concrete runs after which, below the window and above the fork, one number is answered wrong and a stale one right |
| TransactionIndex.ReorgUpdateAt | core/src/blockchain/blockchain.rs:1276-1355 | a transaction is staged as an addition if it occurs in an entering block, else as a removal if it occurred in a leaving one, else not at all |
| TransactionIndex.RoundExact | core/src/blockchain/blockchain.rs:1276-1355 | from an exact index, a round leads to an exact one again if no transaction occurs twice on the new canonical path (and no map is exact for a path with repetitions) |
| TransactionIndex.RunExact | core/src/blockchain/blockchain.rs:1150-1169 | over every run without such repetitions, a hash maps to a place exactly when that canonical place holds it, re-enacted transactions included |
| TransactionLookup.ReorgLocatedIff | core/src/blockchain/blockchain.rs:1276-1355 | after a reorganisation every canonical transaction is found, and every entry names a canonical place, if and only if each transaction that stands below the fork and in a leaving block also stands in an entering one |
| TransactionLookup.RoundLocatedIff | core/src/blockchain/blockchain.rs:942-994 | the same for a whole round, whatever the block |
| TransactionLookup.RunLocated | core/src/blockchain/blockchain.rs:1150-1169 | over every run that loses nothing in that sense, every canonical transaction is found, repeated ones included |
| TransactionLookup.SiblingLoses | core/src/blockchain/blockchain.rs:1301-1355 | a transaction of the best block that also stands below it is canonical but not found once a heavier sibling without it is imported |
| TransactionLookup.LostPayment | core/src/blockchain/blockchain.rs:1301-1355 | a concrete run of three imports on which this happens |
| ImportRoutes.CalculateEnactedRetracted | core/src/client/client.rs:458-488 | the two results are exactly the blocks whose last verdict over the routes is enacted, and retracted |
| ImportRoutes.FoldedRoutesExact | core/src/client/client.rs:458-488 | over any run the folded sets are disjoint, and the final canonical blocks are the initial and enacted ones without the retracted ones |
| StateDatabase.StateDB.SyncCache | core/src/db/state_db.rs:240-348 | purges for the route, drains the local cache only for a new best block, lists the block by number, drops the oldest entry when full; nothing but the purge without a commit; keeps the LRU orderly and the list within its bound |
| StateDatabase.StateDB.PurgeCache | core/src/db/state_db.rs:249-298 | the two purge loops compute the specified purge, the wipe included |
| StateDatabase.AccountCache.PurgeOne | core/src/db/state_db.rs:254-292 | flags and forgets for a listed block, asks for the wipe for an unlisted one |
| StateDatabase.StateDB.IsAllowedIn | core/src/db/state_db.rs:407-450 | the loop over the modifications decides as the recursive walk of parents does |
| StateDatabase.StateDB.GetCachedAccount | core/src/db/state_db.rs:472-481 | answers exactly when the reader is allowed and the account is cached, and only refreshes the recency order |
| StateDatabase.StateDB.JournalUnder | core/src/db/state_db.rs:205-220 | records hash and number of the block being committed |
| StateDatabase.StateDB.AddToAccountCache | core/src/db/state_db.rs:458-464 | queues the entry last |
| AccountLru.DrainItemsDrained | core/src/db/state_db.rs:307-323 | every entry after draining into the bounded LRU is one of the queue's, or an older one of an account the queue does not modify |
| AccountLru.DrainItemHeld | core/src/db/state_db.rs:307-323 | a drained entry is in the LRU afterwards, with the new account if it was modified and the old one if it was there unmodified; no other entry changes; order and entries agree and stay within the capacity |
| AccountLru.LastDrainedAreHeld | core/src/db/state_db.rs:307-323 | after draining a queue of any length, its last entries, as many as the capacity, are all in the LRU |
| StateCoherence.ReaderSound | core/src/db/state_db.rs:407-481 | in a coherent cache, an account handed to a reader on any parent is that parent's account |
| StateCoherence.ReorgSound | core/src/db/state_db.rs:249-298 | the purge for a reorganisation keeps the flags sound for the new chain |
| StateCoherence.CommitBest | core/src/db/state_db.rs:299-347 | committing the new best block after the purge makes the cache coherent at the new tip |
| StateCoherence.CommitSide | core/src/db/state_db.rs:299-347 | committing a side block keeps the cache coherent at the old tip |
| StateCoherence.ResyncCoherent | core/src/client/client.rs:1841-1843 | the second sync for the same route keeps the cache coherent |
| StateCoherence.StepConsistent | core/src/db/state_db.rs:240-348 | every commit and every eviction keeps the node consistent |
| StateCoherence.CacheCoherence | core/src/db/state_db.rs:240-481 | at every moment of every run, a reader on any block gets nothing or that block's own account; a reader without a parent gets nothing |
| CacheService.TipAllowedIff | core/src/db/state_db.rs:407-450 | once a new best block is listed, a reader on it may use the cache for an account if and only if no block of its height or above modifies that account |
| CacheService.HighestTipServed | core/src/db/state_db.rs:407-481 | when the chain only grows, a reader on the new tip gets everything that is cached |
| CacheService.SideReaderAllowedIff | core/src/db/state_db.rs:407-450 | a reader on a side block whose parent is canonical may use the cache for an account if and only if neither the side block nor any block listed before the parent modifies it |
| CacheService.UnlistedRefused | core/src/db/state_db.rs:407-450 | a reader on a block that is not listed gets nothing from a non-empty list |
| CacheService.PurgeKeeps | core/src/db/state_db.rs:249-298 | a reorganisation over listed blocks keeps every cached account that none of them modifies, and the list |
| CacheService.UnlistedWipes | core/src/db/state_db.rs:270-298 | a retracted block that is not listed wipes the cache |
| CacheService.ListBounded | core/src/db/state_db.rs:302-346 | one insertion into a list within its bound stays within it and holds the block just committed |
| ClientNode.Client.CommitBlock | core/src/client/client.rs:619-690 | journal, insert, sync, commit and hash update together are one step of the coherence argument, with the round's route |
| ClientNode.Client.ImportSealedBlock | core/src/client/client.rs:1824-1843 | commit and second sync together are one step of the coherence argument, with the round's route and the hash update |
| ClientNode.Client.BuildLastHashes | core/src/client/client.rs:310-334 | answers from the cache when it starts at the parent, else walks the parents and replaces the cache |
| ClientNode.Client.WalkParents | core/src/client/client.rs:321-331 | the loop computes the walk of 256 hashes, zeros after the last known block |
| ClientNode.Client.UpdateLastHashes | core/src/client/client.rs:696-704 | a hit is pushed to the front, keeping 256 |
| LastHashes.UpdateHits | core/src/client/client.rs:696-704 | a block on top of the one the cache starts at comes first, so that the next question about it is answered from the cache |
| LastHashes.AnswersAreWalks | core/src/client/client.rs:310-334 | over any run of builds on known blocks and commits, every answer equals the uncached walk |
| LastHashes.HitRightIff | core/src/client/client.rs:310-334 | an answer cached earlier equals the later walk if and only if its block was known then or still is not |
| LastHashes.WindowIsLast256 | core/src/executor/fvm_externality.rs:197-203 | for any block number that can occur the window is the last 256 numbers |
| LastHashes.BlockHashInWindow | core/src/executor/fvm_externality.rs:197-236 | inside the window `blockhash` is the executing block's own ancestor at that height, side branches included |
| LastHashes.BlockHashBelowWindow | core/src/executor/fvm_externality.rs:197-236 | below the window, at heights up to the best block, it is that ancestor if and only if the height is below the fork with the canonical chain |
| WorldState.State.Checkpoint | core/src/state/mod.rs:236-236 | pushes the present as a snapshot |
| WorldState.State.DiscardCheckpoint | core/src/state/mod.rs:239-253 | keeps the present and drops the last snapshot only |
| WorldState.State.RevertToCheckpoint | core/src/state/mod.rs:256-282 | the present becomes the last snapshot if and only if no account it holds was killed since, and then the others stay; in a valid state none was |
| WorldState.State.InsertDirty | core/src/state/mod.rs:284-297 | changes the present at one address and no snapshot |
| WorldState.State.Update | core/src/state/mod.rs:1037-1113 | loading, noting and writing an account changes the present there and no snapshot |
| WorldState.UndoMerged | core/src/state/mod.rs:239-253 | merging two checkpoints, the lower one's records winning, undoes both at once |
| WorldState.UndoRecorded | core/src/state/mod.rs:299-308 | noting an account before its first change leaves the snapshot as it was |
| WorldState.RevertRestoresIff | core/src/state/account_state.rs:109-121 | reverting restores the snapshot if and only if no recorded account was killed since |
| WorldState.KilledStaysGone | core/src/state/account_state.rs:109-121 | a concrete account that does not come back |
| WorldState.State.AddBalance | core/src/state/mod.rs:542-561 | credits, creating the account if needed; a credit of nothing creates a missing account only if that is forced, and touches an existing one only if that is tracked |
| WorldState.State.SubBalance | core/src/state/mod.rs:564-579 | debits, creating the account if needed |
| WorldState.State.TransferBalance | core/src/state/mod.rs:582-594 | debit then credit, with exactly the touches of both |
| WorldState.State.IncrementNonce | core/src/state/mod.rs:596-598 | raises one nonce, snapshots untouched |
| WorldState.State.StoreValue | core/src/state/mod.rs:601-605 | writes one storage value, snapshots untouched |
| WorldState.State.StoreCode | core/src/state/mod.rs:614-623 | sets the code, snapshots untouched |
| WorldState.State.NewContract | core/src/state/mod.rs:321-329 | replaces whatever was at the address by a fresh account with the given balance and nonce offset |
| WorldState.State.KillAccount | core/src/state/mod.rs:332-335 | removes the account from the present, snapshots untouched |
| Executor.Executive.EnactResult | core/src/executor/fvm_exec.rs:674-693 | success keeps the present and accrues the substate, anything else goes back to the snapshot and drops it |
| Executor.Executive.Call | core/src/executor/fvm_exec.rs:335-489 | from any stack, ends with the same snapshots and the view, substate, status and gas of the frame semantics |
| Executor.Executive.RunCode | core/src/executor/fvm_exec.rs:367-463 | the code part of a call, with or without code |
| Executor.Executive.Create | core/src/executor/fvm_exec.rs:494-576 | the same for creations, collisions included |
| Executor.Executive.Endow | core/src/executor/fvm_exec.rs:536-569 | the creator pays, and the fresh account keeps the balance that was at the address |
| Executor.Executive.ExecVm | core/src/executor/fvm_exec.rs:284-331 | running the operations one after the other |
| Executor.Executive.Perform | core/src/executor/fvm_externality.rs:134-467 | every external operation does what the semantics says and keeps the snapshots |
| Executor.Executive.PerformSuicide | core/src/executor/fvm_externality.rs:424-446 | the balance goes to the refund address, the contract is marked |
| Executor.Executive.PerformCreate | core/src/executor/fvm_externality.rs:239-326 | a nested creation: address from the nonce, nonces raised on success only |
| Executor.Executive.Finalize | core/src/executor/fvm_exec.rs:582-670 | a transaction that does not fit is undone; else refund, fee and removals, and the stack is empty |
| Executor.Executive.Check | core/src/executor/fvm_exec.rs:134-215 | the rejections of `transact`, in order, with nothing changed |
| Executor.Executive.TransactIn | core/src/executor/fvm_exec.rs:134-282 | the result and final state are those of the semantics; after an error the state is untouched; the stack ends empty |
| ExecutionLaws.TransactConserves | core/src/executor/fvm_exec.rs:196-281 | for every tree of nested frames an accepted transaction leaves the sum of balances unchanged without suicides and never larger with them, and refund plus fee is gas times price |
| ExecutionLaws.FinalizeConserves | core/src/executor/fvm_exec.rs:592-646 | finalizing pays out exactly gas times price, and removals only take away |
| ExecutionLaws.CallConserves | core/src/executor/fvm_exec.rs:335-489 | a call frame, outermost or nested, conserves the sum |
| ExecutionLaws.CreateConserves | core/src/executor/fvm_exec.rs:494-576 | a creation frame conserves the sum |
| ExecutionLaws.DoConserves | core/src/executor/fvm_externality.rs:239-467 | every external operation conserves the sum, a suicide never increases it |
| BalanceLaws.NoBalanceOverflow | core/src/executor/fvm_exec.rs:134-282 | in every state a transaction passes through, in every nested frame and whatever becomes of it, no balance exceeds the sum of the balances at the start |
| BalanceLaws.FinalIsVisited | core/src/executor/fvm_exec.rs:582-670 | the final state of an accepted transaction is one of those states |
| FrameLaws.FailedCallRollsBack | core/src/executor/fvm_exec.rs:335-489 | of the frame semantics, which `Executor.Executive.Call` and `WorldState.State.RevertToCheckpoint` tie to the checkpoint stack: after a nested call that does not succeed the caller's touched set is unchanged if and only if its transfer touched nothing new; view and the rest of the substate are as at entry |
| FrameLaws.FailedTopCallRollsBack | core/src/executor/fvm_exec.rs:465-489 | the same for an outermost call, whose touched set is always unchanged; the rollback itself is in `Executor.Executive.Call` |
| FrameLaws.FailedCreateRollsBack | core/src/executor/fvm_exec.rs:494-576 | the same for a creation: unchanged if and only if the address was taken or the creator touched before; the rollback itself is in `Executor.Executive.Create` |
| FrameLaws.TouchedSurvivesFailure | core/src/executor/fvm_exec.rs:367-400 | a concrete failed call after which the touched set has grown |
| FrameLaws.ExecLogs | core/src/executor/fvm_externality.rs:412-422 | the logs of a frame are the emissions of it and its nested frames whose whole ancestry succeeded, in program order |
| FrameLaws.TransactLogs | core/src/executor/fvm_exec.rs:582-670 | the same for the receipt of a transaction |
| SenderLaws.TopSparesSender | core/src/executor/fvm_exec.rs:217-281 | the outermost frame leaves the sender its nonce, without code and not marked for removal |
| SenderLaws.NonceRisesByOne | core/src/executor/fvm_exec.rs:217-281 | an accepted transaction raises its sender's nonce by exactly one, whatever the nested execution did |
| SenderLaws.ValueIsAffordable | core/src/executor/fvm_exec.rs:465-486 | the value transfer after the outermost call can always be paid: the frame panics if and only if its code does |
| SenderLaws.GasUsedBounds | core/src/executor/fvm_exec.rs:592-669 | base cost, as far as the limit covers it, is at most the gas used, which is at most the limit and fits into the block |
| TransferLaws.PlainPayment | core/src/executor/fvm_exec.rs:134-282 | a call of an account without code: the payee gets the value, the author the fee for exactly the base cost, the sender pays both, and no other account changes |
| TransferLaws.SenderPaysAtMost | core/src/executor/fvm_exec.rs:217-281 | whatever its nested frames do and whoever the author is, a transaction costs its sender at most its value and its fee |
| TransferLaws.OthersLoseNothing | core/src/executor/fvm_exec.rs:217-281 | whatever its nested frames do, a transaction takes nothing from an account without code that has sent transactions but not this one, and leaves it its nonce and its lack of code |
| CallLaws.CallPays | core/src/executor/fvm_externality.rs:328-394 | a nested call panics if its value cannot be paid, moves it first if it is a plain or static call with one and moves nothing otherwise, runs code if and only if the code address has some, in the receiver's frame, and keeps all the gas if not |
| CallLaws.CallMovesValue | core/src/executor/fvm_externality.rs:365-372 | a plain or static call of another account without code: the sender has the value less, the receiver the value more, nothing else changes |
| CallLaws.CreateNeedsRoom | core/src/executor/fvm_exec.rs:494-535 | a creation fails at once and leaves no trace exactly where the address is taken, written out for both sides of the 0.4.0 fork; else its code runs there |
| CallLaws.CreationRaises | core/src/executor/fvm_externality.rs:286-315 | a creation that succeeds raises the nonces of the creator and of the new account and reports the address |
| CallLaws.NextAddressDiffers | core/src/executor/fvm_externality.rs:286-315 | whatever runs in between, the next creation by the same contract has another address |
| Effects.StorageShows | core/src/state/account/account.rs:785-829 | storage is read from the pending changes first, a removal included, then from what is committed |
| Effects.StoreReads | core/src/state/account/account.rs:831-847 | after a store the key reads the value if some byte of it is not zero and nothing otherwise; every other key and account reads as before |
| Effects.DoLeaves | core/src/executor/fvm_externality.rs:134-467 | every operation, with all the frames it opens, leaves balance, nonce, code and storage of every account as its surviving effects say, marks exactly the contracts that ended themselves and reports exactly those created |
| Effects.ExecLeaves | core/src/executor/fvm_exec.rs:284-331 | the same for every run of the virtual machine |
| Effects.LastWriteStays | core/src/state/mod.rs:601-605 | a key reads what the last surviving write to it left |
| Effects.WriteOutlivesCommit | core/src/state/mod.rs:791-835 | a commit keeps what is stored, except at a null account that is no builtin |
| TransactLaws.TransactDecides | core/src/executor/fvm_exec.rs:134-282 | the first of nonce, base gas, maximum gas, block gas and money that fails decides the error, with its values; if none fails the transaction is accepted if and only if nothing panics and the gas used fits; what a reverted run has left is given back, what a failed one has is not |
| TransactLaws.TransactLeaves | core/src/executor/fvm_exec.rs:196-281 | balance, nonce, code and storage of every account after an accepted transaction are what charge, surviving effects, refund, fee and removals make of those before it |
| NonceLaws.TransactNonce | core/src/executor/fvm_exec.rs:143-152 | an accepted transaction carries its sender's nonce, raises it by one, and raises that of no other account that never was a contract |
| Execution.CommittedReads | core/src/state/mod.rs:791-835 | committing between transactions changes no balance, nonce or code, leaves no change pending, and changes what a storage key reads exactly where a null account loses a change that mattered |
| Execution.CommittedHasStorage | core/src/state/mod.rs:791-835 | after it an account whose changes are kept has storage if and only if some key reads as set |
| BlockAssembly.ApplyAvm | core/src/executor/avm_exec.rs:295-348 | the accounting loop gives every transaction of a batch the receipt, or refusal, of its position |
| BlockAssembly.OpenBlock.GasUsed | core/src/block.rs:116-130 | the fold over the receipts is their sum |
| BlockAssembly.OpenBlock.PushTransaction | core/src/block.rs:339-390 | the new block and outcome are those of the specification for both virtual machines, the state committed after an accepted FastVM transaction |
| BlockAssembly.OpenBlock.ApplyAvmBatchTransactions | core/src/block.rs:445-490 | records the results in order up to the first refusal |
| BlockAssembly.OpenBlock.PushTransactions | core/src/block.rs:400-437 | the batching loop computes the specified grouping |
| PushLaws.FvmPushDecides | core/src/block.rs:339-390 | a FastVM transaction is taken if and only if it is new and meets every condition, written out; its receipt says what it used and charges its price; one that is not taken leaves the block as it was |
| PushLaws.AvmPushDecides | core/src/block.rs:339-390 | an AVM transaction is taken if and only if it is new and either not rejected and within the limit or the historical exception; receipt and state accordingly |
| PushLaws.BatchDecides | core/src/block.rs:445-490 | a batch without the exception is taken whole if and only if none of it is in the block, none is rejected and all their gas together fits; each receipt says what its transaction used |
| BlockEffects.PushOneLeaves | core/src/block.rs:353-375 | after a push every account is as the transaction's effects and the commit say; one that is refused leaves the whole block unchanged |
| BlockEffects.BlockLeaves | core/src/block.rs:339-437 | the same for a whole block of FastVM transactions: its state is the one they left, in order |
| BlockEffects.AvmBlockLeaves | core/src/block.rs:445-490 | a block of AVM transactions has the state the AVM left |
| BlockEffects.PushedPayment | core/src/block.rs:339-390 | a plain payment in a block: payee, author and sender have the right balances and the sender one nonce more; all other balances and nonces, all code and all storage read as before |
| NonceLaws.BlockNonces | core/src/block.rs:339-437 | in a block the accepted transactions of a sender carry consecutive nonces from its own on, and its nonce rises by their number |
| NonceLaws.NoReplay | core/src/block.rs:339-437 | no two accepted transactions of one sender carry the same nonce, so none is accepted twice |
| AssemblyLaws.PushAllInOrder | core/src/block.rs:400-437 | the block gains the input in order, all of it if and only if the outcome is a success, else a proper beginning; receipts, hashes and fee stay aligned, each receipt's fee is its gas at its transaction's price, and the header fee is their sum |
| AssemblyLaws.PushOneWithinIff | core/src/state/mod.rs:1117-1123 | a push keeps within the gas limit except exactly when the exception accepts a transaction that does not fit |
| AssemblyLaws.PushAllWithin | core/src/block.rs:339-490 | without that transaction no sequence of pushes exceeds the gas limit |
| AssemblyLaws.LimitBindsIff | core/src/state/mod.rs:1117-1123 | the limit binds every filling of a block of a given height if and only if it is not one of the three |
| AssemblyLaws.ExceptionOverruns | core/src/state/mod.rs:683-741 | at those heights, whatever the limit and the block so far, the exceptional transaction is accepted at its full gas though rejected, and exceeds the limit if it does not fit |
| AssemblyLaws.PushEachDistinct | core/src/block.rs:339-352 | pushed one by one, no transaction gets in twice |
| AssemblyLaws.BatchDistinctIff | core/src/block.rs:445-462 | an accepted batch brings no repetition if and only if it has none itself |
| AssemblyLaws.BatchIsOneByOne | core/src/block.rs:391-399 | if the AVM runs batches in turn, a batch of distinct new transactions succeeds exactly when pushing them one by one does, with the same block |
| BlockBalances.BlockConserves | core/src/block.rs:339-490 | however a block is filled and wherever it stops, the sum of all balances does not grow, and is unchanged without suicides, provided the AVM, where it is used, keeps the sum |
| GasLimit.BuiltIsAcceptedIff | core/src/verification/mod.rs:381-390 | a built limit passes the check against the parent, whatever the parent used, if and only if the parent's limit is outside the targets or below 2^61 |
| GasLimit.BuiltIsEnoughIff | core/src/verification/mod.rs:329-336 | it passes the check against the minimum, whatever the parent used, if and only if one downward step (upward below the floor) does |
| GasLimit.RangeIsSafeIff | core/src/block.rs:274-284 | with a configured range, no block built on a parent from the minimum up to 2^61, whatever it used, falls below the minimum, if and only if the floor, raised to the minimum, leaves room for one step down or is itself beyond 2^61 |
| GasLimit.DefaultRangeIsSafe | aion/params.rs:158-167 | the range of 15 to 20 million that a node uses unless told otherwise is safe on the main network |
| GasLimit.LowFloorUndercuts | core/src/block.rs:274-284 | a floor configured no higher than the minimum is not safe: a block on an empty parent at the minimum falls below it, on the main network to 1048975 |
| GasLimit.MiddleStep | core/src/machine.rs:128-152 | between the targets the limit moves by at most limit/divisor, and after an empty parent by exactly that much down |
| GasLimit.MiddleDirection | core/src/machine.rs:128-152 | between the targets the limit does not rise after a parent less than three quarters full and does not fall otherwise |
| GasLimit.MiddleExact | core/src/machine.rs:128-152 | between the targets the step is the distance of the limit from four thirds of the gas used, divided by the divisor and rounded to zero |
| GasLimit.MiddleMonotone | core/src/machine.rs:128-152 | the more the parent used the higher the next limit, strictly where the uses differ by enough |
| GasLimit.FullParentRises | core/src/machine.rs:128-152 | a full parent raises the limit by a third of it over the divisor |
| GasLimit.TargetsFit | core/src/block.rs:274-276 | the floor is the configured one raised to the minimum, the ceiling the configured one raised to the floor |
| GasLimit.BandHolds | core/src/machine.rs:128-152 | whatever the blocks use, a chain inside the band from floor minus floor/divisor to ceil plus ceil/divisor stays inside |
| GasLimit.ClimbsToFloor | core/src/machine.rs:128-152 | a limit of at least the divisor reaches the floor within as many blocks as it is below it |
| Logs.FindLogs | core/src/blockchain/blockchain.rs:459-540 | the reverse, chunked enumeration returns the last `limit` matching logs of a plain forward scan; stated without the scan, it is the end of the list that holds every matching log of every listed block once per listing, by block and index |
| Logs.AnswersMean | core/src/blockchain/blockchain.rs:459-540 | of such an answer: every entry matches and stands in a stored, listed block at the place its indices name; below the limit nothing is missing; it is in order, and what the limit omits comes before all that is returned |
| Logs.EnumerateLogs | core/src/blockchain/blockchain.rs:470-538 | stopping at a chunk boundary loses nothing below the limit |
| Logs.BlockLogsReversed | core/src/blockchain/blockchain.rs:484-532 | the decreasing indices within a block are those of the forward scan |
| Logs.DescendingSorts | core/src/blockchain/blockchain.rs:468-469 | the order of the blocks is a descending permutation |
| Logs.ForwardPositions | core/src/blockchain/blockchain.rs:484-532 | in the forward scan each log's in-block index is its position, and its transaction and in-transaction index locate it |
| Logs.TransactionReceiptLogs | core/src/client/client.rs:1911-1973 | the numbering of a single receipt stands in the scan of its block at the place it claims |
| CacheManagement.CacheManager.NoteUsed | core/src/cache_manager.rs:57-69 | the id ends up in the first bucket and in no other; nothing else moves |
| CacheManagement.CacheManager.CollectGarbage | core/src/cache_manager.rs:74-90 | hands over the oldest buckets, at least one and until the size is below the maximum, and drops exactly what it hands over; eight disjoint buckets remain |
| CacheManagement.CacheManager.RotateCacheIfNeeded | core/src/cache_manager.rs:92-104 | exactly when the first bucket is over its share, the oldest bucket comes to the front; no id is lost |
| CacheLayer.CacheTransparent | core/src/blockchain/blockchain.rs:283-359 | after any interleaving of lookups, rounds and collections every lookup answers as the bare database would |
| CacheLayer.RoundCoherent | core/src/blockchain/blockchain.rs:1052-1183 | a round keeps everything in memory equal to the database |
| CacheLayer.CachedChain.LookupExtra | core/src/db/db.rs:208-231 | details, numbers, addresses and receipts: the bare database's answer, the cache filled on a miss |
| CacheLayer.CachedChain.LookupContent | core/src/blockchain/blockchain.rs:283-359 | headers and bodies: the same, with the best block answered from memory |
| CacheLayer.CachedChain.Round | core/src/blockchain/blockchain.rs:1052-1183 | prepare, write and commit together are one round; everything cached stays under the manager, so that it can be collected |
| CacheLayer.CachedChain.CollectGarbage | core/src/blockchain/blockchain.rs:1459-1514 | exactly what the manager stops tracking leaves the caches |
| CacheLayer.PrepareUpdate | core/src/blockchain/blockchain.rs:1052-1132 | everything is in the batch, receipts have left their cache, the rest is staged |
| CacheLayer.ExtendWithCache | core/src/db/db.rs:137-163 | overwriting: batch and cache both gain all the values |
| CacheLayer.ExtendRemovingCached | core/src/db/db.rs:137-163 | removing: the batch gains all the values, the cache loses their keys |
| CacheLayer.ExtendWithOptionCache | core/src/db/db.rs:165-196 | puts and deletions reach batch and cache |
| Repair.CheckDb | core/src/service.rs:204-242 | terminates, and returns the block just above the highest one whose last hundred blocks are intact, if that is not the start |
| Repair.WalkWindow | core/src/service.rs:217-240 | the loop finds the first block of the window that is not intact |
| Repair.BlockDatabase.CorrectDb | core/src/service.rs:248-300 | performs the specified repair, or writes nothing when it panics |
| Repair.RepairSettles | core/src/service.rs:248-300 | the new best is an ancestor-or-self with header and body of each of the last hundred blocks behind it, no higher one has that, and the state era follows it |
| Repair.RepairIdempotent | core/src/service.rs:248-300 | repairing again changes nothing |
| Repair.RepairFailsIff | core/src/service.rs:271-276 | the repair gives up if and only if it falls back to the genesis block and that header is lost |
| Repair.RepairGivesUp | core/src/service.rs:271-276 | a concrete database on which it does |
| RepairRecovery.RepairActsIff | core/src/service.rs:204-242 | for columns that hold a chain without some headers and bodies, the repair changes nothing if and only if none of the last hundred blocks, the genesis aside, is among the lost |
| RepairRecovery.RepairRestarts | core/src/service.rs:248-300 | where the repair acts, the block just above the one it resets to is lost and the hundred blocks up to it are kept; the columns then hold the damaged chain with that block best and its list of children empty |
| RepairRecovery.ReimportRestores | core/src/blockchain/blockchain.rs:942-994 | whatever headers and bodies are lost, after a restart at any block of the canonical path, importing the dropped blocks again in order restores number index, details but for lists of children, and exactly the headers and bodies of these blocks; best is the same again if and only if none was dropped or the best block weighs something |
| RepairRecovery.ReachableBestWeighs | core/src/blockchain/blockchain.rs:1007-1011 | after every run the best block is the genesis block or weighs something |
| RepairRecovery.RecoveredNeedsNoRepair | core/src/service.rs:204-300 | once the dropped blocks are in again the repair finds nothing to do |
| RepairRecovery.RepairThenReimport | core/src/service.rs:248-300 | all of this for every run, every loss and every repair that acts and does not give up |
| Codec.HeadRoundTrip | p2p/src/msg.rs:26-31 | eight bytes decode to a head if and only if they are its encoding |
| Codec.HeadLayout | p2p/src/codec.rs:38-48 | the eight bytes written out: version, control, action and length, the most significant byte first |
| Codec.DecodeIff | p2p/src/codec.rs:54-90 | decoding yields a message and leaves a rest if and only if the message is acceptable and its encoding came first |
| Codec.RoundTripIff | p2p/src/codec.rs:38-90 | encode then decode is the identity, whatever follows, exactly if the version is at most 2, the control at most 1 and the length true |
| Codec.IncompleteWaits | p2p/src/codec.rs:54-90 | a proper beginning of an acceptable message is kept whole |
| Codec.InvalidHeadDropsAll | p2p/src/codec.rs:76-79 | the buffer is emptied without a message exactly for an invalid head |
| Codec.Buffer.EncodeItem | p2p/src/codec.rs:38-48 | appends the encoding |
| Codec.Buffer.DecodeItem | p2p/src/codec.rs:54-90 | consumes exactly what the specification says |
| Codec.StreamDelivers | p2p/src/codec.rs:38-90 | however a stream of acceptable messages is cut, after every chunk exactly the completed messages have been delivered in order and the beginning of the next one is waiting |
| Codec.WholeStreamDelivered | p2p/src/codec.rs:38-90 | once all bytes are there, all messages are delivered and nothing is left |
| Codec.CutDoesNotMatterIff | p2p/src/codec.rs:54-90 | a stream is received the same however it is cut if and only if decoding it reaches no invalid head with more behind it |
| Codec.BadHeadDependsOnCut | p2p/src/codec.rs:76-79 | a concrete stream: after an invalid head, one chunk loses the next message and two chunks deliver it |
| StateDiff.AccountRoundTripIff | core/src/pod_account.rs:164-245 | applying the difference of two accounts gives the second if and only if code is known or unchanged and no empty storage value comes or goes |
| StateDiff.StateRoundTripIff | core/src/pod_state.rs:84-96 | the same for whole states |
| StateDiff.EmptyValueIsLost | core/src/pod_state.rs:84-96 | for every address a state whose new empty storage value is not rebuilt |
| StateDiff.DiffBack | core/src/pod_state.rs:84-96 | the difference back is the difference there read backwards, old values included |
| StateDiff.UndoIff | core/src/pod_state.rs:84-96 | so a difference also undoes itself, under the same condition the other way round |

## Assumptions

- A header's number is its parent's plus one, and a hash stands for one block.
- A block's list of modified accounts covers every difference from its parent's state, and the queue of
  the database that commits it holds that block's accounts.
- A created address differs from its creator; contracts make their own calls only; the transaction
  sender has no code; the FastVM returns no more gas than it was given (only where stated).
- Integers are unbounded, except in `GasLimit` and `Codec`; balances cannot overflow while the total
  supply fits (`BalanceLaws.NoBalanceOverflow`).
- Insert, write and commit of a block are one step for readers.

## Left out

- RLP, compression, hashing, the trie and the journal database: values and maps stand for them.
- Bloom groups and `blocks_with_bloom`: they rest on a library outside the repository.
- The FastVM and AVM interpreters, their threads and stacks: parameters here.
- Builtin contracts: their balance effects lie outside the modelled files.
- Store failures inside `call` and `create` (core/src/executor/fvm_exec.rs:351-365 and 551-563): the backing store is taken to be sound.
- NonceLaws.BlockNonces: blocks whose transactions all go to the FastVM, because what the AVM does to accounts is a parameter.
- BlockEffects.BlockLeaves: the same.
- Executor.Executive.TransactIn: requires that the transaction does not panic; the unaffordable nested transfer on which the code asserts is an outcome of the semantics, and the method is specified where it does not occur.
- AVM alias sets and lookups by alias hash: a side channel in the raw database.
- `StateDB::force_update` and the closure of `get_cached`: they bypass the commit protocol.
- The trie writes of `State::commit`, the filling of the state cache on reads, and the account's empty-but-commit flag: they change nothing that can be read; what `commit` does to storage changes is modelled.
- BlockChainStore.BlockChain.InsertBlock: stages no receipts and no bloom groups; receipts reach the batch and leave their cache in `CacheLayer.PrepareUpdate`.
- LastHashes.BlockHashBelowWindow: heights up to the best block only, because there the fork with the canonical chain decides; `IndexTrace.BlockHashRightIff` has every number.
- BalanceLaws.NoBalanceOverflow: the visited states are those of the frame semantics; `Executor.Executive` is tied to it at the ends of frames and operations, not between two writes of one operation.
- Logs.TransactionReceiptLogs: states the numbering of the logs only; cumulative gas and the other receipt fields are copied.
- CacheService.ListBounded: one insertion; that the list stays within its bound over all calls is the class invariant `StateDatabase.AccountCache.Valid`.
- `revert_block`, `prune_ancient`, `gas_price_corpus`: offline tools and estimates without a traversal specification.
- Seal, difficulty and signature verification: other engines decide them.
- BlockAssembly.OpenBlock.PushTransaction: which transactions go to the AVM is a parameter, and the AVM's own changes to accounts are one too.
- BlockAssembly.OpenBlock.PushTransactions: a batch is never used while building a block, as the code demands, so batches are modelled for validation only.
- CacheLayer.CachedChain.Round: lookups between the database write and the commit are not modelled; a round is one step.
- Logs.FindLogs: the blocks of a chunk are visited in parallel there and collected in order; here they are visited in order.
- Repair.BlockDatabase.CorrectDb: the details of the best block and its ancestors are taken to be stored; the code panics otherwise.
- Codec.Buffer.DecodeItem: the deserializer does not fail on eight bytes, so its error branch is absent.
- GasLimit.BuiltIsAcceptedIff: an overflow of the signed arithmetic counts as a failure; a build without overflow checks would wrap instead.
- Fine-grained lock races, RPC, configuration, networking, wallets and mining control: outside the model.
