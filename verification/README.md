# A verified model of the node's core

This project models the parts of a Bitcoin-derived node whose correctness is
not visible from any single function, in Dafny 4.11, and proves what they
promise. `dafny verify dfyconfig.toml` checks everything. Each module begins
with a comment that names its main results.

- **Chain state**: `Coins`, `Utxo`, `Supply`, `CoinsViews`, `Validation`,
  `ChainState`. The record of a transaction's unspent outputs, connecting and
  disconnecting blocks on stacked cache layers, and runs of a node over a store
  and undo files (`UndoFiles`, `UndoLoss`) that hold what `DiskForm` says comes
  back from disk. As long as amounts are storable, the view shows the replay of the active
  chain, undo data restores it, and the total never exceeds the subsidies;
  lemmas give the runs in which a larger amount or a negative version is lost.
- **Choosing a chain**: `BlockTree`, `Activation`, `BestChain`. Chains, locators
  and forks in a block tree that grows as blocks arrive, the reorganisation loop
  with the exact condition under which it ends, and what a node shows that
  follows it.
- **Script check queue**: `CheckQueue` (the critical sections as methods),
  `CheckQueueRuns` (all interleavings as a state machine).
- **Merkle trees**: `Merkle`, `PartialMerkle` (BIP 37), with hashes as terms.
- **Address manager**: `AddrMan` (five indexes under every operation),
  `AddrManDisk` (writing and reading it).
- **NeoScrypt**: `FastKdf`, `Blake2s`, `BlockMix`, for any compression and
  mixing functions.
- **Encodings**: `Base58` on `Radix`, `CoinsCodec` with `VarInts` and `Amounts`,
  `Compact`; `Powers`, `Bytes` and `Options` hold what several modules use.

## How the source is modelled

- Hashes of transactions and blocks are opaque identifiers, with zero as the
  null hash; Merkle hashes are terms, so hashing a pair is injective.
- Signature and script checks, signature operation counts, proof of work, the
  subsidy and the bucket hashes are given: fields of a block or functions
  handed to the model. Random numbers are parameters or free choices, clocks
  are parameters.
- A pruned record of outputs counts as absent, as in `CCoins::operator==`.
- Amounts are 64-bit and every sum wraps explicitly. `MAX_MONEY` is written in
  the source as a product that overflows 64 bits; the model computes the value
  that is really compared with, under which every non-negative amount is in
  range.
- An object whose methods update fields is a class; its methods are specified
  by functions on values, about which the theorems are lemmas.

## Where code and documentation differ

- `src/main.h:574` promises at most 2N - 1 flag bits. `PartialMerkle.FlagBits`
  gives the exact number and the condition; `TooManyFlagBits` is a
  counterexample.
- BLAKE2s feeds a key block even for an empty key and never touches the second
  counter word; `Blake2s.SameAsRfc` says exactly when it still agrees with
  RFC 7693.
- `src/core.h:302` calls the compressed output a compact form of the output, but
  compressing an amount of 2^64 / 9 or more may overflow, and then it comes back
  as another one (`Amounts.SurvivesExactly`, `DiskForm.AmountIsLost`). With the
  money range in use such amounts are not refused, so a node can show more than
  it paid out (`ChainState.WrittenInflation`). `ChainState.Node.Run` gives the
  conditions under which it does not.
- `src/main.cpp:2007` says that negative versions are not serialized; they come
  back as their last seven bits (`VarInts.ReadBack`), and no consensus rule
  refuses them. `ChainState.Node.DisconnectTip` shows that this is harmless for
  disconnecting.

## Model

| member | source | states |
|---|---|---|
| `Coins.Cleanup` | src/coins.h:93-98 | What is left is the shortest prefix after which every output is spent |
| `Coins.ClearUnspendable` | src/coins.h:100-106 | Exactly the provably unspendable outputs become null, then trailing nulls go |
| `Coins.FromTxWellFormed` | src/coins.h:85-87 | The record of a transaction with non-null outputs is in the cleaned form that all other results rely on |
| `Coins.ClearIdempotent` | src/coins.h:100-106 | Clearing the record of a transaction again changes nothing, as DisconnectBlock relies on |
| `Coins.Spend` | src/coins.cpp:30-44 | Fails exactly on an output that is missing or spent and then changes nothing; otherwise record and undo data are the specified ones |
| `Coins.SpentProperties` | src/coins.cpp:30-44 | Spending makes that one output unavailable and no other, keeps the other outputs, and keeps coinbase flag, height and version |
| `Coins.SpentWellFormed` | src/coins.cpp:30-44 | Spending keeps the cleaned form |
| `Coins.SpendRestored` | src/main.cpp:2026-2043 | Restoring an output from the undo data of its spend gives back the record before the spend and reports clean, also when it was the last output and the record had gone; record and undo data may have been on disk, and only the version may differ then |
| `Coins.ValueUpdate` | src/coins.cpp:30-44 | Nulling one output lowers the worth of the record by exactly that output's value |
| `Coins.ValueCleared` | src/coins.h:100-106 | Clearing lowers the worth of the outputs by exactly the unspendable ones |
| `Utxo.SpendAllProperties` | src/main.cpp:1840-1848 | Spending a transaction's distinct available inputs makes exactly those outputs unavailable |
| `Utxo.SpendNeverFails` | src/main.cpp:1844-1845 | assert(ret) in UpdateCoins cannot fire: after any number of a transaction's distinct inputs are spent, the next is still available |
| `Utxo.RestoreAllInverse` | src/main.cpp:2022-2044 | Restoring inputs last to first undoes spending them first to last, cleanly, on any view and from any undo data that have lost no more than fully spent records and negative versions |
| `Utxo.RemoveOutputsInverse` | src/main.cpp:1999-2016 | Removing a transaction's outputs leaves the set before they were added, and finds them as the block says although a negative version may have changed on disk |
| `Utxo.UncorrectedVersionDiffers` | src/main.cpp:2006-2012 | What the correction of the version is for: outputs with a negative version that have been on disk differ from the block, and still count as clean |
| `Utxo.UndoTxInverse` | src/main.cpp:1995-2046 | Undoing one transaction inverts applying it, cleanly, on any such view and from any such undo data |
| `Utxo.DisconnectInverse` | src/main.cpp:1993-2047 | Undoing all transactions of a connectable block, last to first, on any view and from any undo data that have lost no more than fully spent records and negative versions, is clean and shows the coins before the block: spends within the block, fully spent parents and unspendable outputs included |
| `Supply.SpendAllTotal` | src/coins.cpp:149-159 | Spending a transaction's inputs lowers the total unspent value by their sum |
| `Supply.ApplyTxTotal` | src/main.cpp:1836-1853 | Applying a transaction changes the total by its outputs minus its inputs minus its unspendable outputs |
| `Supply.AppliedTotal` | src/main.cpp:2159-2201 | Connecting a block changes the total by exactly coinbase outputs minus fees minus unspendable outputs, and the fees are not negative |
| `Supply.SupplyBound` | src/main.cpp:2210-2214 | An accepted block raises the total by at most its subsidy |
| `Supply.CoinbaseStays` | src/main.cpp:1900-1909 | No block can spend its own coinbase: it is intact when the block is connected |
| `Supply.FeesWithinTotal` | src/main.cpp:2201-2201 | The fees of a block are paid from what was unspent before it |
| `Supply.OutputsBounded` | src/main.cpp:2159-2214 | No transaction of an accepted block pays more than the total before the block and its subsidy together |
| `CoinsViews.CoinsView.GetCoins` | src/coins.cpp:74-84 | Finds what the stack of layers shows; filling the cache changes nothing visible |
| `CoinsViews.CoinsView.HaveCoins` | src/coins.cpp:86-111 | Answers for the overlaid map without changing what is visible |
| `CoinsViews.CoinsView.SetCoins` | src/coins.cpp:104-107 | The visible map is updated at that key only; the layers below do not change |
| `CoinsViews.CoinsView.GetBestBlock` | src/coins.cpp:113-117 | The first best block set in the stack, cached without visible change |
| `CoinsViews.CoinsView.BatchWrite` | src/coins.cpp:124-129 | All entries of the batch become visible, and its best block; in the store, fully spent records are erased and the others are held in their stored form (src/txdb.cpp:15-20) |
| `CoinsViews.CoinsView.Flush` | src/coins.cpp:131-136 | The base then shows what the layer showed, a store the stored form of what was written; the best block survives exactly if this layer has one or the base has none of its own to lose |
| `CoinsViews.StoredShows` | src/txdb.cpp:56-67 | The store shows a batch written exactly if every record that is not fully spent is cleaned and has storable amounts; and shows it up to the last version exactly if no such record has a negative one |
| `CoinsViews.CoinsView.HaveInputs` | src/coins.cpp:161-180 | True exactly if every input of a transaction other than a coinbase is available |
| `CoinsViews.CoinsView.GetValueIn` | src/coins.cpp:149-159 | The wrapped sum of the available inputs' values |
| `Validation.GetValueOut` | src/core.cpp:110-120 | The sum of the outputs, or the error exactly if an output or a partial sum leaves the money range; wrapping never gets past the test |
| `Validation.HasDuplicates` | src/main.cpp:828-835 | Detects repeated inputs exactly |
| `Validation.CheckTransaction` | src/main.cpp:797-852 | Accepts exactly the transactions with inputs and outputs, all amounts and sums in range, no repeated input and null inputs only in a coinbase |
| `Validation.CheckBlock` | src/main.cpp:2868-2926 | Accepts exactly if its transactions are well formed, the coinbase is first and only there, and the txids are distinct (other rules enter as one given verdict) |
| `Validation.CheckInputs` | src/main.cpp:1880-1934 | Accepts exactly if inputs are available, mature, in range and worth at least the outputs; so no fee is negative |
| `Validation.UpdateCoins` | src/main.cpp:1836-1853 | The view becomes the applied one and the undo data the specified one; no assertion fails |
| `Validation.WouldOverwrite` | src/main.cpp:2131-2140 | Detects exactly a transaction that would overwrite one with unspent outputs (BIP 30) |
| `Validation.ConnectTxs` | src/main.cpp:2153-2201 | Connects all transactions or stops at the first bad one; the fees are the specified sum without wrapping going unnoticed |
| `Validation.ConnectBlock` | src/main.cpp:2094-2260 | Accepts exactly the blocks that meet all rules on the view; then the view shows the block applied, the undo data is that of the specification and the best block is the block |
| `Validation.UnspendInput` | src/main.cpp:2022-2044 | Restores one output as specified and says whether that was clean |
| `Validation.DisconnectBlock` | src/main.cpp:1972-2059 | Fails exactly if undo data is missing, cannot be read or does not match, for any block; otherwise the view shows the undone set, clean as specified, and the best block is the parent |
| `ChainState.ConnectOnView` | src/main.cpp:2370-2389 | On a view that shows the replay of a chain, up to negative versions that have been on disk, a block is accepted exactly if it extends the chain validly, and then the view shows the longer replay and the undo data that of the replay |
| `ChainState.DisconnectOnView` | src/main.cpp:2328-2343 | On such a view, disconnecting the last block with such undo data is clean and shows the replay of the parent chain |
| `ChainState.ChainSupply` | src/main.cpp:2210-2214 | The total unspent value after any valid chain is at most the sum of its subsidies |
| `ChainState.Node.WriteChainState` | src/main.cpp:2264-2281 | A view of the active chain still shows it after its cache has gone to the store exactly if all amounts in the cache are storable |
| `ChainState.Node.ConnectTip` | src/main.cpp:2370-2415 | A block becomes the tip exactly if it is valid on the view, so on a view of the active chain exactly if it is valid on its replay; a refused block changes nothing; undo data is recorded so that it can be read back if the block's outputs are storable |
| `ChainState.Node.DisconnectTip` | src/main.cpp:2328-2367 | The tip goes exactly if its undo data is there, passes its checksum, fits and undoes the block cleanly, else nothing changes; from a view of the chain it goes and leaves a view of the parent chain exactly if every amount in its undo data is storable, with negative versions or without |
| `ChainState.Node.Run` | src/main.cpp:2328-2415 | After any run of blocks arriving, refused, undone and caches written, if all spendable outputs offered are storable or all subsidies together are below a ninth of 2^64: the view shows the replay of the active chain and is worth at most the subsidies; it is the replay itself if the chain has no negative version |
| `ChainState.Node.NoInflation` | src/main.cpp:2210-2214 | What a view of the active chain shows as unspent is worth at most the subsidies of the chain |
| `ChainState.StoredView` | src/txdb.cpp:56-67 | Writing a cache over a view of a chain keeps showing the chain exactly if all amounts in the cache are storable |
| `ChainState.SmallChainKeepable` | src/main.cpp:2210-2214 | On a chain of accepted blocks whose subsidies are below a ninth of 2^64, every output of every block is storable |
| `ChainState.WrittenInflation` | src/main.cpp:2264-2281 | Without that the store can create money: an accepted block with one coinbase output of 2050248068783227219 is shown as 6098383710548170000 after writing, more than its subsidy |
| `ChainState.WrittenAmount` | src/core.h:302-326 | After writing a block with one coinbase output, what is shown is worth exactly the amount that comes back |
| `ChainState.WrittenVersion` | src/main.cpp:2006-2010 | After writing, a coinbase with any negative version is shown with that version modulo 128, 127 for -1; its block is still disconnected cleanly |
| `UndoFiles.UndoFileRead` | src/main.h:392-450 | Undo data whose amounts are storable passes its checksum when read, whatever the hash, and is what was written up to negative versions |
| `UndoLoss.DisconnectExactly` | src/main.cpp:1993-2047 | Undoing a connected block with what is read of its undo data is clean and shows the coins before the block exactly if every amount in the undo data is storable |
| `UndoLoss.UndoTxsLoses` | src/main.cpp:1993-2047 | One wrong amount anywhere in the undo data is never put right: it is still there in the end, or noticed when the outputs of the block are compared |
| `BlockTree.Chain.SetTip` | src/main.cpp:392-403 | The chain is exactly the ancestor list of the new tip although the walk stops early; the result is the last entry shared with the old chain |
| `BlockTree.LocatorDescends` | src/main.cpp:405-430 | Locator heights strictly descend |
| `BlockTree.LocatorEndsAtGenesis` | src/main.cpp:414-416 | Every locator ends with the genesis block |
| `BlockTree.LocatorLength` | src/main.cpp:417-427 | A locator from height h has at most 12 + log2(h) entries |
| `BlockTree.LocatorSteps` | src/main.cpp:405-430 | The 32-bit step overflows exactly from a start height of 2^30 + 10 on, and no step that is taken has overflowed below a height of 2^31 + 10 |
| `BlockTree.Chain.GetLocator` | src/main.cpp:405-430 | Lists the ancestors of the starting entry at exactly those heights, for entries on or off the chain |
| `BlockTree.Chain.FindFork` | src/main.cpp:432-444 | The first locator entry on this chain, or the genesis block if there is none |
| `BlockTree.Chain.FindForkOfPeer` | src/main.cpp:432-444 | From the locator of a peer, whose chain may hold blocks this node does not know, finds an entry on both chains; every shared entry lies below the locator entry before it |
| `Activation.LessIsTotalOrder` | src/main.cpp:119-138 | The comparator is a strict total order |
| `Activation.ChainManager.MarkChildren` | src/main.cpp:2445-2450 | A candidate with a failed ancestor ends up marked and off the candidates; only entries with a violating ancestor are ever marked |
| `Activation.ChainManager.MarkViolation` | src/main.cpp:1798-1815 | Marks the block failed, removes it from the candidates and keeps the invariant on marks |
| `Activation.ChainManager.FindMostWorkChain` | src/main.cpp:2419-2468 | No candidate ranks above the most-work tip; no entry on its chain is marked failed, unless it is an old tip kept for one round that this very search has marked |
| `Activation.ChainManager.DisconnectToFork` | src/main.cpp:2488-2492 | Disconnects until the active chain is part of the most-work chain |
| `Activation.ChainManager.ConnectAll` | src/main.cpp:2494-2510 | Connects up to the most-work tip, or stops at the first block that does not connect: a violation marks one more block, a refusal as possibly damaged and a system error change no mark |
| `Activation.ChainManager.Reject` | src/main.cpp:2498-2503 | A violating block is marked, and the best invalid work is at least that of the chain it spoils |
| `Activation.ChainManager.Round` | src/main.cpp:2481-2511 | A pass that has to be repeated has marked at least one more block, or ended at a block refused without a mark, and then it will be repeated unchanged; how any other pass ends is decided by the best received block whose chain breaks no rule, unless a disconnect fails |
| `Activation.ChainManager.ActivateBestChain` | src/main.cpp:2477-2523 | On success active and most-work chain are equal, no active block is marked failed, and no received block whose chain breaks no rule ranks above the tip; where every block that can be active can be disconnected, the loop does not end exactly if the first block that does not connect on the chain of the best such block is refused as possibly damaged |
| `Activation.ChainManager.RepeatRounds` | src/main.cpp:2494-2511 | After a round that ended at a block refused without a mark, any number of further rounds end in the same way and change neither marks, candidates, best invalid block, active nor most-work chain |
| `Activation.EndlessActivation` | src/main.cpp:2477-2511 | One block above the genesis block that is refused as possibly damaged: activation does not end |
| `Activation.ChainManager.Insert` | src/main.cpp:2533-2554 | A new entry hangs above its predecessor with the sum of the work and the next sequence number, is a candidate, and keeps every invariant of chains, marks and candidates |
| `Activation.ChainManager.AddToBlockIndex` | src/main.cpp:2525-2560 | A known block is refused without change; after a new one the best chain is active unless a system error stops activation or it does not end |
| `Activation.ChainManager.Session` | src/main.cpp:2525-2560 | Whatever blocks arrive in whatever order, all invariants hold, and after every accepted one the best chain is active, until activation does not end |
| `BestChain.ShowBestChain` | src/main.cpp:2477-2523 | With verdicts that are those of ConnectBlock on the replay below, a node that does what activation did shows the replay of the active chain, and no received block with a chain that the rules accept ranks above its tip; each block that was connected must have storable outputs or a chain whose subsidies are below a ninth of 2^64, others need not |
| `BestChain.Follow` | src/main.cpp:2328-2415 | Carrying out a journal of connected, refused and disconnected blocks keeps the node's tip at the active chain, with the cache written at any times; each block connected must have storable outputs or a chain whose subsidies are below a ninth of 2^64 |
| `CheckQueue.Queue.Add` | src/checkqueue.h:141-152 | Appends the checks, counts them, and says whether one or all workers are notified |
| `CheckQueue.Queue.Begin` | src/checkqueue.h:71-82 | Merges the verdict and size of the last batch or counts the thread, and notifies the master at the last unit |
| `CheckQueue.Queue.LeaveOrBlock` | src/checkqueue.h:84-100 | Leaves with the verdict and resets it exactly if the caller is the master and nothing is left; otherwise counts itself idle |
| `CheckQueue.Queue.TakeBatch` | src/checkqueue.h:101-116 | Takes the specified batch from the end of the queue without underflow |
| `CheckQueue.BatchSize` | src/checkqueue.h:106-106 | Between one and the queue length, and at most the batch size unless that is zero |
| `CheckQueue.BatchContents` | src/checkqueue.h:108-113 | Batch and rest together hold every check as often as the queue did |
| `CheckQueue.Execute` | src/checkqueue.h:117-121 | The verdict is that of all checks, skipped once one has failed |
| `CheckQueueRuns.NextInv` | src/checkqueue.h:63-152 | Every step of any thread keeps the invariant: counters match threads, every added check is queued, held or merged, verdicts are right |
| `CheckQueueRuns.RunIsSafe` | src/checkqueue.h:136-138 | In every interleaving of one master and any workers, each finished Wait returned true exactly if all checks of its round hold |
| `CheckQueueRuns.OneRound` | src/checkqueue.h:63-152 | An example of a run: the master alone adds one check, runs it and returns its verdict |
| `CheckQueueRuns.ControlAssertions` | src/checkqueue.h:169-176 | Between rounds nTotal == nIdle, nTodo == 0 and fAllOk: the assertions of the controller hold |
| `CheckQueueRuns.IdleWhenNothingToDo` | src/checkqueue.h:84-100 | Whenever the lock is free and nothing is left to do, every thread in Loop is idle |
| `CheckQueueRuns.Progress` | src/checkqueue.h:76-99 | While the master is in Loop some thread can step without a spurious wake-up: no lost notification |
| `CheckQueueRuns.StepDecreases` | src/checkqueue.h:63-123 | Each such step lets the master return or strictly lowers a rank that is never negative |
| `CheckQueueRuns.WaitIsBounded` | src/checkqueue.h:63-138 | Whatever the scheduler chooses, from any reachable state in Loop no more than the rank and one of such steps happen before the master returns |
| `CheckQueueRuns.WaitReturns` | src/checkqueue.h:63-138 | From every reachable state in Loop such steps lead to the return of Wait, with the verdict on exactly the checks added in the round |
| `Merkle.BuildMerkleTree` | src/core.cpp:221-238 | The array holds all levels one after the other and the result is their root, zero for no transactions |
| `Merkle.GetMerkleBranch` | src/core.cpp:240-254 | Reads the specified branch from the array |
| `Merkle.CheckMerkleBranch` | src/core.cpp:256-269 | Computes the climb along a branch for every index, zero for index -1 |
| `Merkle.BranchLeadsToRoot` | src/core.cpp:240-269 | Climbing from any leaf along its own branch gives the root, with duplicated last nodes |
| `Merkle.ClimbInjective` | src/core.cpp:256-269 | Along one branch only one leaf leads to a given root |
| `Merkle.WidthClosedForm` | src/main.h:593-595 | Iterated ceiling-halving equals (n + 2^h - 1) >> h |
| `Merkle.LevelSlice` | src/core.cpp:221-238 | The slice of the array at the sum of the widths below a level is that level, and the recursive hash agrees with it at every position |
| `Merkle.CalcHashIsLevel` | src/main.cpp:3288-3303 | The recursive hash at height h agrees with level h, which LevelSlice finds in the array |
| `Merkle.RootIsCalcHash` | src/main.cpp:3288-3303 | The recursive hash at the top is the root of the array |
| `PartialMerkle.Pack` | src/main.h:621-626 | Packing and unpacking gives the bits padded with false to whole bytes |
| `PartialMerkle.Unpack` | src/main.h:614-620 | The bits of each byte, least significant first |
| `PartialMerkle.PartialMerkleTree.Height` | src/main.cpp:3358-3361 | The first level of width one |
| `PartialMerkle.PartialMerkleTree.ParentOfMatch` | src/main.cpp:3307-3309 | True exactly if a transaction below the node is matched |
| `PartialMerkle.PartialMerkleTree.TraverseAndBuild` | src/main.cpp:3305-3321 | Appends exactly the bits and hashes of the node |
| `PartialMerkle.PartialMerkleTree.TraverseAndExtract` | src/main.cpp:3323-3351 | Follows the specified traversal on arbitrary bits and hashes, never reading past either |
| `PartialMerkle.PartialMerkleTree.constructor` | src/main.cpp:3353-3366 | Builds bits and hashes of the whole tree for a mask |
| `PartialMerkle.PartialMerkleTree.ExtractMatches` | src/main.cpp:3369-3400 | Root, matches and bad flag as specified, with every refusal |
| `PartialMerkle.ExtractSound` | src/main.cpp:3323-3351 | Under any node: if extraction is not bad and gives the node's true hash, the matches are leaves below it in order |
| `PartialMerkle.ExtractionIsSound` | src/main.cpp:3369-3400 | For arbitrary bits and hashes: if the extracted root is that of a real list of as many txids, the matches are entries of it at strictly increasing positions |
| `PartialMerkle.ExtractBuilt` | src/main.cpp:3305-3351 | Extraction reads back what building wrote, under any node |
| `PartialMerkle.ExtractionIsComplete` | src/main.cpp:3369-3400 | From the bits built, padded or not, exactly the root and the masked txids in order are extracted |
| `PartialMerkle.SendAndExtract` | src/main.cpp:3353-3400 | Build, pack, unpack and extract gives the true root and exactly the masked txids, for every non-empty list within the size limit and every mask |
| `PartialMerkle.StoredHashes` | src/main.h:563-567 | N <= transactions and N <= 1 + matched * height |
| `PartialMerkle.FlagBits` | src/main.h:574-574 | There are 2N - 1 bits plus one for each level of odd width with a match under the node above its end, so the documented bound holds exactly if there is no such level |
| `PartialMerkle.TooManyFlagBits` | src/main.h:574-574 | Three transactions with the last one matched give N = 2 and four bits |
| `AddrMan.AddrManager.Create` | src/addrman.cpp:96-106 | A new id with a new position; mapAddr, vRandom and ids stay consistent |
| `AddrMan.AddrManager.SwapRandom` | src/addrman.cpp:108-126 | Exchanges two positions of vRandom and keeps it a permutation matching nRandomPos |
| `AddrMan.SelectPosition` | src/addrman.cpp:128-150 | Shuffles the bucket without losing or repeating an id and returns a valid position |
| `AddrMan.FirstTerrible` | src/addrman.cpp:157-175 | The first deletable entry of a bucket in ascending order, or none |
| `AddrMan.OldestPicked` | src/addrman.cpp:177-190 | The least recently seen of the entries at four random positions |
| `AddrMan.AddrManager.ShrinkNew` | src/addrman.cpp:152-204 | Drops exactly one entry from the bucket, chosen as documented; it loses one reference and is deleted with the last one; every index stays consistent |
| `AddrMan.AddrManager.Purge` | src/addrman.cpp:210-218 | Removes an id from all new buckets; its reference count reaches zero, as asserted |
| `AddrMan.AddrManager.MakeTried` | src/addrman.cpp:206-262 | The entry becomes tried; exactly if its bucket was full, one of the bucket's entries moves back, to its own new bucket if there is room and else to the one the promoted entry came from; every index stays consistent |
| `AddrMan.AddrManager.FindBucket` | src/addrman.cpp:289-302 | Finds a new bucket holding the id, from any starting point, if there is one |
| `AddrMan.AddrManager.Good` | src/addrman.cpp:264-311 | A known address with the same port becomes tried, at most one other entry moves back, nothing else changes; the exit for an entry without bucket is never taken |
| `AddrMan.AddrManager.Add` | src/addrman.cpp:313-368 | True exactly for a routable unknown address; it ends up in its bucket, at most one other entry loses a reference, and every index stays consistent |
| `AddrMan.AddrManager.Attempt` | src/addrman.cpp:370-387 | Changes last try and attempts of a known address with the same port, nothing else |
| `AddrMan.AddrManager.Connected` | src/addrman.cpp:509-527 | Changes only the time of a known address, and only after twenty minutes |
| `AddrMan.AddrManager.GetAddr` | src/addrman.cpp:493-507 | min(23%, 2500) addresses of distinct entries; only positions in vRandom change |
| `AddrMan.AddrManager.Run` | src/addrman.cpp:434-490 | After any run of calls everything Check_ looks for holds: references count the new buckets holding an id (1 to 4), tried ids occur once in their own bucket, buckets hold at most 64, vRandom and mapAddr match, counters match, and at most 4096 + 16384 entries exist |
| `AddrMan.EntriesBounded` | src/addrman.h:123-133 | At most 64 * 64 tried and 256 * 64 new entries |
| `AddrMan.RandomSize` | src/addrman.cpp:439-439 | vRandom has as many elements as there are tried and new entries |
| `AddrManDisk.WriteNew` | src/addrman.h:284-296 | All entries with references in ascending order, with the place of each; the early exit loses none |
| `AddrManDisk.WriteTried` | src/addrman.h:297-307 | All tried entries |
| `AddrManDisk.WriteBucket` | src/addrman.h:308-318 | The places of a bucket's entries, none twice |
| `AddrManDisk.Write` | src/addrman.h:272-318 | The stream describes the manager completely |
| `AddrManDisk.LoadNew` | src/addrman.h:328-341 | Loads the entries with references; if the number of buckets has changed, each into the bucket of its own source |
| `AddrManDisk.LoadTried` | src/addrman.h:342-361 | Loads every tried entry whose bucket has room and counts the others as lost; none is lost if every bucket has room for its entries |
| `AddrManDisk.LoadBuckets` | src/addrman.h:362-378 | For any lists: entries keep everything but their counts, ids named and unknown get default entries; with the number of buckets unchanged, a bucket holds what its list names except ids that have all their references, and counts lie between the buckets holding an id and 4; lists in order are restored exactly |
| `AddrManDisk.Read` | src/addrman.h:319-379 | What any stream gives, damaged or with another number of buckets: entries with their reference counts, both tables, and every index; exactly the written tables if the buckets are in order and the tried entries fit |
| `AddrManDisk.WrittenFits` | src/addrman.h:346-359 | The tried entries of a consistent manager fit their buckets: none is lost |
| `AddrManDisk.SaveAndLoad` | src/addrman.h:249-381 | Writing a consistent manager and reading it gives a consistent one that is the same up to names of entries: same new buckets, tried buckets as sets, reference counts, persisted statistics and counters, nothing lost |
| `FastKdf.Fill` | src/neoscrypt.c:967-990 | The buffer holds the repeated string and its tail mirrors its head |
| `FastKdf.RepairedMirrors` | src/neoscrypt.c:1009-1018 | After the xor and the repair of head or tail, the salt buffer mirrors the xored ring again, for every position |
| `FastKdf.LinearRead` | src/neoscrypt.c:995-1002 | Reading linearly from a mirrored buffer is reading the ring |
| `FastKdf.Iterate` | src/neoscrypt.c:992-1020 | Before every call of the PRF both buffers mirror their rings, for any number of rounds and any PRF |
| `FastKdf.Finish` | src/neoscrypt.c:1022-1036 | Output byte i is ring B at bufptr + i xor A[i], in one piece or two |
| `FastKdf.FastKdf` | src/neoscrypt.c:955-1037 | For passwords of at least 64 and salts of at least 32 bytes, equals the algorithm on 256-byte rings with modular indexing |
| `Blake2s.Hasher.Update` | src/neoscrypt.c:879-906 | Feeds the input; the state depends only on all bytes fed; terminates although a full buffer takes nothing in |
| `Blake2s.Hasher.Finish` | src/neoscrypt.c:932-942 | The calls made are those for all bytes fed, the last block padded and flagged |
| `Blake2s.Blake2s` | src/neoscrypt.c:908-946 | Makes the specified compression calls for the padded key block followed by the input |
| `Blake2s.InPieces` | src/neoscrypt.c:879-906 | Makes the same calls however the input is cut into pieces |
| `Blake2s.SameAsRfc` | src/neoscrypt.c:925-943 | These are the calls of section 3.3 of RFC 7693 exactly if there is a key and the length stays below 2^32 |
| `BlockMix.Mix` | src/neoscrypt.c:1041-1108 | The unrolled mixers for r = 1 and r = 2 and the loop compute the same interleaving of the chain, for every r |
| `BlockMix.UnrolledTwice` | src/neoscrypt.c:1069-1094 | The unrolled code for r = 2 is the reference result |
| `Radix.MultiplyAdd` | src/base58.cpp:40-45 | Digits times mul plus add, with the carry out, for any bases |
| `Base58.EncodeRoom` | src/base58.cpp:74-74 | 58^(floor(138n/100)+1) > 256^n for every n |
| `Base58.DecodeRoom` | src/base58.cpp:32-32 | 256^(floor(733n/1000)+1) > 58^n for every n |
| `Base58.AddDigit` | src/base58.cpp:46-46 | carry == 0 always: a buffer with room for the number takes another digit |
| `Base58.EncodeBase58` | src/base58.cpp:66-98 | Leading zeros become ones, the rest is the number in base 58 |
| `Base58.DecodeBase58` | src/base58.cpp:21-64 | Decodes one word between spaces; refuses exactly other characters and second words |
| `Base58.DecodeOfEncode` | src/base58.cpp:21-98 | decode(encode(v)) = v for every byte string |
| `Base58.EncodeOfDecode` | src/base58.cpp:21-98 | encode(decode(s)) is s without surrounding spaces, for every accepted string |
| `Base58.WithoutSpaces` | src/base58.cpp:21-98 | encode(decode(s)) = s for every accepted string without spaces |
| `Base58.EncodeBase58Check` | src/base58.cpp:108-114 | Encodes the bytes followed by the first four of their hash |
| `Base58.DecodeBase58Check` | src/base58.cpp:116-132 | Refuses exactly undecodable, too short or wrongly summed strings |
| `Base58.CheckedRoundTrip` | src/base58.cpp:108-132 | The checksummed forms round-trip for any hash |
| `Base58.CheckedUnique` | src/base58.cpp:108-132 | An accepted checksummed string is the encoding of what it decodes to, up to surrounding spaces |
| `CoinsCodec.CalcMaskSize` | src/coins.cpp:12-28 | Bytes up to the last one in use, and how many are not zero |
| `CoinsCodec.SomethingToWrite` | src/coins.h:164-164 | The assertion of the writer holds for every record that is not pruned |
| `CoinsCodec.Serialize` | src/coins.h:158-186 | Writes the specified tokens |
| `CoinsCodec.Unserialize` | src/coins.h:188-219 | Reads as specified, failing at the end of the stream |
| `CoinsCodec.MaskReadBack` | src/coins.h:198-210 | Counting only bytes that are not zero, the reader stops exactly at the last mask byte written |
| `CoinsCodec.HeaderReadBack` | src/coins.h:165-165 | Flags and byte count are read back from the header code, also when neither of the first two outputs is unspent |
| `CoinsCodec.ReadsAs` | src/coins.h:158-219 | Every record with something unspent is read back as its stored form: amounts as compression gives them back, version and height without a sign, spent outputs null, the end trimmed; nothing after it is consumed |
| `CoinsCodec.RoundTripExactly` | src/coins.h:158-219 | It is read back unchanged exactly if it is cleaned, version and height are not negative, and every unspent amount has a compressed form below 2^64 |
| `CoinsCodec.UndoReadsAs` | src/core.h:334-369 | Undo data is read back as its stored form and nothing after it is consumed |
| `CoinsCodec.ChecksumNotices` | src/main.h:442-447 | Writing again what was read of undo data differs from what was written first exactly if the amount decompressed beyond 64 bits; other changed amounts pass the checksum |
| `DiskForm.DiskOutExact` | src/core.h:302-326 | An output survives compression exactly if the compressed form of its amount, as an unsigned 64-bit number, fits 64 bits |
| `DiskForm.DiskUndoExact` | src/core.h:334-369 | Undo data survives exactly if its amount is storable and its version is not negative, or zero where none is written |
| `DiskForm.RestoredFromDisk` | src/main.cpp:2026-2043 | Spending an output and restoring it from undo data that has been on disk gives back the record up to its version exactly if its amount is storable |
| `DiskForm.AmountIsLost` | src/core.h:302-326 | 2050248068783227219, within the money range, comes back as 6098383710548170000 |
| `DiskForm.VersionIsLost` | src/serialize.h:277-292 | A record with version -1 comes back with version 127 |
| `VarInts.WriteVarInt` | src/serialize.h:277-292 | Writes the specified digits for any int or 64-bit number, without overrunning its buffer of (bits + 6) / 7 bytes |
| `VarInts.ReadVarInt` | src/serialize.h:294-307 | Reads the specified number modulo 2^bits; fails exactly at the end of the stream |
| `VarInts.ReadBack` | src/serialize.h:242-307 | Every integer is read back as written, a negative one as its last seven bits, and nothing after it is consumed |
| `VarInts.OneEncoding` | src/serialize.h:250-255 | Every number has one encoding: bytes that read as a number are those written for it |
| `VarInts.BufferSuffices` | src/serialize.h:280-280 | Five bytes are enough for 32 bits and ten for 64 |
| `Amounts.CompressAmount` | src/core.cpp:171-188 | The specified number, cut to 64 bits; its assertion on the last digit holds |
| `Amounts.DecompressAmount` | src/core.cpp:190-214 | The specified number, cut to 64 bits |
| `Amounts.DecompressOfCompress` | src/core.cpp:171-214 | decompress(compress(n)) = n for every natural n |
| `Amounts.CompressOfDecompress` | src/core.cpp:171-214 | compress(decompress(x)) = x for every natural x |
| `Amounts.CompressFits` | src/core.cpp:171-188 | A compressed amount is at most nine times the amount, so amounts below 2^64 / 9 do not overflow |
| `Amounts.SurvivesExactly` | src/core.cpp:171-214 | In 64-bit arithmetic an amount comes back exactly if its compressed form is below 2^64: what overflows is always lost, two overflows never cancel |
| `Amounts.CompressAndDecompress` | src/core.cpp:171-214 | Compressing and decompressing gives back the amount exactly if its compressed form is below 2^64, for every 64-bit amount |
| `Amounts.LargestAmountIsLost` | src/core.cpp:171-214 | The largest signed amount overflows when compressed and does not come back |
| `Compact.RoundTrip` | src/bignum.h:296-337 | Encoding and decoding clears exactly the low bytes beyond the mantissa |
| `Compact.CompactRoundsDown` | src/bignum.h:296-337 | The result is at most n, with relative error below 2^-15 |
| `Compact.CompactMonotone` | src/bignum.h:315-337 | The encoding is monotone as an unsigned number |
| `Compact.CompactIdempotent` | src/bignum.h:296-337 | Encoding a second time changes nothing |
| `Compact.CompactFits` | src/bignum.h:315-337 | Numbers of at most 256 bits fit the 32-bit format |

## Left out

- Validation.ConnectBlock: the check-only mode, disk and index writes and their failures, and the log output are not modelled; script checks enter as one verdict for the block.
- Validation.CheckTransaction: serialized sizes and the length of a coinbase script belong to the given verdict on a block.
- Activation.ChainManager.ActivateBestChain: a block that was refused as possibly damaged is refused again when it is tried again; that another copy of it arrives in between is not modelled. The tree grows between calls (`Session`), not during one. The journal of tip changes is there for `BestChain` only.
- ChainState.Node.DisconnectTip: the genesis block is never disconnected, since undo data marks the last spent output by a positive height.
- BlockTree.Chain.GetLocator: heights and steps are unbounded; `BlockTree.LocatorSteps` says when the step of the source overflows. Hashes and index entries are identified.
- CheckQueueRuns.RunIsSafe: shutting down (fQuit is never set in the source) and exceptions thrown by a check are not modelled.
- AddrMan.SelectPosition: does not claim that the oldest inspected entry is chosen; the source returns the position it had before the swap.
- AddrMan.AddrManager.Add: ids, attempts and counters are unbounded; nServices is the set of its bits; locking is not modelled.
- AddrManDisk.Read: whether the manager is consistent is said for what was written, not for damaged streams; the bytes of the single fields, and negative indexes in a damaged file, are not modelled.
- FastKdf.FastKdf: shorter passwords and salts, for which the source reads past its inputs.
- Compact.CompactRoundsDown: negative numbers, which the format can hold and difficulty targets never are.
- CoinsCodec.ReadsAs: the bytes of compressed scripts are not modelled, and heights, versions and header codes are unbounded.
- ChainState.Node.Run: that amounts are storable is a condition on all spendable outputs offered; exact conditions are given for each step (`Node.WriteChainState`, `Node.DisconnectTip`), while a run may also survive a larger amount that is spent before it is written.
- Activation.ChainManager.AddToBlockIndex: that the predecessor of a block is known is checked by AcceptBlock, which is not part of this model; headers without transactions are not received.
- Coins.Spend: records are values in the maps of the views, so references into a cache entry are modelled as reading and writing it back.
- Script evaluation, signatures, the database, files, sockets, RPC, wallet, mempool, user interface and logging.
- Floating-point code: difficulty retargeting by Kimoto's gravity well, chance and selection of addresses, priorities, sizes of bloom filters.
- GetBlockValue and its random subsidy, the clamps of the first retargeting rule, sync checkpoints, alerts, key store, coin control, fee rates, bounded sets and maps: they would only add easy members.
