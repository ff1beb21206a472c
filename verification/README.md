# Verified models of Zebra's core state machines

Zebra is a full node for Zcash. This project models six of its components in Dafny and proves what
they keep over whole runs. Each component is one module or a few, in the form of its source: the
history tree, the checkpoint verifier, the batch worker and the address book are classes whose
methods update fields; amounts, value balances and address book entries are values and functions.
For the batch worker and the address book another module holds the same operations on values; the
methods are proved to do what these say, and properties of whole runs are proved about the values.

- **History tree** (`MountainRange`, `MountainRoots`, `Networks`, `HistoryTree`). The tree of
  ZIP-221 keeps only the peaks of a Merkle mountain range. `MountainRange` gives the range over all
  leaves as a value: peaks by binary digits of the number of leaves, the array of all nodes in post
  order, and the merge that appending a leaf makes. `MountainRoots` says from the leaves alone what
  their root is, without peaks: leaves by a power of two make a perfect tree, and otherwise the
  right child of the root is the perfect tree over as many last leaves as the lowest set bit says.
  The classes `NonEmptyHistoryTree` and `HistoryTree` are proved to hold, after any run of
  consecutive pushes, exactly what that value says, across upgrades. Nodes are kept as symbolic
  trees, so equal roots mean equal leaves in the same shape.
- **Checkpoint verifier** (`CheckpointQueue`, `CheckpointVerification`). `CheckpointVerifier` queues
  blocks by height, walks the hash chain back from the highest reachable checkpoint, and confirms
  the range or repairs the queue. Every answer that it sends is logged, in order. Every `assert!`,
  `expect` and `unreachable!` of range processing is an assertion that is proved. The one assumption
  is the one the code makes: checkpoints and reset tips lie on one hash chain, and a block hash of
  that chain determines the block's height and parent.
- **Batch worker** (`BatchProtocol`, `BatchLiveness`, `BatchControl`). `BatchProtocol` has one
  function on states for each atomic step of a handle, of the worker, or of its surroundings; a run
  is any interleaving of them. `BatchLiveness` says when runs answer requests, when and with which
  error they end, what they flush and how much they hold. `BatchSystem` has the fields, and one
  method for each step. Request weights are at least one.
- **Value pools** (`Amounts`, `ValuePools`, `ChainValue`, `BalanceErrors`). Bounded sums and their
  errors, balances of version 1 to 5 transactions, the pool change of a block, and conservation over
  whole chains: the transparent pool against the UTXO set, the sprout, sapling and orchard pools
  against what transactions shield and deshield, the four pools against fees, and the supply against
  subsidies.
- **Address book** (`MetaAddresses`, `PeerBooks`, `AddressBooks`). How a change applies to an entry
  under a monotonic and a wall clock, exactly when it does, the order of peers, which entries
  eviction and banning remove, and when one cached entry per IP may stand in for a scan of the book.
- **Spent outputs** (`SpentOutputs`). The two passes that look up what a transaction spends, why
  signature operation counting may pair outputs with inputs, and what the check of coinbase maturity
  refuses.

## Where the code does not meet a property

- A batch worker that fails with no items pending arms the batch timer again for each request that it
  fails. Once that timer elapses with a request still queued, the worker only repeats its timer
  branch, and nobody in the channel is answered until it is cancelled (`StalledForGood`). `StallExact`
  says for every failed worker that some run without a cancellation gets there exactly if it selects
  with no items pending, its limit of batches is not zero, and there are two requests queued, or one
  and a timer. `AnswersInTime` and `CanDrain` show that every other failed worker whose limit is not
  zero tells everybody the error. `ConfigurationStalls` says that a new worker can come to stall
  exactly if it has a batch and two permits.
- The same happens with nobody queued: the worker repeats its timer branch and never ends
  (`SpinsForGood`). `SpinExact` says which failed workers can come to that, `EndExact` that exactly
  these, and those with a limit of zero, can fail to end, and `ConfigurationSpins` that one batch and
  one permit are enough. `EndsInTime` and `CanEnd` show that every other failed worker ends.
- Evicting the cached entry of an IP makes the cache answer "ready" for that IP. In the run of
  `EvictionMisleads`, for a new book of any limit from two on, peers elsewhere fill the book up to two,
  two peers at an IP respond, the later one fails and so comes last, and one more peer is gossiped: the
  cache then answers "ready" although the first peer responded 30 seconds ago. `CacheExact` and
  `EvictLatest` state exactly when the cache still stands for a scan, and `ResponseRestoresLatest` what
  repairs it.
- Banning an IP removes only the first run of its entries in peer order. `BanLeavesSome` says that an
  entry stays exactly if one of another IP comes between two of them. `BanLeavesFailed` is a run to
  that from a new book of any limit from three on: two peers at an IP respond, one fails, a third is
  gossiped elsewhere, and the first misbehaves. What it costs is in `LeftIsReady`: while the IP is
  banned every change to the peer that is left is ignored, its entry stays as it is unless it is
  evicted, and the cache takes its IP for ready.
- Banning panics when the book has no per-IP cache; `PanicExact` states exactly when that happens, and
  in `PanicReached` the first update of a new book does it.
- Misbehavior scores have 32 bits and are added without a check. `LimitExact` says that an update
  reaches the limit exactly if the sum is from 100 to below 2^32; in `ForgivenByWrapping` an increment
  takes the score of a peer back to zero.
- A reset of the checkpoint verifier strands the queued blocks that are not above the new tip: until
  another reset no pass looks at them (`PassStrandsNone`). `StrandByReset` is a run of two calls after
  which a verifier has finished and an accepted request is not answered. `FinalStrands` shows that when
  verification is finished all accepted requests are answered exactly if none is stranded, and `Run`
  that without resets none is.
- Summing a transaction's pools from left to right rejects some balances whose remaining value is
  valid (`RemainingRejectsValid`); `RemainingExact` gives the exact condition.
- A transaction without a balance is dropped from the pool change of its block. `SkippedBreaksPool`
  shows a block that the state accepts and whose outputs no pool has. `PoolChangeSkips` gives the
  exact difference in every pool, and `ChainDrifts` shows that over any chain the transparent pool is
  ahead of the UTXO set by exactly what such transactions net. `VerifiedIsBalanced` shows that a block
  whose values were verified has none; blocks below a checkpoint are not verified that way.
- With a limit of zero batches the worker's select has no branch to wait for; `Bounded` states that
  some branch is enabled exactly if the limit is at least one.
- For under five seconds after a failure every change to an entry is ignored, except a misbehavior
  change, which takes the entry back to the responded state (`FailedIsKept`).

## Model

| member | source | states |
|---|---|---|
| MountainRange.PeaksLaidOut | zebra-chain/src/history_tree.rs:296-304 | The peaks given by the binary digits of the leaf count are the nodes at the peak positions of the array of all nodes, in ascending order. |
| MountainRange.PositionsStep | zebra-chain/src/history_tree.rs:259-264 | Adding a leaf replaces as many of the last peak positions as the leaf count has trailing one bits by the position of the last new node. |
| MountainRange.AppendedIsNewNodes | zebra-chain/src/primitives/zcash_history.rs:176-211 | Merging peaks of equal leaf counts from the right creates exactly the nodes that the longer range has and the shorter has not. |
| MountainRange.AppendLeaf | zebra-chain/src/primitives/zcash_history.rs:176-211 | Appending a leaf adds one node and one more per trailing one bit of the leaf count; the array of all nodes grows by exactly these, peaks and peak positions merge as many as there are such bits, and the size grows by their number. |
| MountainRange.SizeBound | zebra-chain/src/history_tree.rs:307-352 | A range has fewer than 2^(k+1) - 1 nodes exactly if it has fewer than 2^k leaves, which tells whether a candidate position lies inside it. |
| MountainRange.AllNodesSize | zebra-chain/src/history_tree.rs:259-263 | The array of all nodes of n leaves has 2n - popcount(n) entries. |
| MountainRoots.BagIsRoot | zebra-chain/src/history_tree.rs:296-304 | Joining the peaks from the left gives the root that the leaves alone determine: a perfect tree if their number is a power of two, and otherwise a node whose right child is the perfect tree over as many last leaves as the lowest set bit of their number. |
| MountainRoots.RootIsFlat | zebra-chain/src/history_tree.rs:381-386 | Read from left to right, the leaves of that root are all leaves in order. |
| Networks.CurrentIsLatest | zebra-chain/src/parameters/network_upgrade.rs:306-313 | The current upgrade is the one of the last activation at or below the height. |
| Networks.CurrentMonotone | zebra-chain/src/parameters/network_upgrade.rs:306-313 | Later heights never have earlier upgrades. |
| Networks.ActivationHeightSplits | zebra-chain/src/parameters/network_upgrade.rs:351-361 | A height has an upgrade or a later one exactly if it is at or above the activation height; there is none if there is no activation height. |
| HistoryTree.CacheHoldsPeaks | zebra-chain/src/history_tree.rs:356-377 | Reading the cached peaks back in key order gives the peaks of the range over all leaves. |
| HistoryTree.NewLeaf | zebra-chain/src/primitives/zcash_history.rs:229-324 | A leaf commits to hash, height, upgrade and Sapling root of its block, and to its Orchard root exactly from NU5 on. |
| HistoryTree.PrunedIsPeakMap | zebra-chain/src/history_tree.rs:354-355 | Dropping every entry that is not at a peak position leaves exactly the peaks, if none of them was missing before. |
| HistoryTree.CacheCoversPeaks | zebra-chain/src/history_tree.rs:251-264 | Before pruning, the old peaks and the new entries together hold every peak of the longer range at its position. |
| HistoryTree.FindPeaks | zebra-chain/src/history_tree.rs:307-352 | For every tree of fewer than 2^32 - 1 nodes the loop ends after one round per binary digit of the leaf count, every shift, sum and difference stays within 32 bits, and exactly the peak positions are found. |
| HistoryTree.GoDown | zebra-chain/src/history_tree.rs:332-338 | A candidate outside the array moves to its left child, one altitude lower, and stays on the way to the next peak. |
| HistoryTree.TakePeak | zebra-chain/src/history_tree.rs:340-347 | A candidate inside the array is the next peak, and its right sibling is the candidate for the leaves that remain. |
| HistoryTree.NonEmptyHistoryTree.FromBlock | zebra-chain/src/history_tree.rs:147-208 | A tree over one leaf of the block's upgrade. |
| HistoryTree.NonEmptyHistoryTree.FromCache | zebra-chain/src/history_tree.rs:80-139 | Size, peaks and height of a tree over some leaves rebuild a tree with the same inner tree. |
| HistoryTree.NonEmptyHistoryTree.Clone | zebra-chain/src/history_tree.rs:409-442 | A fresh tree that agrees in every field, whose inner tree was rebuilt from the peaks. |
| HistoryTree.NonEmptyHistoryTree.Hash | zebra-chain/src/history_tree.rs:381-386 | The root is the one that all leaves of the tree determine, and read from left to right it has exactly these leaves. |
| HistoryTree.NonEmptyHistoryTree.Push | zebra-chain/src/history_tree.rs:220-267 | The tree is the one over the old leaves and the new one, or over the new one alone if the block activates an upgrade; size and peaks are those of all its leaves. |
| HistoryTree.NonEmptyHistoryTree.Grow | zebra-chain/src/history_tree.rs:251-264 | Inserting the new entries and pruning gives size, peaks and inner tree of the longer range. |
| HistoryTree.NonEmptyHistoryTree.InsertEntries | zebra-chain/src/history_tree.rs:259-263 | Each new entry is stored at the next position, and nothing else changes. |
| HistoryTree.NonEmptyHistoryTree.Prune | zebra-chain/src/history_tree.rs:284-378 | Exactly the peaks are kept, and the inner tree is that of all leaves. |
| HistoryTree.LeavesAreOfTipUpgrade | zebra-chain/src/history_tree.rs:240-249 | The leaves of the tree are those of exactly the blocks whose upgrade is the one at the tip, in chain order, and there are none before Heartwood. |
| HistoryTree.HeartwoodCases | zebra-chain/src/history_tree.rs:489-526 | Comparing the height with Heartwood activation tells whether the block has a tree and whether the tip already had one, so the asserted cases hold. |
| HistoryTree.LeavesExist | zebra-chain/src/history_tree.rs:449-475 | There is a tree exactly if the tip's upgrade is Heartwood or later. |
| HistoryTree.PushCases | zebra-chain/src/history_tree.rs:489-526 | Below Heartwood activation there is no leaf before and after the push, at it the first leaf is that of the block, and above it there were leaves already. |
| HistoryTree.HistoryTree.FromBlock | zebra-chain/src/history_tree.rs:454-475 | The wrapper of a single block, empty before Heartwood. |
| HistoryTree.HistoryTree.Push | zebra-chain/src/history_tree.rs:482-527 | After any next block the wrapper holds the tree of the chain with that block, or none before Heartwood. |
| HistoryTree.HistoryTree.Hash | zebra-chain/src/history_tree.rs:530-532 | There is a root exactly if some block since the last upgrade has a leaf; it is the one that the leaves of all these blocks determine, and read from left to right it has exactly these. |
| CheckpointVerification.ProgressIsHeightOrder | zebra-consensus/src/checkpoint/types.rs:36-54 | The order of progress is that of the last verified height. |
| CheckpointVerification.CheckpointVerifier.TargetCheckpointHeight | zebra-consensus/src/checkpoint.rs:409-479 | The highest checkpoint up to which every height after the verified one is queued, waiting if there is none, finished at the end. |
| CheckpointVerification.ContiguousEnd | zebra-consensus/src/checkpoint.rs:435-449 | The walk over ascending heights stops at the first gap after the start. |
| CheckpointVerification.TargetInRun | zebra-consensus/src/checkpoint.rs:452-478 | The highest checkpoint within the contiguous run is the target. |
| CheckpointVerification.CheckpointVerifier.PreviousHash | zebra-consensus/src/checkpoint.rs:484-498 | The hash at hand is the parent of the first height to verify, so the initial tip hash and the checkpoint hash are present when they are expected. |
| CheckpointVerification.CheckpointVerifier.CheckHeight | zebra-consensus/src/checkpoint.rs:508-536 | A height can be verified exactly if it is above the progress, at most the last checkpoint, and verification is not finished; each error is returned exactly in its case, with the two heights that were compared. |
| CheckpointVerification.CheckpointVerifier.UpdateProgress | zebra-consensus/src/checkpoint.rs:539-577 | Progress moves up to a checkpoint above it and otherwise stays, and keeps having the hash that it needs. |
| CheckpointVerification.CheckpointVerifier.Replace | zebra-consensus/src/checkpoint.rs:669-688 | The newer of two requests for a block takes the older one's place, and the older is answered once. |
| CheckpointVerification.CheckpointVerifier.Push | zebra-consensus/src/checkpoint.rs:690-704 | A block is added to the list at its height, which stays within four blocks of distinct hashes. |
| CheckpointVerification.CheckpointVerifier.QueueBlock | zebra-consensus/src/checkpoint.rs:646-705 | A block is accepted exactly if it has a height that can be verified, passes its checks, and is queued already or finds fewer than four at its height, and each of the six errors is returned exactly in its own case; then its list holds it and every block of another hash, an older request for it is told about the newer one and nobody else is, and one side-chain block more is counted exactly if the block is new and not of the chain; on an error nothing changes. |
| CheckpointVerification.CheckpointVerifier.DrainList | zebra-consensus/src/checkpoint.rs:742-764 | Every block without the expected hash is rejected once; the one with it is returned, and there is never a second one. |
| CheckpointVerification.CheckpointVerifier.ProcessHeight | zebra-consensus/src/checkpoint.rs:711-765 | The height leaves the queue, an interim checkpoint agrees with the expected hash, and no block of the chain is rejected. |
| CheckpointVerification.CheckpointVerifier.WalkBack | zebra-consensus/src/checkpoint.rs:818-845 | The walk finds the chain's block at each height down to the verified one, or stops at the first height that has none; only side-chain blocks are answered. |
| CheckpointVerification.CheckpointVerifier.Requeue | zebra-consensus/src/checkpoint.rs:845-856 | The blocks found above the failed height are back in the queue, alone at their heights. |
| CheckpointVerification.CheckpointVerifier.GiveUp | zebra-consensus/src/checkpoint.rs:836-876 | A failed pass clears the failed height, keeps the chain's blocks above it, leaves all other heights and the progress alone, and has no target as high as before. |
| CheckpointVerification.CheckpointVerifier.Confirm | zebra-consensus/src/checkpoint.rs:890-895 | The blocks of the range are answered Ok one after the other in ascending height order. |
| CheckpointVerification.CheckpointVerifier.Accept | zebra-consensus/src/checkpoint.rs:879-927 | A successful pass confirms the chain's block at every height from the verified one to the target, moves progress to the target, and leaves no checkpoint reachable. |
| CheckpointVerification.CheckpointVerifier.AdvanceTo | zebra-consensus/src/checkpoint.rs:897-927 | Progress strictly increases to the target, finishes only at the last checkpoint, and there is no further target. |
| CheckpointVerification.CheckpointVerifier.ProcessCheckpointRange | zebra-consensus/src/checkpoint.rs:774-928 | A pass is idle exactly if there is no target, fails exactly if some height of the range has no block of the chain, and otherwise confirms the range; none of its assertions can fail. |
| CheckpointVerification.FailedPassKeepsChain | zebra-consensus/src/checkpoint.rs:836-856 | A block of the checkpointed chain that was queued before a failed pass is queued after it. |
| CheckpointVerification.FailedPassShrinks | zebra-consensus/src/checkpoint.rs:742-764 | A failed pass leaves strictly fewer side-chain blocks in the queue. |
| CheckpointVerification.FailedPassLowers | zebra-consensus/src/checkpoint.rs:864-872 | After a failed pass every reachable checkpoint is below the height at which it failed. |
| CheckpointVerification.NoneReachable | zebra-consensus/src/checkpoint.rs:920-927 | After a successful pass no checkpoint is reachable from the target. |
| CheckpointVerification.PassShrinks | zebra-consensus/src/checkpoint.rs:774-928 | Every pass leaves no more side-chain blocks in the queue, and a failed one fewer. |
| CheckpointVerification.PassStrandsNone | zebra-consensus/src/checkpoint.rs:774-928 | No pass strands a block below the progress, and none removes or answers one that is stranded there. |
| CheckpointVerification.PassVerifies | zebra-consensus/src/checkpoint.rs:879-895 | A pass sends a verified answer for exactly the heights that it moves the progress over, so none unless it confirms a range. |
| CheckpointVerification.PassReplacesNone | zebra-consensus/src/checkpoint.rs:774-928 | A pass tells nobody of a newer request and drops nobody. |
| CheckpointVerification.SupersededOnly | zebra-consensus/src/checkpoint.rs:669-688 | Queueing a block tells only the older request for the same block of a newer one, which is another request, and verifies nothing. |
| CheckpointVerification.CheckpointVerifier.FinalStrands | zebra-consensus/src/checkpoint.rs:1077-1094 | Once verification is finished, what is queued is stranded, and all accepted requests are answered exactly if nothing is. |
| CheckpointVerification.StrandByReset | zebra-consensus/src/checkpoint.rs:1077-1094 | For any checkpoints, a new verifier that accepts a block above genesis and is then reset to a tip at or above the last checkpoint has finished, and has not answered that request. |
| CheckpointVerification.CheckpointVerifier.constructor | zebra-consensus/src/checkpoint.rs:257-299 | A verifier at the given tip with an empty queue. |
| CheckpointVerification.CheckpointVerifier.ResetProgress | zebra-consensus/src/checkpoint.rs:366-373 | Progress follows the tip: before genesis, at the tip, or finished at or above the last checkpoint; it strands exactly the queued blocks at or below the tip. |
| CheckpointVerification.CheckpointVerifier.Call | zebra-consensus/src/checkpoint.rs:1077-1094 | A call returns no error exactly if, after its reset, its block can be verified, passes its checks and has a place in the queue, and otherwise the error of its case; then it puts the block there and leaves queue, progress and answers as its pass says: idle, failed at a height, or confirmed with the blocks of the chain; without a reset progress strictly increases if the pass confirmed, and stays otherwise; a call that returns an error changes no more than a reset does. |
| CheckpointVerification.CheckpointVerifier.Run | zebra-consensus/src/checkpoint.rs:1077-1094 | Over any run of calls and resets, failed passes and the side-chain blocks left in the queue are together at most the side-chain blocks queued before and the requests for hashes that are not of the chain; if there are no such requests, the blocks queued before bound them alone; each accepted request waits in one place or was answered once; nobody is told of a newer request unless one for the same block was accepted in the run, and nobody is dropped; without resets progress never goes back, exactly the heights that it passes are answered as verified, and no block is stranded; once verification is finished, all accepted requests are answered exactly if none is stranded. |
| CheckpointVerification.CheckpointVerifier.Drop | zebra-consensus/src/checkpoint.rs:941-955 | After the drop every accepted request has been answered, none twice, and those that were still queued have been told that they were dropped. |
| CheckpointQueue.AnsweredOnceStep | zebra-consensus/src/checkpoint.rs:743-762 | Answering a waiting request moves it from the waiting to the answered ones, each of which was answered once. |
| BatchProtocol.FlushedBatch | tower-batch-control/src/worker.rs:147-152 | Every flushed batch ends with an item before which it weighed less than the maximum. |
| BatchProtocol.PollReadyExact | tower-batch-control/src/service.rs:238-315 | A handle is ready exactly if a permit is free, its own included, and no waiting task gets it first; then it holds one, and other handles keep theirs. A closed channel gives the published error and leaves the permit. |
| BatchProtocol.CallKeeps | tower-batch-control/src/service.rs:317-342 | Sending a request, or failing it on a closed channel, conserves permits and keeps every request in one place. |
| BatchProtocol.FailTells | tower-batch-control/src/worker.rs:298-335 | Publishing an error changes nothing for those who were told something, and a published error stays. |
| BatchProtocol.FinishBatchKeeps | tower-batch-control/src/worker.rs:207-222 | A batch that finishes, or fails and so fails the worker, keeps the invariant and what was settled. |
| BatchProtocol.ReceiveKeeps | tower-batch-control/src/worker.rs:235-281 | Taking a message, or answering it with the error and arming the timer, keeps the invariant and what was settled. |
| BatchProtocol.PassItemKeeps | tower-batch-control/src/worker.rs:147-152 | An item reaches the service once, only in a batch that is not full, and only before an error. |
| BatchProtocol.FailItemKeeps | tower-batch-control/src/worker.rs:153-160 | A service that is not ready for an item fails the worker, and its request is told the published error. |
| BatchProtocol.PassFlushKeeps | tower-batch-control/src/worker.rs:174-182 | A flush follows at least one item and stays within the limit of batches. |
| BatchProtocol.FailFlushKeeps | tower-batch-control/src/worker.rs:183-186 | A service that is not ready for a flush fails the worker, and nobody is told twice. |
| BatchProtocol.StopKeeps | tower-batch-control/src/worker.rs:364-395 | Dropping a failed worker tells the published error to everybody who was queued. |
| BatchProtocol.ExitKeeps | tower-batch-control/src/worker.rs:282-286 | A worker that ends on an empty channel leaves no request unresolved. |
| BatchProtocol.CancelKeeps | tower-batch-control/src/worker.rs:364-395 | A worker that is cancelled anywhere tells its error to everybody who was queued, and the caller of the request that it held finds the channel closed. |
| BatchProtocol.RunKeeps | tower-batch-control/src/worker.rs:197-290 | In any interleaving permits are conserved, each request is in one place or resolved as it was first, the published error stays, and no call reaches the service after it. |
| BatchProtocol.Bounded | tower-batch-control/src/service.rs:172-188 | In any run of a new worker the permits add up to the total, the channel holds at most as many messages, running batches stay within the limit although the timer branch does not look at it, and some branch of the select is enabled exactly if the limit is at least one. |
| BatchProtocol.AllResolved | tower-batch-control/src/future.rs:59-70 | Once the worker is gone every request is resolved, with a response, the published error, or closed. |
| BatchLiveness.HealthyInTime | tower-batch-control/src/worker.rs:197-290 | In any run after which the worker has not failed, every request that was waiting has the service's response after at most six of the worker's steps for each request queued, one for each running batch, and nine more. |
| BatchLiveness.HealthyCanWork | tower-batch-control/src/worker.rs:197-290 | While a request waits, a healthy worker can pass an item or flush, take its timer branch, receive or finish a batch, exactly if its limit is not zero. |
| BatchLiveness.PublishesFirst | tower-batch-control/src/worker.rs:298-335 | In any run of a healthy worker the error that is published is that of the first failed batch, failed item, failed flush, exit or cancellation. |
| BatchLiveness.FlushesExact | tower-batch-control/src/worker.rs:252-272 | As long as no timer elapses, a worker that has not failed flushes exactly when the items since the last flush fill a batch. |
| BatchLiveness.RunningExact | tower-batch-control/src/worker.rs:174-221 | In any run, until the worker is gone, as many batches run as were flushed and did not finish. |
| BatchLiveness.HandlesExact | tower-batch-control/src/service.rs:345-358 | In any run the handles are those that clones add and drops leave, whatever the worker does. |
| BatchLiveness.HealthyEndsInTime | tower-batch-control/src/worker.rs:282-286 | A worker without handles has ended without an error of the service, and has answered everybody, after at most six of its steps for each request queued, one for each running batch, and ten more. |
| BatchLiveness.EndsOnlyWithoutHandles | tower-batch-control/src/worker.rs:282-286 | In any run without errors and cancellations a worker ends only once there are no handles. |
| BatchLiveness.HealthyEndExact | tower-batch-control/src/worker.rs:235-286 | A worker without handles can end without an error exactly if its limit is not zero. |
| BatchLiveness.CancelEnds | tower-batch-control/src/worker.rs:364-395 | Wherever a worker is, a cancellation ends it, and everybody is answered. |
| BatchLiveness.StalledForGood | tower-batch-control/src/worker.rs:168-172 | A stalled worker answers nobody in its channel until it is cancelled, whatever else happens. |
| BatchLiveness.NeverStalls | tower-batch-control/src/worker.rs:263-272 | A failed worker that may not stall now, such as one with items pending, never stalls. |
| BatchLiveness.StallExact | tower-batch-control/src/worker.rs:223-272 | Some run without a cancellation stalls a failed worker exactly if it selects with no items pending, has a limit above zero, and has two requests queued, or one and a timer. |
| BatchLiveness.CanDrain | tower-batch-control/src/worker.rs:207-281 | A failed worker that may not stall and has requests queued can receive or finish a batch, exactly if its limit is not zero. |
| BatchLiveness.AnswersInTime | tower-batch-control/src/worker.rs:327-334 | A failed worker that may not stall has told the error to everybody who was queued after as many of its steps as there are requests queued and batches running, in any order and among any steps of others. |
| BatchLiveness.ConfigurationStalls | tower-batch-control/src/service.rs:172-188 | Some run of a new worker without a cancellation stalls exactly if it has at least one batch and two permits. |
| BatchLiveness.SpinsForGood | tower-batch-control/src/worker.rs:168-172 | A failed worker whose timer has elapsed takes nothing from its channel and does not end until it is cancelled. |
| BatchLiveness.SpinExact | tower-batch-control/src/worker.rs:223-272 | Some run without a cancellation makes a failed worker spin exactly if it selects and has a timer, or has no items pending, a limit above zero and a request queued. |
| BatchLiveness.EndsInTime | tower-batch-control/src/worker.rs:282-286 | A failed worker that may not spin has ended after one step more than there are requests queued and batches running, in any order and among any steps of others. |
| BatchLiveness.CanEnd | tower-batch-control/src/worker.rs:207-286 | Until then it can receive, finish a batch or exit, exactly if its limit is not zero. |
| BatchLiveness.EndExact | tower-batch-control/src/worker.rs:197-290 | Some run without a cancellation takes a failed worker to where no further one ends it, exactly if it may spin or its limit is zero. |
| BatchLiveness.ConfigurationSpins | tower-batch-control/src/service.rs:172-188 | Some run of a new worker without a cancellation makes it spin exactly if it has at least one batch and one permit. |
| BatchLiveness.ConfigurationQueues | tower-batch-control/src/service.rs:172-188 | Runs of a configured worker have a number of requests wait at once exactly if it is at most the items of a batch, at least one, times the batches, at least one and at most 64; the number of running batches is limited as configured. |
| BatchControl.BatchSystem.constructor | tower-batch-control/src/service.rs:158-209 | The permits are the batch weight times the number of batches clamped to 1..64; the worker's own limit is not clamped; the invariant holds. |
| BatchControl.BatchSystem.PollReady | tower-batch-control/src/service.rs:238-315 | Keeps the invariant; a handle is ready exactly if a permit was free or its own and no waiting task gets it first, other handles keep theirs, and on a closed channel nothing changes. |
| BatchControl.BatchSystem.Call | tower-batch-control/src/service.rs:317-342 | Keeps the invariant; the permit goes with the request to the end of the channel, or back if the channel is closed, and then the request has failed with the published error. |
| BatchControl.BatchSystem.CloneHandle | tower-batch-control/src/service.rs:345-358 | Keeps the invariant; a clone has no permit, so permits are conserved. |
| BatchControl.BatchSystem.SetFailed | tower-batch-control/src/worker.rs:298-335 | Only the first error is published; it closes channel and semaphore and stops the timer. |
| BatchControl.BatchSystem.FinishBatch | tower-batch-control/src/worker.rs:207-222 | Keeps the invariant; a finished batch makes room, and a failed one publishes its error unless there is one. |
| BatchControl.BatchSystem.OnTimer | tower-batch-control/src/worker.rs:223-233 | Keeps the invariant; the timer branch flushes the pending batch, and does nothing on a failed worker. |
| BatchControl.BatchSystem.Receive | tower-batch-control/src/worker.rs:235-281 | Keeps the invariant; the oldest message is taken, or answered with the published error by a failed worker, which arms the timer if no items are pending. |
| BatchControl.BatchSystem.PassItem | tower-batch-control/src/worker.rs:147-152 | Keeps the invariant; the item reaches the service once, its request gets the response, and a full batch is flushed next. |
| BatchControl.BatchSystem.FailItem | tower-batch-control/src/worker.rs:153-160 | Keeps the invariant; the error is published and the request is told it. |
| BatchControl.BatchSystem.PassFlush | tower-batch-control/src/worker.rs:174-182 | Keeps the invariant; one batch more runs, and there is nothing pending and no timer. |
| BatchControl.BatchSystem.FailFlush | tower-batch-control/src/worker.rs:183-186 | Keeps the invariant; the error is published and the worker goes back to its select. |
| BatchControl.BatchSystem.Stop | tower-batch-control/src/worker.rs:364-395 | Keeps the invariant; the loop over what is left in the channel tells everybody queued the published error. |
| BatchControl.BatchSystem.Exit | tower-batch-control/src/worker.rs:282-286 | Keeps the invariant; the worker ends and every request is resolved. |
| BatchControl.BatchSystem.Cancel | tower-batch-control/src/worker.rs:364-395 | Keeps the invariant; everybody queued is told the error, and the caller of the request that the worker held finds the channel closed. |
| BatchControl.BatchSystem.DoWorkerStep | tower-batch-control/src/worker.rs:197-290 | Each step of the worker that is enabled keeps the invariant and takes the step of the protocol, whose guards the theorems of `BatchLiveness` fix: which steps a worker can take, when it ends, and when it does not. |
| BatchControl.BatchSystem.Run | tower-batch-control/src/worker.rs:197-290 | The object that takes any possible interleaving of steps ends in the state of the protocol, so all that is proved of runs holds of it. |
| Amounts.SumExact | zebra-chain/src/amount.rs:425-441 | A sum is Ok exactly if every prefix sum is in range and then it is the exact sum; otherwise the error has the first prefix sum out of range and the number of items after it. |
| Amounts.SumNonNegative | zebra-chain/src/amount.rs:425-441 | For non-negative amounts the sum is Ok exactly if the total is at most the maximum. |
| Amounts.SumPermuted | zebra-chain/src/amount.rs:425-441 | Verdict and value of a sum of non-negative amounts do not depend on the order. |
| Amounts.SignedSumDependsOnOrder | zebra-chain/src/amount.rs:425-441 | With amounts of both signs they do. |
| Amounts.SumMinerFees | zebra-consensus/src/block.rs:293-315 | The loop over finished transactions gives the exact fee total, or an error exactly if that is above the maximum. |
| Amounts.FeesPermuted | zebra-consensus/src/block.rs:294-315 | The fee total does not depend on the order in which transactions finish. |
| ValuePools.SumFromExact | zebra-chain/src/value_balance.rs:532-541 | A sum of balances is Ok exactly if every prefix sum is in range in every pool; then it is exact. |
| ValuePools.TransparentExact | zebra-chain/src/transaction.rs:1136-1161 | The transparent balance is the value of the inputs less that of the outputs, and exists exactly if both totals are at most the maximum. |
| ValuePools.SproutExact | zebra-chain/src/transaction.rs:1269-1319 | The join splits of a transaction can be summed exactly if, after each of them, the total of `vpub_new` less the total of `vpub_old` is in range; the sum is that difference over all of them, in the sprout pool alone. |
| ValuePools.BalanceExact | zebra-chain/src/transaction.rs:1463-1471 | A transaction has a balance exactly if the totals of its inputs and its outputs are at most the maximum and the differences of its join splits stay in range; then it is what its fields say, pool by pool, and its deferred part is zero. |
| ValuePools.NetIsOfFields | zebra-chain/src/transaction.rs:1463-1471 | For every version the balance is made of the fields that the version has: inputs less outputs, `vpub_new` less `vpub_old` from version 2 to 4, the Sapling balance of versions 4 and 5, and the Orchard balance of version 5. |
| ValuePools.SproutTotal | zebra-chain/src/sprout/joinsplit.rs:178-189 | The sum of the amounts of join splits is the total of their `vpub_new` less the total of their `vpub_old`. |
| ValuePools.RemainingExact | zebra-chain/src/value_balance.rs:170-177 | The remaining value is the sum of the four pools, exactly if that is in range and the sums of the first two and first three pools are. |
| ValuePools.RemainingRejectsValid | zebra-chain/src/value_balance.rs:170-177 | A balance whose four pools leave a valid value over, but which is rejected. |
| BalanceErrors.ConstrainExact | zebra-chain/src/value_balance.rs:435-449 | A balance is refused exactly if an amount is out of range, and the error has the first such pool, in the order transparent, sprout, sapling, orchard, deferred, and its amount. |
| BalanceErrors.SumFromFails | zebra-chain/src/value_balance.rs:532-541 | The error of a refused sum of balances is that of the first sum on the way that is out of range. |
| BalanceErrors.BalanceFails | zebra-chain/src/transaction.rs:1463-1471 | A transaction without a balance has the error of its inputs if these are above the maximum, else of its outputs, else of its join splits, with the first sum out of range. |
| BalanceErrors.RemainingFails | zebra-chain/src/value_balance.rs:170-177 | The error of a refused remaining value has the first sum of pools that is out of range, or else what they leave over, which is negative. |
| ChainValue.AddChangeRefuses | zebra-chain/src/value_balance.rs:285-295 | A pool change is refused exactly if a pool would leave the range from zero to the maximum. |
| BalanceErrors.AddChangeFails | zebra-chain/src/value_balance.rs:285-295 | The error of a refused change has the first pool whose sum is out of bounds, or if there is none, the first that would be negative. |
| ChainValue.AddChangeReverts | zebra-chain/src/value_balance.rs:285-295 | Pools after a change are exact and in range, and the negated change restores them. |
| ChainValue.PoolChangeExact | zebra-chain/src/block.rs:228-244 | If every transaction has a balance, the change of a block is what its transactions add to each pool less what they take. |
| ChainValue.PoolChangeSkips | zebra-chain/src/block.rs:228-244 | For every block the change of each pool is what its transactions add less what they take, without exactly those that have no balance; the deferred part is the given one. |
| ChainValue.PoolChangeWhen | zebra-chain/src/block.rs:228-244 | A block has a change exactly if the sums of the balances of its transactions, one after the other, stay in range in every pool. |
| BalanceErrors.PoolChangeFails | zebra-chain/src/block.rs:228-244 | The error of a refused change of a block is that of the first sum of balances on the way that is out of range. |
| ChainValue.BlockShields | zebra-chain/src/block.rs:228-244 | An accepted block whose transactions all have a balance adds to the sprout pool what its join splits shield less what they deshield, and takes from the sapling and orchard pools the balances of its transactions. |
| ChainValue.OverflowingHasNoBalance | zebra-chain/src/transaction.rs:1136-1161 | A coinbase with two outputs of the maximum each is well formed, has no balance, and adds twice the maximum to the outputs. |
| ChainValue.OverflowingIsSkipped | zebra-chain/src/block.rs:233-236 | A block of that transaction alone has a change of zero. |
| ChainValue.OverwrittenIsZero | zebra-chain/src/block.rs:238-243 | The deferred part of the sum of balances, which is overwritten, was zero. |
| ChainValue.TransactionConserves | zebra-chain/src/transparent.rs:335-354 | A transaction that spends different unspent outputs moves its transparent balance out of the UTXO set. |
| ChainValue.BlockConserves | zebra-chain/src/block.rs:228-244 | So does a block, whose transactions may spend outputs of earlier ones. |
| ChainValue.FeeExact | zebra-consensus/src/transaction.rs:545-568 | A miner fee is what the four pools of a transaction leave over. |
| ChainValue.MinerFeeWhen | zebra-consensus/src/transaction.rs:553-568 | Exactly a coinbase has no fee; another transaction has one exactly if its inputs, outputs and join splits can be summed, its pools too from left to right, and these leave something over. |
| ChainValue.FeesExact | zebra-consensus/src/block.rs:293-315 | The fees of a block are what its transactions but the coinbase leave over. |
| ChainValue.FeesInAnyOrder | zebra-consensus/src/block.rs:294-315 | The responses of the transaction verifier sum to the fees of the block in whatever order they arrive, and are amounts that the loop can add. |
| ChainValue.MinerFeesExact | zebra-consensus/src/block/check.rs:308-382 | A coinbase is valid exactly if the sums on the way are in range, and it and the deferred pool together get at most subsidy and fees, and exactly that from NU6 on. |
| ChainValue.VerifiedIsBalanced | zebra-consensus/src/transaction.rs:555-568 | Every transaction of a verified block has a balance, so none is skipped. |
| ChainValue.FourPoolsGrow | zebra-chain/src/block.rs:228-244 | The four pools grow by what the coinbase creates less exactly the fees of the block. |
| ChainValue.BlockKeepsTransparentPool | zebra-chain/src/value_balance.rs:285-295 | A block that the state accepts, all of whose transactions have a balance, keeps the transparent pool equal to the sum of the UTXO set and every pool in range, whether it was verified or is below a checkpoint. |
| ChainValue.BlockDrifts | zebra-state/src/service/finalized_state/zebra_db/chain.rs:256-285 | Any accepted block moves the transparent pool ahead of the UTXO set by exactly what its skipped transactions net, and keeps every pool in range. |
| ChainValue.SkippedBreaksPool | zebra-chain/src/block.rs:233-236 | The state accepts a block of the overflowing coinbase: the UTXO set grows by twice the maximum, and the transparent pool does not change. |
| ChainValue.BlockAddsSubsidy | zebra-consensus/src/block/check.rs:308-382 | A verified block adds at most its subsidy to the supply, and exactly that from NU6 on. |
| ChainValue.BlockReverts | zebra-state/src/service/non_finalized_state/chain.rs:2252-2267 | Reverting the tip restores the pools from before it, so the expectation there holds. |
| ChainValue.ChainConserves | zebra-state/src/service/finalized_state/zebra_db/chain.rs:256-285 | Over any chain of accepted blocks from an empty state whose transactions all have a balance, the transparent pool is the sum of the UTXO set and every pool is in range. |
| ChainValue.ChainDrifts | zebra-state/src/service/finalized_state/zebra_db/chain.rs:256-285 | Over any chain of accepted blocks every pool is in range, and the transparent pool differs from the sum of the UTXO set by exactly what the transactions without a balance net. |
| ChainValue.ChainShields | zebra-chain/src/value_balance.rs:285-295 | Over any chain of such blocks from an empty state the sprout pool is everything that its join splits shielded less everything that they deshielded, and the sapling and orchard pools are the negated totals of all balances. |
| ChainValue.SupplyBounded | zebra-consensus/src/block/check.rs:308-382 | From any block on, as long as blocks are verified, the supply grows by at most the subsidies. |
| ChainValue.SupplySinceNu6 | zebra-consensus/src/block/check.rs:367-382 | From any block on, as long as blocks are verified and NU6 is active, the supply grows by exactly the subsidies. |
| MetaAddresses.ProgressIsOrder | zebra-network/src/meta_addr.rs:82-99 | The order of connection states is that of their progress from never attempted to failed. |
| MetaAddresses.ApplyExact | zebra-network/src/meta_addr.rs:1008-1128 | A change applies to an entry exactly if it has a score increment, or gossip is only about an entry that was never attempted and the change is to a later state if the last one is less than five seconds away, and else not before it. |
| MetaAddresses.TransitionsApply | zebra-network/src/meta_addr.rs:1086-1122 | Under clocks that do not go back, an attempt on a peer never attempted, a response or a failure after an attempt, and a failure after a response always apply, however close they are. |
| MetaAddresses.ApplyRecords | zebra-network/src/meta_addr.rs:1130-1184 | What each of the changes leaves in every field of the entry, by kind. |
| MetaAddresses.NewRecords | zebra-network/src/meta_addr.rs:942-956 | What each of the changes writes into every field of a new entry, by kind. |
| MetaAddresses.ApplyKeeps | zebra-network/src/meta_addr.rs:1008-1184 | Under clocks that do not go back, a never-attempted entry holds no local times, an attempted one never becomes never-attempted, local times never decrease, and gossip never changes the services and last seen time that an entry already has before its first attempt. |
| MetaAddresses.RunGrows | zebra-network/src/meta_addr.rs:1008-1184 | The same over any run of changes to an entry. |
| MetaAddresses.ScoreExact | zebra-network/src/meta_addr.rs:1061-1180 | A change with a score increment always applies; the score grows by the increment, and goes down exactly if the sum has more than 32 bits. |
| MetaAddresses.RunScore | zebra-network/src/meta_addr.rs:1154-1180 | Over any run of changes to an entry its score is the sum of all increments, in 32 bits. |
| MetaAddresses.FailedIsKept | zebra-network/src/meta_addr.rs:1026-1128 | For under five seconds after a failure every change is ignored, except a misbehavior change, which leaves the failed state. |
| MetaAddresses.LaterIsMoreRecent | zebra-network/src/meta_addr.rs:550-561 | A later response is at least as recent. |
| MetaAddresses.PeersCompare | zebra-network/src/meta_addr.rs:1187-1278 | Of two entries at different addresses exactly one comes first in peer order. |
| MetaAddresses.PeersJoin | zebra-network/src/meta_addr.rs:1187-1278 | The order of peers is transitive. |
| MetaAddresses.StateDecides | zebra-network/src/meta_addr.rs:112-135 | Of two entries in different states one comes before the other exactly if its state does: responded, never attempted, failed, attempt pending. |
| MetaAddresses.BeforeIsDecided | zebra-network/src/meta_addr.rs:1187-1278 | Entries are ordered by the first in which they differ: state, canonical ports first, older attempt, older failure, older response, newer untrusted last seen time, services, and address. |
| PeerBooks.CacheAgrees | zebra-network/src/address_book.rs:621-635 | If no entry at an IP responded after the cached one, the cache gives the answer of a scan. |
| PeerBooks.CacheExact | zebra-network/src/address_book.rs:621-635 | The cache gives the answer of a scan at every time exactly if no entry at the IP responded after the cached one. |
| PeerBooks.StoreKeepsLatest | zebra-network/src/address_book.rs:369-380 | Storing a changed entry keeps the cached entry the latest of its IP. |
| PeerBooks.ResponseRestoresLatest | zebra-network/src/address_book.rs:369-380 | A response makes the cached entry the latest again, whatever was evicted before. |
| PeerBooks.EvictLatest | zebra-network/src/address_book.rs:384-394 | After an eviction the cached entry is still the latest, exactly if it was not the evicted one or no other entry at its IP has responded. |
| PeerBooks.EvictedCacheIsWrong | zebra-network/src/address_book.rs:526-550 | Right after the cached entry is evicted the cache says ready, while a scan does so exactly if no other entry at the IP responded recently. |
| PeerBooks.InOrderIsSorted | zebra-network/src/address_book.rs:612-616 | Repeatedly taking the last peer lists every address of the book once, in peer order. |
| PeerBooks.BanExact | zebra-network/src/address_book.rs:460-470 | A ban removes addresses of its IP only, and all of them exactly if they are contiguous in peer order. |
| PeerBooks.BanLeavesSome | zebra-network/src/address_book.rs:444-480 | A ban leaves an entry at its IP in the book exactly if an entry of another IP comes between two of them in peer order. |
| PeerBooks.LaterStays | zebra-network/src/address_book.rs:460-470 | An entry of a banned IP stays if an entry of another IP comes between it and an earlier one of its IP. |
| PeerBooks.BanLeavesFailed | zebra-network/src/address_book.rs:444-480 | A run of five updates from a new book of any limit from three on, after which an IP is banned and a failed peer there is still in the book. |
| PeerBooks.RunFrozen | zebra-network/src/address_book.rs:417-423 | In any run with fewer further bans than are remembered, a banned IP stays banned, nothing is added there, and its entries stay as they were unless they are evicted. |
| PeerBooks.LeftIsReady | zebra-network/src/address_book.rs:621-635 | In any such run after a ban that leaves a peer, every change to that peer is ignored, its entry does not change, and the cache takes its IP for ready at every time. |
| PeerBooks.SurplusKeeps | zebra-network/src/address_book.rs:526-552 | After evicting surplus peers the book is within its limit, entries that stay are as they were, and each of them comes before each evicted one. |
| PeerBooks.UpdateKeeps | zebra-network/src/address_book.rs:416-559 | Under clocks that do not go back an update keeps the book within its limit, its entries consistent and growing, and the cached entry of every IP that is not stale the latest. |
| PeerBooks.UpdateExact | zebra-network/src/address_book.rs:436-508 | A change that applies, to an IP that is not banned, is stored exactly if its address is valid for outbound connections, its other information is too or it was attempted, and the score stays below the limit. |
| PeerBooks.RunSources | zebra-network/src/address_book.rs:482-499 | In any run, an entry that was not in the book as it is was put there by an update whose address is valid for outbound connections, and if it was never attempted, whose other information is too. |
| PeerBooks.PanicExact | zebra-network/src/address_book.rs:455-458 | In any reachable book an update panics exactly if there is no per-IP cache, the IP is not banned, and score and increment add up to at least 100 and less than 2^32. |
| PeerBooks.LimitExact | zebra-network/src/address_book.rs:444-480 | In any reachable book an update bans or panics exactly if its IP is not banned and score and increment add up to at least 100 and less than 2^32. |
| PeerBooks.PanicReached | zebra-network/src/address_book.rs:455-458 | In a new book that allows other than one connection per IP, of any limit, the first report of misbehavior by 100 or more panics. |
| PeerBooks.ForgivenByWrapping | zebra-network/src/meta_addr.rs:1154-1180 | A run of two reports after which a peer that had misbehaved is in the book with a score of zero. |
| PeerBooks.RunAgrees | zebra-network/src/address_book.rs:621-635 | In any run of updates the cache gives the answer of a scan at every time for every IP that is not stale. |
| PeerBooks.CacheStandsForScan | zebra-network/src/address_book.rs:621-635 | With one connection per IP, in any run of updates without evictions and bans, the cache gives the answer of a scan for every IP and time. |
| PeerBooks.EvictionMisleads | zebra-network/src/address_book.rs:526-550 | For every limit from two on, a run from a new book after which the cache says ready and a scan does not: peers elsewhere respond until two are left to the limit, two peers at an IP respond, the later one fails, and one more peer makes the book evict it. |
| PeerBooks.EvictionMisleadsFrom | zebra-network/src/address_book.rs:526-550 | The same from any reachable book with room for two peers in which none has failed or is being tried. |
| AddressBooks.AddressBook.IsReadyForConnectionAttemptWithIp | zebra-network/src/address_book.rs:621-635 | With a cache, for every IP that is not stale, an IP is ready exactly if no entry there has responded recently; without a cache every IP is ready. |
| AddressBooks.AddressBook.StoreEntry | zebra-network/src/address_book.rs:499-508 | The entry is stored, and cached if its response is the latest of its IP. |
| AddressBooks.AddressBook.FindLast | zebra-network/src/address_book.rs:527-530 | The loop finds the one peer after which no other comes. |
| AddressBooks.AddressBook.EvictSurplusPeers | zebra-network/src/address_book.rs:526-552 | The last peers are evicted one by one, with their cached copies, while there are too many. |
| AddressBooks.AddressBook.RunOf | zebra-network/src/address_book.rs:460-467 | Skipping to the first entry of an IP in peer order and taking entries while they have it gives the run that a ban removes. |
| AddressBooks.AddressBook.BanIp | zebra-network/src/address_book.rs:444-480 | The ban is recorded within the limit of bans, the cached entry of the IP is forgotten, and the first run of its entries is removed; the call panics exactly if there is no cache. |
| AddressBooks.AddressBook.Update | zebra-network/src/address_book.rs:416-559 | Under clocks that do not go back the book stays consistent and within its limit and its entries grow; book, result and stale IPs are those of the update on values. |
| AddressBooks.AddressBook.ApplyUpdate | zebra-network/src/address_book.rs:416-559 | A banned IP is ignored, a change that applies is stored, or bans its IP, or panics, and surplus peers are evicted, as the update on values says. |
| AddressBooks.AddressBook.Run | zebra-network/src/address_book.rs:416-559 | Any run of updates under clocks that do not go back ends with the book that the functions on values say, so all that is proved of runs holds of it. |
| SpentOutputs.FirstPass | zebra-consensus/src/transaction.rs:686-734 | The first pass fills the slot of every output that is known or in the chain, and leaves the others by index. |
| SpentOutputs.SecondPass | zebra-consensus/src/transaction.rs:736-763 | The second pass fills exactly the slots that were left. |
| SpentOutputs.SpentUtxos | zebra-consensus/src/transaction.rs:668-777 | There is a result exactly if every output is found in the block, the chain or the mempool; the map has each, the outputs are those of the inputs in order, and so are the outpoints that only the mempool has. |
| SpentOutputs.LookupExact | zebra-consensus/src/transaction.rs:689-760 | What is found is what is known from the block or in the chain, or for a mempool request what only the mempool has, as an output of the next height that is not from a coinbase. |
| SpentOutputs.CheckMaturity | zebra-consensus/src/transaction/check.rs:497-517 | The check on the outputs found passes exactly if no input spends a coinbase output on record that is less than 100 blocks old, or any with a transparent output where that is not allowed; otherwise it has the error of the first such input. Outputs of the mempool can be spent at once. |
| SpentOutputs.SpendExact | zebra-state/src/service/check/utxo.rs:190-217 | The same for one spend. |
| SpentOutputs.OutputsAlign | zebra-consensus/src/transaction.rs:769-776 | For inputs that all spend outputs, there is one output per input, at its position. |
| SpentOutputs.SigopsCountEveryInput | zebra-script/src/lib.rs:410-435 | Counting over pairs of inputs and outputs leaves out no input. |

## Left out

- Hashing and signatures: tree nodes, block hashes and identities are symbolic; the errors that the mountain range library returns for malformed entries are not modelled.
- HistoryTree.NonEmptyHistoryTree.FromCache: covers caches that hold the peaks of some leaves, because the library code that rejects others is not part of this model.
- `NonEmptyHistoryTree::try_extend`: it only repeats `push`.
- CheckpointVerification.CheckpointVerifier.QueueBlock: proof of work, difficulty, subsidy and Merkle root checks are one given verdict per block, because they do not touch the queue.
- Committing confirmed blocks to the state, and the future that sends a reset when that fails: a reset arrives with a call as a given tip.
- BatchControl.BatchSystem.PollReady: whether waiting tasks get the free permits first is a choice of each step, because the queue of waiters is not modelled; nor is the panic of polling a finished worker's join handle a second time.
- Worker panics, wakeups, pinning and spans: only the order of sends, receives, closes, permits, timer and completions is modelled, and time passes in single steps.
- Version 6 transactions, the amounts that they burn, and the future upgrade: behind unstable build flags.
- SpentOutputs.CheckMaturity: heights have no upper bound, because the panic near the largest height needs a coinbase at a height that no chain has.
- Products and quotients of amounts, and their encodings: they add no conservation.
- ChainValue.ChainConserves: starts from an empty state after genesis, whose outputs cannot be spent.
- MetaAddresses.ScoreExact: scores wrap around, as in release builds; builds that check for overflow panic at the same sums.
- Sanitizing, reconnection order and metrics of the address book, RPC, configuration, logging and progress bars.
