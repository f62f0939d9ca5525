# SSV oracle: a verified model

The SSV oracle keeps a table of clusters and validators in step with the events of a contract,
commits at scheduled epochs a Merkle root of the clusters' effective balances, and submits the
single balances with proofs once a root is accepted. This project models that pipeline in
Dafny and proves what each stage keeps and what the stages guarantee together:

- **The sync** applies exactly the chain's events, in order, in every interleaving of fetcher,
  channel and processor and across failures, cancellations and crashes (`Events`, `Chain`,
  `Execution`, `Syncer`, `SyncProtocol`). The head overlay, an in-memory replay for a few
  clusters, is the clusters table of a full sync restricted to them.
- **The tree** gives every entry of a balance map a proof of logarithmic length, and whatever
  verifies against its root is an entry of the map (`Merkle`, `MerkleProofs`, `ClusterId`).
- **The oracle** commits the root that the active validators and the beacon determine, attempts
  each scheduled target at most once, and never rewrites a stored commit (`Phase`, `Aggregate`,
  `OracleRun`, `Settlement`, `Oracle`).
- **The transactions** of one send share a nonce, their fees are determined by what the node
  quotes and replies, stay within bounds and rise by at least the replacement bump; the result
  is decided by the last attempt (`TxManager`).
- **The updater** submits only entries of the committed balances with proofs that lead to the
  committed root, accounts for every entry and counts every leaf once (`Visits`, `Updater`). From
  end to end, a submitted figure is that of the validators active by the contract's events
  (`Updater.EventsToUpdates`). The API's difference of two commits is an exact patch (`Diff`).

## How the model is built

The hash function is a parameter `k` of everything that hashes: each result holds for every
function from byte strings to 32 bytes, Keccak-256 among them. Where a result needs the hash to
be collision free, it says instead that a collision is found between two explicit finite sets of
strings: those hashed in building a tree and those hashed in checking a proof.

What lies outside the program (RPC providers, the beacon node, the contract, the database file,
clocks, contexts) answers with arbitrary values, failures included, within the little that is
stated about it: a log query returns the chain's logs of the range in some order, a transaction
commits all its statements or none, the chain mines at most one transaction for each nonce.
The chain of contract logs is one fixed sequence in which no two logs share a position.

What a class asks of its surroundings it records in ghost fields, each request with its answer:
head blocks, look-ups, status writes, balances, calls of the contract, fee quotes, transactions
sent and receipts, and a count of failures. Contracts are stated about these records, so that a
method that skips a request, ignores an answer or reports a failure that did not happen does not
meet them.

Objects whose methods change fields are classes with those fields; their methods are proved
against functions on values, and the lemmas are about those functions; what a function computes
is also stated outright, in the terms of the data, so that it cannot be wrong together with the
method that follows it (`Events.Carries`, `Merkle.IsPairedTree`, `Aggregate.HasFigures`,
`TxManager.IsRaise` and the like). Machine integers are
unbounded integers with the wrap-around written out; where the program relies on no wrap, the
exact condition is proved. `Syncer` models one call of the sync as uninterrupted code;
`SyncProtocol` has the same steps as a state machine and covers their interleavings.

Some results are negative, with the exact condition under which the program meets the property:
growing the batch size and advancing the fetch loop near the end of 64-bit arithmetic
(`Execution.GrowthStaysBounded`, `Execution.RangesRunForwardExactly`), the next target near it
(`Phase.NextTarget`), the 32-bit balance figure (`Aggregate.ExactBelow32Bits`), a checkpoint
that jumps to a later target (`OracleRun.JumpToTargetIsMissed`, `OracleRun.NeverMissedExactly`),
confirming a leftover pending row (`Settlement.JustifiedExactly`,
`Settlement.RunJustifiedExactly`, `Settlement.LeftoverIsConfirmed`), a gas bump that overflows
(`TxManager.BumpRisesExactly`, `TxManager.FeesBehaveExactly`, `TxManager.RisesAreFewExactly`),
the capped cancel fee (`TxManager.CancelReplacesExactly`) and lists that name a cluster twice
(`Diff.PatchExactly`).

## Model

| member | source | states |
|---|---|---|
| ClusterId.ClusterIDBytesExact | eth/syncer/types.go:100-123 | The bytes hashed for a cluster id are equal if and only if the owners are equal and the operators are equal up to order |
| ClusterId.ComputeClusterID | eth/syncer/types.go:100-123 | The copy, sort and fixed-width append loop yields the hash of the canonical encoding, whatever order the operators come in |
| ClusterId.EncodingOutright | eth/syncer/types.go:100-123 | The string hashed for an id is the 20 bytes of the owner and then each operator id, ascending, as 32 bytes with the most significant first |
| Events.ReplayConcat | eth/syncer/syncer.go:226-243 | Replaying two stretches of logs one after the other is replaying their concatenation, failures included |
| Events.ReplayFailsExactly | eth/syncer/syncer.go:248-283 | A replay fails if and only if some log does not decode or adds a key of the wrong length; the foreign key on clusters never fails |
| Events.FailsOnSpoilt | eth/syncer/syncer.go:248-283 | That is, if and only if some log is malformed or adds a validator whose key is not 48 bytes long |
| Events.ReplayKeepsKeys | storage/schema.sql:40-44 | Replay keeps every row under the id of its own owner and operators, and every validator attached to an existing cluster |
| Events.StoredValidators | eth/syncer/syncer.go:324-347 | After a replay a validator is stored if and only if the log adds it and does not remove it later |
| Events.StoredClusters | eth/syncer/syncer.go:373-385 | After a replay a cluster has a row if and only if it has an event, and every column of the row, owner, operators, validator count, network fee index, index, active flag and balance, is the field of that name of its last event |
| Events.ActiveAfterReplay | storage/storage.go:385-408 | The active validators after any replay are those whose last add or remove is an add and whose cluster's last event says active |
| Events.ValidatorsUntouched | eth/syncer/syncer.go:324-385 | However often other events rewrite its row, a cluster keeps its validators while none of them is added or removed |
| Events.ReactivationRestores | eth/syncer/syncer.go:349-355 | Liquidation hides all of a cluster's validators; whatever lies between it and the reactivation, validator events of the cluster aside, the reactivation brings back exactly those that were active before |
| Execution.GrowthStaysBounded | eth/execution/batch_size.go:61-76 | Growing keeps every size between minimum and maximum if and only if one step above the maximum does not wrap 64 bits |
| Execution.AdaptiveBatchSize.constructor | eth/execution/batch_size.go:22-37 | Defaults replace zeros, the minimum is lowered to the maximum if above it, and the size starts at the maximum within 1 <= min <= current <= max |
| Execution.AdaptiveBatchSize.Decrease | eth/execution/batch_size.go:48-58 | The size halves down to the minimum, strictly shrinks until it is there, and stays within bounds |
| Execution.AdaptiveBatchSize.Increase | eth/execution/batch_size.go:61-76 | The size grows by a tenth, at least 1 and at most 100, up to the maximum, in 64-bit arithmetic; it stays within bounds and strictly grows until it is at the maximum unless the step above the maximum wraps |
| Execution.StepsExactly | eth/execution/batch_size.go:48-76 | Growing adds a tenth, at least 1 and at most 100, unless the maximum stops it; shrinking halves unless the minimum does |
| Execution.GroupLogsByBlock | eth/execution/client.go:258-291 | Fails if and only if a block time is missing; otherwise the groups are non-empty, their blocks strictly increase, and flattened they are the sorted permutation of the logs |
| Execution.RangesRunForwardExactly | eth/execution/client.go:138-145 | For every current block and size the computed range lies between the current and the last block if and only if neither the last block plus the maximal size nor the block after the last exceeds 64 bits |
| Execution.RangeHasSize | eth/execution/client.go:138-143 | A range has as many blocks as the batch size says, unless the last block cuts it short |
| SyncProtocol.SameRanges | eth/execution/client.go:138-143 | The ranges of the protocol are those of the fetch loop, as long as these run forward |
| Execution.Client.PackLogs | eth/execution/client.go:233-256 | The packed groups are grouped by strictly increasing block, sorted, and a permutation of the logs; packing fails only with the request for block times |
| Execution.Client.FetchRange | eth/execution/client.go:145-171 | One range yields exactly the chain's logs of the range in groups and grows the batch size, or is refused and shrinks it, or fails with a request |
| Execution.Client.FetchLogs | eth/execution/client.go:131-184 | For every range and every sequence of refusals and failures: the batch size is that of the ranges fetched and refused so far; if ranges run forward, the callbacks are sized by it and cover adjacent, increasing, non-empty ranges from fromBlock on, each with exactly the chain's logs of its range in order, up to toBlock if the call completes; it needs no more rounds than blocks to fetch plus batches refused, and fails only if a request does |
| Execution.BatchesAreSlice | eth/execution/client.go:131-184 | Whatever the batching, the logs handed over are those of the chain from the first block to the last one covered, without gap or repetition |
| Chain.SliceMembers | eth/execution/client.go:335-362 | A range query's answer holds a log if and only if the chain has it in a block of the range |
| Chain.SliceConcat | eth/execution/client.go:138-181 | The logs of two adjacent ranges make up the logs of the whole range |
| Chain.SortedSlice | eth/execution/client.go:258-270 | Sorting any rearrangement of a range's logs restores the chain's order |
| Storage.Storage.QueryClusterRowsBatch | storage/storage.go:288-321 | One query yields exactly the rows of the ids that exist, no id twice |
| Storage.Storage.GetFinalizedClusters | storage/storage.go:236-284 | The chunked queries together yield exactly the rows of the requested ids that exist, and the cursor of the same state |
| Storage.Storage.GetActiveValidators | storage/storage.go:385-408 | Every validator of an active cluster exactly once, nothing else, ordered by cluster and within it by key, byte by byte |
| Storage.Storage.InsertPendingCommit | storage/storage.go:411-431 | A second row for an epoch is ignored, a second epoch for a block is an error, otherwise a pending row is added and nothing else changes |
| Storage.Storage.UpdateCommitStatus | storage/storage.go:434-444 | Only a pending row changes, only in status and transaction hash, and a missing hash keeps the stored one |
| Storage.Storage.GetCommitByBlock | storage/storage.go:447-470 | Returns a stored row of that block, or none only if no row has the block |
| Storage.Tx.InsertValidator | storage/storage.go:699-711 | A key of the wrong length or an unknown cluster is refused; a validator already stored is ignored |
| Storage.Tx.Commit | storage/storage.go:592-609 | All writes of the transaction replace the tables at once, or none does |
| Syncer.OverlayAgrees | eth/syncer/headstate.go:98-120 | Replaying events on the restricted overlay gives the restriction of the fully replayed clusters table |
| Syncer.OverlayFailsExactly | eth/syncer/headstate.go:56-83 | The overlay replay fails if and only if some log does not decode; unlike the sync it accepts added keys of the wrong length |
| Syncer.SyncAdvances | eth/syncer/syncer.go:202-246 | If the tables are the chain's replay up to the cursor, applying the next range makes them the replay up to its end, and it fails only if the whole replay would |
| Syncer.HeadStateIsFullSync | eth/syncer/headstate.go:14-27 | The head state of the requested clusters at a block is what a full sync to that block would leave for them |
| Syncer.HeadExtends | eth/syncer/headstate.go:28-88 | The head state at a later block is the head state at an earlier one with the events between applied |
| Syncer.SyncedRows | storage/storage.go:236-263 | The rows read together with the cursor are the head state at the cursor |
| Syncer.SyncedFromLast | eth/syncer/syncer.go:324-385 | A synced database has rows for exactly the clusters with events up to its cursor, each with the fields of the cluster's last event |
| Syncer.HeadFromLast | eth/syncer/headstate.go:98-119 | The head state has rows for exactly the requested clusters with events up to its block, each with the fields of the cluster's last event |
| Syncer.EventSyncer.ProcessLog | eth/syncer/syncer.go:248-283 | One log changes the transaction's tables as the replay says: an unknown signature is skipped, a log that does not decode is an error; unless a statement fails it succeeds if and only if the replay does |
| Syncer.EventSyncer.HandleValidatorAdded | eth/syncer/syncer.go:324-340 | The cluster row is written before the validator, so that the foreign key holds, and both as the replay says |
| Syncer.EventSyncer.HandleValidatorRemoved | eth/syncer/syncer.go:342-347 | The validator is deleted and the cluster row takes the event's values |
| Syncer.EventSyncer.ProcessBatch | eth/syncer/syncer.go:202-246 | On success the tables are the replay of all the batch's logs with the cursor at its end; on failure nothing has changed; unless a statement fails it succeeds if and only if the logs can be replayed |
| Syncer.EventSyncer.SyncToBlock | eth/syncer/syncer.go:88-177 | If ranges run forward to the target, the tables stay the chain's replay up to the cursor however the call ends, the cursor never passes the target and reaches it on success; unless something fails the call succeeds if and only if all logs up to the target can be replayed |
| Syncer.EventSyncer.BuildHeadStateSnapshot | eth/syncer/headstate.go:28-88 | One head block is asked for, and the overlay is the state of the requested clusters at the later of that head and the cursor read with the rows, although further batches are committed between the reads; unless something fails, its errors are those of the replay too |
| Syncer.EventSyncer.SnapshotExactly | eth/syncer/headstate.go:28-119 | Of the clusters asked for, the overlay holds exactly those with events up to the later of cursor and head, each with the fields of its last event |
| SyncProtocol.StepKeepsInv | eth/syncer/syncer.go:88-246 | Every step of fetcher, channel, processor, reader with its own refused batches, cancellation, restart or crash keeps the invariant that ties tables, open transaction, queued batches and fetcher position together, and never moves the cursor back |
| SyncProtocol.EveryRun | eth/syncer/syncer.go:88-246 | After any sequence of steps the tables are the replay of exactly the logs above the initial cursor up to the stored one, a successful call has reached its target, and a finished overlay is the head state at the later of the cursor it was read with and the head it asked for |
| SyncProtocol.CursorMonotone | eth/syncer/syncer.go:202-246 | Over any run the stored cursor never decreases |
| SyncProtocol.CursorStopsAtBadLog | eth/syncer/syncer.go:226-243 | No run moves the cursor to or past the block of a log that cannot be applied |
| SyncProtocol.NeverStuck | eth/syncer/syncer.go:113-177 | Until the call returns, fetcher or processor can take a step that is no failure or cancellation, unless the log at hand cannot be applied |
| SyncProtocol.StepWorks | eth/syncer/syncer.go:113-200 | Every step of fetcher and processor, failing ones included, leaves strictly less work; refused batches, cancellation and the overlay's reader leave it unchanged |
| SyncProtocol.CallEnds | eth/syncer/syncer.go:113-200 | From any reachable state a run without restarts has at most as many steps of fetcher and processor as there was work |
| SyncProtocol.CallReturns | eth/syncer/syncer.go:88-200 | From any reachable state a run of at most as many steps as there is work makes the call return; if nothing went wrong before and all logs can be applied, it returns success with the target reached |
| SyncProtocol.CallIsBounded | eth/syncer/syncer.go:91-112 | A fresh call has six steps of work for each block up to the target, one for each log, and five |
| Merkle.LeafBytesInjective | merkle/encoding.go:19-25 | The 64-byte leaf encoding determines cluster id and balance |
| Merkle.PairBytesCommutes | merkle/tree.go:144-152 | The pair encoding does not depend on the order of the two children |
| Merkle.PairBytesInjective | merkle/tree.go:144-152 | The pair encoding determines the two children up to their order |
| Merkle.MakeLeaves | merkle/tree.go:106-116 | Every cluster of the map has exactly one leaf with its balance and leaf hash, and there are no others |
| Merkle.HashLevel | merkle/tree.go:132-152 | Node i of the next level is the hash of nodes 2i and 2i + 1 put together, an odd last one with itself, the one that is smaller at the first differing byte in front |
| Merkle.BuildLayers | merkle/tree.go:118-130 | The layers are the successive levels from the leaf hashes to a single node |
| Merkle.LastLayerIsRoot | merkle/tree.go:118-130 | The last layer is the root alone |
| Merkle.NewTree | merkle/tree.go:46-66 | For every map the result is a tree of that map, spelled out: one twice-hashed leaf of id and balance word for each cluster, in ascending order of hashes, and layer upon layer of pairs up to the root; the empty map has the hash of no bytes, a single cluster its leaf hash |
| Merkle.TreeExactly | merkle/tree.go:46-152 | This description and the recursive definition the other results use fit the same trees |
| Merkle.PairedRoot | merkle/tree.go:46-152 | Any tree so described has the root of its map |
| Merkle.LeafOutright | merkle/encoding.go:19-25 | A leaf hash is the hash of the hash of 64 bytes: the id and the balance in 32 bytes, the most significant first |
| Merkle.TreeRootIsRootOfMap | merkle/tree.go:46-66 | The root depends on the map alone, not on its iteration order or on how the sort treats equal hashes |
| Merkle.TreesAgree | merkle/tree.go:46-66 | Any two builds of one map agree on root, layers and leaf hashes |
| MerkleProofs.ParentOfSiblings | merkle/tree.go:95-104 | Hashing a node with its sibling gives its parent, at either side and for the odd last node |
| MerkleProofs.ProofFolds | merkle/tree.go:69-84 | Folding the siblings from any leaf leads to the root |
| MerkleProofs.ProofLength | merkle/tree.go:69-84 | A proof has as many siblings as the number of leaves must be halved, rounding up, to leave one |
| MerkleProofs.DepthIsLog | merkle/tree.go:69-84 | That number is the logarithm to base 2 rounded up |
| MerkleProofs.FindLeaf | merkle/tree.go:86-93 | Finds the index of the cluster's leaf, or reports that there is none |
| MerkleProofs.Climb | merkle/tree.go:76-104 | From the leaf layer up, the path holds in each layer the neighbour of the node above the leaf, the node itself if it is an odd last one |
| MerkleProofs.GetProof | merkle/tree.go:69-84 | A proof is returned if and only if the cluster is in the map; it folds from the cluster's leaf hash to the root and has logarithmic length |
| MerkleProofs.ProofSound | merkle/tree.go:46-152 | If a proof of any length folds from the leaf of an id and balance to the root of a map, the map has that entry, or a string hashed for the tree and a different one hashed for the proof collide |
| MerkleProofs.ProofExists | merkle/tree.go:69-84 | Every entry has an accepted proof whose check hashes only strings hashed in building the tree |
| MerkleProofs.RootBindsMap | merkle/tree.go:46-66 | Two maps with one root are equal, or building the two trees exhibits a collision |
| Phase.Validate | oracle/phase.go:20-42 | Accepts a schedule if and only if it is non-empty, intervals are positive, starts ascend, and each start is a round of the phase before |
| Phase.PhaseAt | oracle/phase.go:45-53 | The phase in force: the last one started by the epoch, or the first |
| Phase.NextExactIsNext | oracle/phase.go:56-65 | For a valid schedule the next target is the least target of the whole schedule above the epoch; it never jumps over a later phase's start |
| Phase.AlignmentIsNeeded | oracle/phase.go:32-38 | For ascending phases, that holds for every epoch if and only if each phase starts on a round of the one before |
| Phase.NextTarget | oracle/phase.go:56-65 | With 64-bit arithmetic the result is the schedule's next target if and only if that target fits in 64 bits |
| Aggregate.DeduplicatePubkeys | oracle/oracle.go:275-287 | Every public key of the validators exactly once |
| Aggregate.AggregateByCluster | oracle/oracle.go:289-321 | Each cluster with a validator exactly once, with the figure of its total: 32 ETH for each of its validators and what their known balances exceed that by, kept in 64 bits, in whole ETH, cut to 32 bits |
| Aggregate.TotalExactly | oracle/oracle.go:289-321 | A cluster's total is 32 ETH times its validators plus the sum of each known balance's excess over 32 ETH |
| Aggregate.RaisedBalance | oracle/oracle.go:289-321 | Raising one key's balance from 32 ETH or more raises the totals of exactly the clusters that list it, by the same amount |
| Aggregate.FetchBalances | oracle/oracle.go:249-273 | The beacon is asked once, for every validator key once, or not at all if there is no validator; the figures are those of the balances in its recorded answer, and there are none exactly if it gave none |
| Aggregate.KeysSuffice | oracle/oracle.go:249-273 | If the answer agrees with a beacon state on the keys asked for, the root is that of the whole state |
| Aggregate.ExactBelow32Bits | oracle/oracle.go:289-321 | The stored figure is the floored total in ETH if and only if the total is below 2^32 ETH |
| Aggregate.AtLeast32PerValidator | oracle/oracle.go:289-321 | While the validator count times the largest balance stays below 2^32 ETH, the figure is the floored total and at least 32 for each validator |
| Aggregate.Conservation | oracle/oracle.go:289-321 | The clusters' totals add up to the validators' total |
| Aggregate.StoredConservation | oracle/oracle.go:289-321 | For whole-ETH balances without overflow the stored figures add up to the validators' total |
| Aggregate.TotalAnyOrder | oracle/oracle.go:289-321 | A cluster's total does not depend on the order of the validators |
| Aggregate.RebuildAnyOrder | oracle/oracle.go:239-247 | Any permutation of stored balances with distinct ids gives the same map |
| Aggregate.BuildTree | oracle/oracle.go:239-247 | The tree built from a balance list is the tree of the map the list denotes |
| Aggregate.RootIsDetermined | oracle/oracle.go:152-180 | The committed root is a function of the set of active validators and the beacon's balances alone, whatever order validators and clusters are listed in |
| OracleRun.AnyWritesKeepRows | storage/storage.go:411-444 | Under any sequence of commit writes no row is lost, root, block and balances never change, a settled row never changes, and no two epochs share a block |
| OracleRun.SettledOnce | oracle/oracle.go:76-147 | Over any checkpoints, repeated or out of order, targets are settled in strictly increasing order, so none is attempted twice, and each is a target of the schedule |
| OracleRun.SettledOnceAcrossRestarts | oracle/oracle.go:76-92 | Over any number of restarts whose finalized epoch has not gone back, decisions of a later session settle higher targets than those of an earlier one |
| OracleRun.AttemptedExactly | oracle/oracle.go:110-145 | A checkpoint leads to an attempt if and only if its fully finalized epoch is a target above everything finalized before with no other target between |
| OracleRun.JumpToTargetIsMissed | oracle/oracle.go:121-131 | A concrete jump to a target epoch that is not attempted: only the earlier target is recorded, as missed |
| OracleRun.NeverMissedExactly | oracle/oracle.go:121-131 | The missed branch is never taken if and only if every target passed was finalized on its own before anything beyond it |
| OracleRun.AttemptedUpTo | oracle/oracle.go:110-145 | While nothing was missed, every target at or below the highest finalized epoch has been attempted |
| OracleRun.GapFree | oracle/oracle.go:110-145 | On a stream that never jumps by more than one epoch nothing is missed and every target passed is attempted |
| Settlement.ConfirmedExactly | oracle/oracle.go:186-236 | A call of commit settles on confirmed if and only if the contract returned its root for the block or its own transaction carrying the root succeeded |
| Settlement.SentExactly | oracle/oracle.go:186-224 | The contract is asked for the block's root first, and the call's root is sent for the block if and only if the answer was an error or all zeros |
| Settlement.RowAfterCall | oracle/oracle.go:182-236 | After a call a new row holds what was computed and a found pending one keeps its own; it is confirmed if and only if the status is written and the contract had this root or the transaction succeeded, failed if it is written otherwise, with the transaction's hash if that is known |
| Settlement.JustifiedExactly | oracle/oracle.go:182-236 | On any table, before a stored row is settled: whatever the contract answers and whichever write goes through, all confirmed rows keep accepted roots if and only if the epoch has no pending row of another root or block that was never accepted |
| Settlement.RunJustifiedExactly | oracle/oracle.go:182-236 | Over a run likewise: with the contract's answers and the status writes left open, confirmed rows surely carry accepted roots after it if and only if no call of the run meets such a leftover from before it |
| Settlement.LeftoverIsConfirmed | oracle/oracle.go:182-236 | A concrete run in which it fails: a stored root whose status write failed is confirmed by a later commit of another root for the same epoch and checkpoint, computed from a later state |
| Settlement.RootFromEvents | oracle/oracle.go:152-180 | A call with a root verified the checkpoint's block root and then asked for the keys of exactly the validators whose last event up to its block is an add and whose cluster's last event says active; root and balances are those of these validators and of the answer |
| Settlement.RowFromEvents | oracle/oracle.go:152-184 | Every row a run adds is that of a call for its epoch: its balances are the figures of exactly the validators active by the events, with what the beacon node answered to that call, and its root is theirs |
| Settlement.CallsKeepRows | storage/storage.go:411-444 | Under any sequence of commit calls no row is lost, fixed columns and settled rows never change, and blocks stay distinct |
| Settlement.RunKeepsRoots | oracle/oracle.go:152-184 | Under any calls by the book every row's root stays the root of its own stored balances, each listed once |
| Settlement.PendingExactly | oracle/oracle.go:182-236 | A row is pending after a run if and only if it was pending before or not there, and no status write for it went through |
| Settlement.OneWriteEach | oracle/oracle.go:182-236 | If no target is attempted twice, no target has two status writes |
| Oracle.Oracle.Prepare | oracle/oracle.go:152-180 | The beacon node is asked to verify the checkpoint's block root, and once it did for the keys of exactly the validators active at the later of cursor and block; there is a root if and only if it was asked and declined nothing, and it is the one of these validators and the recorded answer; nothing is asked only if the sync or a statement fails |
| Oracle.Oracle.Settle | oracle/oracle.go:186-236 | The contract is asked once, the root sent exactly if it is not known to have one, and one status written: confirmed if and only if the chain is seen to accept the root |
| Oracle.Oracle.Commit | oracle/oracle.go:152-237 | On any table one call is one recorded attempt by the book for its checkpoint, and rows, requests to beacon node and contract, and status writes change by its effect alone; it stops early only if something failed or was declined, or the block already has a row |
| Oracle.Oracle.HandleCheckpoint | oracle/oracle.go:110-145 | One turn decides as the schedule prescribes and calls commit exactly if the decision is an attempt, for its target and the checkpoint with its block and block root; the next target only moves up and is again the schedule's next |
| Oracle.Oracle.Run | oracle/oracle.go:67-147 | Over any checkpoints and any rows: commit is called exactly for the targets attempted and their checkpoints, in strictly increasing order, each call by the book; all requests to beacon node and contract are those of the calls; no target gets two status writes, and a row of the run is pending if and only if its write failed; rows keep their guarantees; with blocks in order every root is that of the checkpoint's own block |
| Oracle.GapFreeCommitsAll | oracle/oracle.go:110-145 | On a stream that never jumps by more than one epoch commit is called for every target passed |
| TxManager.TxPolicy.ApplyDefaults | txmanager/config.go:34-53 | Zero fields take their defaults, the rest stay, and the result is acceptable if and only if no field was out of range |
| TxManager.TxPolicy.Validate | txmanager/config.go:61-81 | Accepts exactly the policies the fee results need |
| TxManager.BumpRisesExactly | txmanager/manager.go:398-402 | An acceptable bump raises every fee from 1 gwei by at least a tenth if and only if adding 100 to the percentage does not overflow 64 bits |
| TxManager.BumpExactly | txmanager/manager.go:398-402 | Without overflow a bumped fee is the fee and its bump percentage together, rounded down |
| TxManager.CancelReplacesExactly | txmanager/manager.go:435-442 | The cancel fee lies between the last fee cap and the maximum if and only if the bump does not overflow, and then is a full bump if and only if the bump does not exceed the maximum |
| TxManager.SuggestionExactly | txmanager/manager.go:549-585 | Fees are suggested if and only if tip and base fee were reported and the base fee does not exceed the maximum; the tip wanted is the higher of the reported one and 1 gwei, the fee cap the lower of twice the base fee with that tip and the maximum, the tip the lower of the one wanted and the fee cap |
| TxManager.TxManager.SuggestGasFees | txmanager/manager.go:549-585 | The node is asked once, and the result is the suggestion for its recorded answer |
| TxManager.TxManager.BumpOrResuggest | txmanager/manager.go:406-432 | The node is asked again if and only if the bumped cap does not exceed the maximum; there are no new fees if and only if it does or the reported base fee does; otherwise the new tip is the higher of bumped and suggested tip, the new cap the higher of bumped and suggested cap, or both are the bumps if no tip or no header came |
| TxManager.RaisedInBounds | txmanager/manager.go:406-432 | Unless the bump overflows, new fees stay within bounds and both strictly rise, by the bump at least |
| TxManager.TxManager.FindMinedReceipt | txmanager/manager.go:590-603 | The receipts are asked for in order up to the first that exists; none is found only if every transaction was asked for and had none |
| TxManager.SearchedAll | txmanager/manager.go:590-603 | If none is found, the node was asked for the receipt of every transaction and had none; one found was given by it |
| TxManager.TxManager.CancelTx | txmanager/manager.go:435-478 | At most one cancel transaction, a zero transfer with the same nonce at the capped bump of the fee; there is none only if it could not be signed |
| TxManager.TxManager.React | txmanager/manager.go:216-322 | For each reply and end of the wait: the requests it leads to and the result it forces, or the fees the next attempt uses |
| TxManager.TxManager.SendTransaction | txmanager/manager.go:154-333 | The node's log grows by exactly the requests of the recorded trace: quotes, at most MaxAttempts payloads and one cancel, all with one nonce, waits, and the search after a nonce too low; every fee is the one the quotes and replies determine; the result is the one the last attempt and what followed it determine; errors these do not explain are failed requests; a receipt returned is in the chain |
| TxManager.FeesExactly | txmanager/manager.go:187-322 | The first attempt has the fees suggested for its quote; one after an underpriced or timed-out attempt has of tip and cap the higher each of that attempt's bump and the suggestion; one after another sending error has the same fees |
| TxManager.OutcomeExactly | txmanager/manager.go:187-333 | For each error, the last reply, wait and quote that it stands for, both ways; a cancel is tried if and only if the call gives up on fees or attempts |
| TxManager.NothingSentExactly | txmanager/manager.go:154-182 | The same for a call that sends nothing: fees are unavailable if and only if the node was asked and did not report a tip and a base fee up to the maximum |
| TxManager.CancelExactly | txmanager/manager.go:435-478 | A cancel takes the same nonce, for its tip as for its cap the lower of the maximum and the bump of the fee cap at hand, that of the last attempt or the one that was to replace it |
| TxManager.PublishedExactly | txmanager/manager.go:204-266 | Published are exactly the transactions of attempts the node accepted or knew already |
| TxManager.FeesBehaveExactly | txmanager/manager.go:154-333 | Over all traces, every fee satisfies 1 gwei <= tip <= fee cap <= maximum and both strictly rise after each underpriced or timed-out attempt, if and only if the bump does not overflow |
| TxManager.CancelInBounds | txmanager/manager.go:435-442 | A cancel of a call lies between the last fee cap and the maximum and is a full bump or the maximum, unless the bump overflows |
| TxManager.ReceiptWasGiven | txmanager/manager.go:590-603 | A receipt returned was given by the node in this call, for a payload that it took |
| TxManager.AtMostOneMined | txmanager/manager.go:154-333 | Of all payload and cancel transactions of a call at most one is mined |
| TxManager.NoErrorMeansDone | txmanager/manager.go:154-333 | A return without error carries the successful receipt of a payload that a node took, no cancel was tried, and nothing else the call sent is mined |
| TxManager.RisesAreFewExactly | txmanager/manager.go:187-322 | However many attempts are allowed, fees rise at most 10 * (MaxFeePerGasGwei - 1) times, if and only if the bump does not overflow |
| Visits.SubmissionIsCommitted | updater/updater.go:391-399 | A submission whose proof leads to a committed root is an entry of the balances committed to, or a collision is exhibited |
| Visits.PassCarries | updater/updater.go:359-411 | Every update call of a pass carries an entry of the balances with a proof of logarithmic length to the root |
| Visits.EachCountedOnce | updater/updater.go:297-347 | Every visited leaf lands in exactly one of updated, skipped, failed and set aside |
| Visits.StatsExactly | updater/updater.go:240-347 | Which visits each counter counts: updates, leaves passed over, errors, in the first pass; updates, nothing to do, errors and reverts in the second; all stale ones as failed without an overlay |
| Visits.CountersExactly | updater/updater.go:240-284 | The counters never exceed the number of leaves and reach it if and only if all were visited and none set aside was dropped by an abort or a cancelled second pass |
| Visits.OneLeafPerBalance | updater/updater.go:287-295 | For distinct ids the tree has one leaf for each stored balance |
| Visits.VisitExplained | updater/updater.go:359-411 | A visit ends with the entry submitted, found equal, without a row, reverted for the contract's reason or failed, and reports an update exactly in the first case |
| Visits.EveryEntryHandled | updater/updater.go:219-285 | Unless the passes are aborted or cancelled, every entry of the committed balances has a final visit, which ended in one of these ways |
| Visits.RetriesExactly | updater/updater.go:240-347 | A revert for MustUseLatestRoot or RootNotFound is the last visit and nothing is retried; otherwise an overlay is asked for if and only if some visit was reverted for IncorrectClusterState or ClusterIsLiquidated, and second visits are on its rows |
| Visits.RetriedOnce | updater/updater.go:240-347 | A leaf reverted for one of these two, in a pass that is not aborted, gets exactly one second visit if the overlay came and nothing was cut short; a leaf that ended in any other way gets none |
| Visits.SubmittedFromLast | updater/updater.go:359-411 | The cluster snapshot of every update call of a pass has, field by field, the values of the cluster's last event up to a block of the range in which its row was read |
| Visits.UpdateFromEvents | updater/updater.go:359-411 | Every update call for a row from events carries the row's block and, for a cluster with active validators, the figure of exactly the validators active by these events |
| Updater.EventsToUpdates | updater/updater.go:219-285 | From events to submissions: what a completed event submits for a row that a run of the oracle added is the figure of the validators active by the events up to the last block of that row's call and of what the beacon node answered to it |
| Updater.OneEnding | updater/updater.go:168-217 | Event, last completed block and the database's answers leave one ending for an event |
| Updater.EndingExactly | updater/updater.go:168-217 | For each ending, the block and the final answer it stands for, both ways; a look-up is repeated exactly after one that found nothing, unless the handling stops |
| Updater.CompletedRise | updater/updater.go:175-179 | The completed events of a stream have strictly rising blocks above the last completed one, so none completes twice |
| Updater.StreamBelongs | updater/updater.go:168-217 | Every update call of a stream leads to the root of one of its completed events for that event's block |
| Updater.Updater.LookUp | updater/updater.go:71-94 | A row found, in the database or the overlay, belongs to the id: its owner and operators hash to it |
| Updater.Updater.ProcessCluster | updater/updater.go:359-411 | Look-up, requests and result are those of a visit: nothing is asked without a row, the leaf is submitted with its proof exactly if the contract's balance differs; success leaves the contract with that balance |
| Updater.Updater.ProcessAllClusters | updater/updater.go:297-347 | One visit for each leaf in order, accounting for all look-ups and requests, on rows of last events up to the cursor by then; counters and set-aside leaves are those the visits call for, the pass stops at the first abort dropping what was set aside, and otherwise ends early only when cancelled |
| Updater.Updater.RetryStale | updater/updater.go:255-272 | One visit for each leaf set aside, with the overlay's row and no other, counted, ending early only when cancelled |
| Updater.Updater.AskOverlay | updater/updater.go:250-254 | The overlay holds the rows of the set-aside clusters at the later of a cursor and the one head block asked for, each keyed by its own owner and operators |
| Updater.Updater.RetryFromLast | updater/updater.go:250-270 | A second pass finds rows for exactly those of its clusters that have events up to the later of cursor and head, each with the fields of the last one, if ranges run forward to the head |
| Updater.Updater.ProcessCommit | updater/updater.go:221-285 | Fails if and only if the stored balances do not give the stored root; otherwise all look-ups and requests are those of two passes over the leaves, the second on head rows, complete unless cancelled, with their counters |
| Updater.Updater.HandleEvent | updater/updater.go:168-217 | The ending is the one that the event, the last completed block and the database's answers call for; a completed event has had its passes and becomes the last, any other makes no request; for rows the oracle wrote the root-mismatch error cannot occur |
| Updater.Updater.SubscribeAndProcess | updater/updater.go:131-166 | Every event is handled in order until cancelled, all look-ups and requests are those of the handlings, and what is submitted belongs to a completed event |
| Diff.PatchIsExact | api/handlers.go:239-279 | Dropping the removed, then writing the changed and added entries turns the old balances into the current ones |
| Diff.DiffIsMinimal | api/handlers.go:239-279 | The three id sets are disjoint, and any other list of changes with the same effect mentions every id this one does |
| Diff.UndoIsDiff | api/handlers.go:239-279 | Read backwards, a difference is the difference the other way and undoes the patch |
| Diff.ListsGiveDiff | api/handlers.go:239-279 | If neither list names a cluster twice, the result lists exactly the changed, added and removed entries, each once |
| Diff.PatchExactly | api/handlers.go:239-279 | For any lists, applying the result gives the current balances if and only if the current list does not name a cluster with a new balance and end with its old one |
| Diff.NothingListedExactly | api/handlers.go:275-277 | For any lists, nothing is listed if and only if the maps are equal and no entry is reversed in this way |
| Diff.ComputeDiff | api/handlers.go:239-279 | For any lists, the loops give the changed, added and removed entries in list order with the previous epoch, and nothing if there are none |
| Diff.ListsInOrder | api/handlers.go:246-273 | The lists follow the order of the entries they come from |

## Left out

- The HTTP server, UI, configuration loading, command line, logging and metrics: no state worth proving.
- ABI and JSON encoding, event decoding, signing and Keccak itself: a log arrives decoded, unknown or undecodable, and the hash is a parameter.
- The raw event audit table (`contract_events`), `DeleteCluster`, `ClearAllState`, chain id checks and bulk mode: nothing modelled reads them. A failure to store a raw event is one of the failures of a batch.
- RPC retries, retry delays and the categories of error texts: the error class is an input. The limit on refused batches in the fetch loop stands for finitely many such errors.
- The gas limit estimate with its buffer, broadcasting to MEV endpoints and decoding of revert reasons: the outcome of sending is one reply.
- Receipt polling: reduced to found, timed out or cancelled, with one look-up for the first two. The 64-bit subtraction of block numbers behind the timeout is therefore not modelled.
- Equality of the root with other Merkle libraries: an odd node is paired with itself here, so no such equality is claimed; proofs are checked by the commutative fold.
- Order.Sort: stands for the library sort and promises some sorted permutation only, so results do not depend on how ties are ordered.
- Execution.Client.FetchLogs: says only how the batch size changes and that the call ends in some way if the last block is within one maximal batch of 2^64; Execution.RangesRunForwardExactly shows that the program's loop does not run forward there. A maximum within one step of 2^64 is not a valid client, see Execution.GrowthStaysBounded.
- Execution.AdaptiveBatchSize.Increase: reading and changing the size are each atomic, as the mutex makes them, and the two fetch loops that share one object are interleaved only in SyncProtocol.
- Syncer.EventSyncer.SyncToBlock: one uninterrupted call in which fetching precedes processing; the interleaved fetcher, the two-slot channel and crashes are in SyncProtocol, where block numbers are unbounded. For a target within one maximal batch of 2^64 nothing is said of the tables. A fetcher that lingers after an error return is not modelled beyond that: a new call starts with a fresh channel.
- Oracle.Oracle.Run: covers schedules and checkpoints whose next target fits in 64 bits, the exact condition of Phase.NextTarget, and blocks to which the fetch loop runs forward, the exact condition of Execution.RangesRunForwardExactly; restarts are calls with a finalized epoch that has not gone back. If the database was ahead of a checkpoint's block, the root is that of the later block.
- TxManager.TxManager.SendTransaction: an error return does not say that the payload is not mined. Before a further attempt is sent, the call can still end because it cannot be signed or its context is done; these two are counted failures, not answers of the node.
- Aggregate.BeaconNode.GetValidatorBalances: the client's batches of keys with their retries are one request with one answer, which may be any map; that the batches are answered from one finalized state is not known to the program either.
- The contract behind the updater: only the effective balance for each cluster is modelled; that the contract accepts what leads to the root is its own affair, not part of this model.
