# Verified models of the lido-nestjs core

A Dafny model of the parts of the lido-nestjs packages that carry real invariants, with proofs. Imperative
code of the packages is modelled by methods and classes over the same fields and loops; each is proved
against a specification function, and what the packages promise is proved about those functions.

| module | subject |
|---|---|
| `Common`, `Utils` | optional values, halving arithmetic; range, chunk, partition, batched promises |
| `MerkleTree`, `MerkleTreeService` | the flat-array Merkle tree: specification, and builder, prover, verifier |
| `MerkleProofs`, `MerkleExactness` | when a proof verifies: sufficient for every hash, exact for the free one |
| `RegistryModel`, `RegistrySync`, `RegistryOperators`, `RegistryRows`, `RegistryService` | the database mirror of the on-chain keys and its incremental update |
| `Queue`, `BatchAggregator`, `BatchProvider` | the request queue and the timer that cuts it into batches |
| `Limiter` | the concurrency limiter |
| `BatchResponse`, `BatchPipeline` | settling the requests of a batch; the whole pipeline as a state machine |
| `Retrier` | retrying with doubling pauses |
| `FallbackModel`, `FallbackDetection`, `FallbackInterleaving`, `FallbackService` | the rotating fallback provider |
| `BatchErrors` | from failed batches to provider switches |
| `SanitizeError` | truncating heavy fields over a cyclic graph of errors |
| `KeyExecutors`, `LidoKeyValidator`, `LidoKeyModules` | key validation: worker pool, candidate credentials, modules |

Main results, by subject:

- **Merkle tree.** Every level of the flat array holds recursive Merkle roots, for every leaf count. For every
  hash, proofs verify when the leaf count is 2^m or 3·2^m and the leaf is among the first 2^floor(log2 n); over
  distinct leaves and the free hash they verify only then. For other counts the parities go wrong, and leaves
  past the largest power of two are not under the root.
- **Registry.** All runs of updates end with the tables of a full resync if and only if every two blocks save
  exactly and operators change only together with keysOpIndex. For a contract that keeps its used keys the
  first half means that no used count falls in a way the mode misses: where one does, the mirror of all keys
  keeps stale used flags and the mirror of used keys stale rows. Where the second half fails, operators keep
  old columns such as the reward address.
- **Batching.** Nothing is lost, doubled or reordered between `send` and the fetch; requests leave within a
  stated number of ticks; the pipeline always comes to rest with every request settled by its own batch or
  timeout. Batches follow section 6 ("Batch") of the JSON-RPC 2.0 Specification.
- **Fallback provider.** With all providers valid, a lone call rotates through them if and only if each error
  caught before its last round is another object than the one before it, and interleaved calls move the index
  once per change of the caught error. Failed calls of one batch, none caught before, switch at most once if
  and only if there is at most one of them or they share the error of a batch that failed as a whole. Network
  detection writes answers by their position among the asked providers; that is right if and only if the
  flagged providers come last.
- **Sanitizing.** Exactly the reachable errors are truncated, once each. Truncating is not idempotent; the
  exact condition is proved for values of every kind.
- **Key validation.** Each key is answered once with its own verdict, in a fixed order, on any executor.

Where names, messages or comments and code disagree, the model follows the code. `partition` may return up to
2·maxParts − 1 parts; when it stays within maxParts is proved exactly. The key fetch rejects a left border only
when it is above the right one, although its message says "greater than or equal". The check before a provider
switch is commented as preventing several switches in one batch; it does so only for batches that fail as a
whole.

Hash functions, the signature check and the serializer are parameters, so the statements hold for all of
them; injectivity or the free (term-building) hash is assumed only where a lemma says so. Asynchronous calls
are steps of a state machine (batching, limiter, interleaved errors) or are run one after the other.

`dafny verify dfyconfig.toml` checks the project.

## Model

| member | source | states |
|---|---|---|
| `MerkleTree.LevelIsMerkleRoot` | packages/offchain-key-storage-client/src/nop-merkle-tree/nop-merkle-tree.service.ts:16-27 | For every leaf count, hash j of level k built by the halving loop is the recursive Merkle root of the 2^k leaves under it; unpaired hashes are dropped. |
| `MerkleTree.BlockIsSlice` | packages/offchain-key-storage-client/src/nop-merkle-tree/nop-merkle-tree.service.ts:16-27 | The leaves under hash j of level k are exactly leaves [j·2^k, (j+1)·2^k). |
| `MerkleTree.FlatHoldsLevel` | packages/offchain-key-storage-client/src/nop-merkle-tree/nop-merkle-tree.service.ts:14-27 | Level k has floor(n/2^k) hashes and lies at the sum of the lower level sizes in the flat array. |
| `MerkleTree.FlatLength` | packages/offchain-key-storage-client/src/nop-merkle-tree/nop-merkle-tree.service.ts:14-27 | The flat array over n leaves has 2n − popcount(n) hashes. |
| `MerkleTree.FlatEndsInRoot` | packages/offchain-key-storage-client/src/nop-merkle-tree/nop-merkle-tree.service.ts:31 | The last element of the flat array is the only hash of the top level. |
| `MerkleTree.DepthBounds` | packages/offchain-key-storage-client/src/nop-merkle-tree/nop-merkle-tree.service.ts:16-27 | 2^depth is the largest power of two within n and the level at that depth has one hash. |
| `MerkleTree.RootOfPairs` | packages/offchain-key-storage-client/src/nop-merkle-tree/nop-merkle-tree.service.ts:18-22 | Hashing a power-of-two block pairwise first does not change its recursive root: bottom-up levels agree with the top-down tree. |
| `Common.ShiftIsFloor` | packages/offchain-key-storage-client/src/nop-merkle-tree/nop-merkle-tree.service.ts:26 | k times `>>= 1` is the floor of n/2^k. |
| `MerkleTreeService.HashKeySigns` | packages/offchain-key-storage-client/src/nop-merkle-tree/nop-merkle-tree.service.ts:94-100 | As many hashes as key signatures, hash i that of number i. |
| `MerkleTreeService.AppendLevels` | packages/offchain-key-storage-client/src/nop-merkle-tree/nop-merkle-tree.service.ts:10-27 | The in-place loop with its running offset produces exactly the concatenated levels. |
| `MerkleTreeService.CreateTree` | packages/offchain-key-storage-client/src/nop-merkle-tree/nop-merkle-tree.service.ts:7-35 | Hash i of the array is the hash of key signature i, then come all levels, 2n − popcount(n) hashes in all, and the root is the recursive root of the first 2^floor(log2 n) leaves; no leaves, no root. |
| `MerkleTreeService.PrepareProofs` | packages/offchain-key-storage-client/src/nop-merkle-tree/nop-merkle-tree.service.ts:38-64 | The loop returns the prover's siblings, the one of level k read at the index the parity of the global index selects (reads past the end give undefined). |
| `MerkleTreeService.CreateTreeFromProofs` | packages/offchain-key-storage-client/src/nop-merkle-tree/nop-merkle-tree.service.ts:66-88 | The loop is the climb over the proofs with the running index that never subtracts an offset. |
| `MerkleProofs.RunningIndexSplits` | packages/offchain-key-storage-client/src/nop-merkle-tree/nop-merkle-tree.service.ts:77-86 | The verifier's index at level k is c_k + (i >> k), c_k a multiple of 2^(d+1−k) when 2^d divides the leaf count. |
| `MerkleProofs.GoodLeafAmountIsEven` | packages/offchain-key-storage-client/src/nop-merkle-tree/nop-merkle-tree.service.ts:45-60 | The leaf counts n = 2^m and n = 3·2^m are exactly those divisible by 2^(floor(log2 n) − 1). |
| `MerkleProofs.EvenStep` | packages/offchain-key-storage-client/src/nop-merkle-tree/nop-merkle-tree.service.ts:46-50 | Where the leaf count is divisible enough, prover and verifier read the same parity as the path position. |
| `MerkleProofs.ProverIsAuthentic` | packages/offchain-key-storage-client/src/nop-merkle-tree/nop-merkle-tree.service.ts:38-64 | For a provable leaf the prover hands out the authentication path. |
| `MerkleProofs.ClimbFollowsPath` | packages/offchain-key-storage-client/src/nop-merkle-tree/nop-merkle-tree.service.ts:77-86 | With an authentication path and agreeing sides, after k steps the verifier holds the path node of level k. |
| `MerkleProofs.ProvableRoundTrips` | packages/offchain-key-storage-client/src/nop-merkle-tree/nop-merkle-tree.service.ts:38-88 | Round trip, for every hash function: the verifier takes the prover's answer to the root of the builder whenever the leaf is among the first 2^floor(log2 n) and n is 2^m or 3·2^m. |
| `MerkleProofs.KeySignReachesRoot` | packages/offchain-key-storage-client/src/nop-merkle-tree/nop-merkle-tree.service.ts:7-88 | From data to root: started from the hash of key signature i with the prover's proofs for i, the verifier reaches the root of the tree of the data, for every hash and every provable i. |
| `MerkleProofs.BuildProveVerify` | packages/offchain-key-storage-client/src/nop-merkle-tree/nop-merkle-tree.service.ts:7-88 | The three methods called one after the other give one root for every provable i. |
| `MerkleExactness.RoundTripsExactly` | packages/offchain-key-storage-client/src/nop-merkle-tree/nop-merkle-tree.service.ts:38-88 | Over distinct leaves and the free pair hash that condition is necessary too: a round trip happens if and only if it holds (5 leaves, for one, fail). |
| `MerkleExactness.FiveLeavesFail` | packages/offchain-key-storage-client/src/nop-merkle-tree/nop-merkle-tree.service.ts:38-88 | A concrete failure: with five leaves the proof of leaf 0 does not verify. |
| `MerkleExactness.ClimbIsInjective` | packages/offchain-key-storage-client/src/nop-merkle-tree/nop-merkle-tree.service.ts:66-88 | With an injective pair hash two verifier runs with one result started from one hash and used the same proofs. |
| `MerkleExactness.ProofIsUnique` | packages/offchain-key-storage-client/src/nop-merkle-tree/nop-merkle-tree.service.ts:38-88 | With an injective pair hash the only full-length proof that reaches the root is the one the prover gives for that leaf. |
| `MerkleExactness.FlatIsDistinct` | packages/offchain-key-storage-client/src/nop-merkle-tree/nop-merkle-tree.service.ts:14-27 | With the free pair hash and distinct leaves no hash occurs twice in the flat array. |
| `MerkleExactness.ReachedAlongPath` | packages/offchain-key-storage-client/src/nop-merkle-tree/nop-merkle-tree.service.ts:77-86 | A verifier run that arrives at a tree node used only that leaf's path: its position, sides and siblings. |
| `Utils.Partition` | packages/utils/src/partition.ts:5-22 | The pieces concatenate to the input, none is empty, all but the last have the chosen size; for maxParts ≥ 1 there are at most 2·maxParts − 1, and at most maxParts exactly when the length is below maxParts, the minimum size decides, or nothing is left over. |
| `Utils.PartsWithinMax` | packages/utils/src/partition.ts:10-19 | The exact condition for at most maxParts parts: length < maxParts, or floor(length/maxParts) < minChunkSize, or maxParts divides the length. |
| `Utils.PartitionBound` | packages/utils/src/partition.ts:10-19 | The arithmetic bound of 2·maxParts − 1 pieces. |
| `Utils.PartitionEndsExactly` | packages/utils/src/partition.ts:10-19 | For a non-empty list the slicing loop moves on if and only if maxParts is not negative or the minimum size is positive. |
| `Utils.FivePartsForThree` | packages/utils/src/partition.ts:10-19 | A concrete excess: five elements asked for in three parts come in five. |
| `Utils.CutCount` | packages/utils/src/partition.ts:17-19 | Equal slices that cut a list number exactly the rounded-up quotient. |
| `Utils.Chunk` | packages/utils/src/chunk.ts:1-9 | Slices of the given size that concatenate to the input; none for a size that is not positive. |
| `Utils.Range` | packages/utils/src/range.ts:1-14 | start towards end without end, upwards or downwards. |
| `Utils.RangePromise` | packages/utils/src/range-promise.ts:3-28 | Batching is invisible: the results are the callback's for from, from+1, …, to−1 in order; a rejection is one of the first batch that has any; the two argument errors. |
| `RegistryModel.FromIndex` | packages/registry/src/main/abstract-registry.ts:193-210 | The left border is the previously used count exactly when the reward address is the same up to case and the count is not above the right border, else 0; so the range error of the key fetch cannot happen. |
| `RegistryModel.FetchKeys` | packages/registry/src/fetch/key.fetch.ts:20-69 | Which borders fail and with what; otherwise the keys [from, to), each row with the index, key, signature and used flag of that key of the contract. |
| `RegistryModel.UpsertLookup` | packages/registry/src/main/abstract-registry.ts:272-294 | Insert-or-merge: an id is held by an old or a new row, and a new row wins. |
| `RegistryModel.UpsertConcat` | packages/registry/src/main/abstract-registry.ts:274-282 | Inserting chunk after chunk is inserting the whole list. |
| `RegistryModel.FindAllContiguous` | packages/registry/src/main/abstract-registry.ts:244-246 | Rows with contiguous indices come back from storage in index order. |
| `RegistrySync.FetchedRows` | packages/registry/src/main/abstract-registry.ts:191-233 | A row is fetched exactly when it is a key of the contract in the refetched suffix of its operator. |
| `RegistrySync.KeptRows` | packages/registry/src/main/abstract-registry.ts:261-270 | Which rows survive the deletion, unchanged, and that all rows that are not refetched are among them. |
| `RegistrySync.SaveReaches` | packages/registry/src/main/abstract-registry.ts:254-300 | The key table after one save over a mirror, row by row, whatever the contract did to the keys. |
| `RegistrySync.SaveMirrorsExactly` | packages/registry/src/main/abstract-registry.ts:254-300 | Whatever the contract did to the keys: a save yields an exact mirror if and only if no stored rows reach beyond their border and no key that is not refetched changed. |
| `RegistrySync.SkippedKeyChanges` | packages/registry/src/main/abstract-registry.ts:197-210 | A key that is not refetched differs from the contract exactly when the used count fell to it or below: then its used flag is stale. |
| `RegistrySync.KeysSaveIsExact` | packages/registry/src/main/key-registry/key-registry.service.ts:5-8 | With the total as border a save is exact if and only if no operator with an unchanged reward address has its used count fall while the formerly used keys are still there (their rows keep the used flag). |
| `RegistrySync.ValidatorsSaveIsExact` | packages/registry/src/main/validator-registry/validator-registry.service.ts:5-8 | With the used count as border a save is exact if and only if every operator whose used count fell has no unused keys left (else formerly used rows stay). |
| `RegistrySync.FallenUsedCountIsMissed` | packages/registry/src/main/abstract-registry.ts:193-210 | A concrete failure in both modes: a used count falls from two to one of two keys and the save is not exact. |
| `RegistrySync.UpdateKeepsSynced` | packages/registry/src/main/abstract-registry.ts:93-150 | After each update (older block, same keysOpIndex, or refetch) keys and operators are those of a block with the keysOpIndex of the stored one, and the stored block is the larger of old and new. |
| `RegistrySync.RunStaysSynced` | packages/registry/src/main/abstract-registry.ts:93-150 | The same over every run of updates and clearings. |
| `RegistrySync.RunMirrors` | packages/registry/src/main/abstract-registry.ts:93-150 | After any run, in any block order, there is one meta row, of the highest block seen, the key table is exactly the contract's keys in scope at that block, and the operator table has its operators, totals and used counts. |
| `RegistrySync.RunsAreExact` | packages/registry/src/main/abstract-registry.ts:93-150 | Whatever the contract does to the keys: all runs end with exact keys, meta row, operator totals and used counts if and only if every two blocks save exactly. The other operator columns are the subject of RegistryOperators. |
| `RegistrySync.RunsOfContract` | packages/registry/src/main/abstract-registry.ts:187-210 | For a contract that keeps its used keys, keys and counts are exact after all runs if and only if between no two blocks a used count falls in the way the mode misses. |
| `RegistrySync.AddressThatReturnsIsMissed` | packages/registry/src/main/abstract-registry.ts:193-201 | A concrete failure: a reward address that changes with its keys and changes back hides the new keys. |
| `RegistrySync.TwoUpdatesMiss` | packages/registry/src/main/abstract-registry.ts:93-150 | Where two blocks do not save exactly, the run of these two updates ends with wrong keys. |
| `RegistrySync.IncrementalEqualsResync` | packages/registry/src/main/abstract-registry.ts:182-234 | Incremental updates end with the key table that one update from empty tables gives. |
| `RegistrySync.MirrorIsUnique` | packages/registry/src/main/abstract-registry.ts:253-300 | There is one exact mirror of the keys of a snapshot. |
| `RegistryOperators.OperatorRunsAreExact` | packages/registry/src/main/abstract-registry.ts:109-119 | All runs end with the contract's operators in every column if and only if no operator changes in any column while keysOpIndex stays. |
| `RegistryOperators.SameIndexKeepsOperators` | packages/registry/src/main/abstract-registry.ts:109-119 | An update to a block with the same keysOpIndex leaves the operators of the earlier block. |
| `RegistryOperators.NewAddressIsMissed` | packages/registry/src/main/abstract-registry.ts:109-119 | A concrete failure: a reward address changes under one keysOpIndex, the keys are right, and the stored operator keeps its old address. |
| `RegistryOperators.RunsEqualResync` | packages/registry/src/main/abstract-registry.ts:93-150 | The exact condition for all three tables: every run ends like one full resync if and only if every two blocks save exactly and operators change only with keysOpIndex. |
| `RegistryOperators.ContractRunsEqualResync` | packages/registry/src/main/abstract-registry.ts:93-150 | The same for a contract that keeps its used keys, with the condition on falling used counts. |
| `RegistryRows.StoredKeysMean` | packages/registry/src/fetch/key.fetch.ts:31-39 | After an exact run there is one key row for each promised key (all, or the used ones), with operator index, index, key, signature and used flag of the contract. |
| `RegistryRows.StoredOperatorsMean` | packages/registry/src/main/abstract-registry.ts:284-294 | After a run with exact operators each operator row has index, reward address, total, used count and further columns of the contract. |
| `RegistryRows.StoredMetaMeans` | packages/registry/src/main/abstract-registry.ts:154-170 | After any run the meta row has number, keysOpIndex, timestamp and the hash, in lower case, of the highest block. |
| `RegistryRows.UpdateMeans` | packages/registry/src/main/abstract-registry.ts:93-150 | What one update does after any run: nothing for an older block, the meta row alone under the stored keysOpIndex, else a refetch that returns the meta data of the block. |
| `RegistryService.Registry.Save` | packages/registry/src/main/abstract-registry.ts:254-300 | The transaction step by step (delete per operator, chunked inserts, meta replaced) has the combined effect on the tables. |
| `RegistryService.Registry.ReplaceMeta` | packages/registry/src/main/abstract-registry.ts:296-298 | All meta rows go, one new row stays. |
| `RegistryService.Registry.Update` | packages/registry/src/main/abstract-registry.ts:93-150 | The method moves the tables as the specification that the run lemmas are about. |
| `RegistryService.Registry.ClearAll` | packages/registry/src/main/abstract-registry.ts:303-309 | Clearing leaves empty tables. |
| `Queue.ToInt32` | packages/execution/src/common/queue.ts:21 | `batch | 0` is the number in the signed 32-bit range that agrees modulo 2^32. |
| `Queue.BatchLimit` | packages/execution/src/common/queue.ts:21 | The limit is at least one, and is the given size when that is positive and fits. |
| `Queue.Queue.Enqueue` | packages/execution/src/common/queue.ts:4-6 | Appends at the end. |
| `Queue.Queue.Dequeue` | packages/execution/src/common/queue.ts:8-10 | Takes the first element, if any. |
| `Queue.Queue.Clear` | packages/execution/src/common/queue.ts:16-18 | Leaves an empty queue. |
| `Queue.Queue.DequeueMultiple` | packages/execution/src/common/queue.ts:20-34 | Takes a prefix, as long as the limit and the queue allow; prefix and rest make up the old queue. |
| `BatchAggregator.RunKeepsOrder` | packages/execution/src/provider/extended-json-rpc-batch-provider.ts:168-181 | Over every run of sends and ticks, the dispatched batches followed by the queue are all sends in order: nothing lost, doubled or reordered. |
| `BatchAggregator.RunKeepsValid` | packages/execution/src/provider/extended-json-rpc-batch-provider.ts:168-181 | In every reachable state the timer is armed exactly while the queue is non-empty and the tick counter is 0..2; every batch is non-empty and within the limit. |
| `BatchAggregator.LeavesInTime` | packages/execution/src/provider/extended-json-rpc-batch-provider.ts:168-181 | The request at queue position p has left after floor(p/limit) + 3 ticks, whatever is sent meanwhile, and is the p-th to leave; for sizes from 2^31 on, where the limit wraps, after 3·floor(p/limit) + 3. |
| `BatchAggregator.DrainsInTime` | packages/execution/src/provider/extended-json-rpc-batch-provider.ts:296-304 | Without further sends a queue of L requests is empty after at most ceil(L/limit) + 2 ticks (three times as many batches' ticks for sizes from 2^31 on). |
| `BatchAggregator.TickHelps` | packages/execution/src/provider/extended-json-rpc-batch-provider.ts:169-181 | Every tick brings every waiting request at least one tick closer to leaving, for every batch size. |
| `BatchAggregator.NothingLeavesEarly` | packages/execution/src/provider/extended-json-rpc-batch-provider.ts:168-175 | As long as no more is queued than fits in one batch, nothing leaves before the third tick. |
| `BatchAggregator.TickMeans` | packages/execution/src/provider/extended-json-rpc-batch-provider.ts:168-181 | A tick sends exactly when more is queued than fits or it is the third, and then as much as fits. |
| `BatchProvider.ExtendedJsonRpcBatchProvider.Send` | packages/execution/src/provider/extended-json-rpc-batch-provider.ts:360-400 | A send takes the next id, appends to the queue and arms the timer, and leaves the limiter alone. |
| `BatchProvider.ExtendedJsonRpcBatchProvider.BatchAggregatorTick` | packages/execution/src/provider/extended-json-rpc-batch-provider.ts:168-304 | A tick hands at most one batch to the limiter and re-arms the timer exactly while something is queued. |
| `BatchProvider.ExtendedJsonRpcBatchProvider.StartBatchAggregator` | packages/execution/src/provider/extended-json-rpc-batch-provider.ts:306-314 | The timer is set when it is not already. |
| `Limiter.StepsKeepValid` | packages/execution/src/common/promise-limit.ts:27-67 | Every step keeps: active ≤ concurrency, and waiting tasks ≤ pending microtasks or all slots taken. |
| `Limiter.RunIsFifo` | packages/execution/src/common/promise-limit.ts:27-67 | Over every run tasks start at most once and in the order in which they were enqueued. |
| `Limiter.QuiescentHasStartedAll` | packages/execution/src/common/promise-limit.ts:27-67 | With no microtask pending and no task active, every task ever enqueued has started. |
| `Limiter.PLimit.Enqueue` | packages/execution/src/common/promise-limit.ts:56-67 | Queues the task and schedules one microtask. |
| `Limiter.PLimit.Wake` | packages/execution/src/common/promise-limit.ts:59-66 | The microtask starts the first task when a slot is free. |
| `Limiter.PLimit.Next` | packages/execution/src/common/promise-limit.ts:30-37 | A finished task hands its slot to the first waiting task without looking at the limit. |
| `Limiter.CreateLimit` | packages/execution/src/common/promise-limit.ts:16-28 | A limiter exists for positive limits only. |
| `BatchResponse.LastWithId` | packages/execution/src/provider/extended-json-rpc-batch-provider.ts:220-223 | The payload kept for an id carries it and no later one does. |
| `BatchResponse.ResultMap` | packages/execution/src/provider/extended-json-rpc-batch-provider.ts:220-223 | The reduction keeps the last payload per id, and throws on a null element. |
| `BatchResponse.HandleOutcome` | packages/execution/src/provider/extended-json-rpc-batch-provider.ts:195-293 | The handlers settle every open request of the batch: with the result of its last payload when that has no error, else with the code, message and truncated data of that error, with a partial-batch error when no payload has its id, and with the error of the whole batch for a non-array, null or failed fetch. |
| `BatchResponse.OneSettlementIsPromised` | packages/execution/src/provider/extended-json-rpc-batch-provider.ts:195-293 | For each answer and request there is exactly one such settlement. |
| `BatchResponse.EveryRequestSettles` | packages/execution/src/provider/extended-json-rpc-batch-provider.ts:227-292 | Whatever comes back, every request of the batch ends settled and earlier settlements stay. |
| `BatchResponse.OrderDoesNotMatter` | packages/execution/src/provider/extended-json-rpc-batch-provider.ts:220-252 | Permuting an answer whose ids are distinct changes no request's outcome (up to the order of the listed received ids). |
| `BatchResponse.ReceivedIdsPermute` | packages/execution/src/provider/extended-json-rpc-batch-provider.ts:235-239 | The received ids in a partial-batch error are permuted along with the answer. |
| `BatchPipeline.StepKeepsInv` | packages/execution/src/provider/extended-json-rpc-batch-provider.ts:168-400 | Each of send, tick, microtask, fetch outcome, slot release, handler and timeout keeps the whole-pipeline invariant. |
| `BatchPipeline.RunKeepsInv` | packages/execution/src/provider/extended-json-rpc-batch-provider.ts:168-400 | The invariant over every run: sends are in order in started batches, waiting batches and queue; every settlement comes from the request's own batch or its timeout. |
| `BatchPipeline.SettledForGood` | packages/execution/src/provider/extended-json-rpc-batch-provider.ts:374-393 | The first settlement of a request wins against its timeout and later handlers. |
| `BatchPipeline.RestMeansAllSettled` | packages/execution/src/provider/extended-json-rpc-batch-provider.ts:168-400 | When nothing is pending every request ever sent is settled, and the batches are the requests in sending order. |
| `BatchPipeline.WorkIsPossible` | packages/execution/src/provider/extended-json-rpc-batch-provider.ts:168-400 | The pipeline never gets stuck: in a reachable state that is not at rest some step is possible. |
| `BatchPipeline.StepDoesWork` | packages/execution/src/provider/extended-json-rpc-batch-provider.ts:168-400 | Every step but a send uses up some of a finite amount of work. |
| `BatchPipeline.ComesToRest` | packages/execution/src/provider/extended-json-rpc-batch-provider.ts:168-400 | Once sending stops the pipeline comes to rest, whatever the order of the steps. |
| `Retrier.StopsAtFirstFinal` | packages/execution/src/common/retrier.ts:26-51 | Calls go on to the first success or filtered error or to the limit, and the outcome is that of the last call. |
| `Retrier.CallLimitIs` | packages/execution/src/common/retrier.ts:39-50 | The limit is min(max(R, 1), k + 1), k least with b·2^k ≥ M, that is 1 + ceil(log2(M/b)). |
| `Retrier.CallLimitWithoutPause` | packages/execution/src/common/retrier.ts:39-50 | Without a positive first pause the retry count alone limits the calls. |
| `Retrier.SleepsDouble` | packages/execution/src/common/retrier.ts:42-47 | Sleep j lasts b·2^j and is below M. |
| `Retrier.TotalSleep` | packages/execution/src/common/retrier.ts:42-47 | k sleeps take (2^k − 1)·b in total, less than 2M − b. |
| `FallbackModel.NextValid` | packages/execution/src/provider/simple-fallback-json-rpc-batch-provider.ts:265-283 | The first valid provider at or after the index, or the number of providers. |
| `FallbackModel.GetterMeans` | packages/execution/src/provider/simple-fallback-json-rpc-batch-provider.ts:256-286 | The lookup gives the first valid provider at or after the index; without one the index ends at n and the lookup throws, unless it started from 0, where it gives the last provider. |
| `FallbackModel.TwoCallsReachValid` | packages/execution/src/provider/simple-fallback-json-rpc-batch-provider.ts:256-286 | Two successive lookups reach a valid provider whenever there is one; a lookup that does not throw has found one and is stable. |
| `FallbackModel.SameErrorSwitchesOnce` | packages/execution/src/provider/simple-fallback-json-rpc-batch-provider.ts:428-431 | An error caught any number of times in a row moves the index at most once. |
| `FallbackModel.AllDifferMeansOneEach` | packages/execution/src/provider/simple-fallback-json-rpc-batch-provider.ts:428-431 | The index moves once per caught error exactly when each differs from the one before. |
| `FallbackModel.OneSwitchExactly` | packages/execution/src/provider/simple-fallback-json-rpc-batch-provider.ts:428-431 | The exact condition for at most one switch: after repeats of the error caught last, all errors are one and the same. |
| `FallbackModel.RotateIsMod` | packages/execution/src/provider/simple-fallback-json-rpc-batch-provider.ts:288-305 | d switches move an in-range index by d modulo the number of providers. |
| `FallbackModel.NextIndexElsewhere` | packages/execution/src/provider/simple-fallback-json-rpc-batch-provider.ts:288-305 | A single provider stays; from past the end the next one is the second. |
| `FallbackModel.RoundRetriesActive` | packages/execution/src/provider/simple-fallback-json-rpc-batch-provider.ts:350-367 | With all providers valid the retried callback is the retrier on the active provider. |
| `FallbackModel.RoundLooksUpEachTime` | packages/execution/src/provider/simple-fallback-json-rpc-batch-provider.ts:350-367 | With any providers, valid or not, every call of a round looks the provider up anew, a lookup that throws counts as a retryable failure, and calls go on to the first final outcome or the limit. |
| `FallbackModel.PerformIsBounded` | packages/execution/src/provider/simple-fallback-json-rpc-batch-provider.ts:335-433 | A call alone makes at most n rounds and n times the retry limit of child calls, whatever the providers are. |
| `FallbackInterleaving.PerformAmongIsBounded` | packages/execution/src/provider/simple-fallback-json-rpc-batch-provider.ts:335-433 | The same bound whatever lookups, caught errors, detections and resets of others come between its steps. |
| `FallbackInterleaving.AmongNobodyStep` | packages/execution/src/provider/simple-fallback-json-rpc-batch-provider.ts:335-433 | With nobody else around a round of that call is a round of the call alone. |
| `FallbackModel.PerformVisits` | packages/execution/src/provider/simple-fallback-json-rpc-batch-provider.ts:335-433 | Every round runs on the provider that the errors caught so far have switched to. |
| `FallbackModel.PerformEnds` | packages/execution/src/provider/simple-fallback-json-rpc-batch-provider.ts:378-450 | Total failure takes all rounds and carries the last error; otherwise the last round is the one that caught nothing retryable. |
| `FallbackModel.LastCallDecides` | packages/execution/src/provider/simple-fallback-json-rpc-batch-provider.ts:315-451 | With all providers valid the result is what the last child call gave on the last provider visited: its value, its non-retryable error, or total failure with its error as cause; the last error is kept accordingly. |
| `FallbackModel.CaughtWasThrown` | packages/execution/src/provider/simple-fallback-json-rpc-batch-provider.ts:378-431 | Every error caught was thrown by the provider of its round in one of the calls. |
| `FallbackModel.LonePerformRotates` | packages/execution/src/provider/simple-fallback-json-rpc-batch-provider.ts:315-451 | With all providers valid and consecutive caught errors distinct a lone call visits a, a+1, … modulo n, each at most once; success and a non-retryable error leave the index there, total failure brings it back to a. |
| `FallbackModel.LonePerformRotatesExactly` | packages/execution/src/provider/simple-fallback-json-rpc-batch-provider.ts:315-451 | With all providers valid round t runs on provider a + t modulo n, for every t, if and only if each error caught before the last round differs from the one before it. |
| `FallbackService.SimpleFallbackJsonRpcBatchProvider.constructor` | packages/execution/src/provider/simple-fallback-json-rpc-batch-provider.ts:145-161 | Initially no networks, no flags, index 0. |
| `FallbackService.CreateProvider` | packages/execution/src/provider/simple-fallback-json-rpc-batch-provider.ts:129-161 | One child per usable URL; construction fails exactly when none is usable. |
| `FallbackService.SimpleFallbackJsonRpcBatchProvider.GetActive` | packages/execution/src/provider/simple-fallback-json-rpc-batch-provider.ts:256-286 | The skip loop finds the first valid provider; without one it leaves the index at n and returns the last provider from 0, throws otherwise. |
| `FallbackService.SimpleFallbackJsonRpcBatchProvider.SwitchToNextProvider` | packages/execution/src/provider/simple-fallback-json-rpc-batch-provider.ts:288-305 | The next index modulo n; a single provider stays. |
| `FallbackService.SimpleFallbackJsonRpcBatchProvider.RunRound` | packages/execution/src/provider/simple-fallback-json-rpc-batch-provider.ts:350-367 | One round: the retried callback looks the provider up on each call. |
| `FallbackService.SimpleFallbackJsonRpcBatchProvider.PerformRound` | packages/execution/src/provider/simple-fallback-json-rpc-batch-provider.ts:335-433 | One pass of the loop, with its three exits. |
| `FallbackService.SimpleFallbackJsonRpcBatchProvider.PerformAlone` | packages/execution/src/provider/simple-fallback-json-rpc-batch-provider.ts:315-451 | The whole loop refines the recursive call that the rotation lemmas are about. |
| `FallbackService.SimpleFallbackJsonRpcBatchProvider.DetectNetwork` | packages/execution/src/provider/simple-fallback-json-rpc-batch-provider.ts:453-532 | Writes the answers, then returns the first network on the configured chain, or the first violation on the first run, or total failure with the last reason; it succeeds exactly when some network is on the chain and, on the first run, all agree. |
| `FallbackService.SimpleFallbackJsonRpcBatchProvider.WriteAnswers` | packages/execution/src/provider/simple-fallback-json-rpc-batch-provider.ts:460-469 | Answer j goes to provider j, and the last rejection becomes the last error. |
| `FallbackService.SimpleFallbackJsonRpcBatchProvider.CheckNetworks` | packages/execution/src/provider/simple-fallback-json-rpc-batch-provider.ts:471-517 | The network returned, or which violation is reported, provider by provider. |
| `FallbackService.SimpleFallbackJsonRpcBatchProvider.ResetFallbacks` | packages/execution/src/provider/simple-fallback-json-rpc-batch-provider.ts:534-546 | From a reachable state no flag is left and the index is 0. |
| `FallbackDetection.Asked` | packages/execution/src/provider/simple-fallback-json-rpc-batch-provider.ts:454-458 | Exactly the unflagged providers are asked, in order. |
| `FallbackDetection.DetectedMeans` | packages/execution/src/provider/simple-fallback-json-rpc-batch-provider.ts:460-469 | An answer sets the network and clears the flag at its position, a rejection clears the network and sets the flag, other providers stay. |
| `FallbackDetection.LastReasonMeans` | packages/execution/src/provider/simple-fallback-json-rpc-batch-provider.ts:464-468 | The last error is that of the last rejected answer, and stays when none is. |
| `FallbackDetection.DetectionMeans` | packages/execution/src/provider/simple-fallback-json-rpc-batch-provider.ts:471-531 | A detection returns the network of the first provider on the configured chain, unchanged; it fails totally exactly when none is on the chain; a first run reports the first provider on another chain or with another network. |
| `FallbackDetection.NoViolationMeansAgreement` | packages/execution/src/provider/simple-fallback-json-rpc-batch-provider.ts:473-508 | The checks of the first run find nothing exactly when all networks found are on the configured chain and equal the first. |
| `FallbackDetection.FlaggedLastAttributes` | packages/execution/src/provider/simple-fallback-json-rpc-batch-provider.ts:454-469 | When no flagged provider comes before an unflagged one, every answer is written to the provider that gave it. |
| `FallbackDetection.FlaggedFirstMisattributes` | packages/execution/src/provider/simple-fallback-json-rpc-batch-provider.ts:454-469 | Any flagged provider before an unflagged one: with all answering, or none, an answer lands on the wrong provider. |
| `FallbackDetection.AttributesExactly` | packages/execution/src/provider/simple-fallback-json-rpc-batch-provider.ts:454-469 | The exact condition: attribution is right if and only if the flagged providers come last. |
| `FallbackDetection.FlaggedFirstIsReachable` | packages/execution/src/provider/simple-fallback-json-rpc-batch-provider.ts:454-469 | A detection that only the second of two providers answers leaves a state in which the flagged one comes first. |
| `FallbackDetection.NetworksEqualIsEquivalence` | packages/execution/src/common/networks.ts:13-23 | Network equality is reflexive, symmetric and transitive, missing and empty ENS addresses being the same. |
| `FallbackDetection.NetworksDiffer` | packages/execution/src/common/networks.ts:13-23 | Two networks differ exactly by name, chain id, or ENS address unless both have none. |
| `FallbackDetection.OnConfiguredChain` | packages/execution/src/common/networks.ts:25-33 | A network is on the configured chain when the chain ids are the same, however the configuration gives it. |
| `FallbackDetection.AgreeingNetworksArePairwiseEqual` | packages/execution/src/provider/simple-fallback-json-rpc-batch-provider.ts:473-508 | After a successful first detection all networks found are on the configured chain and pairwise equal. |
| `FallbackDetection.EventKeepsInv` | packages/execution/src/provider/simple-fallback-json-rpc-batch-provider.ts:453-546 | Lookups, caught errors, detections and resets keep: unreachable implies no network. |
| `FallbackDetection.RunKeepsInv` | packages/execution/src/provider/simple-fallback-json-rpc-batch-provider.ts:453-546 | The same over every run. |
| `FallbackDetection.ResetClearsAll` | packages/execution/src/provider/simple-fallback-json-rpc-batch-provider.ts:534-546 | In every reachable state a reset clears every flag and sets the index to 0. |
| `FallbackDetection.ResetMeans` | packages/execution/src/provider/simple-fallback-json-rpc-batch-provider.ts:539-545 | A reset keeps every network and clears the flag of providers without one. |
| `FallbackDetection.InterleavedCatches` | packages/execution/src/provider/simple-fallback-json-rpc-batch-provider.ts:423-431 | Over any interleaving of lookups and caught errors of concurrent calls the index moves, modulo n, once per error that differs from the one caught just before. |
| `FallbackDetection.OneBatchSwitchesOnce` | packages/execution/src/provider/simple-fallback-json-rpc-batch-provider.ts:423-431 | Calls that catch the one error object of a rejected batch together switch the provider at most once. |
| `BatchErrors.WholeBatchSwitchesOnce` | packages/execution/src/provider/extended-json-rpc-batch-provider.ts:255-293 | The calls of a batch that fails as a whole, timeouts aside, catch one object and switch at most once. |
| `BatchErrors.OwnErrorsSwitchEach` | packages/execution/src/provider/extended-json-rpc-batch-provider.ts:227-252 | Partial answers, per-request errors and timeouts are an object each, and each of them switches. |
| `BatchErrors.BatchSwitchesOnceExactly` | packages/execution/src/provider/extended-json-rpc-batch-provider.ts:195-293 | The exact condition: failed calls of one batch switch at most once if and only if there is at most one, or the batch failed as a whole and none of them timed out. |
| `BatchErrors.BatchMovesIndex` | packages/execution/src/provider/simple-fallback-json-rpc-batch-provider.ts:423-431 | However lookups interleave, the calls of a batch move the index as often as their errors change. |
| `BatchErrors.FailureIsOwnOrAnswer` | packages/execution/src/provider/extended-json-rpc-batch-provider.ts:227-293 | In a reachable state a failed request of a handled batch has its timeout or what the answer to that very batch means for it. |
| `BatchErrors.SettlementHasCause` | packages/execution/src/provider/extended-json-rpc-batch-provider.ts:168-400 | After any run a settled request has its timeout, or what an answer that came for its own batch promises it. |
| `BatchErrors.ResolvedByOwnPayload` | packages/execution/src/provider/extended-json-rpc-batch-provider.ts:220-257 | A request is resolved only with the result of an error-free payload with its own id, the last one in an answer that came for its own batch. |
| `BatchErrors.RunAnswersCame` | packages/execution/src/provider/extended-json-rpc-batch-provider.ts:177-196 | Every answer that a batch has, came during the run. |
| `BatchErrors.SharedErrorIsOneError` | packages/execution/src/provider/extended-json-rpc-batch-provider.ts:255-293 | Requests that share an error object are settled alike. |
| `BatchErrors.OneBatchEach` | packages/execution/src/provider/extended-json-rpc-batch-provider.ts:177-183 | In a reachable state a request is in one batch only. |
| `BatchErrors.PartialAnswerIsReachable` | packages/execution/src/provider/extended-json-rpc-batch-provider.ts:229-240 | A run of the pipeline in which an empty answer fails both requests of a batch by themselves. |
| `BatchErrors.PartialAnswerSwitchesTwice` | packages/execution/src/provider/extended-json-rpc-batch-provider.ts:229-240 | A concrete input: over three providers the two calls of that batch move the index from 0 to 2. |
| `FallbackDetection.TwoErrorsSwitchTwice` | packages/execution/src/provider/extended-json-rpc-batch-provider.ts:380-389 | Two error objects, such as two timeouts of one batch: over three providers they move the index from 0 to 2. |
| `SanitizeError.CutIsBounded` | packages/execution/src/common/sanitize-error.ts:22-27 | A cut string keeps its first maxLength characters and has only the marker on top. |
| `SanitizeError.CutTwiceExactly` | packages/execution/src/common/sanitize-error.ts:22-27 | Cutting a string twice equals cutting it once if and only if nothing was cut or the cut string happens to have the original length. |
| `SanitizeError.TruncateTwiceExactly` | packages/execution/src/common/sanitize-error.ts:20-41 | The exact condition under which truncating a value of any kind twice equals truncating it once; for an object that cannot be rendered, a limit of at least 16. |
| `SanitizeError.CutTwiceCanDiffer` | packages/execution/src/common/sanitize-error.ts:22-27 | A concrete input on which cutting twice is not cutting once. |
| `SanitizeError.DecimalIsInjective` | packages/execution/src/common/sanitize-error.ts:25 | Different lengths are printed differently. |
| `SanitizeError.DecimalReadsBack` | packages/execution/src/common/sanitize-error.ts:25 | The printed length reads back as the number, in digits without leading zeros. |
| `SanitizeError.TruncateMeans` | packages/execution/src/common/sanitize-error.ts:20-41 | Case by case: values within the limit and values that are not strings or objects stay as they are; longer ones become their first maxLength characters and the note of their own length; an object that cannot be rendered becomes the fixed text. |
| `SanitizeError.ErrorObject.SanitizeFields` | packages/execution/src/common/sanitize-error.ts:100-108 | Each writable heavy field is truncated once, case by case as TruncateMeans says; read-only and throwing ones stay, none is added or removed. |
| `SanitizeError.SanitizeFrom` | packages/execution/src/common/sanitize-error.ts:84-125 | The depth-first search terminates on any graph, and truncates each object that it adds to the seen set exactly once. |
| `SanitizeError.SanitizeErrorInPlace` | packages/execution/src/common/sanitize-error.ts:84-125 | Exactly the objects reachable over error and cause edges, cyclic or shared, have their writable heavy fields truncated, once each and case by case, and bounded; all others are unchanged. |
| `SanitizeError.SanitizedIsBounded` | packages/execution/src/common/sanitize-error.ts:20-41 | Every writable heavy field that ends as a string is at most maxLength characters and a marker long, the fixed text for unserializable objects included. |
| `SanitizeError.ClosedHoldsReachable` | packages/execution/src/common/sanitize-error.ts:110-124 | A set that no edge leaves holds everything reachable from its members. |
| `KeyExecutors.FindIsAnswer` | packages/key-validation/src/services/multi-threaded-key-validator-executor.ts:54-57 | What find returns was answered, and what was answered is found. |
| `KeyExecutors.CollectIgnoresOrder` | packages/key-validation/src/services/multi-threaded-key-validator-executor.ts:40-63 | Whatever the order of a worker's answers, each key of the partition gets the verdict on itself and the assertion holds. |
| `KeyExecutors.MissingAnswerFails` | packages/key-validation/src/services/multi-threaded-key-validator-executor.ts:54-57 | A missing answer for any key of a partition fails the whole. |
| `KeyExecutors.SameAsSingleThreaded` | packages/key-validation/src/services/single-threaded-key-validator-executor.ts:19-25 | Both executors agree on a list if and only if serializing changes no verdict on a key in it. |
| `KeyExecutors.MultiThreadedKeyValidatorExecutor.ValidateKeys` | packages/key-validation/src/services/multi-threaded-key-validator-executor.ts:25-69 | For any pool size, partitioning and answer order, result i is key i with the verdict on what serializing leaves of it; the pool is created once. |
| `KeyExecutors.MultiThreadedKeyValidatorExecutor.Destroy` | packages/key-validation/src/services/multi-threaded-key-validator-executor.ts:84-87 | Drops the pool. |
| `LidoKeyValidator.Group.FirstValid` | packages/key-validation/src/services/lido-key-validator.ts:90-110 | The first credentials, current before previous, that a key verifies with. |
| `LidoKeyValidator.VerdictMeans` | packages/key-validation/src/services/lido-key-validator.ts:65-118 | An unused key is checked with the current credentials alone; a used key is valid with the current ones, else with the first previous ones that verify it, and is reported with them; else it is invalid and reported with the last ones tried. |
| `LidoKeyValidator.OneRound` | packages/key-validation/src/services/lido-key-validator.ts:90-110 | One round of the shrinking working set: the keys that verify first with these credentials pass, the others remain. |
| `LidoKeyValidator.ValidateLidoKeysForDifferentPossibleWC` | packages/key-validation/src/services/lido-key-validator.ts:65-118 | The loops yield each key's own verdict, stably ordered: used-valid by credentials, used-invalid, unused. |
| `LidoKeyValidator.SortedIsPermutation` | packages/key-validation/src/services/lido-key-validator.ts:65-118 | That order holds every key of the group exactly once. |
| `LidoKeyValidator.ResultsAreStablyOrdered` | packages/key-validation/src/services/lido-key-validator.ts:90-117 | Places never fall along the results, and keys of one place keep their input order. |
| `LidoKeyValidator.PlaceMeans` | packages/key-validation/src/services/lido-key-validator.ts:90-117 | The places: current credentials, each previous ones in turn, none, and unused keys last. |
| `LidoKeyValidator.SplitUsed` | packages/key-validation/src/services/lido-key-validator.ts:73-88 | Used and unused keys, each in order, with the current credentials. |
| `LidoKeyValidator.SplitResults` | packages/key-validation/src/services/lido-key-validator.ts:101-109 | Valid results and the keys left for the next round, each in order. |
| `LidoKeyModules.GroupKeysByModule` | packages/key-validation/src/services/lido-key-validator.ts:52-63 | Modules in order of first appearance, each with its keys in order. |
| `LidoKeyModules.ModulesAreThoseOfKeys` | packages/key-validation/src/services/lido-key-validator.ts:55-60 | Each module named by a key, once. |
| `LidoKeyModules.ModulesGrow` | packages/key-validation/src/services/lido-key-validator.ts:55-60 | A module's place is that of its first key. |
| `LidoKeyModules.KeysOfInOrder` | packages/key-validation/src/services/lido-key-validator.ts:55-60 | Each module has its keys in input order. |
| `LidoKeyModules.GroupMeans` | packages/key-validation/src/services/lido-key-validator.ts:65-71 | The credentials of a module and the fork version of the chain reach the check under their own names; which question fails first. |
| `LidoKeyModules.ResultsByModule` | packages/key-validation/src/services/lido-key-validator.ts:38-49 | All results of the first module come first, then those of the second, and so on. |
| `LidoKeyModules.ValidateKeys` | packages/key-validation/src/services/lido-key-validator.ts:35-50 | The loop over the groups returns the module results one after the other, or the first error. |
| `LidoKeyModules.ValidateKey` | packages/key-validation/src/services/lido-key-validator.ts:22-33 | A single key gets its own verdict or its module's error. |
| `LidoKeyModules.EveryKeyIsAnsweredOnce` | packages/key-validation/src/services/lido-key-validator.ts:35-130 | The results are, as a multiset, exactly one verdict per input key, with the credentials of its own module. |
| `LidoKeyModules.FailsWithFirstError` | packages/key-validation/src/services/genesis-fork-version.service.ts:12-20 | The call fails if and only if some key's module has no credentials or fork version, with the error of the first such key. |

## Left out

- MerkleTreeService.CreateTree: 32-bit wrap-around of `>>` and `&` is not modelled; leaf counts and indices are mathematical naturals.
- MerkleTreeService.CreateTreeFromProofs: hashing an undefined value throws in the library; here it makes the root undefined as well.
- MerkleExactness.RoundTripsExactly: the "only if" half is over the free pair hash and distinct leaves; a colliding hash or equal leaves can let other proofs pass.
- Utils.Partition: fractional and infinite sizes are not modelled; the arguments for which the loop never ends (PartitionEndsExactly) are shut out.
- Utils.RangePromise: the interleaving within one batch is not modelled; which of its rejections comes first is left open.
- RegistrySync.RunsAreExact: operators are only appended, used counts stay within the totals, and an equal keysOpIndex means equal keys, between any two blocks.
- RegistrySync.RunsOfContract: assumes in addition that key and signature of used keys are fixed between any two blocks with the same reward address, and that a key is used exactly when it is below the used count.
- RegistryService.Registry.Save: SQL transactions are atomic; the order of the statements inside one `Promise.all` is fixed to list order.
- RegistryModel.FetchKeys: a contract call fails for a missing operator or key only; other failures, which reject the whole update before anything is written, are not modelled.
- Lower-casing of addresses is modelled for ASCII letters only.
- Chain reorganisations, the cron job and the event subscription of the registry.
- Queue.Queue.DequeueMultiple: an undefined element, at which the source would stop early, cannot be enqueued by the provider and is not modelled.
- BatchAggregator.LeavesInTime: time is counted in ticks, not milliseconds.
- BatchProvider.ExtendedJsonRpcBatchProvider.Send: the request timeout and the returned promise are steps of BatchPipeline, not of this class.
- BatchPipeline.ComesToRest: fetches, microtasks and handlers are assumed to happen eventually, in any order; middlewares, which may retry a fetch, are part of the fetch.
- BatchErrors.BatchSwitchesOnceExactly: the library layer between a child provider's `send` and `perform`, which may wrap errors of some methods in new objects, is not modelled.
- BatchResponse.HandleOutcome: payload ids are numbers or do not read as one; a truthy error that is not an object is not modelled.
- Limiter.CreateLimit: an infinite limit is not modelled.
- Retrier.StopsAtFirstFinal: default arguments and log lines are left out; pauses are numbers, not time.
- FallbackService.SimpleFallbackJsonRpcBatchProvider.PerformAlone: sanitizing the last error at total failure is proved separately, in SanitizeError; child calls are a function of the call number and the provider.
- FallbackDetection.InterleavedCatches: detections, resets and invalid providers between the caught errors are excluded here; EventKeepsInv covers them for the flags and PerformAmongIsBounded for the number of calls.
- SanitizeError.SanitizeErrorInPlace: an object-valued field is known by one rendering that does not change while the graph is rewritten, and setters have no other effects.
- KeyExecutors.SameAsSingleThreaded: a signature check that throws on malformed input is not modelled; the check answers true or false.
- LidoKeyModules.ValidateKeys: questions to the chain are answered alike within one call.
- HTTP, ethers, database and worker-pool libraries, dependency injection, logging and event emission.
- Easy next to the above: `waitForTransactionWithFallback`, fetch-service retries, the middleware service, `OneAtTime`, `MemoizeInFlightPromise`, block subscriptions, URL filtering and secret cleaning.
