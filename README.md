# GrinPlusPlus node core in Dafny

This project models the core of the GrinPlusPlus node and proves properties about the model:

- **Block processing** (`block_processor.dfy`). A full block is classified and applied step by step: the cut-through horizon check, the header gate, duplicate detection against the confirmed chain, the four-way orphan test, the speculative apply and validate against the TxHashSet with discard on failure, the extension of the confirmed chain, and the replay of buffered orphans at the following candidate heights.
- **Chain state** (`chain_state.dfy`). The candidate and confirmed chains are sequences of block hashes indexed by height. The block store and the orphan pool are maps. Header-MMR, chain-store and TxHashSet operations are recorded in a ghost log of calls. The module also has the lookups, `GetBlocksNeeded`, `Initialize` and `FlushAll`.
- **Transaction pools** (`pool.dfy`, `transaction_pool.dfy`). A pool is an ordered list of entries `(transaction, Dandelion status, timestamp)`, changed in place: append-if-valid, filtered erasure, block reconciliation and the queries. The `TransactionPool` routes between the mempool and the stempool.
- **Header sync** (`header_syncer.dfy`). The four-field state machine that decides when to ask the most-work peer for headers and when to ban peers.
- **Serialisers and utilities**:
  - the peer message frame (`message_sender.dfy`);
  - `Transaction` serialisation and its memoised hash (`core_models.dfy`);
  - `BlockSums` (`block_sums.dfy`);
  - the vector helpers (`vector_util.dfy`).
- **Configuration defaults** (`config_reader.dfy`). The JSON document is a map from key to value, read with a default for each setting.

Every block-processing step exists twice:

- a pure function on a `Snapshot` of the chain state. These are the `...Outcome` functions, `Replay` and `ShouldOrphan`, and each takes the call log so far and returns it extended.
- a method of `BlockProcessor` that updates the shared `ChainState` object field by field. Each method's `ensures` says that its status, its new state and its new call log are exactly those of its function.

The lemmas about the functions therefore hold for the methods.

Collaborators whose code is not part of this model are parameters:

- the block header processor: its status, and the candidate chain and header store it leaves;
- the block validator;
- the transaction validator;
- the aggregator and the valid-transaction finder;
- Blake2b and short ids;
- the component byte encodings of Commitment and TransactionBody. Each is a `Codec`, and its round-trip is a hypothesis, never an axiom;
- the u64 byte encoding of the message frame: a pair of functions `encodeU64`/`decodeU64`, whose fixed width of 8 and round-trip are the hypothesis `U64CodecValid`;
- the socket's send result, the clock, the random draws and the current directory.

## Model

| member | source | states |
|---|---|---|
| BlockProcessing.ShouldOrphan | BlockChain/Processors/BlockProcessor.cpp:142-186 | The block is an orphan iff at least one of these holds: the candidate entry at h-1 is missing or is not the previous hash; the candidate entry at h is missing or is not the block hash; the confirmed entry at h-1 is missing or is not the previous hash; or the confirmed entry at h exists and differs. h-1 is computed in uint64, so a block at height 0 is always an orphan. A block that is not an orphan has 1 <= h < the candidate length. |
| BlockProcessing.ProcessOrphanBlockOutcome | BlockChain/Processors/BlockProcessor.cpp:126-140 | A block already in the orphan pool gives ALREADY_EXISTS and nothing changes. Otherwise the block is buffered under its hash and the result is ORPHANED. |
| BlockProcessing.ProcessNextBlockOutcome | BlockChain/Processors/BlockProcessor.cpp:93-124 | The block always leaves the orphan pool and the confirmed chain is rewound to h-1. The result is STORE_ERROR iff the parent header is missing, and then no TxHashSet call is made. The result is SUCCESS iff the parent exists and the validator accepts the block with the parent's total kernel offset. On SUCCESS the block is stored, the confirmed chain becomes the prefix up to h-1 followed by the block hash, and the log gains exactly Rewind(parent) and ApplyBlock. On INVALID the log gains Rewind, ApplyBlock and Discard, and the block store is unchanged. Commit is never called. |
| BlockProcessing.ProcessBlockInternalOutcome | BlockChain/Processors/BlockProcessor.cpp:69-91 | A block the confirmed chain already holds at its height gives ALREADY_EXISTS with state and log unchanged. ORPHANED means the block passed the orphan test, was not yet buffered, and is now buffered, with the log unchanged. The result is ALREADY_EXISTS iff the confirmed chain holds the block at its height, or the block is an orphan already buffered. It is ORPHANED iff the block is not confirmed there, is an orphan and is not yet buffered. Every other block goes on to ProcessNextBlock. SUCCESS holds iff the block is not confirmed there, is not an orphan, its parent header is stored and the validator accepts it on the parent's total kernel offset. Candidate chain and headers are untouched. The status is never UNKNOWN_ERROR. The log is only extended, never with a Commit, and well-formedness is preserved. |
| BlockProcessing.Replay | BlockChain/Processors/BlockProcessor.cpp:43-61 | The orphan replay keeps the candidate chain and the headers, never loses a stored block, only appends to the log and never appends a Commit. It preserves well-formedness. Its progress is stated by ReplayConfirmsOrphans. |
| BlockProcessing.ReplayStep | BlockChain/Processors/BlockProcessor.cpp:45-61 | One replay step from height h. It stops at a missing candidate header at h+1 or at a missing orphan. After a non-SUCCESS result it stops with that step's state. After a SUCCESS it continues from h+1. |
| BlockProcessing.ProcessBlockOutcome | BlockChain/Processors/BlockProcessor.cpp:18-67 | A block at or below max(candidate height, horizon) - horizon, and in particular a block at height 0, gives INVALID with state and log unchanged. A header status other than SUCCESS, ALREADY_EXISTS or ORPHANED is returned as it is, and the block is not processed. Past the gate the returned status is the first internal result, whatever the replay does. A non-SUCCESS internal result is returned with its state and log, and the replay does not run. After a SUCCESS the state and log are those the replay reaches from the internal outcome at the block's height. The log is only extended, never with a Commit, and the chains stay well-formed. |
| BlockProcessing.ReplayStopsAt | BlockChain/Processors/BlockProcessor.cpp:43-61 | On a confirmed chain that follows the candidate chain up to h, the replay keeps that prefix. It changes nothing on the confirmed chain when the candidate block after h is not buffered. |
| BlockProcessing.BufferedBlockSucceeds | BlockChain/Processors/BlockProcessor.cpp:69-124 | A buffered candidate block at h+1, valid on its stored parent, on a confirmed chain that follows the candidate chain up to h, gives SUCCESS. It is confirmed at h+1 and moves from the orphan pool to the block store, and the store stays consistent. |
| BlockProcessing.ReplayFirstOrphan | BlockChain/Processors/BlockProcessor.cpp:45-61 | The first replay step over such a block succeeds, and the replay then carries on from h+1 in the state that step leaves. |
| BlockProcessing.ReplayConfirmsOrphans | BlockChain/Processors/BlockProcessor.cpp:43-61 | When the candidate blocks at h+1..last are all buffered and valid on their parents, the replay confirms every one of them, so the confirmed chain follows the candidate chain up to last. Each moves from the orphan pool to the block store. When the candidate block after last is not buffered, the confirmed chain ends exactly at last. |
| BlockProcessing.ReplayConfirmsFirstOrphan | BlockChain/Processors/BlockProcessor.cpp:43-61 | The inductive step of ReplayConfirmsOrphans, with the same conclusion when at least one block is buffered. |
| BlockProcessing.AheadBlockIsBuffered | BlockChain/Processors/BlockProcessor.cpp:18-140 | A block past the horizon and the header gate that is an orphan, neither confirmed nor already buffered, gives ORPHANED. The only change beyond the header processor's effect is that it is buffered under its hash, and the log is unchanged. |
| BlockProcessing.ParentArrivalConfirmsRun | BlockChain/Processors/BlockProcessor.cpp:18-67 | A parent that arrives after its successors: when the confirmed chain ends just below it, it is valid on its stored parent, and the candidate blocks above it up to last are buffered, ProcessBlock gives SUCCESS and confirms the block and all of them. Each moves to the block store, and the orphan pool only shrinks. The confirmed chain ends at last when the next candidate block is not buffered. |
| BlockProcessing.TwoBufferedState | BlockChain/Processors/BlockProcessor.cpp:126-140 | Buffering the blocks at h+2 and h+1 in an empty orphan pool keeps the store consistent and the horizon height. It makes them a buffered run above h. |
| BlockProcessing.ReverseOrderBuffers | BlockChain/Processors/BlockProcessor.cpp:18-140 | Blocks h+2 and then h+1, submitted before block h, each give ORPHANED. They leave a consistent state with both buffered above the confirmed tip h-1. |
| BlockProcessing.ReverseOrderArrival | BlockChain/Processors/BlockProcessor.cpp:18-67 | Blocks h+2, h+1 and h of a synced candidate chain are submitted in that order. The first two give ORPHANED, and the third gives SUCCESS. The confirmed chain is then the whole candidate chain, the orphan pool is empty and all three blocks are stored. |
| BlockProcessing.OrphanStepKeepsPrefix | BlockChain/Processors/BlockProcessor.cpp:45-61 | One replay step over a buffered candidate block at h+1 never gives ORPHANED. It keeps the confirmed chain up to h, adds no orphan and keeps the store consistent. |
| BlockProcessing.ReplayAfterOrphanKeepsPrefix | BlockChain/Processors/BlockProcessor.cpp:43-61 | After a successful replay step the rest of the replay keeps the confirmed chain up to h, adds no orphan and keeps the store consistent. |
| BlockProcessing.ReplayKeepsPrefix | BlockChain/Processors/BlockProcessor.cpp:43-61 | In a consistent store the replay after a success at h keeps the confirmed chain up to h unchanged. It only removes orphans, never adds one, and keeps the store consistent. |
| BlockProcessing.InternalKeepsConsistent | BlockChain/Processors/BlockProcessor.cpp:69-140 | Internal processing keeps the store consistent: candidate hashes stay distinct, and headers and orphans stay filed under their own hashes. |
| BlockProcessing.ProcessBlockTwice | BlockChain/Processors/BlockProcessor.cpp:18-91 | After ProcessBlock succeeds, processing the same block again (within the horizon and past the header gate) gives ALREADY_EXISTS. The confirmed chain, the block store, the orphan pool and the call log stay as they were. |
| BlockProcessing.AppendsWithoutCommitTransitive | BlockChain/Processors/BlockProcessor.cpp:116-118 | "Extends the log without a TxHashSet Commit" composes across steps. |
| BlockProcessing.BlockProcessor.constructor | BlockChain/Processors/BlockProcessor.cpp:12-16 | The processor holds the given chain state and horizon. |
| BlockProcessing.BlockProcessor.ProcessBlock | BlockChain/Processors/BlockProcessor.cpp:18-67 | The status, the chain state and the call log after the method are those of ProcessBlockOutcome on the state and log before it, so the status iffs of ProcessBlockInternalOutcome and the replay progress of ReplayConfirmsOrphans and ParentArrivalConfirmsRun hold for it. |
| BlockProcessing.BlockProcessor.ReplayOrphans | BlockChain/Processors/BlockProcessor.cpp:43-61 | The while loop over ++height leaves exactly the state and log of Replay. |
| BlockProcessing.BlockProcessor.ProcessBlockInternal | BlockChain/Processors/BlockProcessor.cpp:69-91 | Status, state and log are those of ProcessBlockInternalOutcome, whose contract gives the condition for each status. |
| BlockProcessing.BlockProcessor.ProcessNextBlock | BlockChain/Processors/BlockProcessor.cpp:93-124 | Status, state and log are those of ProcessNextBlockOutcome, built by successive field updates and log appends. |
| BlockProcessing.BlockProcessor.ProcessOrphanBlock | BlockChain/Processors/BlockProcessor.cpp:126-140 | Status, state and log are those of ProcessOrphanBlockOutcome. |
| BlockChain.Rewind | BlockChain/Processors/BlockProcessor.cpp:98 | Rewinding to h keeps a prefix of the chain: the heights 0..h, or the whole chain when it is shorter. |
| BlockChain.GetHead | BlockChain/ChainState.cpp:119-124 | The tip header is the header store's entry for the chain's last hash, the same as the header lookup at the tip height. |
| BlockChain.GetByHeight | BlockChain/ChainState.cpp:66-78 | A chain has an index at a height iff the height is below its length, and that index is the chain's entry there. |
| BlockChain.GetHeight | BlockChain/ChainState.cpp:33-44 | The height of the tip header from the store, or 0 when the tip's header is absent. |
| BlockChain.GetTotalDifficulty | BlockChain/ChainState.cpp:46-57 | The total difficulty of the tip header, or 0 when the tip's header is absent. |
| BlockChain.GetBlockHeaderByHash | BlockChain/ChainState.cpp:59-64 | Some iff the hash is in the header store, and then it is that header. |
| BlockChain.GetBlockHeaderByHeight | BlockChain/ChainState.cpp:66-78 | Null when the chain does not reach the height or its hash there has no header. Otherwise it is the store's header for that hash. |
| BlockChain.GetBlockByHash | BlockChain/ChainState.cpp:80-85 | Some iff the block is stored, and then it is that block. |
| BlockChain.GetOrphanBlock | BlockChain/ChainState.cpp:87-92 | Some iff the hash is in the orphan pool, and then it is that block. |
| BlockChain.HeaderByHeightConsistent | BlockChain/ChainState.cpp:66-78 | In a consistent store, the header found at a candidate height carries that height's hash. |
| BlockChain.ChainState.constructor | BlockChain/ChainState.cpp:9-13 | Starts from the given chains and stores, with an empty orphan pool and an empty call log. |
| BlockChain.ChainState.Initialize | BlockChain/ChainState.cpp:20-31 | When the candidate tip is at height 0, genesis is added to the header store and the header MMR. The TxHashSet is opened in every case. Nothing else changes. |
| BlockChain.ChainState.GetBlocksNeeded | BlockChain/ChainState.cpp:94-117 | Returns exactly min(maxNumBlocks, candidate tip - confirmed tip) pairs, or all of them when maxNumBlocks is 0, and none when the confirmed tip is not below the candidate tip. Entry i is (confirmed tip + 1 + i, the candidate hash at that height). |
| BlockChain.BlocksNeededAscending | BlockChain/ChainState.cpp:101-114 | The needed heights are consecutive and ascending. They lie between confirmed tip + 1 and the candidate tip. |
| BlockChain.ChainState.FlushAll | BlockChain/ChainState.cpp:136-142 | Exactly HeaderMMR Commit, then ChainStore Flush, then TxHashSet Flush are appended, in that order. |
| TxPool.Pool.AddTransaction | TxPool/Pool.cpp:35-46 | The result is the validator's verdict. Exactly one entry (transaction, status, timestamp 0) is appended iff accepted. Otherwise nothing changes. |
| TxPool.Pool.RemoveTransactions | TxPool/Pool.cpp:104-130 | The new entries are the old ones without every entry whose transaction is listed, in their original order. |
| TxPool.Pool.ShouldEvict | TxPool/Pool.cpp:156-177 | True iff the transaction shares an input or a kernel with the block. |
| TxPool.Pool.ReconcileBlock | TxPool/Pool.cpp:134-154 | The new entries are exactly the old non-conflicting entries, in order. |
| TxPool.Pool.FindTransactionsByStatus | TxPool/Pool.cpp:70-84 | The transactions of the entries with that status, in pool order. |
| TxPool.Pool.FindTransactionsByKernel | TxPool/Pool.cpp:48-68 | The set of pool transactions that have a kernel in the given set. |
| TxPool.Pool.GetTransactionsByShortId | TxPool/Pool.cpp:10-33 | The short-id matches in pool order then kernel order, cut at the number of missing ids. |
| TxPool.Pool.GetExpiredTransactions | TxPool/Pool.cpp:86-101 | The transactions stamped strictly before now - embargo, in pool order. |
| TxPool.Pool.Select | TxPool/Pool.cpp:70-101 | The transactions of the entries meeting the criterion, in pool order. |
| TxPool.Pool.Aggregate | TxPool/Pool.cpp:179-199 | Null on an empty pool. Otherwise the aggregator's result over all transactions in pool order. |
| TxPool.Filter | TxPool/Pool.cpp:104-154 | Keeps at most the entries it was given. Its properties are carried by FilterMembership, FilterAppend and FilterIdempotent. |
| TxPool.FilterMembership | TxPool/Pool.cpp:104-154 | An entry survives iff it was in the pool and matches. |
| TxPool.FilterAppend | TxPool/Pool.cpp:104-154 | Filtering distributes over concatenation, so the survivors keep their relative order. |
| TxPool.FilterIdempotent | TxPool/Pool.cpp:134-154 | Reconciling (or removing) twice is the same as once. |
| TxPool.TransactionsOf | TxPool/Pool.cpp:70-84 | One transaction per entry, the one carried by the entry at the same index. Membership is carried by TransactionsOfMembership. |
| TxPool.ShortIdMatches | TxPool/Pool.cpp:15-30 | Every short-id match is a transaction of the pool. Soundness for kernels is carried by ShortIdMatchesSound. |
| TxPool.Conflicts | TxPool/Pool.cpp:156-177 | A transaction conflicts with a block iff their input sets intersect or their kernel sets intersect. |
| TxPool.Pool.constructor | TxPool/TransactionPoolImpl.cpp:10-14 | A new pool has no entries. |
| TxPool.TransactionsOfMembership | TxPool/Pool.cpp:70-84 | A transaction is listed iff some entry carries it. |
| TxPool.ShortIdMatchesSound | TxPool/Pool.cpp:10-33 | Every short-id match is a pool transaction with a kernel whose short id is missing. |
| TxPool.KernelMatchesSound | TxPool/Pool.cpp:17-28 | A transaction matches only if one of its kernels has a missing short id. |
| TxPool.ShortIdMatchesEmpty | TxPool/Pool.cpp:10-33 | With no missing ids nothing matches. |
| TxPool.KernelMatches | TxPool/Pool.cpp:17-28 | At most one match per kernel, each the transaction itself. |
| TxPool.EraseStep | TxPool/Pool.cpp:109-127 | One step of the in-place erase loop: the current entry is either erased or kept after the survivors. |
| TxPoolImpl.TransactionPool.constructor | TxPool/TransactionPoolImpl.cpp:10-16 | Two fresh empty pools, and the configured stem probability and embargo. |
| TxPoolImpl.TransactionPool.AddTransaction | TxPool/TransactionPoolImpl.cpp:23-49 | A mempool add inserts as FLUFFED. When accepted it also removes the transaction from the stempool, and when rejected the stempool is unchanged. A stempool add uses TO_STEM iff random <= stem probability, else TO_FLUFF, and never touches the mempool. |
| TxPoolImpl.TransactionPool.GetTransactionsByShortId | TxPool/TransactionPoolImpl.cpp:18-21 | Answered from the mempool only. |
| TxPoolImpl.TransactionPool.FindTransactionsByKernel | TxPool/TransactionPoolImpl.cpp:51-54 | Answered from the mempool only. |
| TxPoolImpl.TransactionPool.ReconcileBlock | TxPool/TransactionPoolImpl.cpp:56-67 | Block eviction applied to the mempool and to the stempool. |
| TxPoolImpl.TransactionPool.Relay | TxPool/TransactionPoolImpl.cpp:69-121 | Null when no stempool entry has the status, or when the finder keeps none. Otherwise the aggregate of the valid ones. |
| TxPoolImpl.TransactionPool.GetTransactionToStem | TxPool/TransactionPoolImpl.cpp:69-94 | The relay answer for TO_STEM entries. |
| TxPoolImpl.TransactionPool.GetTransactionToFluff | TxPool/TransactionPoolImpl.cpp:96-121 | The relay answer for TO_FLUFF entries. |
| TxPoolImpl.TransactionPool.GetExpiredTransactions | TxPool/TransactionPoolImpl.cpp:123-127 | The stempool transactions older than (embargo + random) truncated to uint16. |
| TxPoolImpl.ToRelay | TxPool/TransactionPoolImpl.cpp:71-93 | A transaction to relay exists only when some stempool entry has the status, and it is the aggregator's result on a non-empty selection. |
| TxPoolImpl.NothingToRelay | TxPool/TransactionPoolImpl.cpp:71-75 | Without an entry of the status the answer is null, whatever the collaborators do. |
| TxPoolImpl.MemPoolAddMovesTransaction | TxPool/TransactionPoolImpl.cpp:25-33 | After a successful mempool add the stempool no longer holds the transaction. |
| P2PSync.HeaderSyncer.constructor | P2P/Sync/HeaderSyncer.cpp:9-17 | Timeout = now, and last height, connection id and the timeout count are 0. |
| P2PSync.HeaderSyncer.NextBatchHeight | P2P/Sync/HeaderSyncer.cpp:55 | lastHeight + MAX_BLOCK_HEADERS - 1 in uint64: the plain value when the sum is between 1 and 2^64, 2^64 - 1 when the sum is 0, and the sum minus 2^64 + 1 past 2^64. |
| P2PSync.HeaderSyncer.IsHeaderSyncDue | P2P/Sync/HeaderSyncer.cpp:38-64 | Due iff behind and either timed out or the batch arrived. A timeout counts one more and takes priority, a received batch resets the count, and otherwise nothing changes. |
| P2PSync.HeaderSyncer.RequestHeaders | P2P/Sync/HeaderSyncer.cpp:66-96 | With 10 or more timeouts every most-work peer is banned and the count is reset. The connection id is overwritten. A send to a nonzero id arms timeout = now + 5 and remembers the height; on id 0 both stay. |
| P2PSync.HeaderSyncer.SyncHeaders | P2P/Sync/HeaderSyncer.cpp:19-36 | True iff highest >= height + 5. When false the count is reset. When true, headers are requested iff due, with the combined effect of the two calls above. |
| P2PSync.TimeoutsLeadToBan | P2P/Sync/HeaderSyncer.cpp:43-80 | Starting from nine timeouts, a timed-out sync bans the most-work peers and clears the count. |
| P2PMessages.Frame | P2P/MessageSender.cpp:14-24 | The frame starts with the magic, then the type byte, then the encoded body length, and ends with the body. |
| P2PMessages.Serializer.constructor | P2P/MessageSender.cpp:14 | A new serializer holds no bytes. |
| P2PMessages.FrameLayout | P2P/MessageSender.cpp:14-24 | The frame is the magic, then the type byte, then the length field decoding to \|body\|, then the body, with total length \|magic\| + 9 + \|body\|. |
| P2PMessages.FrameRoundTrip | P2P/MessageSender.cpp:14-24 | Parsing a frame gives back the magic, the type byte and the body. |
| P2PMessages.MessageSender.Send | P2P/MessageSender.cpp:12-35 | The frame sent is Frame(magic, type, body), and the result is true iff the socket did not answer SOCKET_ERROR. |
| P2PMessages.MessageSender.constructor | P2P/MessageSender.cpp:6-10 | Holds the environment's magic bytes. |
| P2PMessages.Serializer.AppendByteVector | P2P/MessageSender.cpp:14-24 | Appends exactly the given bytes. |
| P2PMessages.Serializer.AppendU8 | P2P/MessageSender.cpp:15 | Appends exactly one byte. |
| P2PMessages.Serializer.AppendU64 | P2P/MessageSender.cpp:22 | Appends the u64 encoding. |
| CoreModels.Serialize | Core/Models/Transaction.cpp:12-20 | The 32 offset bytes followed by the body encoding. |
| CoreModels.Deserialize | Core/Models/Transaction.cpp:22-31 | Fails on a short buffer. The offset is the first 32 bytes, and the body is what the body decoder reads next. |
| CoreModels.SerializeRoundTrip | Core/Models/Transaction.cpp:12-31 | Deserialize(Serialize(t) + rest) = (t, rest) when the body codec round-trips. |
| CoreModels.CachedTransaction.constructor | Core/Models/Transaction.cpp:6-10 | Stores the offset and the body unchanged, with the cache at the default hash. |
| CoreModels.CachedTransaction.GetHash | Core/Models/Transaction.cpp:33-43 | Returns Blake2b of the serialised bytes. It computes only while the cache is default and never changes a filled cache. |
| CoreModels.RepeatedGetHash | Core/Models/Transaction.cpp:33-43 | Two calls of GetHash return the same hash. |
| CoreBlockSums.Serialize | include/Core/BlockSums.h:19-23 | The outputSum encoding, then the kernelSum encoding. |
| CoreBlockSums.Deserialize | include/Core/BlockSums.h:25-31 | Succeeds iff both reads succeed. outputSum is read first and kernelSum second. |
| CoreBlockSums.SerializeRoundTrip | include/Core/BlockSums.h:10-31 | Deserialize(Serialize(s) + rest) = (s, rest) when the commitment codec round-trips, so the getters see the constructor arguments again. |
| VectorUtil.Vector.constructor | include/VectorUtil.h:14-15 | The vector holds exactly the given elements. |
| VectorUtil.MakeVector | include/VectorUtil.h:8-12 | The N array elements, in order. |
| VectorUtil.Remove | include/VectorUtil.h:14-20 | Replaces the vector by old[..pos] + old[pos+1..]. |
| VectorUtil.EraseShifts | include/VectorUtil.h:14-20 | Erasing shrinks by one, keeps the earlier elements, shifts the later ones down by one, and removes exactly one occurrence. |
| VectorUtil.Contains | include/VectorUtil.h:22-34 | True iff some element equals the value. |
| ConfigReader.AsString | Config/ConfigReader.cpp:79-88 | JSON asString: fails only on an object. A string is itself. An integer becomes a decimal spelling, an optional '-' then digits, whose value is the integer. |
| ConfigReader.AsInt | Config/ConfigReader.cpp:99-107 | JSON asInt: Some iff an integer within int32. |
| ConfigReader.AsUInt | Config/ConfigReader.cpp:90-146 | JSON asUInt: Some iff an integer within uint32. |
| ConfigReader.Decimal | Config/ConfigReader.cpp:79-88 | A non-empty spelling: a leading '-' exactly when the integer is negative, then digits only. The spelling reads back, as a decimal, to the integer. |
| ConfigReader.Digits | Config/ConfigReader.cpp:79-88 | A non-empty string of digits without a leading zero, unless it is "0". Read back as a decimal it is the number. |
| ConfigReader.ReadClientMode | Config/ConfigReader.cpp:31-51 | LIGHT_CLIENT iff the value is "LIGHT_CLIENT", and FULL_HISTORY iff it is "FULL_HISTORY". A missing key or any other string gives FAST_SYNC. Fails only on an object value. |
| ConfigReader.ReadEnvironment | Config/ConfigReader.cpp:53-77 | MAINNET iff the value is "MAINNET", with port 3414 and magic {97,61}. Otherwise FLOONET with port 13414 and magic {83,59}. Both use the same version bytes. |
| ConfigReader.ReadDataPath | Config/ConfigReader.cpp:79-88 | The configured string when the key is present. Otherwise cwd + "/DATA/". |
| ConfigReader.Section | Config/ConfigReader.cpp:90-146 | A section exists iff its value is an object. |
| ConfigReader.ReadP2P | Config/ConfigReader.cpp:90-111 | maxPeers 30 and minPeers 15 by default. Each is overridden independently, and only when its key is present. Fails on a non-object section, or on a present value that is not an int32 integer. Negative int32 values are accepted. |
| ConfigReader.ReadTruncated | Config/ConfigReader.cpp:113-146 | The default when the key is missing. Otherwise the uint value modulo the field width, failing iff the value is not a uint. |
| ConfigReader.ReadDandelion | Config/ConfigReader.cpp:113-146 | Defaults 600/180/10/90. Each value is overridden independently, truncated to uint16 (relay, embargo) and uint8 (patience, stem probability). On an object section the result is Some iff all four reads succeed. |
| ConfigReader.ReadConfig | Config/ConfigReader.cpp:9-29 | Succeeds iff all five readers succeed, and is then their composition. |
| ConfigReader.EmptyConfigDefaults | Config/ConfigReader.cpp:9-146 | An empty document gives FAST_SYNC, FLOONET, cwd/DATA/, Dandelion 600/180/10/90 and P2P 30/15. |
| Types.AddU64 | BlockChain/Processors/BlockProcessor.cpp:47 | uint64 addition wraps modulo 2^64. |
| Types.SubU64 | BlockChain/Processors/BlockProcessor.cpp:148 | uint64 subtraction wraps modulo 2^64. |

## Left out

- Locking (the chain mutex, `LockedChainState`, the pool mutexes) is left out: every call is atomic in the model.
- The TxHashSet, the header MMR and the chain store are abstract. Only the calls made on them are recorded, in order, in the ghost `calls` log. No roots, peaks or rewinds of their content are modelled.
- Cryptography (Blake2b, commitments, short ids, signatures) is uninterpreted. Hashes are compared, never computed, except through the `blake2b` and `shortId` parameters.
- The block header processor is an oracle input (`HeaderOutcome`): its status, and the candidate chain and header store it leaves. Its own header-MMR calls are not logged.
- The block validator is an oracle input. Its verdict depends only on the block and the parent's total kernel offset.
- `Chain::Rewind` and `Chain::AddBlock` are not part of this model. The model takes Rewind(h) to keep heights 0..h, and AddBlock to append at the tip.
- `BlockStore`, `ChainStore`, `OrphanPool` and the TxHashSet manager are not part of this model. They are maps and the call log.
- A block at height 0 is rejected by the horizon check alone: the horizon height is never negative, so the block is INVALID. `ShouldOrphan` would call it an orphan, because h-1 wraps to 2^64-1 and no chain reaches that height. The parent lookup is never reached for it. The model writes the wrap out, although the horizon check hides it.
- A block that fails the orphan test is not always ORPHANED. It is ALREADY_EXISTS when it is already in the orphan pool (BlockChain/Processors/BlockProcessor.cpp:129-133), or when the confirmed chain already holds it at its height (BlockChain/Processors/BlockProcessor.cpp:76-81).
- The byte encodings of Commitment and TransactionBody are `Codec` parameters, and their round-trips are hypotheses. A BlindingFactor is written as its raw 32 bytes, with no codec. The u64 length field is written by the `encodeU64` parameter and read by `decodeU64`, under the hypothesis `U64CodecValid`. Endianness is not modelled.
- The Genesis block contents and `BitUtil::ConvertToU32` are not part of this model. The environment's version values are opaque byte quadruples.
- The configuration key spellings come from `ConfigProps.h`, which is not part of this model. The key constants are named after the identifiers.
- jsoncpp's value conversions are reduced to three kinds of value: strings, integers and objects. `asString` of an integer is its decimal spelling. Booleans, reals, null and arrays are not modelled.
- `Pool::FindTransactionsByKernel` collects the matching transactions into a `std::set`, and the caller receives them as a `std::vector` in that set's order (TxPool/Pool.cpp:48-67, TxPool/TransactionPoolImpl.cpp:51). The model returns the set, so the order of the returned vector is not modelled.
- `TransactionPool::ValidateTransaction` and `ValidateTransactionBody` only delegate to the unseen validator, so they are left out.
- `ChainState::GetHead_Locked` is the function `GetHead`, which `GetHeight` and `GetTotalDifficulty` both call. `GetHeadHash_Locked` is folded into `GetHead` as the last entry of the chain.
- `Pool::GetExpiredTransactions`: the clock is a parameter `now`. The cutoff `now - embargo` is taken in seconds, as `std::time_t` is.
- P2PSync.HeaderSyncer.SyncHeaders: each call reads the candidate height, the peer height and the clock once. The source reads `GetHeight(CANDIDATE)` at P2P/Sync/HeaderSyncer.cpp:21, 40 and 85, and the clock at lines 46 and 92, so a change between those reads is not modelled.
- The random draws (0..100 for routing, 0..30 for the embargo) and the current directory are parameters.
- The socket send result, the connection manager's choice of peer and its ban calls are parameters and results. Banned peers are returned in order instead of being sent to a connection manager.
