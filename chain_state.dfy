/** The chain state: the candidate and confirmed chains (block hashes
    indexed by height), the block store, the orphan pool, and a log of the
    calls made on the header MMR, the chain store and the TxHashSet. */
module BlockChain {
  import opened Types
  import opened CoreModels

  datatype Status = Success | AlreadyExists | Orphaned | Invalid | StoreError | UnknownError

  datatype ChainType = Candidate | Confirmed

  /** Calls on the collaborators whose internals are not modelled. */
  datatype Call =
    | HeaderMmrAddHeader(header: BlockHeader)
    | HeaderMmrCommit
    | ChainStoreFlush
    | TxHashSetOpen
    | TxHashSetRewind(toHeader: BlockHeader)
    | TxHashSetApplyBlock(block: FullBlock)
    | TxHashSetDiscard
    | TxHashSetCommit
    | TxHashSetFlush

  /** The chain state as a value. A chain holds the hash of its block at
      each height, from genesis (height 0) to its tip. */
  datatype Snapshot = Snapshot(
    candidate: seq<Hash>,
    confirmed: seq<Hash>,
    headers: map<Hash, BlockHeader>,
    blocks: map<Hash, FullBlock>,
    orphans: map<Hash, FullBlock>)

  /** Both chains hold at least genesis, and every height is a uint64. */
  predicate WellFormed(s: Snapshot)
  {
    0 < |s.candidate| < U64_LIMIT && 0 < |s.confirmed| < U64_LIMIT
  }

  /** The store invariants the replay arguments rely on: the candidate
      chain never lists a hash twice, and headers and orphans are filed
      under their own hashes. */
  ghost predicate Consistent(s: Snapshot)
  {
    && (forall i, j :: 0 <= i < j < |s.candidate| ==> s.candidate[i] != s.candidate[j])
    && (forall x :: x in s.headers ==> s.headers[x].hash == x)
    && (forall x :: x in s.orphans ==> s.orphans[x].header.hash == x)
  }

  function ChainOf(s: Snapshot, chainType: ChainType): seq<Hash>
  {
    if chainType == Candidate then s.candidate else s.confirmed
  }

  /** Chain::GetByHeight: the index at a height, if the chain reaches it. */
  function GetByHeight(chain: seq<Hash>, height: u64): (r: Option<Hash>)
    ensures r.Some? <==> height < |chain|
    ensures r.Some? ==> r.value == chain[height]
  {
    if height < |chain| then Some(chain[height]) else None
  }

  /** Chain::Rewind: keep the heights up to and including `height`. */
  function Rewind(chain: seq<Hash>, height: u64): (r: seq<Hash>)
    ensures r <= chain
    ensures |r| == Min(|chain|, height + 1)
  {
    if height < |chain| then chain[..height + 1] else chain
  }

  /** ChainState::GetHead_Locked: the store's header for the tip hash. */
  function GetHead(s: Snapshot, chainType: ChainType): (r: Option<BlockHeader>)
    requires WellFormed(s)
    ensures r == GetBlockHeaderByHeight(s, |ChainOf(s, chainType)| - 1, chainType)
  {
    var chain := ChainOf(s, chainType);
    var tip := chain[|chain| - 1];
    if tip in s.headers then Some(s.headers[tip]) else None
  }

  /** ChainState::GetHeight. */
  function GetHeight(s: Snapshot, chainType: ChainType): (r: u64)
    requires WellFormed(s)
    ensures var chain := ChainOf(s, chainType);
      chain[|chain| - 1] in s.headers ==> r == s.headers[chain[|chain| - 1]].height
    ensures var chain := ChainOf(s, chainType);
      chain[|chain| - 1] !in s.headers ==> r == 0
  {
    match GetHead(s, chainType)
    case Some(head) => head.height
    case None => 0
  }

  /** ChainState::GetTotalDifficulty. */
  function GetTotalDifficulty(s: Snapshot, chainType: ChainType): (r: u64)
    requires WellFormed(s)
    ensures var chain := ChainOf(s, chainType);
      chain[|chain| - 1] in s.headers ==> r == s.headers[chain[|chain| - 1]].totalDifficulty
    ensures var chain := ChainOf(s, chainType);
      chain[|chain| - 1] !in s.headers ==> r == 0
  {
    match GetHead(s, chainType)
    case Some(head) => head.totalDifficulty
    case None => 0
  }

  /** ChainState::GetBlockHeaderByHash. */
  function GetBlockHeaderByHash(s: Snapshot, hash: Hash): (r: Option<BlockHeader>)
    ensures r.Some? <==> hash in s.headers
    ensures r.Some? ==> r.value == s.headers[hash]
  {
    if hash in s.headers then Some(s.headers[hash]) else None
  }

  /** ChainState::GetBlockHeaderByHeight: null when the chain does not
      reach the height, otherwise the store's header for that hash. */
  function GetBlockHeaderByHeight(s: Snapshot, height: u64, chainType: ChainType): (r: Option<BlockHeader>)
    ensures r.Some? <==> height < |ChainOf(s, chainType)| && ChainOf(s, chainType)[height] in s.headers
    ensures r.Some? ==> r.value == s.headers[ChainOf(s, chainType)[height]]
  {
    match GetByHeight(ChainOf(s, chainType), height)
    case None => None
    case Some(hash) => GetBlockHeaderByHash(s, hash)
  }

  /** ChainState::GetBlockByHash. */
  function GetBlockByHash(s: Snapshot, hash: Hash): (r: Option<FullBlock>)
    ensures r.Some? <==> hash in s.blocks
    ensures r.Some? ==> r.value == s.blocks[hash]
  {
    if hash in s.blocks then Some(s.blocks[hash]) else None
  }

  /** ChainState::GetOrphanBlock. */
  function GetOrphanBlock(s: Snapshot, hash: Hash): (r: Option<FullBlock>)
    ensures r.Some? <==> hash in s.orphans
    ensures r.Some? ==> r.value == s.orphans[hash]
  {
    if hash in s.orphans then Some(s.orphans[hash]) else None
  }

  /** In a consistent store the header found at a candidate height is the
      one filed under that height's hash. */
  lemma HeaderByHeightConsistent(s: Snapshot, height: u64)
    requires Consistent(s)
    ensures var r := GetBlockHeaderByHeight(s, height, Candidate);
      r.Some? ==> r.value.hash == s.candidate[height]
  {
  }

  class ChainState {
    var candidate: seq<Hash>
    var confirmed: seq<Hash>
    var headers: map<Hash, BlockHeader>
    var blocks: map<Hash, FullBlock>
    var orphans: map<Hash, FullBlock>
    /** Calls made on the header MMR, the chain store and the TxHashSet. */
    ghost var calls: seq<Call>

    function State(): Snapshot
      reads this
    {
      Snapshot(candidate, confirmed, headers, blocks, orphans)
    }

    predicate Valid()
      reads this
    {
      WellFormed(State())
    }

    /** A chain state over the stores' current chains; the orphan pool starts empty. */
    constructor (candidate: seq<Hash>, confirmed: seq<Hash>, headers: map<Hash, BlockHeader>, blocks: map<Hash, FullBlock>)
      ensures State() == Snapshot(candidate, confirmed, headers, blocks, map[])
      ensures calls == []
    {
      this.candidate := candidate;
      this.confirmed := confirmed;
      this.headers := headers;
      this.blocks := blocks;
      orphans := map[];
      calls := [];
    }

    /** ChainState::Initialize: seeds the block store and the header MMR
        with genesis only while the candidate tip is at height 0; opens the
        TxHashSet in every case. */
    method Initialize(genesisHeader: BlockHeader)
      requires Valid()
      modifies this`headers, this`calls
      ensures Valid()
      ensures |candidate| == 1 ==> headers == old(headers)[genesisHeader.hash := genesisHeader]
                                   && calls == old(calls) + [HeaderMmrAddHeader(genesisHeader), TxHashSetOpen]
      ensures |candidate| != 1 ==> headers == old(headers) && calls == old(calls) + [TxHashSetOpen]
    {
      var candidateHeight := |candidate| - 1;
      if candidateHeight == 0 {
        headers := headers[genesisHeader.hash := genesisHeader];
        calls := calls + [HeaderMmrAddHeader(genesisHeader)];
      }
      calls := calls + [TxHashSetOpen];
    }

    /** ChainState::GetBlocksNeeded: the (height, candidate hash) pairs
        from the confirmed tip + 1 up to the candidate tip, ascending, at
        most maxNumBlocks of them; with maxNumBlocks 0 the size check never
        fires and all of them are returned. */
    method GetBlocksNeeded(maxNumBlocks: u64) returns (needed: seq<(u64, Hash)>)
      requires Valid()
      ensures var count := if |confirmed| < |candidate| then |candidate| - |confirmed| else 0;
        |needed| == if maxNumBlocks == 0 then count else Min(maxNumBlocks, count)
      ensures forall i :: 0 <= i < |needed| ==>
        |confirmed| + i < |candidate| && needed[i] == (|confirmed| + i, candidate[|confirmed| + i])
    {
      ghost var count := if |confirmed| < |candidate| then |candidate| - |confirmed| else 0;
      needed := [];
      var candidateHeight: u64 := |candidate| - 1;
      var nextHeight: u64 := |confirmed| - 1 + 1;
      while nextHeight <= candidateHeight
        invariant nextHeight == |confirmed| + |needed|
        invariant |needed| <= count
        invariant maxNumBlocks != 0 ==> |needed| < maxNumBlocks
        invariant forall i :: 0 <= i < |needed| ==>
          |confirmed| + i < |candidate| && needed[i] == (|confirmed| + i, candidate[|confirmed| + i])
        decreases |candidate| - nextHeight
      {
        needed := needed + [(nextHeight, candidate[nextHeight])];
        nextHeight := nextHeight + 1;
        if |needed| == maxNumBlocks {
          break;
        }
      }
    }

    /** ChainState::FlushAll: header MMR commit, then chain store flush,
        then TxHashSet flush. */
    method FlushAll()
      modifies this`calls
      ensures calls == old(calls) + [HeaderMmrCommit, ChainStoreFlush, TxHashSetFlush]
    {
      calls := calls + [HeaderMmrCommit];
      calls := calls + [ChainStoreFlush];
      calls := calls + [TxHashSetFlush];
    }
  }

  /** Needed blocks run consecutively upwards from the confirmed tip and
      stop at or below the candidate tip. */
  lemma BlocksNeededAscending(confirmed: seq<Hash>, candidate: seq<Hash>, needed: seq<(u64, Hash)>)
    requires forall i :: 0 <= i < |needed| ==>
      |confirmed| + i < |candidate| && needed[i] == (|confirmed| + i, candidate[|confirmed| + i])
    ensures forall i :: 0 < i < |needed| ==> needed[i].0 == needed[i - 1].0 + 1
    ensures forall i :: 0 <= i < |needed| ==> |confirmed| <= needed[i].0 <= |candidate| - 1
  {
  }
}
