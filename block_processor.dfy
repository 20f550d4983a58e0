/** The block-acceptance state machine: horizon check, header gate,
    duplicate detection, orphan classification, speculative apply and
    validation against the TxHashSet, extension of the confirmed chain, and
    the replay of buffered orphans. The header processor and the block
    validator are parameters. Every step takes the collaborator call log so
    far and returns it extended. */
module BlockProcessing {
  import opened Types
  import opened CoreModels
  import opened BlockChain

  /** What the header processor reported for the block's header, and the
      candidate chain and header store it left behind. */
  datatype HeaderOutcome = HeaderOutcome(status: Status, candidate: seq<Hash>, headers: map<Hash, BlockHeader>)

  /** A status, the state it leaves and the call log after it. */
  datatype Outcome = Outcome(status: Status, state: Snapshot, log: seq<Call>)

  /** What the orphan replay leaves: the state and the call log. */
  datatype Trace = Trace(state: Snapshot, log: seq<Call>)

  /** BlockValidator::IsBlockValid(block, previous total kernel offset). */
  type Validator = (FullBlock, BlindingFactor) -> bool

  /** The header statuses after which the block itself is processed. */
  predicate PassesHeaderGate(status: Status)
  {
    status == Success || status == AlreadyExists || status == Orphaned
  }

  /** `after` is `before` with calls appended, none of them a TxHashSet commit. */
  predicate AppendsWithoutCommit(before: seq<Call>, after: seq<Call>)
  {
    |before| <= |after| && after[..|before|] == before && TxHashSetCommit !in after[|before|..]
  }

  lemma AppendsWithoutCommitTransitive(a: seq<Call>, b: seq<Call>, c: seq<Call>)
    requires AppendsWithoutCommit(a, b) && AppendsWithoutCommit(b, c)
    ensures AppendsWithoutCommit(a, c)
  {
    assert c[..|a|] == c[..|b|][..|a|];
    assert c[|a|..] == b[|a|..] + c[|b|..];
  }

  /** BlockProcessor::ShouldOrphan, its four checks in order. The previous
      height is header height - 1 in uint64, so at height 0 it wraps and
      names no block. */
  function ShouldOrphan(s: Snapshot, header: BlockHeader): (orphan: bool)
    ensures var h := header.height;
      var p := SubU64(h, 1);
      orphan <==>
        || p >= |s.candidate| || s.candidate[p] != header.previousHash
        || h >= |s.candidate| || s.candidate[h] != header.hash
        || p >= |s.confirmed| || s.confirmed[p] != header.previousHash
        || (h < |s.confirmed| && s.confirmed[h] != header.hash)
    ensures |s.candidate| < U64_LIMIT && header.height == 0 ==> orphan
    ensures !orphan && |s.candidate| < U64_LIMIT ==>
      1 <= header.height < |s.candidate| && header.height - 1 < |s.confirmed|
  {
    var previousHeight := SubU64(header.height, 1);
    if GetByHeight(s.candidate, previousHeight) != Some(header.previousHash) then true
    else if GetByHeight(s.candidate, header.height) != Some(header.hash) then true
    else if GetByHeight(s.confirmed, previousHeight) != Some(header.previousHash) then true
    else
      var confirmedIndex := GetByHeight(s.confirmed, header.height);
      confirmedIndex.Some? && confirmedIndex.value != header.hash
  }

  /** BlockProcessor::ProcessOrphanBlock: ALREADY_EXISTS when buffered,
      otherwise buffered and ORPHANED. */
  function ProcessOrphanBlockOutcome(s: Snapshot, log: seq<Call>, block: FullBlock): (r: Outcome)
    ensures r.status == AlreadyExists <==> block.Hash() in s.orphans
    ensures r.status == AlreadyExists || r.status == Orphaned
    ensures r.status == AlreadyExists ==> r.state == s
    ensures r.status == Orphaned ==> r.state == s.(orphans := s.orphans[block.Hash() := block])
    ensures r.log == log
  {
    if block.Hash() in s.orphans then Outcome(AlreadyExists, s, log)
    else Outcome(Orphaned, s.(orphans := s.orphans[block.Hash() := block]), log)
  }

  /** BlockProcessor::ProcessNextBlock: out of the orphan pool, confirmed
      chain rewound to h - 1, parent header looked up (STORE_ERROR when
      missing), TxHashSet rewound to the parent and the block applied; an
      invalid block is discarded, a valid one stored and its candidate
      index appended to the confirmed chain. The TxHashSet is never
      committed. */
  function ProcessNextBlockOutcome(s: Snapshot, log: seq<Call>, block: FullBlock, isValid: Validator): (r: Outcome)
    requires |s.candidate| < U64_LIMIT && !ShouldOrphan(s, block.header)
    ensures var h := block.header.height;
      && r.state.candidate == s.candidate && r.state.headers == s.headers
      && r.state.orphans == s.orphans - {block.Hash()}
      && (r.status == StoreError <==> block.header.previousHash !in s.headers)
      && (r.status == Success <==>
            block.header.previousHash in s.headers
            && isValid(block, s.headers[block.header.previousHash].totalKernelOffset))
      && (r.status == Success || r.status == Invalid || r.status == StoreError)
      && (r.status == Success ==> r.state.confirmed == s.confirmed[..h] + [block.header.hash]
                                  && r.state.blocks == s.blocks[block.Hash() := block])
      && (r.status != Success ==> r.state.confirmed == s.confirmed[..h] && r.state.blocks == s.blocks)
    ensures r.status == StoreError ==> r.log == log
    ensures r.status == Invalid ==>
      var parent := s.headers[block.header.previousHash];
      r.log == log + [TxHashSetRewind(parent), TxHashSetApplyBlock(block), TxHashSetDiscard]
    ensures r.status == Success ==>
      var parent := s.headers[block.header.previousHash];
      r.log == log + [TxHashSetRewind(parent), TxHashSetApplyBlock(block)]
  {
    var header := block.header;
    var s1 := s.(orphans := s.orphans - {block.Hash()},
                 confirmed := Rewind(s.confirmed, SubU64(header.height, 1)));
    match GetBlockHeaderByHash(s1, header.previousHash)
    case None => Outcome(StoreError, s1, log)
    case Some(previousHeader) =>
      var applied := log + [TxHashSetRewind(previousHeader), TxHashSetApplyBlock(block)];
      if !isValid(block, previousHeader.totalKernelOffset) then
        Outcome(Invalid, s1, applied + [TxHashSetDiscard])
      else
        var candidateIndex := GetByHeight(s.candidate, header.height);
        Outcome(Success, s1.(blocks := s1.blocks[block.Hash() := block],
                             confirmed := s1.confirmed + [candidateIndex.value]), applied)
  }

  /** BlockProcessor::ProcessBlockInternal: ALREADY_EXISTS for a block the
      confirmed chain holds at its height; otherwise orphaned or processed
      as the next block. */
  function ProcessBlockInternalOutcome(s: Snapshot, log: seq<Call>, block: FullBlock, isValid: Validator): (r: Outcome)
    requires |s.candidate| < U64_LIMIT
    ensures r.state.candidate == s.candidate && r.state.headers == s.headers
    ensures GetByHeight(s.confirmed, block.header.height) == Some(block.header.hash) ==>
      r == Outcome(AlreadyExists, s, log)
    ensures r.status == Orphaned ==>
      ShouldOrphan(s, block.header) && block.Hash() !in s.orphans
      && r.state == s.(orphans := s.orphans[block.Hash() := block]) && r.log == log
    ensures r.status == AlreadyExists ==> r.state == s && r.log == log
    ensures r.status == Success || r.status == Invalid || r.status == StoreError ==>
      var h := block.header.height;
      && !ShouldOrphan(s, block.header)
      && r.state.orphans == s.orphans - {block.Hash()}
      && r.state.confirmed == s.confirmed[..h] + (if r.status == Success then [block.header.hash] else [])
      && r.state.blocks == (if r.status == Success then s.blocks[block.Hash() := block] else s.blocks)
    ensures var confirmedHere := GetByHeight(s.confirmed, block.header.height) == Some(block.header.hash);
      && (r.status == AlreadyExists <==> confirmedHere || (ShouldOrphan(s, block.header) && block.Hash() in s.orphans))
      && (r.status == Orphaned <==> !confirmedHere && ShouldOrphan(s, block.header) && block.Hash() !in s.orphans)
      && (!confirmedHere && !ShouldOrphan(s, block.header) ==> r == ProcessNextBlockOutcome(s, log, block, isValid))
    ensures r.status == Success <==>
      && GetByHeight(s.confirmed, block.header.height) != Some(block.header.hash)
      && !ShouldOrphan(s, block.header)
      && block.header.previousHash in s.headers
      && isValid(block, s.headers[block.header.previousHash].totalKernelOffset)
    ensures r.status != UnknownError
    ensures AppendsWithoutCommit(log, r.log)
    ensures WellFormed(s) ==> WellFormed(r.state)
  {
    var confirmedIndex := GetByHeight(s.confirmed, block.header.height);
    if confirmedIndex.Some? && confirmedIndex.value == block.header.hash then
      Outcome(AlreadyExists, s, log)
    else if ShouldOrphan(s, block.header) then
      ProcessOrphanBlockOutcome(s, log, block)
    else
      ProcessNextBlockOutcome(s, log, block, isValid)
  }

  /** The replay loop of BlockProcessor::ProcessBlock after a success at
      `height`: the candidate header at the next height, the orphan
      buffered under its hash, processed; repeated while that succeeds. */
  function Replay(s: Snapshot, log: seq<Call>, height: u64, isValid: Validator): (t: Trace)
    requires height < |s.candidate| < U64_LIMIT
    ensures t.state.candidate == s.candidate && t.state.headers == s.headers
    ensures s.blocks.Keys <= t.state.blocks.Keys
    ensures AppendsWithoutCommit(log, t.log)
    ensures WellFormed(s) ==> WellFormed(t.state)
    decreases |s.candidate| - height
  {
    var next := AddU64(height, 1);
    match GetBlockHeaderByHeight(s, next, Candidate)
    case None => Trace(s, log)
    case Some(orphanHeader) =>
      match GetOrphanBlock(s, orphanHeader.hash)
      case None => Trace(s, log)
      case Some(orphanBlock) =>
        var o := ProcessBlockInternalOutcome(s, log, orphanBlock, isValid);
        if o.status != Success then Trace(o.state, o.log)
        else
          var rest := Replay(o.state, o.log, next, isValid);
          AppendsWithoutCommitTransitive(log, o.log, rest.log);
          rest
  }

  /** One step of the replay. */
  lemma ReplayStep(s: Snapshot, log: seq<Call>, height: u64, isValid: Validator)
    requires height < |s.candidate| < U64_LIMIT
    ensures var next := height + 1;
      var orphanHeader := GetBlockHeaderByHeight(s, next, Candidate);
      var t := Replay(s, log, height, isValid);
      && (orphanHeader.None? ==> t == Trace(s, log))
      && (orphanHeader.Some? && orphanHeader.value.hash !in s.orphans ==> t == Trace(s, log))
      && (orphanHeader.Some? && orphanHeader.value.hash in s.orphans ==>
            var o := ProcessBlockInternalOutcome(s, log, s.orphans[orphanHeader.value.hash], isValid);
            && (o.status != Success ==> t == Trace(o.state, o.log))
            && (o.status == Success ==> next < |o.state.candidate| && t == Replay(o.state, o.log, next, isValid)))
  {
    var orphanHeader := GetBlockHeaderByHeight(s, height + 1, Candidate);
    if orphanHeader.Some? && orphanHeader.value.hash in s.orphans {
      assert GetOrphanBlock(s, orphanHeader.value.hash) == Some(s.orphans[orphanHeader.value.hash]);
    }
  }

  /** The state the header processor leaves. */
  function AfterHeader(s: Snapshot, headerOutcome: HeaderOutcome): Snapshot
  {
    s.(candidate := headerOutcome.candidate, headers := headerOutcome.headers)
  }

  /** The height at or below which blocks are beyond the cut-through horizon. */
  function HorizonHeight(s: Snapshot, horizon: u64): u64
    requires WellFormed(s)
  {
    Max(GetHeight(s, Candidate), horizon) - horizon
  }

  /** BlockProcessor::ProcessBlock. Returns the first internal result; the
      orphan replay only changes the state. */
  function ProcessBlockOutcome(s: Snapshot, log: seq<Call>, block: FullBlock, headerOutcome: HeaderOutcome,
                               isValid: Validator, horizon: u64): (r: Outcome)
    requires WellFormed(s) && 0 < |headerOutcome.candidate| < U64_LIMIT
    ensures block.header.height <= HorizonHeight(s, horizon) ==> r == Outcome(Invalid, s, log)
    ensures block.header.height == 0 ==> r == Outcome(Invalid, s, log)
    ensures block.header.height > HorizonHeight(s, horizon) && !PassesHeaderGate(headerOutcome.status) ==>
      r == Outcome(headerOutcome.status, AfterHeader(s, headerOutcome), log)
    ensures block.header.height > HorizonHeight(s, horizon) && PassesHeaderGate(headerOutcome.status) ==>
      var o := ProcessBlockInternalOutcome(AfterHeader(s, headerOutcome), log, block, isValid);
      && r.status == o.status
      && (o.status != Success ==> r == o)
      && (o.status == Success ==>
            && block.header.height < |o.state.candidate|
            && Trace(r.state, r.log) == Replay(o.state, o.log, block.header.height, isValid))
    ensures AppendsWithoutCommit(log, r.log)
    ensures WellFormed(r.state)
  {
    var height := block.header.height;
    if height <= HorizonHeight(s, horizon) then Outcome(Invalid, s, log)
    else
      var s1 := AfterHeader(s, headerOutcome);
      if !PassesHeaderGate(headerOutcome.status) then Outcome(headerOutcome.status, s1, log)
      else
        var o := ProcessBlockInternalOutcome(s1, log, block, isValid);
        if o.status != Success then o
        else
          var t := Replay(o.state, o.log, height, isValid);
          AppendsWithoutCommitTransitive(log, o.log, t.log);
          Outcome(Success, t.state, t.log)
  }

  /** Internal processing keeps the store consistent. */
  lemma InternalKeepsConsistent(s: Snapshot, log: seq<Call>, block: FullBlock, isValid: Validator)
    requires |s.candidate| < U64_LIMIT && Consistent(s)
    ensures Consistent(ProcessBlockInternalOutcome(s, log, block, isValid).state)
  {
  }

  /** One replay step over the buffered candidate block after `height`
      leaves the confirmed chain up to `height` alone, never buffers a new
      orphan, and keeps the store consistent. */
  lemma OrphanStepKeepsPrefix(s: Snapshot, log: seq<Call>, height: u64, isValid: Validator)
    requires height + 1 < |s.candidate| < U64_LIMIT && height < |s.confirmed| && Consistent(s)
    requires s.candidate[height + 1] in s.orphans
    ensures var o := ProcessBlockInternalOutcome(s, log, s.orphans[s.candidate[height + 1]], isValid);
      && o.status != Orphaned
      && height < |o.state.confirmed|
      && o.state.confirmed[..height + 1] == s.confirmed[..height + 1]
      && o.state.orphans.Keys <= s.orphans.Keys
      && Consistent(o.state)
  {
    var next := height + 1;
    var orphanBlock := s.orphans[s.candidate[next]];
    var o := ProcessBlockInternalOutcome(s, log, orphanBlock, isValid);
    InternalKeepsConsistent(s, log, orphanBlock, isValid);
    assert orphanBlock.Hash() == s.candidate[next];
    // The buffered block is already in the pool, so it is never re-buffered.
    assert o.status != Orphaned;
    if o.status == Success || o.status == Invalid || o.status == StoreError {
      var h := orphanBlock.header.height;
      assert s.candidate[h] == s.candidate[next];
      assert h == next;
      assert o.state.confirmed[..height + 1] == s.confirmed[..height + 1];
    }
  }

  /** In a consistent store the orphan replay leaves the confirmed chain up
      to `height` alone, never buffers a new orphan, and keeps the store
      consistent. */
  lemma {:induction false} ReplayKeepsPrefix(s: Snapshot, log: seq<Call>, height: u64, isValid: Validator)
    requires height < |s.candidate| < U64_LIMIT && height < |s.confirmed| && Consistent(s)
    ensures var t := Replay(s, log, height, isValid);
      && height < |t.state.confirmed|
      && t.state.confirmed[..height + 1] == s.confirmed[..height + 1]
      && t.state.orphans.Keys <= s.orphans.Keys
      && Consistent(t.state)
    decreases |s.candidate| - height, 1
  {
    var next := AddU64(height, 1);
    match GetBlockHeaderByHeight(s, next, Candidate)
    case None =>
    case Some(orphanHeader) =>
      match GetOrphanBlock(s, orphanHeader.hash)
      case None =>
      case Some(orphanBlock) =>
        assert orphanHeader.hash == s.candidate[next];
        OrphanStepKeepsPrefix(s, log, height, isValid);
        var o := ProcessBlockInternalOutcome(s, log, orphanBlock, isValid);
        if o.status == Success {
          ReplayAfterOrphanKeepsPrefix(s, log, height, isValid);
        }
  }

  /** The rest of the replay after a successful step over the buffered
      candidate block after `height` keeps the confirmed chain up to
      `height`, buffers nothing new and keeps the store consistent. */
  lemma {:induction false} ReplayAfterOrphanKeepsPrefix(s: Snapshot, log: seq<Call>, height: u64, isValid: Validator)
    requires height + 1 < |s.candidate| < U64_LIMIT && height < |s.confirmed| && Consistent(s)
    requires s.candidate[height + 1] in s.orphans
    requires ProcessBlockInternalOutcome(s, log, s.orphans[s.candidate[height + 1]], isValid).status == Success
    ensures var o := ProcessBlockInternalOutcome(s, log, s.orphans[s.candidate[height + 1]], isValid);
      var rest := Replay(o.state, o.log, height + 1, isValid);
      && height < |rest.state.confirmed|
      && rest.state.confirmed[..height + 1] == s.confirmed[..height + 1]
      && rest.state.orphans.Keys <= s.orphans.Keys
      && Consistent(rest.state)
    decreases |s.candidate| - height, 0
  {
    var next := height + 1;
    OrphanStepKeepsPrefix(s, log, height, isValid);
    var o := ProcessBlockInternalOutcome(s, log, s.orphans[s.candidate[next]], isValid);
    ReplayKeepsPrefix(o.state, o.log, next, isValid);
    var rest := Replay(o.state, o.log, next, isValid);
    assert rest.state.confirmed[..height + 1] == rest.state.confirmed[..next + 1][..height + 1];
    assert o.state.confirmed[..height + 1] == o.state.confirmed[..next + 1][..height + 1];
  }

  /** The candidate block at height j waits in the orphan pool with its
      header stored; it sits at height j, names the candidate hash below it
      as its parent, has its parent's header stored and passes validation
      against it. */
  ghost predicate BufferedAt(s: Snapshot, j: nat, isValid: Validator)
    requires 0 < j < |s.candidate|
  {
    && s.candidate[j] in s.orphans && s.candidate[j] in s.headers
    && s.candidate[j - 1] in s.headers
    && s.orphans[s.candidate[j]].header.height == j
    && s.orphans[s.candidate[j]].header.previousHash == s.candidate[j - 1]
    && isValid(s.orphans[s.candidate[j]], s.headers[s.candidate[j - 1]].totalKernelOffset)
  }

  /** Every candidate height in (height, last] is buffered. */
  ghost predicate BufferedRun(s: Snapshot, height: nat, last: nat, isValid: Validator)
    requires last < |s.candidate|
  {
    forall j :: height < j <= last ==> BufferedAt(s, j, isValid)
  }

  /** A buffered block at the height after the confirmed tip, on a
      confirmed chain that follows the candidate chain, passes internal
      processing: it is confirmed and moves from the orphan pool to the
      block store. */
  lemma BufferedBlockSucceeds(s: Snapshot, log: seq<Call>, height: u64, isValid: Validator)
    requires height + 1 < |s.candidate| < U64_LIMIT
    requires Consistent(s) && s.confirmed == s.candidate[..height + 1]
    requires BufferedAt(s, height + 1, isValid)
    ensures var hash := s.candidate[height + 1];
      var o := ProcessBlockInternalOutcome(s, log, s.orphans[hash], isValid);
      && o.status == Success
      && o.state.candidate == s.candidate && o.state.headers == s.headers
      && o.state.confirmed == s.candidate[..height + 2]
      && o.state.orphans == s.orphans - {hash}
      && hash in o.state.blocks && s.blocks.Keys <= o.state.blocks.Keys
      && Consistent(o.state)
  {
    var hash := s.candidate[height + 1];
    var b := s.orphans[hash];
    assert b.header.hash == hash;
    assert !ShouldOrphan(s, b.header);
    InternalKeepsConsistent(s, log, b, isValid);
  }

  /** The first replay step over a buffered block succeeds, and the replay
      carries on from the next height in the state it leaves. */
  lemma ReplayFirstOrphan(s: Snapshot, log: seq<Call>, height: u64, isValid: Validator)
    returns (next: Snapshot, nextLog: seq<Call>)
    requires height + 1 < |s.candidate| < U64_LIMIT
    requires Consistent(s) && s.confirmed == s.candidate[..height + 1]
    requires BufferedAt(s, height + 1, isValid)
    ensures var hash := s.candidate[height + 1];
      && next.candidate == s.candidate && next.headers == s.headers
      && next.confirmed == s.candidate[..height + 2]
      && next.orphans == s.orphans - {hash}
      && hash in next.blocks && s.blocks.Keys <= next.blocks.Keys
      && Consistent(next)
      && Replay(s, log, height, isValid) == Replay(next, nextLog, height + 1, isValid)
  {
    var hash := s.candidate[height + 1];
    BufferedBlockSucceeds(s, log, height, isValid);
    assert s.headers[hash].hash == hash;
    assert GetBlockHeaderByHeight(s, height + 1, Candidate) == Some(s.headers[hash]);
    var o := ProcessBlockInternalOutcome(s, log, s.orphans[hash], isValid);
    next, nextLog := o.state, o.log;
  }

  /** Replay progress: when the confirmed chain is the candidate chain up to
      `height` and the blocks at height + 1 .. last wait in the orphan pool,
      the replay confirms every one of them, moves each from the orphan pool
      to the block store, and stops at `last` when the next candidate block
      is not buffered. */
  lemma {:induction false} ReplayConfirmsOrphans(s: Snapshot, log: seq<Call>, height: u64, last: nat, isValid: Validator)
    requires height <= last < |s.candidate| < U64_LIMIT
    requires Consistent(s) && s.confirmed == s.candidate[..height + 1]
    requires BufferedRun(s, height, last, isValid)
    ensures var t := Replay(s, log, height, isValid);
      && last < |t.state.confirmed|
      && t.state.confirmed[..last + 1] == s.candidate[..last + 1]
      && (forall j :: height < j <= last ==> s.candidate[j] !in t.state.orphans && s.candidate[j] in t.state.blocks)
      && (last + 1 == |s.candidate| || s.candidate[last + 1] !in s.orphans ==> t.state.confirmed == s.candidate[..last + 1])
    decreases last - height, 1
  {
    if last > height {
      ReplayConfirmsFirstOrphan(s, log, height, last, isValid);
    } else {
      ReplayStopsAt(s, log, height, isValid);
    }
  }

  /** The inductive step of ReplayConfirmsOrphans: the replay confirms the
      first buffered block and carries on over the rest of the run. */
  lemma {:induction false} ReplayConfirmsFirstOrphan(s: Snapshot, log: seq<Call>, height: u64, last: nat, isValid: Validator)
    requires height < last < |s.candidate| < U64_LIMIT
    requires Consistent(s) && s.confirmed == s.candidate[..height + 1]
    requires BufferedRun(s, height, last, isValid)
    ensures var t := Replay(s, log, height, isValid);
      && last < |t.state.confirmed|
      && t.state.confirmed[..last + 1] == s.candidate[..last + 1]
      && (forall j :: height < j <= last ==> s.candidate[j] !in t.state.orphans && s.candidate[j] in t.state.blocks)
      && (last + 1 == |s.candidate| || s.candidate[last + 1] !in s.orphans ==> t.state.confirmed == s.candidate[..last + 1])
    decreases last - height, 0
  {
    var hash := s.candidate[height + 1];
    assert BufferedAt(s, height + 1, isValid);
    var next, nextLog := ReplayFirstOrphan(s, log, height, isValid);
    forall j | height + 1 < j <= last
      ensures BufferedAt(next, j, isValid)
    {
      assert BufferedAt(s, j, isValid);
      assert s.candidate[j] != hash;
    }
    ReplayConfirmsOrphans(next, nextLog, height + 1, last, isValid);
    ReplayKeepsPrefix(next, nextLog, height + 1, isValid);
    var t := Replay(next, nextLog, height + 1, isValid);
    forall j | height < j <= last
      ensures s.candidate[j] !in t.state.orphans && s.candidate[j] in t.state.blocks
    {
      if j == height + 1 {
        assert hash !in next.orphans && hash in next.blocks;
      } else {
        assert next.candidate[j] == s.candidate[j];
      }
    }
  }

  /** The replay never undoes the confirmed chain it starts from, and it
      stops at once when the candidate block after the tip is not buffered. */
  lemma ReplayStopsAt(s: Snapshot, log: seq<Call>, height: u64, isValid: Validator)
    requires height < |s.candidate| < U64_LIMIT
    requires Consistent(s) && s.confirmed == s.candidate[..height + 1]
    ensures var t := Replay(s, log, height, isValid);
      && height < |t.state.confirmed|
      && t.state.confirmed[..height + 1] == s.candidate[..height + 1]
      && (height + 1 == |s.candidate| || s.candidate[height + 1] !in s.orphans ==> t.state.confirmed == s.candidate[..height + 1])
  {
    ReplayKeepsPrefix(s, log, height, isValid);
    ReplayStep(s, log, height, isValid);
    if height + 1 < |s.candidate| && s.candidate[height + 1] in s.headers {
      assert s.headers[s.candidate[height + 1]].hash == s.candidate[height + 1];
    }
  }

  /** A block that passes the horizon and the header gate but fails the
      orphan test, and is neither confirmed nor already buffered, is
      buffered: ORPHANED, with nothing else changed beyond the header
      processor's own effect. */
  lemma AheadBlockIsBuffered(s: Snapshot, log: seq<Call>, block: FullBlock, headerOutcome: HeaderOutcome,
                             isValid: Validator, horizon: u64)
    requires WellFormed(s) && 0 < |headerOutcome.candidate| < U64_LIMIT
    requires PassesHeaderGate(headerOutcome.status) && block.header.height > HorizonHeight(s, horizon)
    requires ShouldOrphan(AfterHeader(s, headerOutcome), block.header) && block.Hash() !in s.orphans
    requires GetByHeight(s.confirmed, block.header.height) != Some(block.header.hash)
    ensures ProcessBlockOutcome(s, log, block, headerOutcome, isValid, horizon)
            == Outcome(Orphaned, AfterHeader(s, headerOutcome).(orphans := s.orphans[block.Hash() := block]), log)
  {
  }

  /** A parent arriving after its successors: when the confirmed chain ends
      just below the block, the block is valid on its stored parent, and the
      candidate blocks above it up to `last` wait in the orphan pool,
      ProcessBlock succeeds, and the replay confirms the block and all of
      them, moving each to the block store. The orphan pool only shrinks,
      and the replay stops at `last` when the next candidate block is not
      buffered. */
  lemma ParentArrivalConfirmsRun(s: Snapshot, log: seq<Call>, block: FullBlock, headerOutcome: HeaderOutcome,
                                 isValid: Validator, horizon: u64, last: nat)
    requires WellFormed(s) && 0 < |headerOutcome.candidate| < U64_LIMIT
    requires PassesHeaderGate(headerOutcome.status) && block.header.height > HorizonHeight(s, horizon)
    requires Consistent(AfterHeader(s, headerOutcome))
    requires var h := block.header.height; var c := headerOutcome.candidate;
      && 1 <= h <= last < |c|
      && s.confirmed == c[..h]
      && block.header.hash == c[h] && block.header.previousHash == c[h - 1]
      && c[h - 1] in headerOutcome.headers
      && isValid(block, headerOutcome.headers[c[h - 1]].totalKernelOffset)
      && BufferedRun(AfterHeader(s, headerOutcome), h, last, isValid)
    ensures var r := ProcessBlockOutcome(s, log, block, headerOutcome, isValid, horizon);
      var h := block.header.height; var c := headerOutcome.candidate;
      && r.status == Success
      && last < |r.state.confirmed| && r.state.confirmed[..last + 1] == c[..last + 1]
      && (forall j :: h <= j <= last ==> c[j] !in r.state.orphans && c[j] in r.state.blocks)
      && (last + 1 == |c| || c[last + 1] !in s.orphans ==> r.state.confirmed == c[..last + 1])
      && r.state.orphans.Keys <= s.orphans.Keys
  {
    var s1 := AfterHeader(s, headerOutcome);
    var h := block.header.height;
    var c := headerOutcome.candidate;
    assert !ShouldOrphan(s1, block.header);
    var i := ProcessBlockInternalOutcome(s1, log, block, isValid);
    assert i.status == Success;
    assert i.state.confirmed == c[..h + 1];
    InternalKeepsConsistent(s1, log, block, isValid);
    forall j | h < j <= last
      ensures BufferedAt(i.state, j, isValid)
    {
      assert BufferedAt(s1, j, isValid);
      assert c[j] != c[h];
    }
    ReplayConfirmsOrphans(i.state, i.log, h, last, isValid);
    ReplayKeepsPrefix(i.state, i.log, h, isValid);
    var t := Replay(i.state, i.log, h, isValid);
    forall j | h <= j <= last
      ensures c[j] !in t.state.orphans && c[j] in t.state.blocks
    {
      if j == h {
        assert c[h] !in i.state.orphans && c[h] in i.state.blocks;
      }
    }
  }

  /** The first two arrivals of ReverseOrderArrival: the blocks at h + 2
      and h + 1 are buffered in turn, and the state they leave behind
      holds both as a buffered run above the confirmed chain. */
  lemma ReverseOrderBuffers(s: Snapshot, log: seq<Call>, block0: FullBlock, block1: FullBlock, block2: FullBlock,
                            headerOutcome: HeaderOutcome, isValid: Validator, horizon: u64)
    returns (s3: Snapshot)
    requires WellFormed(s) && 0 < |headerOutcome.candidate| < U64_LIMIT
    requires headerOutcome.status == Success && s.orphans == map[]
    requires Consistent(AfterHeader(s, headerOutcome))
    requires 1 <= block0.header.height && |headerOutcome.candidate| == block0.header.height + 3
    requires var h := block0.header.height; var c := headerOutcome.candidate;
      && s.confirmed == c[..h]
      && block1.header.height == h + 1 && block2.header.height == h + 2
      && block0.header.hash == c[h] && block1.header.hash == c[h + 1] && block2.header.hash == c[h + 2]
      && block0.header.previousHash == c[h - 1] && block1.header.previousHash == c[h]
      && block2.header.previousHash == c[h + 1]
      && (forall j :: h - 1 <= j < h + 3 ==> c[j] in headerOutcome.headers)
      && isValid(block0, headerOutcome.headers[c[h - 1]].totalKernelOffset)
      && isValid(block1, headerOutcome.headers[c[h]].totalKernelOffset)
      && isValid(block2, headerOutcome.headers[c[h + 1]].totalKernelOffset)
    requires block0.header.height > HorizonHeight(s, horizon)
    requires block0.header.height > HorizonHeight(AfterHeader(s, headerOutcome), horizon)
    ensures var o2 := ProcessBlockOutcome(s, log, block2, headerOutcome, isValid, horizon);
      && o2.status == Orphaned && o2.log == log
      && ProcessBlockOutcome(o2.state, o2.log, block1, headerOutcome, isValid, horizon) == Outcome(Orphaned, s3, log)
    ensures var h := block0.header.height; var c := headerOutcome.candidate;
      && WellFormed(s3) && AfterHeader(s3, headerOutcome) == s3 && Consistent(s3)
      && s3.confirmed == c[..h] && s3.orphans.Keys == {c[h + 1], c[h + 2]}
      && block0.header.height > HorizonHeight(s3, horizon)
      && BufferedRun(s3, h, h + 2, isValid)
  {
    var h := block0.header.height;
    var c := headerOutcome.candidate;
    var s1 := AfterHeader(s, headerOutcome);
    var s2 := s1.(orphans := map[c[h + 2] := block2]);
    s3 := s2.(orphans := s2.orphans[c[h + 1] := block1]);
    TwoBufferedState(s1, block1, block2, isValid, horizon, h);

    // The block at h + 2 finds no confirmed block at h + 1 and is buffered.
    AheadBlockIsBuffered(s, log, block2, headerOutcome, isValid, horizon);

    // The block at h + 1 finds no confirmed block at h and is buffered too.
    AheadBlockIsBuffered(s2, log, block1, headerOutcome, isValid, horizon);
  }

  /** The state facts behind ReverseOrderBuffers, apart from ProcessBlock:
      adding the blocks at h + 2 and h + 1 to an empty orphan pool keeps
      the store invariants and makes them a buffered run above h. */
  lemma TwoBufferedState(s1: Snapshot, block1: FullBlock, block2: FullBlock, isValid: Validator, horizon: u64, h: nat)
    requires WellFormed(s1) && Consistent(s1) && s1.orphans == map[]
    requires 1 <= h && |s1.candidate| == h + 3 && s1.confirmed == s1.candidate[..h]
    requires var c := s1.candidate;
      && block1.header.height == h + 1 && block2.header.height == h + 2
      && block1.header.hash == c[h + 1] && block2.header.hash == c[h + 2]
      && block1.header.previousHash == c[h] && block2.header.previousHash == c[h + 1]
      && c[h] in s1.headers && c[h + 1] in s1.headers && c[h + 2] in s1.headers
      && isValid(block1, s1.headers[c[h]].totalKernelOffset)
      && isValid(block2, s1.headers[c[h + 1]].totalKernelOffset)
    ensures var c := s1.candidate;
      var s2 := s1.(orphans := map[c[h + 2] := block2]);
      var s3 := s2.(orphans := s2.orphans[c[h + 1] := block1]);
      && c[h + 1] != c[h + 2]
      && WellFormed(s2) && HorizonHeight(s2, horizon) == HorizonHeight(s1, horizon)
      && WellFormed(s3) && Consistent(s3) && HorizonHeight(s3, horizon) == HorizonHeight(s1, horizon)
      && s3.confirmed == c[..h] && s3.orphans.Keys == {c[h + 1], c[h + 2]}
      && BufferedRun(s3, h, h + 2, isValid)
  {
    var c := s1.candidate;
    var s2 := s1.(orphans := map[c[h + 2] := block2]);
    var s3 := s2.(orphans := s2.orphans[c[h + 1] := block1]);
    assert c[h + 1] != c[h + 2];
    assert BufferedAt(s3, h + 1, isValid) && BufferedAt(s3, h + 2, isValid);
  }

  /** Blocks at heights h, h + 1 and h + 2 of an already synced candidate
      chain, arriving in reverse order: the two later ones are buffered as
      orphans, and the block at h is confirmed and, through the replay,
      confirms the other two, leaving the orphan pool empty. */
  lemma ReverseOrderArrival(s: Snapshot, log: seq<Call>, block0: FullBlock, block1: FullBlock, block2: FullBlock,
                            headerOutcome: HeaderOutcome, isValid: Validator, horizon: u64)
    requires WellFormed(s) && 0 < |headerOutcome.candidate| < U64_LIMIT
    requires headerOutcome.status == Success && s.orphans == map[]
    requires Consistent(AfterHeader(s, headerOutcome))
    requires 1 <= block0.header.height && |headerOutcome.candidate| == block0.header.height + 3
    requires var h := block0.header.height; var c := headerOutcome.candidate;
      && s.confirmed == c[..h]
      && block1.header.height == h + 1 && block2.header.height == h + 2
      && block0.header.hash == c[h] && block1.header.hash == c[h + 1] && block2.header.hash == c[h + 2]
      && block0.header.previousHash == c[h - 1] && block1.header.previousHash == c[h]
      && block2.header.previousHash == c[h + 1]
      && (forall j :: h - 1 <= j < h + 3 ==> c[j] in headerOutcome.headers)
      && isValid(block0, headerOutcome.headers[c[h - 1]].totalKernelOffset)
      && isValid(block1, headerOutcome.headers[c[h]].totalKernelOffset)
      && isValid(block2, headerOutcome.headers[c[h + 1]].totalKernelOffset)
    requires block0.header.height > HorizonHeight(s, horizon)
    requires block0.header.height > HorizonHeight(AfterHeader(s, headerOutcome), horizon)
    ensures var o2 := ProcessBlockOutcome(s, log, block2, headerOutcome, isValid, horizon);
      var o1 := ProcessBlockOutcome(o2.state, o2.log, block1, headerOutcome, isValid, horizon);
      var o0 := ProcessBlockOutcome(o1.state, o1.log, block0, headerOutcome, isValid, horizon);
      && o2.status == Orphaned && o1.status == Orphaned && o0.status == Success
      && o0.state.confirmed == headerOutcome.candidate
      && o0.state.orphans == map[]
      && block0.Hash() in o0.state.blocks && block1.Hash() in o0.state.blocks && block2.Hash() in o0.state.blocks
  {
    var h := block0.header.height;
    var c := headerOutcome.candidate;
    var s3 := ReverseOrderBuffers(s, log, block0, block1, block2, headerOutcome, isValid, horizon);
    ParentArrivalConfirmsRun(s3, log, block0, headerOutcome, isValid, horizon, h + 2);
    var o0 := ProcessBlockOutcome(s3, log, block0, headerOutcome, isValid, horizon);
    assert c[..h + 3] == c;
    assert o0.state.orphans.Keys == {};
  }

  /** Idempotence: after ProcessBlock succeeds, a second ProcessBlock of the
      same block within the horizon and past the header gate is
      ALREADY_EXISTS and leaves the confirmed chain, the block store, the
      orphan pool and the call log as they were. */
  lemma ProcessBlockTwice(s: Snapshot, log: seq<Call>, block: FullBlock, first: HeaderOutcome, second: HeaderOutcome,
                          isValid: Validator, horizon: u64)
    requires WellFormed(s) && 0 < |first.candidate| < U64_LIMIT && 0 < |second.candidate| < U64_LIMIT
    requires Consistent(AfterHeader(s, first))
    requires ProcessBlockOutcome(s, log, block, first, isValid, horizon).status == Success
    requires var s2 := ProcessBlockOutcome(s, log, block, first, isValid, horizon).state;
      block.header.height > HorizonHeight(s2, horizon) && PassesHeaderGate(second.status)
    ensures var o1 := ProcessBlockOutcome(s, log, block, first, isValid, horizon);
      var r := ProcessBlockOutcome(o1.state, o1.log, block, second, isValid, horizon);
      && r.status == AlreadyExists
      && r.state.confirmed == o1.state.confirmed && r.state.blocks == o1.state.blocks
      && r.state.orphans == o1.state.orphans && r.log == o1.log
  {
    var h := block.header.height;
    var s1 := AfterHeader(s, first);
    var o := ProcessBlockInternalOutcome(s1, log, block, isValid);
    assert o.status == Success;
    assert o.state.confirmed == s1.confirmed[..h] + [block.header.hash];
    InternalKeepsConsistent(s1, log, block, isValid);
    ReplayKeepsPrefix(o.state, o.log, h, isValid);
    var s2 := ProcessBlockOutcome(s, log, block, first, isValid, horizon).state;
    assert s2.confirmed[..h + 1] == o.state.confirmed[..h + 1];
    assert s2.confirmed[h] == o.state.confirmed[..h + 1][h] == block.header.hash;
  }

  /** The processor. Its chain state is shared with the rest of the node. */
  class BlockProcessor {
    const chainState: ChainState
    /** Consensus::CUT_THROUGH_HORIZON. */
    const horizon: u64

    constructor (chainState: ChainState, horizon: u64)
      ensures this.chainState == chainState && this.horizon == horizon
    {
      this.chainState := chainState;
      this.horizon := horizon;
    }

    /** BlockProcessor::ProcessBlock, with the header processor's outcome
        and the block validator as parameters. */
    method ProcessBlock(block: FullBlock, headerOutcome: HeaderOutcome, isValid: Validator) returns (status: Status)
      requires chainState.Valid() && 0 < |headerOutcome.candidate| < U64_LIMIT
      modifies chainState
      ensures var r := ProcessBlockOutcome(old(chainState.State()), old(chainState.calls), block, headerOutcome, isValid, horizon);
        status == r.status && chainState.State() == r.state && chainState.calls == r.log
    {
      var candidateHeight := GetHeight(chainState.State(), Candidate);
      var horizonHeight := Max(candidateHeight, horizon) - horizon;

      var header := block.header;
      var height := header.height;
      if height <= horizonHeight {
        return Invalid;
      }

      chainState.candidate := headerOutcome.candidate;
      chainState.headers := headerOutcome.headers;
      var headerStatus := headerOutcome.status;
      if headerStatus == Success || headerStatus == AlreadyExists || headerStatus == Orphaned {
        var returnStatus := ProcessBlockInternal(block, isValid);
        if returnStatus == Success {
          ReplayOrphans(height, isValid);
        }
        return returnStatus;
      }
      return headerStatus;
    }

    /** The orphan replay loop of BlockProcessor::ProcessBlock, entered
        with status SUCCESS at `start`. */
    method ReplayOrphans(start: u64, isValid: Validator)
      requires start < |chainState.candidate| < U64_LIMIT
      modifies chainState
      ensures var t := Replay(old(chainState.State()), old(chainState.calls), start, isValid);
        chainState.State() == t.state && chainState.calls == t.log
    {
      ghost var final := Replay(chainState.State(), chainState.calls, start, isValid);
      ghost var candidate := chainState.candidate;
      var height := start;
      var status := Success;
      var done := false;
      while status == Success && !done
        invariant chainState.candidate == candidate
        invariant status == Success && !done ==>
          height < |candidate| && Replay(chainState.State(), chainState.calls, height, isValid) == final
        invariant !(status == Success && !done) ==>
          chainState.State() == final.state && chainState.calls == final.log
        decreases |candidate| - height
      {
        ReplayStep(chainState.State(), chainState.calls, height, isValid);
        height := AddU64(height, 1);
        var orphanHeader := GetBlockHeaderByHeight(chainState.State(), height, Candidate);
        if orphanHeader.None? {
          done := true;
        } else {
          var orphanBlock := GetOrphanBlock(chainState.State(), orphanHeader.value.hash);
          if orphanBlock.None? {
            done := true;
          } else {
            status := ProcessBlockInternal(orphanBlock.value, isValid);
          }
        }
      }
    }

    /** BlockProcessor::ProcessBlockInternal on the chain state. */
    method ProcessBlockInternal(block: FullBlock, isValid: Validator) returns (status: Status)
      requires |chainState.candidate| < U64_LIMIT
      modifies chainState
      ensures var r := ProcessBlockInternalOutcome(old(chainState.State()), old(chainState.calls), block, isValid);
        status == r.status && chainState.State() == r.state && chainState.calls == r.log
    {
      var header := block.header;
      var confirmedIndex := GetByHeight(chainState.confirmed, header.height);
      if confirmedIndex.Some? && confirmedIndex.value == header.hash {
        return AlreadyExists;
      }
      if ShouldOrphan(chainState.State(), header) {
        status := ProcessOrphanBlock(block);
        return;
      }
      status := ProcessNextBlock(block, isValid);
    }

    /** BlockProcessor::ProcessNextBlock on the chain state. */
    method ProcessNextBlock(block: FullBlock, isValid: Validator) returns (status: Status)
      requires |chainState.candidate| < U64_LIMIT && !ShouldOrphan(chainState.State(), block.header)
      modifies chainState
      ensures var r := ProcessNextBlockOutcome(old(chainState.State()), old(chainState.calls), block, isValid);
        status == r.status && chainState.State() == r.state && chainState.calls == r.log
    {
      chainState.orphans := chainState.orphans - {block.Hash()};
      chainState.confirmed := Rewind(chainState.confirmed, SubU64(block.header.height, 1));

      var previousHeader := GetBlockHeaderByHash(chainState.State(), block.header.previousHash);
      if previousHeader.None? {
        return StoreError;
      }
      chainState.calls := chainState.calls + [TxHashSetRewind(previousHeader.value)];
      chainState.calls := chainState.calls + [TxHashSetApplyBlock(block)];
      if !isValid(block, previousHeader.value.totalKernelOffset) {
        chainState.calls := chainState.calls + [TxHashSetDiscard];
        return Invalid;
      }

      chainState.blocks := chainState.blocks[block.Hash() := block];

      var candidateIndex := GetByHeight(chainState.candidate, block.header.height);
      chainState.confirmed := chainState.confirmed + [candidateIndex.value];
      return Success;
    }

    /** BlockProcessor::ProcessOrphanBlock on the chain state. */
    method ProcessOrphanBlock(block: FullBlock) returns (status: Status)
      modifies chainState
      ensures var r := ProcessOrphanBlockOutcome(old(chainState.State()), old(chainState.calls), block);
        status == r.status && chainState.State() == r.state && chainState.calls == r.log
    {
      if block.Hash() in chainState.orphans {
        return AlreadyExists;
      }
      chainState.orphans := chainState.orphans[block.Hash() := block];
      return Orphaned;
    }
  }
}
