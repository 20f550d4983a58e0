/** Header synchronisation: decides when to ask the most-work peer for the
    next batch of headers, and tracks timeouts. The chain height, the
    highest peer height, the clock and the connection manager's answers
    are parameters. */
module P2PSync {
  import opened Types

  /** Seconds a header request may stay unanswered. */
  const REQUEST_TIMEOUT_SECONDS: int := 5
  /** How far (in blocks) the best peer must be ahead before syncing. */
  const SYNC_THRESHOLD: u64 := 5
  /** Consecutive timeouts after which the most-work peers are banned. */
  const MAX_CONSECUTIVE_TIMEOUTS: nat := 10

  /** Whether the best peer is far enough ahead: highestHeight >= height + 5 in uint64. */
  predicate Behind(height: u64, highestHeight: u64)
  {
    highestHeight >= AddU64(height, SYNC_THRESHOLD)
  }

  class HeaderSyncer {
    /** P2P::MAX_BLOCK_HEADERS, the batch size of one headers message. */
    const maxBlockHeaders: u64
    var timeout: int
    var lastHeight: u64
    var connectionId: u64
    var consecutiveTimeouts: nat

    constructor (maxBlockHeaders: u64, now: int)
      ensures this.maxBlockHeaders == maxBlockHeaders
      ensures timeout == now && lastHeight == 0 && connectionId == 0 && consecutiveTimeouts == 0
    {
      this.maxBlockHeaders := maxBlockHeaders;
      timeout := now;
      lastHeight := 0;
      connectionId := 0;
      consecutiveTimeouts := 0;
    }

    /** The height at which the last batch counts as received:
        lastHeight + MAX_BLOCK_HEADERS - 1 in uint64. */
    function NextBatchHeight(): (r: u64)
      reads this
      ensures 1 <= lastHeight + maxBlockHeaders <= U64_LIMIT ==> r == lastHeight + maxBlockHeaders - 1
      ensures lastHeight + maxBlockHeaders == 0 ==> r == U64_LIMIT - 1
      ensures lastHeight + maxBlockHeaders > U64_LIMIT ==> r == lastHeight + maxBlockHeaders - 1 - U64_LIMIT
    {
      SubU64(AddU64(lastHeight, maxBlockHeaders), 1)
    }

    /** HeaderSyncer::IsHeaderSyncDue. While behind: a timed-out request
        counts one more timeout and is due; otherwise a received batch
        resets the count and is due. Anything else is not due and changes
        nothing. */
    method IsHeaderSyncDue(height: u64, highestHeight: u64, now: int) returns (due: bool)
      modifies this`consecutiveTimeouts
      ensures due <==> Behind(height, highestHeight) && (old(timeout) < now || height >= NextBatchHeight())
      ensures consecutiveTimeouts ==
        if !Behind(height, highestHeight) then old(consecutiveTimeouts)
        else if timeout < now then old(consecutiveTimeouts) + 1
        else if height >= NextBatchHeight() then 0
        else old(consecutiveTimeouts)
    {
      if highestHeight >= AddU64(height, SYNC_THRESHOLD) {
        if timeout < now {
          consecutiveTimeouts := consecutiveTimeouts + 1;
          return true;
        }
        if height >= SubU64(AddU64(lastHeight, maxBlockHeaders), 1) {
          consecutiveTimeouts := 0;
          return true;
        }
      }
      return false;
    }

    /** HeaderSyncer::RequestHeaders. After ten or more consecutive timeouts
        every most-work peer is banned (returned in order as `banned`) and
        the count restarts. The message goes to the most-work peer, whose
        connection id (0 when nothing was sent) is `sentTo`; a send arms a
        five-second timeout and remembers the chain height read before it. */
    method RequestHeaders(chainHeight: u64, now: int, mostWorkPeers: seq<u64>, sentTo: u64)
      returns (sent: bool, banned: seq<u64>)
      modifies this`consecutiveTimeouts, this`connectionId, this`timeout, this`lastHeight
      ensures banned == if old(consecutiveTimeouts) >= MAX_CONSECUTIVE_TIMEOUTS then mostWorkPeers else []
      ensures consecutiveTimeouts ==
        if old(consecutiveTimeouts) >= MAX_CONSECUTIVE_TIMEOUTS then 0 else old(consecutiveTimeouts)
      ensures connectionId == sentTo
      ensures sent <==> sentTo != 0
      ensures sent ==> timeout == now + REQUEST_TIMEOUT_SECONDS && lastHeight == chainHeight
      ensures !sent ==> timeout == old(timeout) && lastHeight == old(lastHeight)
    {
      banned := [];
      if consecutiveTimeouts >= MAX_CONSECUTIVE_TIMEOUTS {
        var i := 0;
        while i < |mostWorkPeers|
          invariant 0 <= i <= |mostWorkPeers|
          invariant banned == mostWorkPeers[..i]
        {
          banned := banned + [mostWorkPeers[i]];
          i := i + 1;
        }
        assert mostWorkPeers[..i] == mostWorkPeers;
        consecutiveTimeouts := 0;
      }
      connectionId := sentTo;
      if connectionId != 0 {
        timeout := now + REQUEST_TIMEOUT_SECONDS;
        lastHeight := chainHeight;
      }
      sent := connectionId != 0;
    }

    /** HeaderSyncer::SyncHeaders, with one reading of the candidate height,
        the highest peer height and the clock for the whole call. When not
        behind, the timeout count is reset and the answer is false; when
        behind, the answer is true and headers are requested if due. */
    method SyncHeaders(height: u64, highestHeight: u64, now: int, mostWorkPeers: seq<u64>, sentTo: u64)
      returns (syncing: bool, requested: bool, banned: seq<u64>)
      modifies this`consecutiveTimeouts, this`connectionId, this`timeout, this`lastHeight
      ensures syncing <==> Behind(height, highestHeight)
      ensures requested <==> syncing && (old(timeout) < now || height >= old(NextBatchHeight()))
      ensures !syncing ==> (consecutiveTimeouts == 0 && banned == [])
      ensures syncing && !requested ==> consecutiveTimeouts == old(consecutiveTimeouts) && banned == []
      ensures requested ==>
        var counted := if old(timeout) < now then old(consecutiveTimeouts) + 1 else 0;
        && banned == (if counted >= MAX_CONSECUTIVE_TIMEOUTS then mostWorkPeers else [])
        && consecutiveTimeouts == (if counted >= MAX_CONSECUTIVE_TIMEOUTS then 0 else counted)
        && connectionId == sentTo
        && (sentTo != 0 ==> timeout == now + REQUEST_TIMEOUT_SECONDS && lastHeight == height)
        && (sentTo == 0 ==> timeout == old(timeout) && lastHeight == old(lastHeight))
      ensures !requested ==> (timeout == old(timeout) && lastHeight == old(lastHeight) && connectionId == old(connectionId))
    {
      requested := false;
      banned := [];
      if highestHeight >= AddU64(height, SYNC_THRESHOLD) {
        var due := IsHeaderSyncDue(height, highestHeight, now);
        if due {
          var _, b := RequestHeaders(height, now, mostWorkPeers, sentTo);
          requested := true;
          banned := b;
        }
        return true, requested, banned;
      }
      consecutiveTimeouts := 0;
      return false, false, [];
    }
  }

  /** Ten timeouts in a row lead to a ban on the next request: starting from
      nine, a timed-out check raises the count to ten, and the request that
      follows bans the most-work peers and clears the count. */
  method TimeoutsLeadToBan(s: HeaderSyncer, height: u64, highestHeight: u64, now: int, peers: seq<u64>, sentTo: u64)
    returns (banned: seq<u64>)
    requires s.consecutiveTimeouts == MAX_CONSECUTIVE_TIMEOUTS - 1
    requires Behind(height, highestHeight) && s.timeout < now
    modifies s`consecutiveTimeouts, s`connectionId, s`timeout, s`lastHeight
    ensures banned == peers && s.consecutiveTimeouts == 0
  {
    var _, _, b := s.SyncHeaders(height, highestHeight, now, peers, sentTo);
    banned := b;
  }
}
