/** The node's transaction pool: a mempool of fluffed transactions and a
    Dandelion stempool, with the routing between them. */
module TxPoolImpl {
  import opened Types
  import opened CoreModels
  import opened TxPool

  datatype PoolType = MemPool | StemPool

  class TransactionPool {
    const memPool: Pool
    const stemPool: Pool
    /** Dandelion stem probability from the configuration (a uint8 percentage). */
    const stemProbability: nat
    /** Dandelion embargo from the configuration (a uint16 number of seconds). */
    const embargoSeconds: nat

    ghost predicate Valid()
    {
      memPool != stemPool && stemProbability < U8_LIMIT && embargoSeconds < U16_LIMIT
    }

    constructor (stemProbability: nat, embargoSeconds: nat)
      requires stemProbability < U8_LIMIT && embargoSeconds < U16_LIMIT
      ensures Valid() && fresh(memPool) && fresh(stemPool)
      ensures memPool.entries == [] && stemPool.entries == []
      ensures this.stemProbability == stemProbability && this.embargoSeconds == embargoSeconds
    {
      memPool := new Pool();
      stemPool := new Pool();
      this.stemProbability := stemProbability;
      this.embargoSeconds := embargoSeconds;
    }

    /** TransactionPool::GetTransactionsByShortId: answered from the mempool only. */
    method GetTransactionsByShortId(hash: Hash, nonce: u64, missingShortIds: set<ShortId>,
                                    shortId: (TransactionKernel, Hash, u64) -> ShortId)
      returns (found: seq<Transaction>)
      ensures var all := ShortIdMatches(memPool.entries, hash, nonce, missingShortIds, shortId);
        found == all[..Min(|all|, |missingShortIds|)]
    {
      found := memPool.GetTransactionsByShortId(hash, nonce, missingShortIds, shortId);
    }

    /** TransactionPool::AddTransaction. A mempool add enters the mempool as
        FLUFFED and, when accepted, takes the transaction out of the
        stempool. A stempool add draws `random` (0..100) and stems when it
        is at most the stem probability, fluffs otherwise; it never touches
        the mempool. */
    method AddTransaction(transaction: Transaction, poolType: PoolType, random: nat, isValid: Transaction -> bool)
      returns (added: bool)
      requires Valid() && random <= 100
      modifies memPool, stemPool
      ensures added == isValid(transaction)
      ensures poolType == MemPool ==>
        && memPool.entries == (if added then old(memPool.entries) + [TxPoolEntry(transaction, Fluffed, DEFAULT_TIMESTAMP)]
                               else old(memPool.entries))
        && stemPool.entries == (if added then Filter(old(stemPool.entries), NotListed([transaction]))
                                else old(stemPool.entries))
      ensures poolType == StemPool ==>
        && memPool.entries == old(memPool.entries)
        && var status := if random <= stemProbability then ToStem else ToFluff;
           stemPool.entries == (if added then old(stemPool.entries) + [TxPoolEntry(transaction, status, DEFAULT_TIMESTAMP)]
                                else old(stemPool.entries))
    {
      if poolType == MemPool {
        added := memPool.AddTransaction(transaction, Fluffed, isValid);
        if added {
          stemPool.RemoveTransactions([transaction]);
          return true;
        }
      } else {
        if random <= stemProbability {
          added := stemPool.AddTransaction(transaction, ToStem, isValid);
        } else {
          added := stemPool.AddTransaction(transaction, ToFluff, isValid);
        }
        return added;
      }
      return false;
    }

    /** TransactionPool::FindTransactionsByKernel: answered from the mempool only. */
    method FindTransactionsByKernel(kernels: set<TransactionKernel>) returns (found: set<Transaction>)
      ensures found == set e | e in memPool.entries && HasKernelIn(e.transaction, kernels) :: e.transaction
    {
      found := memPool.FindTransactionsByKernel(kernels);
    }

    /** TransactionPool::ReconcileBlock: evict conflicting transactions from
        the mempool, then from the stempool. */
    method ReconcileBlock(block: FullBlock)
      requires Valid()
      modifies memPool, stemPool
      ensures memPool.entries == Filter(old(memPool.entries), NotEvictedBy(block))
      ensures stemPool.entries == Filter(old(stemPool.entries), NotEvictedBy(block))
    {
      memPool.ReconcileBlock(block);
      stemPool.ReconcileBlock(block);
    }

    /** TransactionPool::GetTransactionToStem: null when no stempool entry
        is TO_STEM or when the valid-transaction finder keeps none of them;
        otherwise the aggregate of the valid ones. */
    method GetTransactionToStem(findValid: (seq<Transaction>, Option<Transaction>) -> seq<Transaction>,
                                aggregate: seq<Transaction> -> Option<Transaction>)
      returns (r: Option<Transaction>)
      ensures r == ToRelay(stemPool.entries, ToStem, memPool.entries, findValid, aggregate)
    {
      r := Relay(ToStem, findValid, aggregate);
    }

    /** TransactionPool::GetTransactionToFluff: as GetTransactionToStem, over
        the TO_FLUFF entries. */
    method GetTransactionToFluff(findValid: (seq<Transaction>, Option<Transaction>) -> seq<Transaction>,
                                 aggregate: seq<Transaction> -> Option<Transaction>)
      returns (r: Option<Transaction>)
      ensures r == ToRelay(stemPool.entries, ToFluff, memPool.entries, findValid, aggregate)
    {
      r := Relay(ToFluff, findValid, aggregate);
    }

    /** The body shared by GetTransactionToStem and GetTransactionToFluff. */
    method Relay(status: DandelionStatus,
                 findValid: (seq<Transaction>, Option<Transaction>) -> seq<Transaction>,
                 aggregate: seq<Transaction> -> Option<Transaction>)
      returns (r: Option<Transaction>)
      ensures r == ToRelay(stemPool.entries, status, memPool.entries, findValid, aggregate)
    {
      var candidates := stemPool.FindTransactionsByStatus(status);
      if candidates == [] {
        return None;
      }
      var memPoolAggregate := memPool.Aggregate(aggregate);
      var valid := findValid(candidates, memPoolAggregate);
      if valid == [] {
        return None;
      }
      r := aggregate(valid);
    }

    /** TransactionPool::GetExpiredTransactions: the stempool's entries older
        than the embargo plus a random 0..30 seconds, the sum truncated to
        uint16. */
    method GetExpiredTransactions(random: nat, now: int) returns (expired: seq<Transaction>)
      requires Valid() && random <= 30
      ensures expired == TransactionsOf(Filter(stemPool.entries, OlderThan(now - (embargoSeconds + random) % U16_LIMIT)))
    {
      var embargo := (embargoSeconds + random) % U16_LIMIT;
      expired := stemPool.GetExpiredTransactions(embargo, now);
    }
  }

  /** What the stem/fluff selection returns for a stempool state. */
  function ToRelay(stemEntries: seq<TxPoolEntry>, status: DandelionStatus, memEntries: seq<TxPoolEntry>,
                   findValid: (seq<Transaction>, Option<Transaction>) -> seq<Transaction>,
                   aggregate: seq<Transaction> -> Option<Transaction>): (r: Option<Transaction>)
    ensures r.Some? ==> exists e :: e in stemEntries && e.status == status
    ensures r.Some? ==> exists valid :: valid != [] && aggregate(valid) == r
  {
    var selected := Filter(stemEntries, HasStatus(status));
    var candidates := TransactionsOf(selected);
    if candidates == [] then None
    else
      FilterMembership(stemEntries, HasStatus(status), selected[0]);
      var memPoolAggregate := if memEntries == [] then None else aggregate(TransactionsOf(memEntries));
      var valid := findValid(candidates, memPoolAggregate);
      if valid == [] then None else aggregate(valid)
  }

  /** No stempool entry with the status: no transaction to relay, whatever the
      collaborators do. */
  lemma NothingToRelay(stemEntries: seq<TxPoolEntry>, status: DandelionStatus, memEntries: seq<TxPoolEntry>,
                       findValid: (seq<Transaction>, Option<Transaction>) -> seq<Transaction>,
                       aggregate: seq<Transaction> -> Option<Transaction>)
    requires forall e :: e in stemEntries ==> e.status != status
    ensures ToRelay(stemEntries, status, memEntries, findValid, aggregate) == None
  {
    var candidates := TransactionsOf(Filter(stemEntries, HasStatus(status)));
    if candidates != [] {
      var e := Filter(stemEntries, HasStatus(status))[0];
      FilterMembership(stemEntries, HasStatus(status), e);
      assert false;
    }
  }

  /** After a successful mempool add the transaction is in the mempool and
      no longer in the stempool. */
  lemma MemPoolAddMovesTransaction(stemEntries: seq<TxPoolEntry>, tx: Transaction)
    ensures forall e :: e in Filter(stemEntries, NotListed([tx])) ==> e.transaction != tx
  {
    forall e | e in Filter(stemEntries, NotListed([tx])) ensures e.transaction != tx {
      FilterMembership(stemEntries, NotListed([tx]), e);
    }
  }
}
