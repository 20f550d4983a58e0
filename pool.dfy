/** One transaction pool (the mempool or the stempool): an ordered list of
    entries, each a transaction with its Dandelion status and timestamp. */
module TxPool {
  import opened Types
  import opened CoreModels
  import VectorUtil

  datatype DandelionStatus = ToStem | ToFluff | Fluffed

  datatype TxPoolEntry = TxPoolEntry(transaction: Transaction, status: DandelionStatus, timestamp: int)

  /** The value of std::time_t(), which AddTransaction stamps on every entry. */
  const DEFAULT_TIMESTAMP: int := 0

  /** Which entries a filtering pass keeps. */
  datatype Criterion =
    | NotListed(listed: seq<Transaction>)   // RemoveTransactions keeps these
    | NotEvictedBy(block: FullBlock)        // ReconcileBlock keeps these
    | HasStatus(status: DandelionStatus)    // FindTransactionsByStatus selects these
    | OlderThan(cutoff: int)                // GetExpiredTransactions selects these

  /** Some element of `a` occurs in `b` iff their element sets intersect. */
  lemma SharedIffIntersects<T>(a: seq<T>, b: seq<T>)
    ensures (exists i :: 0 <= i < |a| && a[i] in b) <==> (set x | x in a) * (set x | x in b) != {}
  {
    if exists i :: 0 <= i < |a| && a[i] in b {
      var i :| 0 <= i < |a| && a[i] in b;
      assert a[i] in (set x | x in a) * (set x | x in b);
    }
    if (set x | x in a) * (set x | x in b) != {} {
      var x :| x in (set x | x in a) * (set x | x in b);
      var i :| 0 <= i < |a| && a[i] == x;
    }
  }

  /** Whether a transaction spends an input the block spends, or carries a
      kernel the block carries. */
  predicate Conflicts(tx: Transaction, block: FullBlock): (r: bool)
    ensures r <==> || (set x | x in tx.body.inputs) * (set x | x in block.body.inputs) != {}
                   || (set k | k in tx.body.kernels) * (set k | k in block.body.kernels) != {}
  {
    SharedIffIntersects(tx.body.inputs, block.body.inputs);
    SharedIffIntersects(tx.body.kernels, block.body.kernels);
    (exists i :: 0 <= i < |tx.body.inputs| && tx.body.inputs[i] in block.body.inputs)
    || (exists k :: 0 <= k < |tx.body.kernels| && tx.body.kernels[k] in block.body.kernels)
  }

  predicate Matches(c: Criterion, e: TxPoolEntry)
  {
    match c
    case NotListed(listed) => e.transaction !in listed
    case NotEvictedBy(block) => !Conflicts(e.transaction, block)
    case HasStatus(status) => e.status == status
    case OlderThan(cutoff) => e.timestamp < cutoff
  }

  /** The entries that match, in their original order. */
  function Filter(entries: seq<TxPoolEntry>, c: Criterion): (r: seq<TxPoolEntry>)
    ensures |r| <= |entries|
  {
    if entries == [] then []
    else
      var last := entries[|entries| - 1];
      Filter(entries[..|entries| - 1], c) + (if Matches(c, last) then [last] else [])
  }

  /** The transactions of the entries, in order. */
  function TransactionsOf(entries: seq<TxPoolEntry>): (r: seq<Transaction>)
    ensures |r| == |entries|
    ensures forall i :: 0 <= i < |r| ==> r[i] == entries[i].transaction
  {
    if entries == [] then [] else TransactionsOf(entries[..|entries| - 1]) + [entries[|entries| - 1].transaction]
  }

  /** One more entry extends the filter by that entry when it matches. */
  lemma FilterSnoc(entries: seq<TxPoolEntry>, e: TxPoolEntry, c: Criterion)
    ensures Filter(entries + [e], c) == Filter(entries, c) + (if Matches(c, e) then [e] else [])
  {
    assert (entries + [e])[..|entries|] == entries;
  }

  lemma TransactionsOfSnoc(entries: seq<TxPoolEntry>, e: TxPoolEntry)
    ensures TransactionsOf(entries + [e]) == TransactionsOf(entries) + [e.transaction]
  {
    assert (entries + [e])[..|entries|] == entries;
  }

  /** An entry survives the filter exactly when it is in the pool and matches. */
  lemma {:induction false} FilterMembership(entries: seq<TxPoolEntry>, c: Criterion, e: TxPoolEntry)
    ensures e in Filter(entries, c) <==> e in entries && Matches(c, e)
  {
    if entries != [] {
      var init := entries[..|entries| - 1];
      FilterMembership(init, c, e);
      assert entries == init + [entries[|entries| - 1]];
    }
  }

  /** Filtering distributes over concatenation: survivors keep their
      relative order. */
  lemma {:induction false} FilterAppend(a: seq<TxPoolEntry>, b: seq<TxPoolEntry>, c: Criterion)
    ensures Filter(a + b, c) == Filter(a, c) + Filter(b, c)
  {
    if b != [] {
      var init := b[..|b| - 1];
      var last := b[|b| - 1];
      assert b == init + [last];
      assert a + b == (a + init) + [last];
      FilterAppend(a, init, c);
      FilterSnoc(a + init, last, c);
      FilterSnoc(init, last, c);
    } else {
      assert a + b == a;
    }
  }

  /** Filtering twice by the same criterion is filtering once. */
  lemma {:induction false} FilterIdempotent(entries: seq<TxPoolEntry>, c: Criterion)
    ensures Filter(Filter(entries, c), c) == Filter(entries, c)
  {
    if entries != [] {
      var init := entries[..|entries| - 1];
      var last := entries[|entries| - 1];
      FilterIdempotent(init, c);
      if Matches(c, last) {
        FilterSnoc(Filter(init, c), last, c);
      } else {
        assert Filter(entries, c) == Filter(init, c);
      }
    }
  }

  /** A transaction occurs among the entries' transactions exactly when some
      entry carries it. */
  lemma {:induction false} TransactionsOfMembership(entries: seq<TxPoolEntry>, tx: Transaction)
    ensures tx in TransactionsOf(entries) <==> exists e :: e in entries && e.transaction == tx
  {
    if entries != [] {
      var init := entries[..|entries| - 1];
      var last := entries[|entries| - 1];
      TransactionsOfMembership(init, tx);
      assert entries == init + [last];
      if tx == last.transaction {
        assert last in entries;
      }
    }
  }

  /** The kernel short-id matches of one transaction's kernels, in kernel
      order: the transaction once per kernel whose short id is missing. */
  function KernelMatches(tx: Transaction, kernels: seq<TransactionKernel>, hash: Hash, nonce: u64,
                         missing: set<ShortId>, shortId: (TransactionKernel, Hash, u64) -> ShortId): (r: seq<Transaction>)
    ensures |r| <= |kernels|
    ensures forall t :: t in r ==> t == tx
  {
    if kernels == [] then []
    else
      var last := kernels[|kernels| - 1];
      KernelMatches(tx, kernels[..|kernels| - 1], hash, nonce, missing, shortId)
        + (if shortId(last, hash, nonce) in missing then [tx] else [])
  }

  /** Every short-id match over the pool, in pool order then kernel order. */
  function ShortIdMatches(entries: seq<TxPoolEntry>, hash: Hash, nonce: u64,
                          missing: set<ShortId>, shortId: (TransactionKernel, Hash, u64) -> ShortId): (r: seq<Transaction>)
    ensures forall t :: t in r ==> t in TransactionsOf(entries)
  {
    if entries == [] then []
    else
      var tx := entries[|entries| - 1].transaction;
      ShortIdMatches(entries[..|entries| - 1], hash, nonce, missing, shortId)
        + KernelMatches(tx, tx.body.kernels, hash, nonce, missing, shortId)
  }

  /** Each short-id match is a pool transaction with a kernel whose short id
      is missing. */
  lemma {:induction false} ShortIdMatchesSound(entries: seq<TxPoolEntry>, hash: Hash, nonce: u64,
                                               missing: set<ShortId>, shortId: (TransactionKernel, Hash, u64) -> ShortId, t: Transaction)
    requires t in ShortIdMatches(entries, hash, nonce, missing, shortId)
    ensures exists e :: e in entries && e.transaction == t
    ensures exists k :: k in t.body.kernels && shortId(k, hash, nonce) in missing
  {
    var init := entries[..|entries| - 1];
    var tx := entries[|entries| - 1].transaction;
    assert entries == init + [entries[|entries| - 1]];
    if t in ShortIdMatches(init, hash, nonce, missing, shortId) {
      ShortIdMatchesSound(init, hash, nonce, missing, shortId, t);
    } else {
      KernelMatchesSound(tx, tx.body.kernels, hash, nonce, missing, shortId);
    }
  }

  lemma {:induction false} KernelMatchesSound(tx: Transaction, kernels: seq<TransactionKernel>, hash: Hash, nonce: u64,
                                              missing: set<ShortId>, shortId: (TransactionKernel, Hash, u64) -> ShortId)
    ensures KernelMatches(tx, kernels, hash, nonce, missing, shortId) != [] ==>
              exists k :: k in kernels && shortId(k, hash, nonce) in missing
  {
    if kernels != [] {
      var init := kernels[..|kernels| - 1];
      KernelMatchesSound(tx, init, hash, nonce, missing, shortId);
      if KernelMatches(tx, init, hash, nonce, missing, shortId) != [] {
        var k :| k in init && shortId(k, hash, nonce) in missing;
        assert k in kernels;
      } else if shortId(kernels[|kernels| - 1], hash, nonce) in missing {
        assert kernels[|kernels| - 1] in kernels;
      }
    }
  }

  /** With no missing short ids nothing matches. */
  lemma {:induction false} ShortIdMatchesEmpty(entries: seq<TxPoolEntry>, hash: Hash, nonce: u64,
                                               shortId: (TransactionKernel, Hash, u64) -> ShortId)
    ensures ShortIdMatches(entries, hash, nonce, {}, shortId) == []
  {
    if entries != [] {
      var tx := entries[|entries| - 1].transaction;
      ShortIdMatchesEmpty(entries[..|entries| - 1], hash, nonce, shortId);
      KernelMatchesSound(tx, tx.body.kernels, hash, nonce, {}, shortId);
    }
  }

  /** Whether a transaction has a kernel in the given set. */
  predicate HasKernelIn(tx: Transaction, kernels: set<TransactionKernel>)
  {
    exists k :: 0 <= k < |tx.body.kernels| && tx.body.kernels[k] in kernels
  }

  class Pool {
    var entries: seq<TxPoolEntry>

    constructor ()
      ensures entries == []
    {
      entries := [];
    }

    /** Pool::GetTransactionsByShortId: the short-id matches in pool and
        kernel order, cut off as soon as there are as many as missing ids. */
    method GetTransactionsByShortId(hash: Hash, nonce: u64, missingShortIds: set<ShortId>,
                                    shortId: (TransactionKernel, Hash, u64) -> ShortId)
      returns (found: seq<Transaction>)
      ensures var all := ShortIdMatches(entries, hash, nonce, missingShortIds, shortId);
        found == all[..Min(|all|, |missingShortIds|)]
    {
      var es := entries;
      found := [];
      var i := 0;
      while i < |es|
        invariant 0 <= i <= |es|
        invariant found == ShortIdMatches(es[..i], hash, nonce, missingShortIds, shortId)
        invariant |found| < |missingShortIds| || missingShortIds == {}
      {
        var tx := es[i].transaction;
        var kernels := tx.body.kernels;
        ghost var before := found;
        var j := 0;
        while j < |kernels|
          invariant 0 <= j <= |kernels|
          invariant found == before + KernelMatches(tx, kernels[..j], hash, nonce, missingShortIds, shortId)
          invariant |found| < |missingShortIds| || missingShortIds == {}
        {
          KernelMatchesSnoc(tx, kernels, j, hash, nonce, missingShortIds, shortId);
          if shortId(kernels[j], hash, nonce) in missingShortIds {
            found := found + [tx];
            if |found| == |missingShortIds| {
              PrefixOfMatches(es, i, j, hash, nonce, missingShortIds, shortId);
              return;
            }
          }
          j := j + 1;
        }
        ShortIdMatchesSnoc(es, i, hash, nonce, missingShortIds, shortId);
        i := i + 1;
      }
      assert es[..i] == es;
      if missingShortIds == {} {
        ShortIdMatchesEmpty(es, hash, nonce, shortId);
      }
    }

    /** Pool::AddTransaction: append one entry when the validator accepts. */
    method AddTransaction(transaction: Transaction, status: DandelionStatus, isValid: Transaction -> bool)
      returns (added: bool)
      modifies this
      ensures added == isValid(transaction)
      ensures entries == if added then old(entries) + [TxPoolEntry(transaction, status, DEFAULT_TIMESTAMP)]
                         else old(entries)
    {
      if isValid(transaction) {
        entries := entries + [TxPoolEntry(transaction, status, DEFAULT_TIMESTAMP)];
        return true;
      }
      return false;
    }

    /** Pool::FindTransactionsByKernel: each transaction with a kernel in the
        set, once (the source collects them in a std::set). */
    method FindTransactionsByKernel(kernels: set<TransactionKernel>) returns (found: set<Transaction>)
      ensures found == set e | e in entries && HasKernelIn(e.transaction, kernels) :: e.transaction
    {
      found := {};
      var i := 0;
      while i < |entries|
        invariant 0 <= i <= |entries|
        invariant found == set e | e in entries[..i] && HasKernelIn(e.transaction, kernels) :: e.transaction
      {
        var tx := entries[i].transaction;
        ghost var before := found;
        var j := 0;
        while j < |tx.body.kernels|
          invariant 0 <= j <= |tx.body.kernels|
          invariant found == before + (if exists k :: 0 <= k < j && tx.body.kernels[k] in kernels then {tx} else {})
        {
          if tx.body.kernels[j] in kernels {
            found := found + {tx};
          }
          j := j + 1;
        }
        assert entries[..i + 1] == entries[..i] + [entries[i]];
        i := i + 1;
      }
      assert entries[..i] == entries;
    }

    /** Pool::FindTransactionsByStatus: the transactions with that status,
        in pool order. */
    method FindTransactionsByStatus(status: DandelionStatus) returns (found: seq<Transaction>)
      ensures found == TransactionsOf(Filter(entries, HasStatus(status)))
    {
      found := Select(HasStatus(status));
    }

    /** Pool::GetExpiredTransactions: the transactions stamped before
        now - embargoSeconds, in pool order. */
    method GetExpiredTransactions(embargoSeconds: nat, now: int) returns (found: seq<Transaction>)
      requires embargoSeconds < U16_LIMIT
      ensures found == TransactionsOf(Filter(entries, OlderThan(now - embargoSeconds)))
    {
      var cutoff := now - embargoSeconds;
      found := Select(OlderThan(cutoff));
    }

    /** The scan shared by the two selecting queries above. */
    method Select(c: Criterion) returns (found: seq<Transaction>)
      ensures found == TransactionsOf(Filter(entries, c))
    {
      var es := entries;
      found := [];
      var i := 0;
      while i < |es|
        invariant 0 <= i <= |es|
        invariant found == TransactionsOf(Filter(es[..i], c))
      {
        var e := es[i];
        assert es[..i + 1] == es[..i] + [e];
        FilterSnoc(es[..i], e, c);
        if Matches(c, e) {
          TransactionsOfSnoc(Filter(es[..i], c), e);
          found := found + [e.transaction];
        } else {
          assert Filter(es[..i + 1], c) == Filter(es[..i], c);
        }
        i := i + 1;
      }
      assert es[..i] == es;
    }

    /** Pool::RemoveTransactions: erase every entry whose transaction is
        listed, keeping the others in order. */
    method RemoveTransactions(transactions: seq<Transaction>)
      modifies this
      ensures entries == Filter(old(entries), NotListed(transactions))
    {
      ghost var original := entries;
      var i := 0;
      ghost var k := 0;
      while i < |entries|
        invariant 0 <= k <= |original|
        invariant entries == Filter(original[..k], NotListed(transactions)) + original[k..]
        invariant i == |Filter(original[..k], NotListed(transactions))|
        decreases |entries| - i
      {
        assert entries[i] == original[k];
        var remove := VectorUtil.Contains(transactions, entries[i].transaction);
        EraseStep(original, k, NotListed(transactions));
        if remove {
          entries := entries[..i] + entries[i + 1..];
        } else {
          i := i + 1;
        }
        k := k + 1;
      }
      assert original[..k] == original;
    }

    /** Pool::ShouldEvict_Locked: does the transaction share an input or a
        kernel with the block? */
    method ShouldEvict(transaction: Transaction, block: FullBlock) returns (evict: bool)
      ensures evict == Conflicts(transaction, block)
    {
      var inputs := transaction.body.inputs;
      for i := 0 to |inputs|
        invariant forall j :: 0 <= j < i ==> inputs[j] !in block.body.inputs
      {
        var shared := VectorUtil.Contains(block.body.inputs, inputs[i]);
        if shared {
          return true;
        }
      }
      var kernels := transaction.body.kernels;
      for k := 0 to |kernels|
        invariant forall j :: 0 <= j < k ==> kernels[j] !in block.body.kernels
      {
        var shared := VectorUtil.Contains(block.body.kernels, kernels[k]);
        if shared {
          return true;
        }
      }
      return false;
    }

    /** Pool::ReconcileBlock: erase every entry that conflicts with the
        block, keeping the others in order. */
    method ReconcileBlock(block: FullBlock)
      modifies this
      ensures entries == Filter(old(entries), NotEvictedBy(block))
    {
      ghost var original := entries;
      var i := 0;
      ghost var k := 0;
      while i < |entries|
        invariant 0 <= k <= |original|
        invariant entries == Filter(original[..k], NotEvictedBy(block)) + original[k..]
        invariant i == |Filter(original[..k], NotEvictedBy(block))|
        decreases |entries| - i
      {
        assert entries[i] == original[k];
        var evict := ShouldEvict(entries[i].transaction, block);
        EraseStep(original, k, NotEvictedBy(block));
        if evict {
          entries := entries[..i] + entries[i + 1..];
        } else {
          i := i + 1;
        }
        k := k + 1;
      }
      assert original[..k] == original;
    }

    /** Pool::Aggregate: null on an empty pool, otherwise the aggregator's
        result over all transactions in pool order. */
    method Aggregate(aggregate: seq<Transaction> -> Option<Transaction>) returns (r: Option<Transaction>)
      ensures entries == [] ==> r == None
      ensures entries != [] ==> r == aggregate(TransactionsOf(entries))
    {
      if entries == [] {
        return None;
      }
      var transactions := [];
      var i := 0;
      while i < |entries|
        invariant 0 <= i <= |entries|
        invariant transactions == TransactionsOf(entries[..i])
      {
        assert entries[..i + 1] == entries[..i] + [entries[i]];
        TransactionsOfSnoc(entries[..i], entries[i]);
        transactions := transactions + [entries[i].transaction];
        i := i + 1;
      }
      assert entries[..i] == entries;
      r := aggregate(transactions);
    }
  }

  /** One step of an in-place filtering pass: the entry at position k of the
      original list is either erased or kept at the end of the survivors. */
  lemma EraseStep(original: seq<TxPoolEntry>, k: nat, c: Criterion)
    requires k < |original|
    ensures var done := Filter(original[..k], c);
      Filter(original[..k + 1], c) == done + (if Matches(c, original[k]) then [original[k]] else [])
      && (done + original[k..])[|done|] == original[k]
      && (Matches(c, original[k]) ==> done + original[k..] == Filter(original[..k + 1], c) + original[k + 1..])
      && (!Matches(c, original[k]) ==>
            (done + original[k..])[..|done|] + (done + original[k..])[|done| + 1..]
              == Filter(original[..k + 1], c) + original[k + 1..])
  {
    assert original[..k + 1] == original[..k] + [original[k]];
    FilterSnoc(original[..k], original[k], c);
    assert original[k..] == [original[k]] + original[k + 1..];
  }

  lemma KernelMatchesSnoc(tx: Transaction, ks: seq<TransactionKernel>, j: nat, hash: Hash, nonce: u64,
                          missing: set<ShortId>, shortId: (TransactionKernel, Hash, u64) -> ShortId)
    requires j < |ks|
    ensures KernelMatches(tx, ks[..j + 1], hash, nonce, missing, shortId)
            == KernelMatches(tx, ks[..j], hash, nonce, missing, shortId)
               + (if shortId(ks[j], hash, nonce) in missing then [tx] else [])
  {
    assert ks[..j + 1][..j] == ks[..j];
  }

  lemma ShortIdMatchesSnoc(es: seq<TxPoolEntry>, i: nat, hash: Hash, nonce: u64,
                           missing: set<ShortId>, shortId: (TransactionKernel, Hash, u64) -> ShortId)
    requires i < |es|
    ensures var tx := es[i].transaction;
      ShortIdMatches(es[..i + 1], hash, nonce, missing, shortId)
        == ShortIdMatches(es[..i], hash, nonce, missing, shortId)
           + KernelMatches(tx, tx.body.kernels[..|tx.body.kernels|], hash, nonce, missing, shortId)
  {
    assert es[..i + 1][..i] == es[..i];
    var ks := es[i].transaction.body.kernels;
    assert ks[..|ks|] == ks;
  }

  /** Used when GetTransactionsByShortId stops early: what has been found
      is the prefix of all matches of that length. */
  lemma PrefixOfMatches(entries: seq<TxPoolEntry>, i: nat, j: nat, hash: Hash, nonce: u64,
                        missing: set<ShortId>, shortId: (TransactionKernel, Hash, u64) -> ShortId)
    requires i < |entries| && j < |entries[i].transaction.body.kernels|
    ensures var tx := entries[i].transaction;
      var sofar := ShortIdMatches(entries[..i], hash, nonce, missing, shortId)
                   + KernelMatches(tx, tx.body.kernels[..j + 1], hash, nonce, missing, shortId);
      var all := ShortIdMatches(entries, hash, nonce, missing, shortId);
      |sofar| <= |all| && all[..|sofar|] == sofar
  {
    var tx := entries[i].transaction;
    var ks := tx.body.kernels;
    KernelMatchesPrefix(tx, ks, j + 1, hash, nonce, missing, shortId);
    assert entries[..i + 1][..i] == entries[..i];
    ShortIdMatchesPrefix(entries, i + 1, hash, nonce, missing, shortId);
  }

  lemma {:induction false} KernelMatchesPrefix(tx: Transaction, ks: seq<TransactionKernel>, n: nat, hash: Hash, nonce: u64,
                                               missing: set<ShortId>, shortId: (TransactionKernel, Hash, u64) -> ShortId)
    requires n <= |ks|
    ensures var a := KernelMatches(tx, ks[..n], hash, nonce, missing, shortId);
      var b := KernelMatches(tx, ks, hash, nonce, missing, shortId);
      |a| <= |b| && b[..|a|] == a
    decreases |ks| - n
  {
    if n < |ks| {
      KernelMatchesPrefix(tx, ks, n + 1, hash, nonce, missing, shortId);
      assert ks[..n + 1][..n] == ks[..n];
    } else {
      assert ks[..n] == ks;
    }
  }

  lemma {:induction false} ShortIdMatchesPrefix(entries: seq<TxPoolEntry>, n: nat, hash: Hash, nonce: u64,
                                                missing: set<ShortId>, shortId: (TransactionKernel, Hash, u64) -> ShortId)
    requires n <= |entries|
    ensures var a := ShortIdMatches(entries[..n], hash, nonce, missing, shortId);
      var b := ShortIdMatches(entries, hash, nonce, missing, shortId);
      |a| <= |b| && b[..|a|] == a
    decreases |entries| - n
  {
    if n < |entries| {
      ShortIdMatchesPrefix(entries, n + 1, hash, nonce, missing, shortId);
      assert entries[..n + 1][..n] == entries[..n];
    } else {
      assert entries[..n] == entries;
    }
  }
}
