/** Core value types of the node (commitments, transaction bodies, headers,
    full blocks) and the Transaction model: construction, serialisation,
    deserialisation and the memoised hash. */
module CoreModels {
  import opened Types

  /** A Pedersen commitment; its bytes are uninterpreted. */
  datatype Commitment = Commitment(bytes: seq<byte>)

  /** A blinding factor: exactly 32 bytes (CBigInteger<32>). */
  type BlindingFactor = s: seq<byte> | |s| == 32 witness seq(32, _ => 0 as byte)

  const BLINDING_FACTOR_SIZE: nat := 32

  datatype TransactionInput = TransactionInput(commitment: Commitment)
  datatype TransactionOutput = TransactionOutput(commitment: Commitment, rangeProof: seq<byte>)
  datatype TransactionKernel = TransactionKernel(excess: Commitment, signature: seq<byte>)

  datatype TransactionBody = TransactionBody(
    inputs: seq<TransactionInput>,
    outputs: seq<TransactionOutput>,
    kernels: seq<TransactionKernel>)

  /** A transaction as a value: its kernel offset and its body. Equality of
      transactions is equality of these two parts. */
  datatype Transaction = Transaction(offset: BlindingFactor, body: TransactionBody)

  /** A compact-block short id of a kernel; uninterpreted. */
  datatype ShortId = ShortId(bytes: seq<byte>)

  datatype BlockHeader = BlockHeader(
    height: u64,
    hash: Hash,
    previousHash: Hash,
    totalDifficulty: u64,
    totalKernelOffset: BlindingFactor)

  /** A full block; its hash is its header's hash. */
  datatype FullBlock = FullBlock(header: BlockHeader, body: TransactionBody)
  {
    function Hash(): Hash { header.hash }
  }

  /** Transaction::Serialize: the 32 offset bytes, then the body's encoding. */
  function Serialize(tx: Transaction, bodyCodec: Codec<TransactionBody>): (bytes: seq<byte>)
    ensures |bytes| >= BLINDING_FACTOR_SIZE
    ensures bytes[..BLINDING_FACTOR_SIZE] == tx.offset
    ensures bytes[BLINDING_FACTOR_SIZE..] == bodyCodec.encode(tx.body)
  {
    tx.offset + bodyCodec.encode(tx.body)
  }

  /** Transaction::Deserialize: read the 32-byte offset, then the body.
      Returns the transaction and the unread bytes, or None when the buffer
      runs out (the source throws a deserialisation error there). */
  function Deserialize(bytes: seq<byte>, bodyCodec: Codec<TransactionBody>): (r: Option<(Transaction, seq<byte>)>)
    ensures |bytes| < BLINDING_FACTOR_SIZE ==> r == None
    ensures r.Some? ==> r.value.0.offset == bytes[..BLINDING_FACTOR_SIZE]
    ensures r.Some? ==> bodyCodec.decode(bytes[BLINDING_FACTOR_SIZE..]) == Some((r.value.0.body, r.value.1))
  {
    if |bytes| < BLINDING_FACTOR_SIZE then None
    else
      match bodyCodec.decode(bytes[BLINDING_FACTOR_SIZE..])
      case None => None
      case Some((body, rest)) => Some((Transaction(bytes[..BLINDING_FACTOR_SIZE], body), rest))
  }

  /** Deserialize undoes Serialize, given that the body encoding round-trips. */
  lemma SerializeRoundTrip(tx: Transaction, bodyCodec: Codec<TransactionBody>, rest: seq<byte>)
    requires RoundTrips(bodyCodec)
    ensures Deserialize(Serialize(tx, bodyCodec) + rest, bodyCodec) == Some((tx, rest))
  {
    var bytes := Serialize(tx, bodyCodec) + rest;
    assert bytes[..BLINDING_FACTOR_SIZE] == tx.offset;
    assert bytes[BLINDING_FACTOR_SIZE..] == bodyCodec.encode(tx.body) + rest;
  }

  /** A Transaction object with its lazily computed hash (m_hash). The
      hash function (Blake2b) and the body encoding are fixed at
      construction. */
  class CachedTransaction {
    const transaction: Transaction
    const bodyCodec: Codec<TransactionBody>
    const blake2b: seq<byte> -> Hash
    var cachedHash: Hash

    /** The cache is either still default or holds the hash of the bytes. */
    ghost predicate Valid()
      reads this
    {
      cachedHash == ZERO_HASH || cachedHash == blake2b(Serialize(transaction, bodyCodec))
    }

    constructor (offset: BlindingFactor, body: TransactionBody, bodyCodec: Codec<TransactionBody>, blake2b: seq<byte> -> Hash)
      ensures Valid()
      ensures transaction.offset == offset && transaction.body == body
      ensures this.bodyCodec == bodyCodec && this.blake2b == blake2b
      ensures cachedHash == ZERO_HASH
    {
      transaction := Transaction(offset, body);
      this.bodyCodec := bodyCodec;
      this.blake2b := blake2b;
      cachedHash := ZERO_HASH;
    }

    /** Transaction::GetHash: computes Blake2b of the serialised bytes while
        the cache still holds the default hash, and returns the cache. */
    method GetHash() returns (h: Hash)
      requires Valid()
      modifies this`cachedHash
      ensures Valid()
      ensures h == blake2b(Serialize(transaction, bodyCodec))
      ensures cachedHash == h
      ensures old(cachedHash) != ZERO_HASH ==> cachedHash == old(cachedHash)
    {
      if cachedHash == ZERO_HASH {
        var bytes := Serialize(transaction, bodyCodec);
        cachedHash := blake2b(bytes);
      }
      h := cachedHash;
    }
  }

  /** Two calls of GetHash on the same object return the same hash. */
  method RepeatedGetHash(t: CachedTransaction) returns (h1: Hash, h2: Hash)
    requires t.Valid()
    modifies t`cachedHash
    ensures h1 == h2
  {
    h1 := t.GetHash();
    h2 := t.GetHash();
  }
}
