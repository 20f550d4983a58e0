/** BlockSums: the running output and kernel commitment sums of a block,
    with its two-field serialisation. */
module CoreBlockSums {
  import opened Types
  import opened CoreModels

  /** Constructed from (outputSum, kernelSum); the getters GetOutputSum and
      GetKernelSum are the two fields. */
  datatype BlockSums = BlockSums(outputSum: Commitment, kernelSum: Commitment)

  /** BlockSums::Serialize: outputSum's encoding, then kernelSum's. */
  function Serialize(sums: BlockSums, commitmentCodec: Codec<Commitment>): (bytes: seq<byte>)
    ensures var n := |commitmentCodec.encode(sums.outputSum)|;
      n <= |bytes|
      && bytes[..n] == commitmentCodec.encode(sums.outputSum)
      && bytes[n..] == commitmentCodec.encode(sums.kernelSum)
  {
    commitmentCodec.encode(sums.outputSum) + commitmentCodec.encode(sums.kernelSum)
  }

  /** BlockSums::Deserialize: read outputSum first and kernelSum second;
      None when either read fails. Returns the unread bytes as well. */
  function Deserialize(bytes: seq<byte>, commitmentCodec: Codec<Commitment>): (r: Option<(BlockSums, seq<byte>)>)
    ensures r.Some? <==>
      (commitmentCodec.decode(bytes).Some?
       && commitmentCodec.decode(commitmentCodec.decode(bytes).value.1).Some?)
    ensures r.Some? ==>
      var (first, afterFirst) := commitmentCodec.decode(bytes).value;
      var (second, afterSecond) := commitmentCodec.decode(afterFirst).value;
      r.value == (BlockSums(first, second), afterSecond)
  {
    match commitmentCodec.decode(bytes)
    case None => None
    case Some((outputSum, afterOutput)) =>
      match commitmentCodec.decode(afterOutput)
      case None => None
      case Some((kernelSum, rest)) => Some((BlockSums(outputSum, kernelSum), rest))
  }

  /** Deserialize undoes Serialize when the commitment encoding round-trips;
      in particular the two sums come back in their own places. */
  lemma SerializeRoundTrip(sums: BlockSums, commitmentCodec: Codec<Commitment>, rest: seq<byte>)
    requires RoundTrips(commitmentCodec)
    ensures Deserialize(Serialize(sums, commitmentCodec) + rest, commitmentCodec) == Some((sums, rest))
  {
    var first := commitmentCodec.encode(sums.outputSum);
    var second := commitmentCodec.encode(sums.kernelSum);
    assert Serialize(sums, commitmentCodec) + rest == first + (second + rest);
    assert commitmentCodec.decode(first + (second + rest)) == Some((sums.outputSum, second + rest));
    assert commitmentCodec.decode(second + rest) == Some((sums.kernelSum, rest));
  }
}
