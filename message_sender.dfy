/** Framing of outgoing peer messages: magic bytes, message type, body
    length, body. The socket's send result and the uint64 byte encoding are
    parameters. */
module P2PMessages {
  import opened Types

  /** The value POSIX send and Winsock send return on failure. */
  const SOCKET_ERROR: int := -1

  /** A u64 encoding of fixed width 8 with its inverse. */
  ghost predicate U64CodecValid(encode: u64 -> seq<byte>, decode: seq<byte> -> u64)
  {
    forall x: u64 :: |encode(x)| == 8 && decode(encode(x)) == x
  }

  /** The frame of a message: magic ++ [type as one byte] ++ u64(|body|) ++ body. */
  function Frame(magic: seq<byte>, messageType: nat, body: seq<byte>, encodeU64: u64 -> seq<byte>): (f: seq<byte>)
    requires |body| < U64_LIMIT
    ensures |f| == |magic| + 1 + |encodeU64(|body|)| + |body|
    ensures f[..|magic|] == magic && f[|magic|] == (messageType % U8_LIMIT) as byte
    ensures f[|magic| + 1..|f| - |body|] == encodeU64(|body|)
    ensures f[|f| - |body|..] == body
  {
    magic + [(messageType % U8_LIMIT) as byte] + encodeU64(|body|) + body
  }

  /** Reads a frame back, given the length of the magic: the type byte, the
      length field and then exactly that many body bytes. */
  function ParseFrame(frame: seq<byte>, magicLength: nat, decodeU64: seq<byte> -> u64): Option<(seq<byte>, byte, seq<byte>)>
  {
    if |frame| < magicLength + 1 + 8 then None
    else
      var length := decodeU64(frame[magicLength + 1..magicLength + 9]);
      if |frame| != magicLength + 9 + length then None
      else Some((frame[..magicLength], frame[magicLength], frame[magicLength + 9..]))
  }

  /** The layout of a frame: where the magic, the type byte, the length
      field and the body sit, and how long the whole frame is. */
  lemma FrameLayout(magic: seq<byte>, messageType: nat, body: seq<byte>, encodeU64: u64 -> seq<byte>, decodeU64: seq<byte> -> u64)
    requires |body| < U64_LIMIT
    requires U64CodecValid(encodeU64, decodeU64)
    ensures var f := Frame(magic, messageType, body, encodeU64);
      var m := |magic|;
      && |f| == m + 1 + 8 + |body|
      && f[..m] == magic
      && f[m] == (messageType % U8_LIMIT) as byte
      && decodeU64(f[m + 1..m + 9]) == |body|
      && f[m + 9..] == body
  {
    var f := Frame(magic, messageType, body, encodeU64);
    var m := |magic|;
    var len := encodeU64(|body|);
    assert |len| == 8;
    assert f[m + 1..m + 9] == len;
    assert f[m + 9..] == body;
  }

  /** Parsing a frame recovers its magic, its type byte and its body. */
  lemma FrameRoundTrip(magic: seq<byte>, messageType: nat, body: seq<byte>, encodeU64: u64 -> seq<byte>, decodeU64: seq<byte> -> u64)
    requires |body| < U64_LIMIT
    requires U64CodecValid(encodeU64, decodeU64)
    ensures ParseFrame(Frame(magic, messageType, body, encodeU64), |magic|, decodeU64)
            == Some((magic, (messageType % U8_LIMIT) as byte, body))
  {
    FrameLayout(magic, messageType, body, encodeU64, decodeU64);
  }

  /** A growing byte buffer (Serializer). */
  class Serializer {
    var bytes: seq<byte>

    constructor ()
      ensures bytes == []
    {
      bytes := [];
    }

    method AppendByteVector(v: seq<byte>)
      modifies this
      ensures bytes == old(bytes) + v
    {
      bytes := bytes + v;
    }

    method AppendU8(b: byte)
      modifies this
      ensures bytes == old(bytes) + [b]
    {
      bytes := bytes + [b];
    }

    method AppendU64(x: u64, encodeU64: u64 -> seq<byte>)
      modifies this
      ensures bytes == old(bytes) + encodeU64(x)
    {
      bytes := bytes + encodeU64(x);
    }
  }

  class MessageSender {
    /** The environment's magic bytes, from the configuration. */
    const magic: seq<byte>

    constructor (magic: seq<byte>)
      ensures this.magic == magic
    {
      this.magic := magic;
    }

    /** MessageSender::Send: builds the frame with two serialisers, hands
        it to the socket and reports success unless the socket answered
        SOCKET_ERROR. `body` is what the message's SerializeBody writes;
        `sendResult` is what the socket returned for the frame. */
    method Send(messageType: nat, body: seq<byte>, encodeU64: u64 -> seq<byte>, sendResult: int)
      returns (frame: seq<byte>, ok: bool)
      requires |body| < U64_LIMIT
      ensures frame == Frame(magic, messageType, body, encodeU64)
      ensures ok <==> sendResult != SOCKET_ERROR
    {
      var serializer := new Serializer();
      serializer.AppendByteVector(magic);
      serializer.AppendU8((messageType % U8_LIMIT) as byte);

      var bodySerializer := new Serializer();
      bodySerializer.AppendByteVector(body);

      var messageLength: u64 := |bodySerializer.bytes|;
      serializer.AppendU64(messageLength, encodeU64);
      serializer.AppendByteVector(bodySerializer.bytes);

      frame := serializer.bytes;
      ok := sendResult != SOCKET_ERROR;
    }
  }
}
