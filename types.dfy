/** Shared vocabulary of the node model: bytes, fixed-width integers, hashes,
    optional values and byte codecs. */
module Types {

  newtype byte = x: int | 0 <= x < 256

  const U8_LIMIT: int := 0x100
  const U16_LIMIT: int := 0x1_0000
  const U32_LIMIT: int := 0x1_0000_0000
  const U64_LIMIT: int := 0x1_0000_0000_0000_0000

  /** An unsigned 64-bit value (uint64_t). */
  type u64 = x: int | 0 <= x < U64_LIMIT

  /** uint64_t addition, which wraps around modulo 2^64. */
  function AddU64(a: u64, b: u64): (r: u64)
    ensures a + b < U64_LIMIT ==> r == a + b
    ensures a + b >= U64_LIMIT ==> r == a + b - U64_LIMIT
  {
    (a + b) % U64_LIMIT
  }

  /** uint64_t subtraction, which wraps around modulo 2^64. */
  function SubU64(a: u64, b: u64): (r: u64)
    ensures a >= b ==> r == a - b
    ensures a < b ==> r == a - b + U64_LIMIT
  {
    (a - b) % U64_LIMIT
  }

  function Min(a: int, b: int): int
  {
    if a <= b then a else b
  }

  function Max(a: int, b: int): int
  {
    if a >= b then a else b
  }

  datatype Option<T> = None | Some(value: T)

  /** A 32-byte digest (Blake2b output, block hash, kernel hash). Hashes are
      uninterpreted: the model only compares them. */
  datatype Hash = Hash(bytes: seq<byte>)

  /** The value of a default-constructed Hash(): 32 zero bytes. */
  const ZERO_HASH: Hash := Hash(seq(32, _ => 0 as byte))

  /** A serialiser/deserialiser pair for one component type. `decode` reads a
      value from the front of a byte buffer and returns it with the bytes
      that follow it, or None when the buffer is too short or malformed. */
  datatype Codec<!T> = Codec(encode: T -> seq<byte>, decode: seq<byte> -> Option<(T, seq<byte>)>)

  /** The component encoding reads back exactly what was written, whatever
      bytes follow it in the buffer. */
  ghost predicate RoundTrips<T(!new)>(c: Codec<T>)
  {
    forall x: T, rest: seq<byte> :: c.decode(c.encode(x) + rest) == Some((x, rest))
  }
}
