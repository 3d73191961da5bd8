/** Byte strings, identifiers, records and results shared by the whole model. */
module Types {
  type byte = x: int | 0 <= x < 256
  type Bytes = seq<byte>
  type int32 = x: int | -0x8000_0000 <= x < 0x8000_0000
  type int64 = x: int | -0x8000_0000_0000_0000 <= x < 0x8000_0000_0000_0000

  // "replication_log/"
  const LOG_PREFIX: Bytes := [114, 101, 112, 108, 105, 99, 97, 116, 105, 111, 110, 95, 108, 111, 103, 47]
  // "clock_value/"
  const CLOCK_PREFIX: Bytes := [99, 108, 111, 99, 107, 95, 118, 97, 108, 117, 101, 47]
  // "!badger!", reserved by the storage engine
  const ENGINE_PREFIX: Bytes := [33, 98, 97, 100, 103, 101, 114, 33]

  type IdBytes = b: Bytes | |b| == 32 witness seq(32, _ => 0)

  /** 32 bytes that do not read like one of the two scan prefixes, which is assumed of every hash. */
  type HashBytes = b: Bytes | |b| == 32 && !(LOG_PREFIX <= b) && !(CLOCK_PREFIX <= b)
    witness (assert LOG_PREFIX[0] != 0 && CLOCK_PREFIX[0] != 0; seq(32, _ => 0))

  datatype NodeID = NodeID(bytes: IdBytes)
  datatype KeyHash = KeyHash(bytes: HashBytes)

  const CREATED: int32 := 0

  datatype Record = Record(
    createdAtUnix: int64,
    public: bool,
    satelliteAddress: string,
    macaroonHead: Bytes,
    expiresAtUnix: int64,
    encryptedSecretKey: Bytes,
    encryptedAccessGrant: Bytes,
    invalidationReason: string,
    invalidatedAtUnix: int64,
    state: int32)

  datatype Option<+T> = None | Some(value: T)
  datatype Result<+T, +E> = Ok(value: T) | Err(error: E)

  /** The value a 64-bit signed computation leaves. */
  function Wrap(x: int): int64 {
    (x + 0x8000_0000_0000_0000) % 0x1_0000_0000_0000_0000 - 0x8000_0000_0000_0000
  }

  lemma WrapFits(x: int)
    ensures -0x8000_0000_0000_0000 <= x < 0x8000_0000_0000_0000 ==> Wrap(x) == x
    ensures 0x8000_0000_0000_0000 <= x < 0x1_0000_0000_0000_0000 ==> Wrap(x) == x - 0x1_0000_0000_0000_0000
  {
  }

  lemma Fewer<T>(a: set<T>, b: set<T>)
    requires a <= b
    ensures |a| <= |b|
  {
    assert b == a + (b - a);
  }
}
