/** Values every component of the cache shares: bytes, checked arithmetic, ideal digests and dump metadata. */
module Domain {
  datatype Option<+T> = None | Some(value: T)

  datatype Result<+T, +E> = Ok(value: T) | Err(error: E)

  const U64_MAX: int := 0xFFFF_FFFF_FFFF_FFFF

  type u64 = n: int | 0 <= n <= U64_MAX

  type Byte = b: int | 0 <= b < 256

  type Bytes = seq<Byte>

  /** A UUID seen as the 128-bit number its sixteen big-endian bytes spell. */
  type DumpId = n: int | 0 <= n < 0x1_0000_0000_0000_0000_0000_0000_0000_0000

  /** SHA-256 taken as ideal: two digests are equal exactly when the hashed bytes are. */
  datatype Digest = Digest(preimage: Bytes)

  function SaturatingAdd(left: u64, right: u64): u64 {
    if left + right <= U64_MAX then left + right else U64_MAX
  }

  function CheckedAdd(left: u64, right: u64): Option<u64> {
    if left + right <= U64_MAX then Some(left + right) else None
  }

  datatype MysqlVersion = MysqlVersion(major: nat, minor: nat, patch: nat)

  /** The `(profile, database)` pair that names a cache directory. */
  datatype Place = Place(profile: string, database: string)

  datatype DumpMetadata = DumpMetadata(
    dumpId: DumpId,
    place: Place,
    sourceFingerprint: Digest,
    sourceServer: string,
    sourceVersion: MysqlVersion,
    clientVersion: MysqlVersion,
    policyVersion: nat,
    createdAt: u64,
    completedAt: u64,
    uncompressedBytes: u64,
    compressedBytes: u64,
    sqlSha256: Digest,
    artifactSha256: Digest)

  /** Metadata as its only constructor lets it exist; a metadata file that says anything else does not parse. */
  type Metadata = m: DumpMetadata | m.policyVersion > 0 && m.createdAt <= m.completedAt && m.compressedBytes > 0
    witness DumpMetadata(0, Place("", ""), Digest([]), "", MysqlVersion(0, 0, 0), MysqlVersion(0, 0, 0), 1, 0, 0, 0, 1,
                         Digest([]), Digest([]))

  /** The decoder of the compressed format; nothing else about the format is used. */
  datatype Codec = Codec(decode: Bytes -> Option<Bytes>)

  datatype CompressionMetrics = CompressionMetrics(
    inputBytes: u64,
    compressedBytes: u64,
    inputSha256: Digest,
    compressedSha256: Digest)

  /** `metrics` is what a successful compression of `input` into `output` reports. */
  ghost predicate Describes(codec: Codec, metrics: CompressionMetrics, input: Bytes, output: Bytes) {
    && metrics.inputBytes == |input|
    && metrics.compressedBytes == |output|
    && metrics.inputSha256 == Digest(input)
    && metrics.compressedSha256 == Digest(output)
    && codec.decode(output) == Some(input)
  }

  /** `metadata` records the sizes and digests of a compression of `input` into `output`. */
  ghost predicate Records(codec: Codec, metadata: Metadata, input: Bytes, output: Bytes) {
    && metadata.uncompressedBytes == |input|
    && metadata.compressedBytes == |output|
    && metadata.sqlSha256 == Digest(input)
    && metadata.artifactSha256 == Digest(output)
    && codec.decode(output) == Some(input)
  }
}
