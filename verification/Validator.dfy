/** Validation of a stored dump before a restore: identity, sizes, digests and decodability, all recomputed. */
module Validator {
  import opened Domain
  import opened Ordering
  import opened Snapshot

  const VALIDATION_BUFFER_BYTES: nat := 64 * 1024

  datatype RestoreArtifactError =
    | LeaseNotFound
    | LeaseBusy
    | NotFound
    | DuplicateId
    | ReadMetadata
    | InvalidMetadata
    | IdentityMismatch
    | DatabaseMismatch
    | ReadArtifact
    | CompressedSizeMismatch
    | InvalidZstd
    | ArtifactChecksumMismatch
    | UncompressedSizeMismatch
    | SqlChecksumMismatch

  /** Counts and hashes the compressed bytes the decoder takes. */
  class CountingHashReader {
    const content: Bytes
    var hasher: Bytes
    var bytes: u64

    ghost predicate Valid()
      reads this
    {
      bytes <= |content| && hasher == content[..bytes]
    }

    constructor (content: Bytes)
      ensures this.content == content && Valid() && bytes == 0
    {
      this.content := content;
      hasher := [];
      bytes := 0;
    }

    /** Reads up to `limit` bytes; fails only when the counter would overflow. */
    method Read(limit: nat) returns (r: Result<nat, ()>)
      requires Valid()
      modifies this
      ensures r.Ok? ==> Valid() && r.value <= limit && bytes == old(bytes) + r.value
      ensures r.Ok? && r.value < limit ==> bytes == |content|
      ensures r.Err? ==> |content| > U64_MAX
    {
      var count := if limit <= |content| - bytes then limit else |content| - bytes;
      hasher := hasher + content[bytes..bytes + count];
      if bytes + count > U64_MAX {
        return Err(());
      }
      assert content[..bytes] + content[bytes..bytes + count] == content[..bytes + count];
      bytes := bytes + count;
      return Ok(count);
    }

    method Finish() returns (count: u64, sha256: Digest)
      requires Valid()
      ensures count == bytes && sha256 == Digest(content[..bytes])
    {
      return bytes, Digest(hasher);
    }
  }

  /** How one `read` of the decoder behaves: it pulls input and hands out at most `give` bytes. */
  datatype Turn = Turn(pull: nat, give: nat)

  /** What the decoder hands out: the decoded bytes, or anything at all before it rejects its input. */
  function Emitted(codec: Codec, content: Bytes, garbage: Bytes): Bytes {
    if codec.decode(content).Some? then codec.decode(content).value else garbage
  }

  /** The streaming decoder over the counting reader; it has seen all its input when it reports the end. */
  class StreamDecoder {
    const codec: Codec
    const reader: CountingHashReader
    const garbage: Bytes
    var produced: nat
    var turns: seq<Turn>

    ghost predicate Valid()
      reads this, reader
    {
      reader.Valid() && produced <= |Emitted(codec, reader.content, garbage)|
    }

    constructor (codec: Codec, reader: CountingHashReader, garbage: Bytes, turns: seq<Turn>)
      requires reader.Valid()
      ensures this.codec == codec && this.reader == reader && this.garbage == garbage && produced == 0 && Valid()
    {
      this.codec, this.reader, this.garbage, this.turns := codec, reader, garbage, turns;
      produced := 0;
    }

    /** The next piece; an empty one is the end, and means everything was decoded. */
    method Read() returns (r: Result<Bytes, ()>)
      requires Valid()
      modifies this, reader
      ensures r.Ok? ==> Valid() && produced == old(produced) + |r.value|
      ensures r.Ok? ==> r.value == Emitted(codec, reader.content, garbage)[old(produced)..produced]
      ensures r.Ok? && r.value == [] ==>
                produced == |Emitted(codec, reader.content, garbage)| && codec.decode(reader.content).Some?
                && reader.bytes == |reader.content|
      ensures r.Err? && |reader.content| <= U64_MAX ==>
                codec.decode(reader.content).None? && old(produced) == |Emitted(codec, reader.content, garbage)|
    {
      var all := Emitted(codec, reader.content, garbage);
      if produced == |all| {
        var rest := reader.Read(|reader.content| + 1);
        if rest.Err? || codec.decode(reader.content).None? {
          return Err(());
        }
        return Ok([]);
      }
      var turn := if turns == [] then Turn(0, 1) else turns[0];
      turns := if turns == [] then [] else turns[1..];
      var pulled := reader.Read(turn.pull);
      if pulled.Err? {
        return Err(());
      }
      var give := if turn.give == 0 then 1 else if turn.give > VALIDATION_BUFFER_BYTES then VALIDATION_BUFFER_BYTES
        else turn.give;
      var count := if give <= |all| - produced then give else |all| - produced;
      r := Ok(all[produced..produced + count]);
      produced := produced + count;
    }
  }

  /** The verdict on a dump file, independent of how the decoder was driven. */
  function Verdict(codec: Codec, content: Bytes, garbage: Bytes, meta: Metadata): Option<RestoreArtifactError> {
    if |Emitted(codec, content, garbage)| > U64_MAX then Some(UncompressedSizeMismatch)
    else
      match codec.decode(content)
      case None => Some(InvalidZstd)
      case Some(sql) =>
        if |content| != meta.compressedBytes || Digest(content) != meta.artifactSha256
          then Some(ArtifactChecksumMismatch)
        else if |sql| != meta.uncompressedBytes then Some(UncompressedSizeMismatch)
        else if Digest(sql) != meta.sqlSha256 then Some(SqlChecksumMismatch)
        else None
  }

  /** Decodes, counts and hashes in one pass; `turns` is any pattern of reads, and a file's length fits in a u64. */
  method ValidateZstdAndChecksums(codec: Codec, content: Bytes, garbage: Bytes, turns: seq<Turn>, meta: Metadata)
    returns (failure: Option<RestoreArtifactError>)
    requires |content| <= U64_MAX
    ensures failure == Verdict(codec, content, garbage, meta)
    ensures failure.None? <==> codec.decode(content).Some? && Records(codec, meta, codec.decode(content).value, content)
  {
    var compressed := new CountingHashReader(content);
    var decoder := new StreamDecoder(codec, compressed, garbage, turns);
    ghost var all := Emitted(codec, content, garbage);
    var sqlHasher, sqlBytes := [], 0;
    var open := true;
    while open
      invariant compressed.content == content && decoder.reader == compressed && decoder.codec == codec
                && decoder.garbage == garbage
      invariant fresh(compressed) && fresh(decoder) && decoder.Valid()
      invariant sqlBytes == decoder.produced <= U64_MAX && sqlHasher == all[..sqlBytes]
      invariant !open ==> sqlBytes == |all| && codec.decode(content).Some? && compressed.bytes == |content|
      decreases if open then 1 else 0, |all| - decoder.produced
    {
      var piece := decoder.Read();
      if piece.Err? {
        return Some(InvalidZstd);
      }
      if piece.value == [] {
        open := false;
      } else {
        assert all[..sqlBytes] + piece.value == all[..sqlBytes + |piece.value|];
        sqlHasher := sqlHasher + piece.value;
        if sqlBytes + |piece.value| > U64_MAX {
          return Some(UncompressedSizeMismatch);
        }
        sqlBytes := sqlBytes + |piece.value|;
      }
    }
    assert all[..sqlBytes] == all;
    var compressedBytes, artifactSha256 := compressed.Finish();
    assert content[..compressedBytes] == content;
    if compressedBytes != meta.compressedBytes || artifactSha256 != meta.artifactSha256 {
      return Some(ArtifactChecksumMismatch);
    }
    if sqlBytes != meta.uncompressedBytes {
      return Some(UncompressedSizeMismatch);
    }
    if Digest(sqlHasher) != meta.sqlSha256 {
      return Some(SqlChecksumMismatch);
    }
    return None;
  }

  /** The verdict on a candidate: the first check that fails decides. */
  function Checked(codec: Codec, artifact: Stored, garbage: Bytes): Result<Metadata, RestoreArtifactError> {
    match artifact.lease
    case Gone => Err(LeaseNotFound)
    case Busy => Err(LeaseBusy)
    case Free =>
      match artifact.metadata
      case Missing => Err(ReadMetadata)
      case Corrupt => Err(InvalidMetadata)
      case Parsed(meta) =>
        if meta.dumpId != artifact.id || meta.place != artifact.place then Err(IdentityMismatch)
        else if artifact.dump.None? then Err(ReadArtifact)
        else if |artifact.dump.value| != meta.compressedBytes then Err(CompressedSizeMismatch)
        else
          match Verdict(codec, artifact.dump.value, garbage, meta)
          case Some(failure) => Err(failure)
          case None => Ok(meta)
  }

  /** What makes a candidate restorable, whatever order the checks run in. */
  ghost predicate Restorable(codec: Codec, artifact: Stored, meta: Metadata) {
    && artifact.lease.Free?
    && artifact.metadata == Parsed(meta)
    && meta.dumpId == artifact.id
    && meta.place == artifact.place
    && artifact.dump.Some?
    && codec.decode(artifact.dump.value).Some?
    && Records(codec, meta, codec.decode(artifact.dump.value).value, artifact.dump.value)
  }

  /** Validation accepts exactly the restorable candidates, and returns their metadata. */
  lemma AcceptsExactlyTheRestorable(codec: Codec, artifact: Stored, garbage: Bytes, meta: Metadata)
    ensures Checked(codec, artifact, garbage) == Ok(meta) <==> Restorable(codec, artifact, meta)
  {
  }

  method ValidateArtifact(codec: Codec, artifact: Stored, garbage: Bytes, turns: seq<Turn>)
    returns (r: Result<Metadata, RestoreArtifactError>)
    ensures r == Checked(codec, artifact, garbage)
    ensures r.Ok? ==> Restorable(codec, artifact, r.value)
  {
    if artifact.lease.Gone? {
      return Err(LeaseNotFound);
    }
    if artifact.lease.Busy? {
      return Err(LeaseBusy);
    }
    if artifact.metadata.Missing? {
      return Err(ReadMetadata);
    }
    if artifact.metadata.Corrupt? {
      return Err(InvalidMetadata);
    }
    var meta := artifact.metadata.meta;
    if meta.dumpId != artifact.id || meta.place != artifact.place {
      return Err(IdentityMismatch);
    }
    if artifact.dump.None? {
      return Err(ReadArtifact);
    }
    if |artifact.dump.value| != meta.compressedBytes {
      return Err(CompressedSizeMismatch);
    }
    var failure := ValidateZstdAndChecksums(codec, artifact.dump.value, garbage, turns, meta);
    return if failure.Some? then Err(failure.value) else Ok(meta);
  }

  predicate Named(id: DumpId, e: Stored) {
    e.id == id && e.Complete()
  }

  /** Every complete directory of that ID, under any profile and database. */
  method FindCompleteById(store: seq<Stored>, id: DumpId) returns (artifacts: seq<Stored>)
    ensures artifacts == Filter(e => Named(id, e), store)
    ensures forall e :: e in artifacts <==> e in store && e.id == id && e.Complete()
  {
    artifacts := [];
    for k := 0 to |store|
      invariant artifacts == Filter(e => Named(id, e), store[..k])
    {
      FilterNext(e => Named(id, e), store, k);
      if store[k].id == id && store[k].Complete() {
        artifacts := artifacts + [store[k]];
      }
    }
    assert store[..|store|] == store;
    FilterElements(e => Named(id, e), store);
  }

  /** `restore` names a dump by ID and database; the profile that took it does not matter. */
  method ValidateById(codec: Codec, store: seq<Stored>, requested: string, id: DumpId, garbage: Bytes, turns: seq<Turn>)
    returns (r: Result<Metadata, RestoreArtifactError>)
    ensures r.Ok? ==> r.value.dumpId == id && r.value.place.database == requested
    ensures r.Ok? ==> exists e :: Filter(x => Named(id, x), store) == [e] && Restorable(codec, e, r.value)
    ensures forall e, meta: Metadata :: Filter(x => Named(id, x), store) == [e] && Restorable(codec, e, meta) ==>
                r == if meta.place.database == requested then Ok(meta) else Err(DatabaseMismatch)
    ensures r == Err(NotFound) <==> forall e | e in store :: !Named(id, e)
    ensures r == Err(DuplicateId) <==> |Filter(x => Named(id, x), store)| > 1
  {
    var candidates := FindCompleteById(store, id);
    if candidates == [] {
      return Err(NotFound);
    }
    assert candidates[0] in candidates;
    if |candidates| != 1 {
      return Err(DuplicateId);
    }
    assert candidates == [candidates[0]];
    r := ValidateArtifact(codec, candidates[0], garbage, turns);
    forall meta: Metadata ensures Restorable(codec, candidates[0], meta) ==> r == Ok(meta) {
      AcceptsExactlyTheRestorable(codec, candidates[0], garbage, meta);
    }
    if r.Ok? && r.value.place.database != requested {
      return Err(DatabaseMismatch);
    }
  }

  /** Bytes that pass under the metadata of a compression are that compression's bytes. */
  lemma AcceptedBytesAreTheOriginals(codec: Codec, artifact: Stored, garbage: Bytes, meta: Metadata, input: Bytes,
                                     output: Bytes)
    requires Records(codec, meta, input, output)
    requires Checked(codec, artifact, garbage) == Ok(meta)
    ensures artifact.dump == Some(output) && codec.decode(artifact.dump.value) == Some(input)
  {
    AcceptsExactlyTheRestorable(codec, artifact, garbage, meta);
  }
}
