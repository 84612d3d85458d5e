/** From the dump stream to the restore: compression, publication and validation joined. */
module EndToEnd {
  import opened Domain
  import opened ArtifactProtocol
  import opened Snapshot
  import opened Validator
  import ArtifactTheorems
  import Compression
  import CompressionChannel

  /**
   A successful compression into the stage's dump file is what the protocol's `Finish` asks for,
   whatever the chunking, the partial writes and the schedule of the channel were.
   */
  lemma CompressionFinishes<S(!new)>(codec: Codec, job: CompressionChannel.Job<S>,
                              schedule: seq<CompressionChannel.Move>, s: State, pid: Pid)
    requires Compression.Sound(codec, job.encoder)
    requires CompressionChannel.Valid(job, CompressionChannel.Start(job), schedule)
    requires var end := CompressionChannel.Run(job, CompressionChannel.Start(job), schedule);
             && end.Returned() && CompressionChannel.Countable(end) && CompressionChannel.Outcome(end).Ok?
             && pid in s.procs && s.procs[pid].Writer? && s.procs[pid].w.Compress?
             && s.procs[pid].w.dir in s.disk.dirs
             && s.disk.dirs[s.procs[pid].w.dir].dump == Some(end.worker.result.value.accepted)
    ensures var end := CompressionChannel.Run(job, CompressionChannel.Start(job), schedule);
            Enabled(codec, s,
                    Finish(pid, Compression.Concat(CompressionChannel.Chunks(job.events)),
                           CompressionChannel.Outcome(end).value))
  {
    CompressionChannel.MetricsDescribe(codec, job, schedule);
  }

  /** The view of a published directory nobody holds exclusively. */
  function View(path: Path, contents: Dir): Stored
    requires path.entry.Complete?
  {
    Stored(path.place, path.entry.id, Free,
           if contents.metadata.Some? then Parsed(contents.metadata.value) else Missing, contents.dump)
  }

  /**
   End to end: whatever interleaving and crashes led here, an artifact found under a complete name
   validates, and it decodes to the bytes the compression read.
   */
  lemma PublishedValidates(codec: Codec, s: State, path: Path, garbage: Bytes)
    returns (meta: Metadata, input: Bytes)
    requires ArtifactTheorems.Reachable(codec, s)
    requires path in s.disk.fs && path.entry.Complete?
    ensures s.disk.Has(path) && s.disk.Look(path).dump.Some? && s.disk.Look(path).metadata == Some(meta)
    ensures Checked(codec, View(path, s.disk.Look(path)), garbage) == Ok(meta)
    ensures codec.decode(s.disk.Look(path).dump.value) == Some(input)
    ensures Records(codec, meta, input, s.disk.Look(path).dump.value)
  {
    ArtifactTheorems.PublishedIsComplete(codec, s, path);
    meta := s.disk.Look(path).metadata.value;
    input := meta.sqlSha256.preimage;
    AcceptsExactlyTheRestorable(codec, View(path, s.disk.Look(path)), garbage, meta);
  }
}
