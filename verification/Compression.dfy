/**
 The compressing half of the pipeline: an encoder that emits its frame piece by piece into a
 writer that may accept any part of what it is offered, counted and hashed on the way.
 */
module Compression {
  import opened Domain

  /** A streaming encoder: its frame may depend on how the input was cut into chunks. */
  datatype Encoder<!S> = Encoder(start: S, feed: (S, Bytes) -> (S, Bytes), finish: S -> Bytes)

  function Concat(chunks: seq<Bytes>): Bytes {
    if chunks == [] then [] else Concat(chunks[..|chunks| - 1]) + chunks[|chunks| - 1]
  }

  /** The encoder's state and output after a sequence of chunks. */
  function Fed<S>(encoder: Encoder<S>, chunks: seq<Bytes>): (S, Bytes) {
    if chunks == [] then (encoder.start, [])
    else
      var (state, emitted) := Fed(encoder, chunks[..|chunks| - 1]);
      var (state', more) := encoder.feed(state, chunks[|chunks| - 1]);
      (state', emitted + more)
  }

  function Frame<S>(encoder: Encoder<S>, chunks: seq<Bytes>): Bytes {
    Fed(encoder, chunks).1 + encoder.finish(Fed(encoder, chunks).0)
  }

  /** Decoding what the encoder wrote gives back what it was fed, however it was cut. */
  ghost predicate Sound<S(!new)>(codec: Codec, encoder: Encoder<S>) {
    forall chunks: seq<Bytes> :: codec.decode(Frame(encoder, chunks)) == Some(Concat(chunks))
  }

  /** What the output answers to one `write`. */
  datatype Reply = Accept(limit: nat) | Interrupted | Refuse | Panic

  datatype Failure = WriteFailed | WorkerPanicked

  /** The output: the bytes it holds and the answers it has left; without answers it accepts everything. */
  datatype Output = Output(accepted: Bytes, script: seq<Reply>)

  /** `write_all` through the counting writer, whose byte counter is a checked u64. */
  function Deliver(output: Output, buffer: Bytes): Result<Output, Failure>
    decreases |output.script|, |buffer|
  {
    if buffer == [] then Ok(output)
    else if output.script == [] then
      if |output.accepted + buffer| > U64_MAX then Err(WriteFailed) else Ok(Output(output.accepted + buffer, []))
    else
      var rest := output.script[1..];
      match output.script[0]
      case Accept(limit) =>
        var n := if limit <= |buffer| then limit else |buffer|;
        if n == 0 || |output.accepted| + n > U64_MAX then Err(WriteFailed)
        else Deliver(Output(output.accepted + buffer[..n], rest), buffer[n..])
      case Interrupted => Deliver(Output(output.accepted, rest), buffer)
      case Refuse => Err(WriteFailed)
      case Panic => Err(WorkerPanicked)
  }

  /** Whatever was refused, cut short or interrupted: success means exactly the buffer was appended. */
  lemma {:induction false} DeliverIsExact(output: Output, buffer: Bytes)
    requires Deliver(output, buffer).Ok?
    ensures Deliver(output, buffer).value.accepted == output.accepted + buffer
    ensures |output.accepted| <= U64_MAX ==> |Deliver(output, buffer).value.accepted| <= U64_MAX
    decreases |output.script|, |buffer|
  {
    if buffer == [] || output.script == [] {
    } else {
      var rest := output.script[1..];
      match output.script[0]
      case Accept(limit) =>
        var n := if limit <= |buffer| then limit else |buffer|;
        DeliverIsExact(Output(output.accepted + buffer[..n], rest), buffer[n..]);
        assert buffer[..n] + buffer[n..] == buffer;
      case Interrupted => DeliverIsExact(Output(output.accepted, rest), buffer);
      case _ =>
    }
  }

  /** The encoder task between two chunks. */
  datatype Task<!S> = Task(encoder: S, output: Output, hashed: Bytes)

  function Consume<S>(encoder: Encoder<S>, task: Task<S>, chunk: Bytes): Result<Task<S>, Failure> {
    var (state, emitted) := encoder.feed(task.encoder, chunk);
    match Deliver(task.output, emitted)
    case Ok(output) => Ok(Task(state, output, task.hashed + chunk))
    case Err(failure) => Err(failure)
  }

  datatype Encoded = Encoded(compressedBytes: u64, inputSha256: Digest, compressedSha256: Digest)

  function Conclude<S>(encoder: Encoder<S>, task: Task<S>): Result<Output, Failure> {
    Deliver(task.output, encoder.finish(task.encoder))
  }

  /** The encoder task after a sequence of chunks; opening the encoder may already fail. */
  function Encoding<S>(encoder: Encoder<S>, opens: bool, script: seq<Reply>,
                       chunks: seq<Bytes>): Result<Task<S>, Failure> {
    if !opens then Err(WriteFailed)
    else if chunks == [] then Ok(Task(encoder.start, Output([], script), []))
    else
      match Encoding(encoder, opens, script, chunks[..|chunks| - 1])
      case Err(failure) => Err(failure)
      case Ok(task) => Consume(encoder, task, chunks[|chunks| - 1])
  }

  /** The complete encoder run: the output it leaves behind, or why it failed. */
  function Encode<S>(encoder: Encoder<S>, opens: bool, script: seq<Reply>,
                     chunks: seq<Bytes>): Result<Output, Failure> {
    match Encoding(encoder, opens, script, chunks)
    case Err(failure) => Err(failure)
    case Ok(task) => Conclude(encoder, task)
  }

  lemma {:induction false} EncodingIsExact<S>(encoder: Encoder<S>, opens: bool, script: seq<Reply>, chunks: seq<Bytes>)
    requires Encoding(encoder, opens, script, chunks).Ok?
    ensures var task := Encoding(encoder, opens, script, chunks).value;
            && task.encoder == Fed(encoder, chunks).0
            && task.output.accepted == Fed(encoder, chunks).1
            && task.hashed == Concat(chunks)
            && |task.output.accepted| <= U64_MAX
  {
    if chunks == [] {
    } else {
      var before := chunks[..|chunks| - 1];
      EncodingIsExact(encoder, opens, script, before);
      var task := Encoding(encoder, opens, script, before).value;
      DeliverIsExact(task.output, encoder.feed(task.encoder, chunks[|chunks| - 1]).1);
    }
  }

  /** A successful encoder leaves exactly its frame in the output, whatever the pattern of partial writes. */
  lemma EncodeIsExact<S>(encoder: Encoder<S>, opens: bool, script: seq<Reply>, chunks: seq<Bytes>)
    requires Encode(encoder, opens, script, chunks).Ok?
    ensures Encode(encoder, opens, script, chunks).value.accepted == Frame(encoder, chunks)
    ensures |Encode(encoder, opens, script, chunks).value.accepted| <= U64_MAX
  {
    EncodingIsExact(encoder, opens, script, chunks);
    var task := Encoding(encoder, opens, script, chunks).value;
    DeliverIsExact(task.output, encoder.finish(task.encoder));
  }

  /** An encoder that failed early fails the same way on every longer input. */
  lemma {:induction false} FailurePersists<S>(encoder: Encoder<S>, opens: bool, script: seq<Reply>, chunks: seq<Bytes>,
                                              more: seq<Bytes>)
    requires Encoding(encoder, opens, script, chunks).Err?
    ensures Encoding(encoder, opens, script, chunks + more) == Encoding(encoder, opens, script, chunks)
    decreases |more|
  {
    if more == [] {
      assert chunks + more == chunks;
    } else {
      FailurePersists(encoder, opens, script, chunks, more[..|more| - 1]);
      assert (chunks + more)[..|chunks + more| - 1] == chunks + more[..|more| - 1];
    }
  }

  /** The output file and the answers it gives. */
  class Sink {
    var state: Output

    constructor (script: seq<Reply>)
      ensures state == Output([], script)
    {
      state := Output([], script);
    }

    /** One `write`: `Ok(n)` says the first `n` bytes were taken. */
    method Write(buffer: Bytes) returns (r: Result<nat, Reply>)
      modifies this
      ensures r.Ok? ==> r.value <= |buffer| && state.accepted == old(state.accepted) + buffer[..r.value]
      ensures r.Err? ==> state.accepted == old(state.accepted) && !r.error.Accept?
      ensures old(state.script) == [] ==> r == Ok(|buffer|) && state.script == []
      ensures old(state.script) != [] ==>
                && state.script == old(state.script)[1..]
                && (old(state.script)[0].Accept? ==>
                     r == Ok(if old(state.script)[0].limit <= |buffer| then old(state.script)[0].limit else |buffer|))
                && (!old(state.script)[0].Accept? ==> r == Err(old(state.script)[0]))
    {
      if state.script == [] {
        state := Output(state.accepted + buffer, []);
        return Ok(|buffer|);
      }
      var reply, rest := state.script[0], state.script[1..];
      if !reply.Accept? {
        state := Output(state.accepted, rest);
        return Err(reply);
      }
      var n := if reply.limit <= |buffer| then reply.limit else |buffer|;
      state := Output(state.accepted + buffer[..n], rest);
      return Ok(n);
    }
  }

  /** Counts and hashes what the inner writer accepted, not what it was offered. */
  class CountingHashWriter {
    const inner: Sink
    var hasher: Bytes
    var bytes: u64

    /** Holds as long as no write has failed. */
    ghost predicate Valid()
      reads this, inner
    {
      hasher == inner.state.accepted && bytes == |inner.state.accepted|
    }

    constructor (inner: Sink)
      requires inner.state.accepted == []
      ensures this.inner == inner && Valid()
    {
      this.inner := inner;
      hasher := [];
      bytes := 0;
    }

    method Write(buffer: Bytes) returns (r: Result<nat, Reply>)
      requires Valid()
      modifies this, inner
      ensures r.Ok? ==>
                Valid() && r.value <= |buffer| && inner.state.accepted == old(inner.state.accepted) + buffer[..r.value]
      ensures r.Err? && r.error.Interrupted? ==> Valid() && inner.state.accepted == old(inner.state.accepted)
      ensures old(inner.state.script) == [] ==>
                inner.state.script == [] && r == if old(bytes) + |buffer| <= U64_MAX then Ok(|buffer|) else Err(Refuse)
      ensures old(inner.state.script) != [] ==>
                && inner.state.script == old(inner.state.script)[1..]
                && match old(inner.state.script)[0]
                   case Accept(limit) =>
                     var n := if limit <= |buffer| then limit else |buffer|;
                     r == if old(bytes) + n <= U64_MAX then Ok(n) else Err(Refuse)
                   case reply => r == Err(reply)
    {
      r := inner.Write(buffer);
      if r.Ok? {
        hasher := hasher + buffer[..r.value];
        if bytes + r.value > U64_MAX {
          return Err(Refuse);
        }
        bytes := bytes + r.value;
      }
    }

    /** The loop every `write_all` runs: retry what was interrupted, offer again what was not taken. */
    method WriteAll(buffer: Bytes) returns (r: Option<Failure>)
      requires Valid()
      modifies this, inner
      ensures r.None? <==> Deliver(old(inner.state), buffer).Ok?
      ensures r.None? ==> Valid() && Deliver(old(inner.state), buffer) == Ok(inner.state)
      ensures r.Some? ==> Deliver(old(inner.state), buffer) == Err(r.value)
    {
      var rest := buffer;
      while rest != []
        invariant Valid()
        invariant Deliver(inner.state, rest) == Deliver(old(inner.state), buffer)
        decreases |inner.state.script|, |rest|
      {
        ghost var before := inner.state;
        var written := this.Write(rest);
        assert before.script == [] && written.Ok? ==>
                 inner.state == Output(before.accepted + rest, []) && rest[written.value..] == [];
        match written
        case Ok(n) =>
          if n == 0 {
            return Some(WriteFailed);
          }
          rest := rest[n..];
        case Err(reply) =>
          if reply.Panic? {
            return Some(WorkerPanicked);
          } else if !reply.Interrupted? {
            return Some(WriteFailed);
          }
      }
      return None;
    }

    method Finish() returns (bytes: u64, sha256: Digest)
      requires Valid()
      ensures bytes == |inner.state.accepted| && sha256 == Digest(inner.state.accepted)
    {
      return this.bytes, Digest(hasher);
    }
  }

  /** The blocking encoder task, fed with everything it will ever receive. */
  method EncodeChunks<S>(encoder: Encoder<S>, opens: bool, received: seq<Bytes>, sink: Sink)
    returns (r: Result<Encoded, Failure>)
    requires sink.state.accepted == []
    modifies sink
    ensures r.Ok? <==> Encode(encoder, opens, old(sink.state.script), received).Ok?
    ensures r.Err? ==> Encode(encoder, opens, old(sink.state.script), received) == Err(r.error)
    ensures r.Ok? ==>
              && Encode(encoder, opens, old(sink.state.script), received) == Ok(sink.state)
              && sink.state.accepted == Frame(encoder, received)
              && r.value.compressedBytes == |Frame(encoder, received)|
              && r.value.inputSha256 == Digest(Concat(received))
              && r.value.compressedSha256 == Digest(Frame(encoder, received))
  {
    if !opens {
      return Err(WriteFailed);
    }
    var output := new CountingHashWriter(sink);
    var state, hasher := encoder.start, [];
    ghost var script := sink.state.script;
    var next := 0;
    while next < |received|
      invariant 0 <= next <= |received| && output.Valid() && output.inner == sink && fresh(output)
      invariant Encoding(encoder, opens, script, received[..next]) == Ok(Task(state, sink.state, hasher))
    {
      assert received[..next + 1][..next] == received[..next];
      var (state', emitted) := encoder.feed(state, received[next]);
      var failed := output.WriteAll(emitted);
      if failed.Some? {
        assert Encoding(encoder, opens, script, received[..next + 1]) == Err(failed.value);
        FailurePersists(encoder, opens, script, received[..next + 1], received[next + 1..]);
        assert received[..next + 1] + received[next + 1..] == received;
        return Err(failed.value);
      }
      state, hasher, next := state', hasher + received[next], next + 1;
    }
    assert received[..next] == received;
    EncodingIsExact(encoder, opens, script, received);
    var failed := output.WriteAll(encoder.finish(state));
    if failed.Some? {
      return Err(failed.value);
    }
    EncodeIsExact(encoder, opens, script, received);
    var bytes, sha256 := output.Finish();
    return Ok(Encoded(bytes, Digest(hasher), sha256));
  }
}
