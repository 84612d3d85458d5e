/**
 The pipeline around the encoder: a producer reads the dump and sends chunks through a bounded
 channel to the encoder task. Every interleaving of the two is a schedule of `Move`s.
 */
module CompressionChannel {
  import opened Domain
  import opened Compression

  const BUFFERED_CHUNKS := 2

  /** One turn of the read loop; an empty chunk, like the end of the list, is the end of the input. */
  datatype Event = Chunk(bytes: Bytes) | ReadFailed | Cancelled

  datatype CompressionError =
    | ReadInput
    | InputTooLarge
    | EncoderStopped
    | EncoderTaskFailed
    | Interrupted
    | EncodeFailed

  /** What a call of `compress` depends on besides the schedule. */
  datatype Job<!S> = Job(encoder: Encoder<S>, opens: bool, script: seq<Reply>, events: seq<Event>)

  datatype Producer =
    | Reading
    | Sending(chunk: Bytes)
    | Closed(stopped: Option<CompressionError>)
    | Overflowed

  datatype Worker<!S> =
    | Starting
    | Running(task: Task<S>)
    | Stopped(result: Result<Output, Failure>, hashed: Bytes)

  /** `read` and `received` are the chunks each side has seen so far. */
  datatype State<!S> = State(
    events: seq<Event>, count: u64, producer: Producer, queue: seq<Bytes>, worker: Worker<S>,
    ghost read: seq<Bytes>, ghost received: seq<Bytes>)
  {
    /** `compress` returns: at once on an overflowing counter, otherwise when both sides are done. */
    predicate Returned() {
      producer.Overflowed? || (producer.Closed? && worker.Stopped?)
    }
  }

  datatype Move = Open | Read | Send | Receive | Drain

  function Start<S>(job: Job<S>): State<S> {
    State(job.events, 0, Reading, [], Starting, [], [])
  }

  predicate Enabled<S>(s: State<S>, m: Move) {
    match m
    case Open => s.worker.Starting?
    case Read => s.producer.Reading?
    case Send => s.producer.Sending? && (s.worker.Stopped? || |s.queue| < BUFFERED_CHUNKS)
    case Receive => s.worker.Running? && s.queue != []
    case Drain => s.worker.Running? && s.queue == [] && (s.producer.Closed? || s.producer.Overflowed?)
  }

  function Next<S>(job: Job<S>, s: State<S>, m: Move): State<S>
    requires Enabled(s, m)
  {
    match m
    case Open =>
      if job.opens then s.(worker := Running(Task(job.encoder.start, Output([], job.script), [])))
      else s.(worker := Stopped(Err(WriteFailed), []), queue := [])
    case Read => Reads(s)
    case Send =>
      if s.worker.Stopped? then s.(producer := Closed(Some(EncoderStopped)))
      else s.(producer := Reading, queue := s.queue + [s.producer.chunk])
    case Receive =>
      (match Consume(job.encoder, s.worker.task, s.queue[0])
       case Ok(task) => s.(worker := Running(task), queue := s.queue[1..], received := s.received + [s.queue[0]])
       case Err(failure) => s.(worker := Stopped(Err(failure), []), queue := []))
    case Drain => s.(worker := Stopped(Conclude(job.encoder, s.worker.task), s.worker.task.hashed))
  }

  function Reads<S>(s: State<S>): State<S> {
    if s.events == [] then s.(producer := Closed(None))
    else
      match s.events[0]
      case ReadFailed => s.(producer := Closed(Some(ReadInput)))
      case Cancelled => s.(producer := Closed(Some(CompressionError.Interrupted)))
      case Chunk(bytes) =>
        if bytes == [] then s.(producer := Closed(None))
        else if s.count + |bytes| > U64_MAX then s.(producer := Overflowed)
        else s.(events := s.events[1..], count := s.count + |bytes|, producer := Sending(bytes), read :=
          s.read + [bytes])
  }

  predicate Valid<S>(job: Job<S>, s: State<S>, schedule: seq<Move>)
    decreases |schedule|
  {
    schedule == [] || (Enabled(s, schedule[0]) && Valid(job, Next(job, s, schedule[0]), schedule[1..]))
  }

  function Run<S>(job: Job<S>, s: State<S>, schedule: seq<Move>): State<S>
    requires Valid(job, s, schedule)
    decreases |schedule|
  {
    if schedule == [] then s else Run(job, Next(job, s, schedule[0]), schedule[1..])
  }

  /** The chunks the reader yields before it ends, fails or is cancelled. */
  function Chunks(events: seq<Event>): seq<Bytes>
    decreases |events|
  {
    if events == [] || !events[0].Chunk? || events[0].bytes == [] then []
    else [events[0].bytes] + Chunks(events[1..])
  }

  /** How reading ends: `None` at the end of the input. */
  function Ending(events: seq<Event>): Option<CompressionError>
    decreases |events|
  {
    if events == [] then None
    else
      match events[0]
      case ReadFailed => Some(ReadInput)
      case Cancelled => Some(CompressionError.Interrupted)
      case Chunk(bytes) => if bytes == [] then None else Ending(events[1..])
  }

  function Reason(failure: Failure): CompressionError {
    match failure
    case WriteFailed => EncodeFailed
    case WorkerPanicked => EncoderTaskFailed
  }

  predicate Countable<S>(s: State<S>) {
    !s.producer.Overflowed? && s.worker.Stopped? && s.worker.result.Ok? ==> |s.worker.result.value.accepted| <= U64_MAX
  }

  /** The value `compress` returns; an encoder failure outranks whatever stopped the reader. */
  function Outcome<S>(s: State<S>): Result<CompressionMetrics, CompressionError>
    requires s.Returned() && Countable(s)
  {
    if s.producer.Overflowed? then Err(InputTooLarge)
    else
      match s.worker.result
      case Err(failure) => Err(Reason(failure))
      case Ok(output) =>
        if s.producer.stopped.Some? then Err(s.producer.stopped.value)
        else Ok(CompressionMetrics(s.count, |output.accepted|, Digest(s.worker.hashed), Digest(output.accepted)))
  }

  /** The schedule-free meaning of a job whose input can be counted. */
  function Expected<S>(job: Job<S>): Result<Output, CompressionError> {
    match Encode(job.encoder, job.opens, job.script, Chunks(job.events))
    case Err(failure) => Err(Reason(failure))
    case Ok(output) => if Ending(job.events).Some? then Err(Ending(job.events).value) else Ok(output)
  }

  lemma ConcatSnoc(chunks: seq<Bytes>, last: Bytes)
    ensures Concat(chunks + [last]) == Concat(chunks) + last
  {
    assert (chunks + [last])[..|chunks|] == chunks;
  }

  lemma {:induction false} ConcatPrefix(chunks: seq<Bytes>, more: seq<Bytes>)
    ensures |Concat(chunks + more)| >= |Concat(chunks)|
    decreases |more|
  {
    if more == [] {
      assert chunks + more == chunks;
    } else {
      ConcatPrefix(chunks, more[..|more| - 1]);
      assert (chunks + more)[..|chunks + more| - 1] == chunks + more[..|more| - 1];
    }
  }

  function Pending<S>(s: State<S>): seq<Bytes> {
    if s.producer.Sending? then [s.producer.chunk] else []
  }

  /** The reader is on course: what it read and what is to come make up the job's input. */
  ghost predicate ReaderOk<S>(job: Job<S>, s: State<S>) {
    && s.count == |Concat(s.read)|
    && match s.producer
       case Reading => Chunks(job.events) == s.read + Chunks(s.events) && Ending(job.events) == Ending(s.events)
       case Sending(_) => Chunks(job.events) == s.read + Chunks(s.events) && Ending(job.events) == Ending(s.events)
       case Closed(stopped) =>
         if stopped == Some(EncoderStopped) then s.worker.Stopped? && s.worker.result.Err?
         else Chunks(job.events) == s.read && Ending(job.events) == stopped
       case Overflowed => |Concat(Chunks(job.events))| > U64_MAX
  }

  /** The encoder is on course: it has received a prefix of what was read, in order and without loss. */
  ghost predicate WorkerOk<S>(job: Job<S>, s: State<S>) {
    match s.worker
    case Starting => s.received == [] && s.read == s.queue + Pending(s)
    case Running(task) =>
      && s.read == s.received + s.queue + Pending(s)
      && Encoding(job.encoder, job.opens, job.script, s.received) == Ok(task)
    case Stopped(result, hashed) =>
      s.producer.Overflowed? ||
      (match result
       case Err(failure) => Encode(job.encoder, job.opens, job.script, Chunks(job.events)) == Err(failure)
       case Ok(output) =>
         && s.producer.Closed? && s.read == Chunks(job.events) && hashed == Concat(s.read)
         && Encode(job.encoder, job.opens, job.script, s.read) == Ok(output))
  }

  ghost predicate Inv<S>(job: Job<S>, s: State<S>) {
    |s.queue| <= BUFFERED_CHUNKS && ReaderOk(job, s) && WorkerOk(job, s)
  }

  lemma ReadKeeps<S>(job: Job<S>, s: State<S>)
    requires Inv(job, s) && s.producer.Reading?
    ensures Inv(job, Reads(s))
  {
    hide Encoding, Encode, Concat;
    if s.events != [] && s.events[0].Chunk? && s.events[0].bytes != [] {
      var bytes, rest := s.events[0].bytes, Chunks(s.events[1..]);
      ConcatSnoc(s.read, bytes);
      assert s.read + ([bytes] + rest) == (s.read + [bytes]) + rest;
      ConcatPrefix(s.read + [bytes], rest);
    }
  }

  /**
   Reading ends at the end of the input, by a failed read or by cancellation; the other errors are the
   pipeline's own.
   */
  lemma {:induction false} EndingIsTheReaders(events: seq<Event>)
    ensures Ending(events) in {None, Some(ReadInput), Some(CompressionError.Interrupted)}
    decreases |events|
  {
    if events == [] || !events[0].Chunk? || events[0].bytes == [] {
    } else {
      EndingIsTheReaders(events[1..]);
    }
  }

  lemma ReceiveKeeps<S>(job: Job<S>, s: State<S>)
    requires Inv(job, s) && Enabled(s, Receive)
    ensures Inv(job, Next(job, s, Receive))
  {
    hide Concat, Deliver, Ending;
    var chunk, more := s.queue[0], s.received + [s.queue[0]];
    assert more[..|s.received|] == s.received;
    assert s.received + s.queue + Pending(s) == more + s.queue[1..] + Pending(s);
    if Consume(job.encoder, s.worker.task, chunk).Err? && !s.producer.Overflowed? {
      EndingIsTheReaders(job.events);
      var all := Chunks(job.events);
      assert more <= s.read <= all;
      FailurePersists(job.encoder, job.opens, job.script, more, all[|more|..]);
      assert more + all[|more|..] == all;
    }
  }

  lemma DrainKeeps<S>(job: Job<S>, s: State<S>)
    requires Inv(job, s) && Enabled(s, Drain)
    ensures Inv(job, Next(job, s, Drain))
  {
    assert s.received + s.queue + Pending(s) == s.received;
    EncodingIsExact(job.encoder, job.opens, job.script, s.received);
    EndingIsTheReaders(job.events);
  }

  lemma {:induction false} NeverOpens<S>(job: Job<S>, chunks: seq<Bytes>)
    requires !job.opens
    ensures Encoding(job.encoder, job.opens, job.script, chunks) == Err(WriteFailed)
  {
  }

  lemma MoveKeeps<S>(job: Job<S>, s: State<S>, m: Move)
    requires Inv(job, s) && Enabled(s, m)
    ensures Inv(job, Next(job, s, m))
  {
    match m
    case Open => if !job.opens { NeverOpens(job, Chunks(job.events)); }
      assert s.received + s.queue == s.queue;
    case Read => ReadKeeps(job, s);
    case Send => assert s.received + (s.queue + Pending(s)) + [] == s.received + s.queue + Pending(s);
    case Receive => ReceiveKeeps(job, s);
    case Drain => DrainKeeps(job, s);
  }

  lemma {:induction false} RunKeeps<S>(job: Job<S>, s: State<S>, schedule: seq<Move>)
    requires Inv(job, s) && Valid(job, s, schedule)
    ensures Inv(job, Run(job, s, schedule))
    decreases |schedule|
  {
    if schedule == [] {
    } else {
      MoveKeeps(job, s, schedule[0]);
      RunKeeps(job, Next(job, s, schedule[0]), schedule[1..]);
    }
  }

  lemma StartIsFine<S>(job: Job<S>)
    ensures Inv(job, Start(job))
  {
    assert Start(job).read + Chunks(job.events) == Chunks(job.events);
  }

  lemma StoppedIsCountable<S>(job: Job<S>, s: State<S>)
    requires Inv(job, s)
    ensures Countable(s)
  {
    if s.worker.Stopped? && s.worker.result.Ok? && !s.producer.Overflowed? {
      EncodeIsExact(job.encoder, job.opens, job.script, s.read);
    }
  }

  /**
   Schedules do not matter: however the two sides interleave, a countable input yields the outcome
   fixed by the job, and a success reports the exact input and exactly the bytes the output took.
   */
  lemma EverySchedulesOutcome<S>(job: Job<S>, schedule: seq<Move>)
    requires |Concat(Chunks(job.events))| <= U64_MAX
    requires Valid(job, Start(job), schedule) && Run(job, Start(job), schedule).Returned()
    ensures var end := Run(job, Start(job), schedule);
            && Countable(end)
            && match Expected(job)
               case Err(error) => Outcome(end) == Err(error)
               case Ok(output) =>
                 && Outcome(end).Ok?
                 && end.worker.result == Ok(output)
                 && var metrics := Outcome(end).value;
                    && metrics.inputBytes == |Concat(Chunks(job.events))|
                    && metrics.inputSha256 == Digest(Concat(Chunks(job.events)))
                    && metrics.compressedBytes == |output.accepted|
                    && metrics.compressedSha256 == Digest(output.accepted)
  {
    StartIsFine(job);
    RunKeeps(job, Start(job), schedule);
    StoppedIsCountable(job, Run(job, Start(job), schedule));
  }

  /**
   `compress` succeeds exactly when the reader reached the end of a countable input and the encoder
   succeeded on all of it; an input too large to count never looks like a success.
   */
  lemma SucceedsExactlyWhen<S>(job: Job<S>, schedule: seq<Move>)
    requires Valid(job, Start(job), schedule) && Run(job, Start(job), schedule).Returned()
    ensures var end := Run(job, Start(job), schedule);
            && Countable(end)
            && (Outcome(end).Ok? <==>
                  && Ending(job.events).None?
                  && |Concat(Chunks(job.events))| <= U64_MAX
                  && Encode(job.encoder, job.opens, job.script, Chunks(job.events)).Ok?)
            && Outcome(end) != Err(EncoderStopped)
            && (Outcome(end) == Err(InputTooLarge) ==> |Concat(Chunks(job.events))| > U64_MAX)
  {
    StartIsFine(job);
    RunKeeps(job, Start(job), schedule);
    StoppedIsCountable(job, Run(job, Start(job), schedule));
    EndingIsTheReaders(job.events);
  }

  /** The metrics of a success satisfy what publication asks of them. */
  lemma MetricsDescribe<S(!new)>(codec: Codec, job: Job<S>, schedule: seq<Move>)
    requires Sound(codec, job.encoder)
    requires Valid(job, Start(job), schedule)
    requires var end := Run(job, Start(job), schedule);
             end.Returned() && Countable(end) && Outcome(end).Ok?
    ensures var end := Run(job, Start(job), schedule);
            Describes(codec, Outcome(end).value, Concat(Chunks(job.events)), end.worker.result.value.accepted)
  {
    SucceedsExactlyWhen(job, schedule);
    EverySchedulesOutcome(job, schedule);
    EncodeIsExact(job.encoder, job.opens, job.script, Chunks(job.events));
  }

  /** The channel cannot deadlock: until `compress` returns, one side can always move. */
  lemma AlwaysAMove<S>(s: State<S>)
    requires !s.Returned()
    ensures exists m :: Enabled(s, m)
  {
    if s.worker.Starting? {
      assert Enabled(s, Open);
    } else if s.producer.Reading? {
      assert Enabled(s, Read);
    } else if s.worker.Stopped? {
      assert Enabled(s, Send);
    } else if s.queue != [] {
      assert Enabled(s, Receive);
    } else if s.producer.Closed? {
      assert Enabled(s, Drain);
    } else {
      assert Enabled(s, Send);
    }
  }

  /** An upper bound on the moves left. */
  function Work<S>(s: State<S>): nat {
    4 * |s.events| + |s.queue|
    + (match s.producer case Reading => 1 case Sending(_) => 3 case _ => 0)
    + (match s.worker case Starting => 2 case Running(_) => 1 case Stopped(_, _) => 0)
  }

  /** Every schedule is finite: four moves a chunk and three more at most. */
  lemma {:induction false} ScheduleIsBounded<S>(job: Job<S>, s: State<S>, schedule: seq<Move>)
    requires Valid(job, s, schedule)
    ensures |schedule| + Work(Run(job, s, schedule)) <= Work(s)
    decreases |schedule|
  {
    if schedule == [] {
    } else {
      ScheduleIsBounded(job, Next(job, s, schedule[0]), schedule[1..]);
    }
  }
}
