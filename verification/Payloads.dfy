/** Payload sources, the registry that resolves their handles, and the streaming transfer. */
module Payloads {
  import opened Basics
  import opened Validation
  import opened Digest
  import opened Handles
  import opened Transfers
  import Base64Url

  // ---- The world a transfer runs against ----

  /** A caller's stream: it answers its `i`-th read by a script, and counts reads and closes. */
  class ByteStream {
    const script: ReadScript
    var readCount: nat
    var closeCount: nat

    constructor (script: ReadScript)
      ensures this.script == script && readCount == 0 && closeCount == 0
    {
      this.script := script;
      readCount := 0;
      closeCount := 0;
    }

    method Read(size: int) returns (r: ReadReply)
      modifies this`readCount
      ensures r == script(old(readCount), size) && readCount == old(readCount) + 1
    {
      r := script(readCount, size);
      readCount := readCount + 1;
    }

    method Close()
      modifies this`closeCount
      ensures closeCount == old(closeCount) + 1
    {
      closeCount := closeCount + 1;
    }
  }

  class Sink {
    const script: WriteScript
    var writeCount: nat
    var content: seq<byte>

    constructor (script: WriteScript)
      ensures this.script == script && writeCount == 0 && content == []
    {
      this.script := script;
      writeCount := 0;
      content := [];
    }

    method Write(data: seq<byte>) returns (r: WriteReply)
      modifies this
      ensures r == script(old(writeCount)) && writeCount == old(writeCount) + 1
      ensures content == old(content) + Accepted(r, data)
    {
      r := script(writeCount);
      content := content + Accepted(r, data);
      writeCount := writeCount + 1;
    }
  }

  /** What a factory makes of its `i`-th call. */
  datatype FactoryReply = Opens(script: ReadScript) | NotStream | Raises

  // ---- Sources ----

  /** The latch of a source: a one-shot source gives out a stream only while unused. */
  predicate Grants(replayable: bool, used: bool) {
    replayable || !used
  }

  /** One caller-owned stream, handed out once and never closed. */
  class StreamSource {
    const stream: ByteStream
    var consumed: bool

    constructor (stream: ByteStream)
      ensures this.stream == stream && !consumed
    {
      this.stream := stream;
      consumed := false;
    }

    method Open() returns (r: Result<ByteStream, Failed>)
      modifies this
      ensures consumed
      ensures r == if Grants(false, old(consumed)) then Success(stream) else Failure(Unavailable)
    {
      if consumed {
        return Failure(Unavailable);
      }
      consumed := true;
      return Success(stream);
    }
  }

  /** A factory of fresh streams; each is closed by whoever used it. */
  class FactorySource {
    const make: nat -> FactoryReply
    const replayable: bool
    var used: bool
    var calls: nat

    constructor (make: nat -> FactoryReply, replayable: bool)
      ensures this.make == make && this.replayable == replayable && !used && calls == 0
    {
      this.make := make;
      this.replayable := replayable;
      used := false;
      calls := 0;
    }

    method Open() returns (r: Result<ByteStream, Failed>)
      modifies this
      ensures used
      ensures calls == old(calls) + if Grants(replayable, old(used)) then 1 else 0
      ensures r.Failure? ==> r == Failure(FactoryFailure(replayable, old(used), make(old(calls))))
      ensures r.Success? <==> Grants(replayable, old(used)) && make(old(calls)).Opens?
      ensures r.Success? ==>
                && fresh(r.value) && r.value.script == make(old(calls)).script
                && r.value.readCount == 0 && r.value.closeCount == 0
    {
      if !replayable && used {
        return Failure(Unavailable);
      }
      used := true;
      var reply := make(calls);
      calls := calls + 1;
      match reply
      case Opens(script) =>
        var stream := new ByteStream(script);
        return Success(stream);
      case NotStream => return Failure(NotAStream);
      case Raises => return Failure(FactoryRaised);
    }
  }

  function FactoryFailure(replayable: bool, used: bool, reply: FactoryReply): Failed {
    if !Grants(replayable, used) then Unavailable
    else if reply.NotStream? then NotAStream
    else FactoryRaised
  }

  datatype Source = FromStream(s: StreamSource) | FromFactory(f: FactorySource)

  predicate IsReplayable(source: Source) {
    source.FromFactory? && source.f.replayable
  }

  // ---- The registry ----

  /** The reference names a registered source and claims its replayability as it is: a factory's own, and none
      for a caller's stream. */
  ghost predicate IsGoodHandle(sources: map<string, Source>, reference: PayloadReference) {
    && reference.token in sources
    && match sources[reference.token]
       case FromStream(_) => !reference.replayable
       case FromFactory(f) => reference.replayable == f.replayable
  }

  datatype Lookup<S> = Found(source: S, remaining: map<string, S>) | Missing | Mismatched

  /** The critical section of `open`: find the source, check the claimed replayability, and take a
      one-shot source out. */
  function LookUp<S>(sources: map<string, S>, isReplayable: S -> bool, token: string, claimed: bool): Lookup<S> {
    if token !in sources then Missing
    else if isReplayable(sources[token]) != claimed then Mismatched
    else Found(sources[token], if claimed then sources else sources - {token})
  }

  function Remaining<S>(sources: map<string, S>, found: Lookup<S>): map<string, S> {
    if found.Found? then found.remaining else sources
  }

  /** A stream in use; `close` says whether leaving the `with` block closes it. */
  datatype Opened = Opened(stream: ByteStream, close: bool)

  class PayloadRegistry {
    var sources: map<string, Source>

    constructor ()
      ensures sources == map[]
    {
      sources := map[];
    }

    /** The heap objects that opening `token` may touch. */
    ghost function Footprint(token: string): set<object>
      reads this
    {
      if token !in sources then {}
      else
        match sources[token]
        case FromStream(s) => {s, s.stream}
        case FromFactory(f) => {f}
    }

    /** Files a source under a freshly minted token; ill-formed expectations are refused first. */
    method Register(source: Source, random: seq<byte>, expectedLength: Option<int>, expectedDigest: Option<string>)
      returns (r: Option<PayloadReference>)
      requires |random| == Base64Url.TOKEN_BYTES
      modifies this
      ensures r.Some? <==>
                && (expectedLength.Some? ==> expectedLength.value >= 0)
                && (expectedDigest.Some? ==> IsDigest(expectedDigest.value))
      ensures r.Some? ==>
                && IsPayload(r.value)
                && r.value == PayloadReference(Base64Url.MintToken(random), expectedLength, expectedDigest,
                                               IsReplayable(source))
                && r.value.replayable == (source.FromFactory? && source.f.replayable)
                && sources == old(sources)[r.value.token := source]
      ensures r.None? ==> sources == old(sources)
    {
      Base64Url.MintedTokenIsAToken(random);
      var reference := PayloadReference(Base64Url.MintToken(random), expectedLength, expectedDigest,
                                        IsReplayable(source));
      if !IsPayload(reference) {
        return None;
      }
      sources := sources[reference.token := source];
      return Some(reference);
    }

    method Release(token: string) returns (r: Option<bool>)
      modifies this
      ensures r == if !IsToken(token) then None else Some(token in old(sources))
      ensures sources == if IsToken(token) then old(sources) - {token} else old(sources)
    {
      if !IsToken(token) {
        return None;
      }
      r := Some(token in sources);
      sources := sources - {token};
    }

    /** What opening a handle gives: the replies still to come and the index of the next one, or why
        there are none. */
    ghost function Attempt(reference: PayloadReference): Result<(ReadScript, nat), Failed>
      reads this, Footprint(reference.token)
    {
      var found := LookUp(sources, IsReplayable, reference.token, reference.replayable);
      if !found.Found? then Failure(Unavailable)
      else
        match found.source
        case FromStream(s) =>
          if s.consumed then Failure(Unavailable) else Success((s.stream.script, s.stream.readCount))
        case FromFactory(f) =>
          if Grants(f.replayable, f.used) && f.make(f.calls).Opens? then Success((f.make(f.calls).script, 0))
          else Failure(FactoryFailure(f.replayable, f.used, f.make(f.calls)))
    }

    /** `open`: the registry's critical section, then the source's. A one-shot source is spent either way. */
    method Open(reference: PayloadReference) returns (r: Result<Opened, Failed>)
      modifies this, Footprint(reference.token)
      ensures sources ==
                if IsGoodHandle(old(sources), reference) && !reference.replayable then old(sources) - {reference.token}
                else old(sources)
      ensures !IsGoodHandle(old(sources), reference) ==>
                r == Failure(Unavailable) && forall o :: o in old(Footprint(reference.token)) ==> unchanged(o)
      ensures IsGoodHandle(old(sources), reference) ==>
                match old(sources)[reference.token]
                case FromStream(s) =>
                  && s.consumed && unchanged(s.stream)
                  && r == if old(s.consumed) then Failure(Unavailable) else Success(Opened(s.stream, false))
                case FromFactory(f) =>
                  && f.used && f.calls == old(f.calls) + (if f.replayable || !old(f.used) then 1 else 0)
                  && (!f.replayable && old(f.used) ==> r == Failure(Unavailable))
                  && (f.replayable || !old(f.used) ==>
                        match f.make(old(f.calls))
                        case Opens(script) =>
                          && r.Success? && r.value.close && fresh(r.value.stream)
                          && r.value.stream.script == script && r.value.stream.closeCount == 0
                        case NotStream => r == Failure(NotAStream)
                        case Raises => r == Failure(FactoryRaised))
      ensures var attempt := old(Attempt(reference));
              && (attempt.Failure? ==> r == Failure(attempt.error))
              && (attempt.Success? ==>
                    && r.Success?
                    && r.value.stream.script == attempt.value.0 && r.value.stream.readCount == attempt.value.1)
    {
      var found := LookUp(sources, IsReplayable, reference.token, reference.replayable);
      sources := Remaining(sources, found);
      if !found.Found? {
        return Failure(Unavailable);
      }
      match found.source
      case FromStream(s) =>
        var stream := s.Open();
        r := if stream.Failure? then Failure(stream.error) else Success(Opened(stream.value, false));
      case FromFactory(f) =>
        var stream := f.Open();
        r := if stream.Failure? then Failure(stream.error) else Success(Opened(stream.value, true));
    }
  }

  // ---- The transfer loop ----

  predicate IsLegalSize(size: int) {
    0 < size <= MAX_CHUNK_SIZE
  }

  /** One step of `iter_payload_chunks`: the next well-formed chunk, or why there is none. */
  method NextChunk(stream: ByteStream, size: int, ghost t: Run, ghost n: nat) returns (r: Result<seq<byte>, Halt>)
    requires t.read == stream.script && t.size == size && stream.readCount == t.firstRead + n
    modifies stream`readCount
    ensures stream.readCount == t.firstRead + n + 1
    ensures r.Failure? ==> Exit(t, n) == Some(r.error) && !WroteLast(r.error)
    ensures r.Success? ==> t.Reply(n) == Data(r.value) && t.Chunk(n) == r.value && 0 < |r.value| <= size
  {
    var reply := stream.Read(size);
    match reply
    case ReadFault => return Failure(ReadRaised);
    case NotBytes => return Failure(NotBinary);
    case Data(chunk) =>
      if chunk == [] {
        return Failure(EndOfStream);
      }
      if |chunk| > size {
        return Failure(Oversized);
      }
      return Success(chunk);
  }

  /** Polls for cancellation, then hands the chunk to the sink. */
  method Deliver(sink: Sink, chunk: seq<byte>, cancelled: Option<nat -> bool>, ghost t: Run, n: nat)
    returns (r: Option<Halt>)
    requires t.write == sink.script && sink.writeCount == t.firstWrite + n && t.cancelled == cancelled
    requires t.Reply(n) == Data(chunk) && 0 < |chunk| <= t.size
    modifies sink
    ensures r.Some? ==> Exit(t, n) == r && r.value != TooLong
    ensures r.Some? ==>
              sink.content == old(sink.content) + (if WroteLast(r.value) then Accepted(t.Answer(n), chunk) else [])
    ensures r.None? ==> !t.Cancels(n) && IsComplete(t.Answer(n), chunk)
    ensures r.None? ==> sink.content == old(sink.content) + chunk && sink.writeCount == t.firstWrite + n + 1
  {
    if cancelled.Some? && cancelled.value(n) {
      return Some(Cancelled);
    }
    var written := sink.Write(chunk);
    if written.WriteFault? {
      return Some(SinkRaised);
    }
    if written.Count? && written.n != |chunk| {
      return Some(ShortWrite);
    }
    return None;
  }

  /** One pass of the loop up to the write: the chunk the sink took, or the exit taken. */
  method Step(stream: ByteStream, sink: Sink, size: int, cancelled: Option<nat -> bool>, ghost t: Run, n: nat)
    returns (r: Result<seq<byte>, Halt>)
    requires t.read == stream.script && t.size == size && stream.readCount == t.firstRead + n
    requires t.write == sink.script && sink.writeCount == t.firstWrite + n && t.cancelled == cancelled
    modifies stream`readCount, sink
    ensures stream.readCount == t.firstRead + n + 1
    ensures r.Failure? ==>
              && Exit(t, n) == Some(r.error) && r.error != TooLong
              && sink.content ==
                   old(sink.content) + (if WroteLast(r.error) then Accepted(t.Answer(n), t.Chunk(n)) else [])
    ensures r.Success? ==>
              && t.Chunk(n) == r.value && t.Received(n + 1) == t.Received(n) + r.value
              && Accepted(t.Answer(n), r.value) == r.value
              && Exit(t, n) ==
                   (if t.declared.Some? && |t.Received(n + 1)| > t.declared.value then Some(TooLong) else None)
              && sink.content == old(sink.content) + r.value && sink.writeCount == t.firstWrite + n + 1
  {
    var next := NextChunk(stream, size, t, n);
    if next.Failure? {
      return Failure(next.error);
    }
    var refused := Deliver(sink, next.value, cancelled, t, n);
    if refused.Some? {
      return Failure(refused.value);
    }
    return Success(next.value);
  }

  lemma GainAtExit(t: Run, n: nat, was: seq<byte>)
    requires Exit(t, n).Some?
    ensures was + SinkGain(t, n)
            == was + t.Received(n) + if WroteLast(Exit(t, n).value) then Accepted(t.Answer(n), t.Chunk(n)) else []
  {
  }

  lemma Regroup(was: seq<byte>, a: seq<byte>, b: seq<byte>)
    ensures was + (a + b) == was + a + b
  {
  }

  lemma LeavesOnlyAtStop(t: Run, k: nat, stop: nat)
    requires HaltsAt(t, stop) && k <= stop
    ensures Exit(t, k).Some? <==> k == stop
  {
  }

  /** The body of the `with` block: reads, polls, writes, hashes, and counts, until iteration `stop`, the
      one at which run `t` leaves. */
  method Pump(stream: ByteStream, sink: Sink, h: Hash, size: int, declared: Option<int>, cancelled: Option<nat -> bool>,
              ghost t: Run, ghost stop: nat)
    returns (r: Result<(int, nat), Halt>)
    requires t.read == stream.script && t.firstRead == stream.readCount && t.size == size
    requires t.write == sink.script && t.firstWrite == sink.writeCount
    requires t.cancelled == cancelled && t.declared == declared
    requires HaltsAt(t, stop)
    modifies stream`readCount, sink
    ensures stream.readCount == old(stream.readCount) + stop + 1
    ensures sink.content == old(sink.content) + SinkGain(t, stop)
    ensures r == if Exit(t, stop).value == EndOfStream
                 then Success((Absorb(h, h.init, t.Received(stop)), |t.Received(stop)|))
                 else Failure(Exit(t, stop).value)
  {
    var state, length: nat := h.init, 0;
    var k: nat := 0;
    while true
      invariant k <= stop
      invariant stream.readCount == t.firstRead + k && sink.writeCount == t.firstWrite + k
      invariant sink.content == old(sink.content) + t.Received(k)
      invariant state == Absorb(h, h.init, t.Received(k)) && length == |t.Received(k)|
      decreases stop - k
    {
      LeavesOnlyAtStop(t, k, stop);
      if k == stop { GainAtExit(t, k, old(sink.content)); }
      var step := Step(stream, sink, size, cancelled, t, k);
      if step.Failure? {
        if step.error == EndOfStream {
          return Success((state, length));
        }
        return Failure(step.error);
      }
      var chunk := step.value;
      Regroup(old(sink.content), t.Received(k), chunk);
      AbsorbConcat(h, h.init, t.Received(k), chunk);
      state := Absorb(h, state, chunk);
      length := length + |chunk|;
      if declared.Some? && length > declared.value {
        return Failure(TooLong);
      }
      k := k + 1;
    }
  }

  // ---- `transfer_payload` ----

  /** The `with` block: the chunk size is checked on the first step of the reader, after the handle was
      opened. */
  method Drain(stream: ByteStream, sink: Sink, h: Hash, size: int, declared: Option<int>,
               cancelled: Option<nat -> bool>,
               ghost t: Run, ghost stop: nat)
    returns (r: Result<(int, nat), Failed>)
    requires t == Run(stream.script, stream.readCount, sink.script, sink.writeCount, cancelled, size, declared)
    requires IsLegalSize(size) ==> HaltsAt(t, stop)
    modifies stream`readCount, sink
    ensures !IsLegalSize(size) ==>
              && r == Failure(if size <= 0 then BadChunkSize else UnsafeChunkSize)
              && unchanged(sink) && unchanged(stream)
    ensures IsLegalSize(size) ==>
              && stream.readCount == old(stream.readCount) + stop + 1
              && sink.content == old(sink.content) + SinkGain(t, stop)
              && r == if Exit(t, stop).value == EndOfStream
                      then Success((Absorb(h, h.init, t.Received(stop)), |t.Received(stop)|))
                      else Failure(Stopped(Exit(t, stop).value))
  {
    if size <= 0 {
      return Failure(BadChunkSize);
    }
    if size > MAX_CHUNK_SIZE {
      return Failure(UnsafeChunkSize);
    }
    var pumped := Pump(stream, sink, h, size, declared, cancelled, t, stop);
    r := if pumped.Success? then Success(pumped.value) else Failure(Stopped(pumped.error));
  }

  /** The rest of a transfer once the handle is open: drain, close what was opened, check what was declared. */
  method Conclude(handle: Opened, reference: PayloadReference, sink: Sink, h: Hash, size: int,
                  cancelled: Option<nat -> bool>, ghost t: Run, ghost stop: nat)
    returns (r: Result<ContentIdentity, Failed>)
    requires t == Run(handle.stream.script, handle.stream.readCount, sink.script, sink.writeCount, cancelled, size,
                      reference.expectedLength)
    requires IsLegalSize(size) ==> HaltsAt(t, stop)
    modifies handle.stream, sink
    ensures handle.stream.closeCount == old(handle.stream.closeCount) + if handle.close then 1 else 0
    ensures !IsLegalSize(size) ==>
              r == Failure(if size <= 0 then BadChunkSize else UnsafeChunkSize) && unchanged(sink)
    ensures IsLegalSize(size) ==>
              r == Verdict(t, stop, h, reference.expectedDigest)
                && sink.content == old(sink.content) + SinkGain(t, stop)
  {
    var drained := Drain(handle.stream, sink, h, size, reference.expectedLength, cancelled, t, stop);
    if handle.close {
      handle.stream.Close();
    }
    if drained.Failure? {
      return Failure(drained.error);
    }
    var (state, length) := drained.value;
    if reference.expectedLength.Some? && length != reference.expectedLength.value {
      return Failure(Incomplete);
    }
    var observed := Render(h, state);
    if reference.expectedDigest.Some? && observed != reference.expectedDigest.value {
      return Failure(Mismatch);
    }
    return Success(ContentIdentity(observed, length));
  }

  /** What a transfer of run `t` comes to: its verdict, and what the sink gained. */
  ghost predicate Transferred(t: Run, h: Hash, expectedDigest: Option<string>, was: seq<byte>, now: seq<byte>,
                              r: Result<ContentIdentity, Failed>)
  {
    && (exists n: nat :: HaltsAt(t, n) && r == Verdict(t, n, h, expectedDigest) && now == was + SinkGain(t, n))
    && (r.Success? <==> YieldsSome(t, h, expectedDigest))
    && (r.Failure? ==> RunFails(t, h, expectedDigest, r.error))
    && (r.Success? ==>
        exists data :: Yields(t, h, expectedDigest, data) && r.value == IdentityOf(h, data) && now == was + data)
  }

  /** A first poll that says yes, on a stream that gives something: nothing reaches the sink, and no success. */
  ghost predicate CancelledAtOnce(t: Run) {
    t.cancelled.Some? && t.cancelled.value(0) && t.read(t.firstRead, t.size) != Data([])
  }

  lemma RunIsTransferred(t: Run, n: nat, h: Hash, expectedDigest: Option<string>, was: seq<byte>)
    requires HaltsAt(t, n)
    ensures Transferred(t, h, expectedDigest, was, was + SinkGain(t, n), Verdict(t, n, h, expectedDigest))
    ensures CancelledAtOnce(t) ==> Verdict(t, n, h, expectedDigest).Failure? && was + SinkGain(t, n) == was
  {
    SucceedsExactly(t, n, h, expectedDigest);
    if CancelledAtOnce(t) { NothingIsWrittenWhenCancelled(t, n, 0); }
  }

  /** Opens the handle, drains the stream into the sink, closes what it opened, and checks the declared
      length and digest. It returns exactly when the run it meets halts. `ended` is the stream it used. */
  method Transfer(reference: PayloadReference, registry: PayloadRegistry, sink: Sink, h: Hash, size: int,
                  cancelled: Option<nat -> bool>)
    returns (r: Result<ContentIdentity, Failed>, ghost ended: ByteStream?)
    requires var attempt := registry.Attempt(reference);
             attempt.Success? && 0 < size <= 16 * 1024 * 1024 ==>
               Halts(Run(attempt.value.0, attempt.value.1, sink.script, sink.writeCount, cancelled, size,
                         reference.expectedLength))
    modifies registry, registry.Footprint(reference.token), sink
    ensures registry.sources ==
              if IsGoodHandle(old(registry.sources), reference) && !reference.replayable
              then old(registry.sources) - {reference.token} else old(registry.sources)
    ensures !IsGoodHandle(old(registry.sources), reference) ==>
              && r == Failure(Unavailable) && ended == null && unchanged(sink)
              && forall o :: o in old(registry.Footprint(reference.token)) ==> unchanged(o)
    ensures IsGoodHandle(old(registry.sources), reference) ==>
              match old(registry.sources)[reference.token]
              case FromStream(s) =>
                s.consumed && (ended != null ==> ended == s.stream && ended.closeCount == old(ended.closeCount))
              case FromFactory(f) => f.used && (ended != null ==> fresh(ended) && ended.closeCount == 1)
    ensures var attempt := old(registry.Attempt(reference));
            && (ended != null <==> attempt.Success?)
            && (attempt.Failure? ==> r == Failure(attempt.error) && unchanged(sink))
            && (attempt.Success? && size <= 0 ==> r == Failure(BadChunkSize) && unchanged(sink))
            && (attempt.Success? && size > 16 * 1024 * 1024 ==> r == Failure(UnsafeChunkSize) && unchanged(sink))
            && (attempt.Success? && 0 < size <= 16 * 1024 * 1024 ==>
                  var t := Run(attempt.value.0, attempt.value.1, sink.script, old(sink.writeCount), cancelled, size,
                               reference.expectedLength);
                  && Transferred(t, h, reference.expectedDigest, old(sink.content), sink.content, r)
                  && (cancelled.Some? && cancelled.value(0) && attempt.value.0(attempt.value.1, size) != Data([]) ==>
                        r.Failure? && sink.content == old(sink.content)))
  {
    ghost var attempt := registry.Attempt(reference);
    ghost var t :=
      if attempt.Success? then
        Run(attempt.value.0, attempt.value.1, sink.script, sink.writeCount, cancelled, size, reference.expectedLength)
      else Run((_, _) => NotBytes, 0, sink.script, 0, None, size, None);
    ghost var stop: nat := 0;
    if attempt.Success? && IsLegalSize(size) {
      stop :| HaltsAt(t, stop);
      RunIsTransferred(t, stop, h, reference.expectedDigest, sink.content);
    }
    var opening := registry.Open(reference);
    ended := null;
    if opening.Failure? {
      return Failure(opening.error), ended;
    }
    ended := opening.value.stream;
    r := Conclude(opening.value, reference, sink, h, size, cancelled, t, stop);
  }
}
