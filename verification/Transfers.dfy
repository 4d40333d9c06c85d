/** One streaming transfer seen as a run: what the stream, the sink, and the canceller answer, step by step. */
module Transfers {
  import opened Basics
  import opened Digest

  const MAX_CHUNK_SIZE := 16 * 1024 * 1024

  /** An answer to `read(size)`: bytes (none at the end of the stream), something else, or an exception. */
  datatype ReadReply = Data(bytes: seq<byte>) | NotBytes | ReadFault

  /** An answer to `write(data)`: nothing or the whole length after taking all of it, some other count
      after taking that much, or an exception after taking a prefix. */
  datatype WriteReply = Silent | Whole | Count(n: nat) | WriteFault(accepted: nat)

  type ReadScript = (nat, int) -> ReadReply
  type WriteScript = nat -> WriteReply

  /** What a transfer meets. Reply `i` of the stream is `read(firstRead + i, size)`. */
  datatype Run = Run(
    read: ReadScript,
    firstRead: nat,
    write: WriteScript,
    firstWrite: nat,
    cancelled: Option<nat -> bool>,
    size: int,
    declared: Option<int>)
  {
    function Reply(i: nat): ReadReply { read(firstRead + i, size) }

    function Chunk(i: nat): seq<byte> {
      if Reply(i).Data? then Reply(i).bytes else []
    }

    function Answer(i: nat): WriteReply { write(firstWrite + i) }

    predicate Cancels(i: nat) { cancelled.Some? && cancelled.value(i) }

    /** The bytes of the first `n` chunks. */
    function Received(n: nat): seq<byte> {
      if n == 0 then [] else Received(n - 1) + Chunk(n - 1)
    }
  }

  /** The bytes the sink keeps of a chunk it answered so. */
  function Accepted(reply: WriteReply, data: seq<byte>): (r: seq<byte>)
    ensures r <= data
  {
    match reply
    case Silent => data
    case Whole => data
    case Count(n) => if n < |data| then data[..n] else data
    case WriteFault(n) => if n < |data| then data[..n] else data
  }

  predicate IsComplete(reply: WriteReply, data: seq<byte>) {
    reply.Silent? || reply.Whole? || (reply.Count? && reply.n == |data|)
  }

  // ---- One iteration ----

  /** Why the loop leaves its body. */
  datatype Halt = EndOfStream | NotBinary | ReadRaised | Oversized | Cancelled | SinkRaised | ShortWrite | TooLong

  /** The exit taken by iteration `i`, if it takes one. */
  function Exit(t: Run, i: nat): Option<Halt> {
    match t.Reply(i)
    case ReadFault => Some(ReadRaised)
    case NotBytes => Some(NotBinary)
    case Data(bytes) =>
      if bytes == [] then Some(EndOfStream)
      else if |bytes| > t.size then Some(Oversized)
      else if t.Cancels(i) then Some(Cancelled)
      else if t.Answer(i).WriteFault? then Some(SinkRaised)
      else if !IsComplete(t.Answer(i), bytes) then Some(ShortWrite)
      else if t.declared.Some? && |t.Received(i + 1)| > t.declared.value then Some(TooLong)
      else None
  }

  ghost predicate RunsTo(t: Run, n: nat) {
    forall i :: 0 <= i < n ==> Exit(t, i).None?
  }

  /** The loop leaves at iteration `n`. */
  ghost predicate HaltsAt(t: Run, n: nat) {
    RunsTo(t, n) && Exit(t, n).Some?
  }

  /** The loop leaves at all; otherwise the transfer never returns. */
  ghost predicate Halts(t: Run) {
    exists n: nat :: HaltsAt(t, n)
  }

  lemma HaltsOnce(t: Run, m: nat, n: nat)
    requires HaltsAt(t, m) && HaltsAt(t, n)
    ensures m == n
  {
    assert m < n ==> Exit(t, m).None?;
    assert n < m ==> Exit(t, n).None?;
  }

  // ---- Length ----

  lemma {:induction false} ReceivedGrows(t: Run, n: nat)
    requires RunsTo(t, n)
    ensures n <= |t.Received(n)|
    ensures t.declared.Some? && n > 0 ==> |t.Received(n)| <= t.declared.value
  {
    if n > 0 {
      ReceivedGrows(t, n - 1);
      assert Exit(t, n - 1).None?;
    }
  }

  /** With a declared length L the loop leaves within L + 1 iterations, whatever the stream does: even a
      stream that never ends yields at most L + 1 non-empty chunks. */
  lemma DeclaredLengthHalts(t: Run)
    requires t.declared.Some? && t.declared.value >= 0
    ensures exists n: nat :: HaltsAt(t, n) && n <= t.declared.value
  {
    var bound := t.declared.value;
    if RunsTo(t, bound + 1) {
      ReceivedGrows(t, bound + 1);
    } else {
      var i :| 0 <= i < bound + 1 && Exit(t, i).Some?;
      FirstExit(t, i);
    }
  }

  lemma {:induction false} FirstExit(t: Run, i: nat)
    requires Exit(t, i).Some?
    ensures exists n: nat :: HaltsAt(t, n) && n <= i
  {
    if RunsTo(t, i) {
      assert HaltsAt(t, i);
    } else {
      var j :| 0 <= j < i && Exit(t, j).Some?;
      FirstExit(t, j);
      var n: nat :| HaltsAt(t, n) && n <= j;
      assert HaltsAt(t, n) && n <= i;
    }
  }

  /** Answer `i` of the stream is a well-formed chunk that is delivered whole, with no cancellation. */
  predicate GoesOn(t: Run, i: nat) {
    t.Reply(i).Data? && 0 < |t.Chunk(i)| <= t.size && !t.Cancels(i) && IsComplete(t.Answer(i), t.Chunk(i))
  }

  /** A run returns exactly when a length is declared or, sooner or later, an iteration does not go on: the
      stream ends or misbehaves, the transfer is cancelled, or the sink fails. */
  lemma HaltsExactly(t: Run)
    requires t.declared.Some? ==> t.declared.value >= 0
    ensures Halts(t) <==> t.declared.Some? || exists i: nat :: !GoesOn(t, i)
  {
    if t.declared.Some? {
      DeclaredLengthHalts(t);
    } else {
      if i: nat :| !GoesOn(t, i) {
        FirstExit(t, i);
      }
      if n: nat :| HaltsAt(t, n) {
        assert !GoesOn(t, n);
      }
    }
  }

  /** For one, a stream of zero bytes that never ends, taken whole one byte at a time. */
  lemma EndlessWitness()
    ensures var t := Run((_, _) => Data([0]), 0, _ => Whole, 0, None, 1, None);
            (forall i: nat :: GoesOn(t, i)) && !Halts(t)
  {
    HaltsExactly(Run((_, _) => Data([0]), 0, _ => Whole, 0, None, 1, None));
  }

  // ---- What the sink gains ----

  /** The chunk of the last iteration reached the sink before the loop left. */
  predicate WroteLast(h: Halt) {
    h == SinkRaised || h == ShortWrite || h == TooLong
  }

  function SinkGain(t: Run, n: nat): seq<byte>
    requires Exit(t, n).Some?
  {
    t.Received(n) + if WroteLast(Exit(t, n).value) then Accepted(t.Answer(n), t.Chunk(n)) else []
  }

  /** On every exit the sink has gained a prefix of what the stream delivered; every chunk written is at
      most the requested size; and with a declared length L it gained at most L plus one chunk. */
  lemma GainIsBoundedPrefix(t: Run, n: nat)
    requires HaltsAt(t, n)
    ensures SinkGain(t, n) <= t.Received(n + 1)
    ensures forall i :: 0 <= i < n || (i == n && WroteLast(Exit(t, n).value)) ==> 0 < |t.Chunk(i)| <= t.size
    ensures t.declared.Some? && t.declared.value >= 0 && t.size >= 0 ==> |SinkGain(t, n)| <= t.declared.value + t.size
  {
    ReceivedGrows(t, n);
    forall i | 0 <= i < n || (i == n && WroteLast(Exit(t, n).value)) ensures 0 < |t.Chunk(i)| <= t.size {
      assert i < n ==> Exit(t, i).None?;
    }
    assert Accepted(t.Answer(n), t.Chunk(n)) <= t.Chunk(n);
  }

  // ---- The verdict ----

  datatype Failed =
    | Unavailable
    | NotAStream
    | FactoryRaised
    | BadChunkSize
    | UnsafeChunkSize
    | Stopped(why: Halt)
    | Incomplete
    | Mismatch

  /** What `transfer_payload` makes of a run that left at iteration `n`. */
  function Verdict(t: Run, n: nat, h: Hash, expectedDigest: Option<string>): Result<ContentIdentity, Failed>
    requires Exit(t, n).Some?
  {
    if Exit(t, n).value != EndOfStream then Failure(Stopped(Exit(t, n).value))
    else if t.declared.Some? && |t.Received(n)| != t.declared.value then Failure(Incomplete)
    else if expectedDigest.Some? && DigestOf(h, t.Received(n)) != expectedDigest.value then Failure(Mismatch)
    else Success(IdentityOf(h, t.Received(n)))
  }

  /** The stream ends after `n` well-formed chunks, each written completely, with no cancellation. */
  ghost predicate IsClean(t: Run, n: nat) {
    t.Reply(n) == Data([]) && forall i :: 0 <= i < n ==> GoesOn(t, i)
  }

  lemma {:induction false} ReceivedIsMonotone(t: Run, m: nat, n: nat)
    requires m <= n
    ensures |t.Received(m)| <= |t.Received(n)|
    decreases n
  {
    if m < n {
      ReceivedIsMonotone(t, m, n - 1);
    }
  }

  lemma CleanRunsEnd(t: Run, n: nat)
    requires IsClean(t, n) && (t.declared.Some? ==> |t.Received(n)| <= t.declared.value)
    ensures HaltsAt(t, n) && Exit(t, n) == Some(EndOfStream)
  {
    forall i | 0 <= i < n ensures Exit(t, i).None? {
      ReceivedIsMonotone(t, i + 1, n);
      assert GoesOn(t, i);
      assert t.Chunk(i) == t.Reply(i).bytes;
    }
  }

  lemma EndedRunsAreClean(t: Run, n: nat)
    requires HaltsAt(t, n) && Exit(t, n) == Some(EndOfStream)
    ensures IsClean(t, n) && SinkGain(t, n) == t.Received(n)
  {
    forall i | 0 <= i < n ensures GoesOn(t, i) {
      assert Exit(t, i).None?;
    }
  }

  ghost predicate Meets(data: seq<byte>, declared: Option<int>, h: Hash, expectedDigest: Option<string>) {
    (declared.Some? ==> |data| == declared.value)
      && (expectedDigest.Some? ==> DigestOf(h, data) == expectedDigest.value)
  }

  /** The run's stream ends cleanly after exactly `data`, which meets the declared length and digest. */
  ghost predicate Yields(t: Run, h: Hash, expectedDigest: Option<string>, data: seq<byte>) {
    Meets(data, t.declared, h, expectedDigest) && exists k: nat :: IsClean(t, k) && t.Received(k) == data
  }

  ghost predicate YieldsSome(t: Run, h: Hash, expectedDigest: Option<string>) {
    exists data :: Yields(t, h, expectedDigest, data)
  }

  ghost predicate RunFails(t: Run, h: Hash, expectedDigest: Option<string>, error: Failed) {
    exists n: nat :: HaltsAt(t, n) && Verdict(t, n, h, expectedDigest) == Failure(error)
  }

  lemma YieldingRunsEnd(t: Run, h: Hash, expectedDigest: Option<string>, data: seq<byte>) returns (k: nat)
    requires Yields(t, h, expectedDigest, data)
    ensures IsClean(t, k) && t.Received(k) == data && HaltsAt(t, k) && Exit(t, k) == Some(EndOfStream)
  {
    k :| IsClean(t, k) && t.Received(k) == data;
    CleanRunsEnd(t, k);
  }

  lemma CleanOnce(t: Run, m: nat, n: nat)
    requires IsClean(t, m) && IsClean(t, n)
    ensures m == n
  {
    assert m < n ==> GoesOn(t, m);
    assert n < m ==> GoesOn(t, n);
  }

  lemma YieldsOnce(t: Run, h: Hash, expectedDigest: Option<string>, n: nat, data: seq<byte>)
    requires IsClean(t, n) && Yields(t, h, expectedDigest, data)
    ensures data == t.Received(n)
  {
    var m := YieldingRunsEnd(t, h, expectedDigest, data);
    CleanOnce(t, m, n);
  }

  /** A run succeeds exactly when its stream ends cleanly on bytes that meet the declared length and
      digest; the sink has then gained exactly those bytes, and the identity is theirs. */
  lemma SucceedsExactly(t: Run, n: nat, h: Hash, expectedDigest: Option<string>)
    requires HaltsAt(t, n)
    ensures Verdict(t, n, h, expectedDigest).Success? <==> YieldsSome(t, h, expectedDigest)
    ensures Verdict(t, n, h, expectedDigest).Success? ==>
              && Yields(t, h, expectedDigest, t.Received(n)) && SinkGain(t, n) == t.Received(n)
              && Verdict(t, n, h, expectedDigest) == Success(IdentityOf(h, t.Received(n)))
  {
    if Verdict(t, n, h, expectedDigest).Success? {
      EndedRunsAreClean(t, n);
      assert Yields(t, h, expectedDigest, t.Received(n));
    }
    if data :| Yields(t, h, expectedDigest, data) {
      var k := YieldingRunsEnd(t, h, expectedDigest, data);
      HaltsOnce(t, k, n);
    }
  }

  // ---- The verdict, spelled out over what the stream, the sink, and the canceller answer ----

  /** The stream gives these chunks and then ends; every poll before a write says no; and the sink answers
      every write with nothing or with the whole length. */
  ghost predicate Served(t: Run, chunks: seq<seq<byte>>) {
    && t.read(t.firstRead + |chunks|, t.size) == Data([])
    && forall i :: 0 <= i < |chunks| ==>
         && t.read(t.firstRead + i, t.size) == Data(chunks[i]) && 0 < |chunks[i]| <= t.size
         && (t.cancelled.Some? ==> !t.cancelled.value(i))
         && t.write(t.firstWrite + i) in {Silent, Whole, Count(|chunks[i]|)}
  }

  lemma {:induction false} FlattenSnoc(chunks: seq<seq<byte>>, last: seq<byte>)
    ensures Flatten(chunks + [last]) == Flatten(chunks) + last
  {
    if chunks == [] {
      assert [] + [last] == [last] && Flatten([last]) == last + Flatten([]);
    } else {
      FlattenSnoc(chunks[1..], last);
      assert (chunks + [last])[1..] == chunks[1..] + [last];
    }
  }

  lemma {:induction false} ReceivedIsFlattened(t: Run, chunks: seq<seq<byte>>)
    requires forall i :: 0 <= i < |chunks| ==> t.read(t.firstRead + i, t.size) == Data(chunks[i])
    ensures t.Received(|chunks|) == Flatten(chunks)
  {
    if chunks != [] {
      var n := |chunks| - 1;
      ReceivedIsFlattened(t, chunks[..n]);
      FlattenSnoc(chunks[..n], chunks[n]);
      assert chunks == chunks[..n] + [chunks[n]];
      assert t.Chunk(n) == chunks[n];
    }
  }

  lemma ServedIsClean(t: Run, chunks: seq<seq<byte>>)
    requires Served(t, chunks)
    ensures IsClean(t, |chunks|) && t.Received(|chunks|) == Flatten(chunks)
  {
    forall i | 0 <= i < |chunks| ensures GoesOn(t, i) {
      assert t.read(t.firstRead + i, t.size) == Data(chunks[i]);
    }
    ReceivedIsFlattened(t, chunks);
  }

  lemma CleanIsServed(t: Run, n: nat) returns (chunks: seq<seq<byte>>)
    requires IsClean(t, n)
    ensures |chunks| == n && Served(t, chunks) && t.Received(n) == Flatten(chunks)
  {
    chunks := seq(n, i requires 0 <= i < n => t.Chunk(i));
    forall i | 0 <= i < n
      ensures t.read(t.firstRead + i, t.size) == Data(chunks[i]) && 0 < |chunks[i]| <= t.size
      ensures t.cancelled.Some? ==> !t.cancelled.value(i)
      ensures t.write(t.firstWrite + i) in {Silent, Whole, Count(|chunks[i]|)}
    {
      assert GoesOn(t, i);
    }
    ReceivedIsFlattened(t, chunks);
  }

  /** A run delivers `data` exactly when they are served so, and have the declared length and digest. */
  lemma YieldsExactly(t: Run, h: Hash, expectedDigest: Option<string>, data: seq<byte>)
    ensures Yields(t, h, expectedDigest, data) <==>
              && (exists chunks :: Served(t, chunks) && Flatten(chunks) == data)
              && (t.declared.Some? ==> t.declared.value == |data|)
              && (expectedDigest.Some? ==> expectedDigest.value == DigestOf(h, data))
  {
    if Yields(t, h, expectedDigest, data) {
      var k: nat :| IsClean(t, k) && t.Received(k) == data;
      var chunks := CleanIsServed(t, k);
      assert Served(t, chunks) && Flatten(chunks) == data;
    }
    if chunks :| Served(t, chunks) && Flatten(chunks) == data {
      ServedIsClean(t, chunks);
    }
  }

  /** The chunks are served, and have the declared length and digest. */
  ghost predicate Completes(t: Run, h: Hash, expectedDigest: Option<string>, chunks: seq<seq<byte>>) {
    && Served(t, chunks)
    && (t.declared.Some? ==> t.declared.value == |Flatten(chunks)|)
    && (expectedDigest.Some? ==> expectedDigest.value == DigestOf(h, Flatten(chunks)))
  }

  lemma CompletedRunYields(t: Run, h: Hash, expectedDigest: Option<string>, chunks: seq<seq<byte>>)
    requires Completes(t, h, expectedDigest, chunks)
    ensures YieldsSome(t, h, expectedDigest)
  {
    YieldsExactly(t, h, expectedDigest, Flatten(chunks));
  }

  /** A transfer returns normally exactly when its stream is served so; its identity and what the sink gained
      are then those of the chunks in order. */
  lemma SucceedsWhenServed(t: Run, n: nat, h: Hash, expectedDigest: Option<string>)
    requires HaltsAt(t, n)
    ensures Verdict(t, n, h, expectedDigest).Success? <==> exists chunks :: Completes(t, h, expectedDigest, chunks)
    ensures Verdict(t, n, h, expectedDigest).Success? ==>
              exists chunks ::
                && Completes(t, h, expectedDigest, chunks) && SinkGain(t, n) == Flatten(chunks)
                && Verdict(t, n, h, expectedDigest)
                   == Success(ContentIdentity(DigestOf(h, Flatten(chunks)), |Flatten(chunks)|))
  {
    SucceedsExactly(t, n, h, expectedDigest);
    if Verdict(t, n, h, expectedDigest).Success? {
      EndedRunsAreClean(t, n);
      var chunks := CleanIsServed(t, n);
      assert Completes(t, h, expectedDigest, chunks) && SinkGain(t, n) == Flatten(chunks);
    }
    if chunks :| Completes(t, h, expectedDigest, chunks) {
      CompletedRunYields(t, h, expectedDigest, chunks);
    }
  }

  /** A poll that says yes stops the run at that very chunk, before it is written, and the transfer fails. */
  lemma CancellationStops(t: Run, n: nat, i: nat, h: Hash, expectedDigest: Option<string>)
    requires HaltsAt(t, n) && i <= n && t.cancelled.Some? && t.cancelled.value(i)
    requires t.read(t.firstRead + i, t.size).Data? && 0 < |t.read(t.firstRead + i, t.size).bytes| <= t.size
    ensures i == n && Exit(t, n) == Some(Cancelled)
    ensures Verdict(t, n, h, expectedDigest) == Failure(Stopped(Cancelled)) && SinkGain(t, n) == t.Received(n)
  {
    assert i < n ==> Exit(t, i).None?;
    assert t.Received(n) + [] == t.Received(n);
  }

  /** Whatever the stream gives at a poll that says yes, nothing of it reaches the sink. */
  lemma NothingIsWrittenWhenCancelled(t: Run, n: nat, i: nat)
    requires HaltsAt(t, n) && i <= n && t.cancelled.Some? && t.cancelled.value(i)
    ensures i == n && SinkGain(t, n) == t.Received(n)
    ensures t.read(t.firstRead + i, t.size) != Data([]) ==> Exit(t, n) != Some(EndOfStream)
  {
    assert i < n ==> Exit(t, i).None?;
    assert t.Received(n) + [] == t.Received(n);
  }

  /** A write answered with another count stops the run there, and the sink keeps what it took. */
  lemma ShortWriteStops(t: Run, n: nat, i: nat, chunk: seq<byte>, taken: nat, h: Hash, expectedDigest: Option<string>)
    requires HaltsAt(t, n) && i <= n
    requires t.read(t.firstRead + i, t.size) == Data(chunk) && 0 < |chunk| <= t.size
    requires t.cancelled.Some? ==> !t.cancelled.value(i)
    requires t.write(t.firstWrite + i) == Count(taken) && taken != |chunk|
    ensures i == n && Verdict(t, n, h, expectedDigest) == Failure(Stopped(ShortWrite))
    ensures SinkGain(t, n) == t.Received(n) + if taken < |chunk| then chunk[..taken] else chunk
  {
    assert i < n ==> Exit(t, i).None?;
  }

  /** Neither the chunk size nor the pattern of short reads shows: two successful transfers of the same
      bytes give the same identity and the same sink contents, and it is the identity of any other split. */
  lemma IdentityForgetsChunks(s: Run, m: nat, t: Run, n: nat, h: Hash, a: Option<string>, b: Option<string>,
                              split: seq<seq<byte>>)
    requires HaltsAt(s, m) && HaltsAt(t, n)
    requires Verdict(s, m, h, a).Success? && Verdict(t, n, h, b).Success?
    requires s.Received(m) == t.Received(n) == Flatten(split)
    ensures Verdict(s, m, h, a) == Verdict(t, n, h, b)
            == Success(ContentIdentity(Render(h, AbsorbAll(h, h.init, split)), |Flatten(split)|))
    ensures SinkGain(s, m) == SinkGain(t, n) == Flatten(split)
  {
    SucceedsExactly(s, m, h, a);
    SucceedsExactly(t, n, h, b);
    SplitDoesNotMatter(h, split, split);
  }

  // ---- In-memory streams and sinks ----

  /** An in-memory stream over `data`: read `k` of size `s` gives the `k`-th slice of that size. */
  function BytesIO(data: seq<byte>): ReadScript {
    (k: nat, size: int) => Data(SliceAt(data, k, size))
  }

  function SliceAt(data: seq<byte>, k: nat, size: int): seq<byte>
    decreases k
  {
    if size <= 0 || data == [] then []
    else if |data| <= size then (if k == 0 then data else [])
    else if k == 0 then data[..size]
    else SliceAt(data[size..], k - 1, size)
  }

  /** A sink that takes every chunk whole, as an in-memory one does. */
  ghost predicate TakesAll(write: WriteScript) {
    forall i: nat :: write(i) == Whole
  }

  /** From reply `from` on, the run is served the slices of `data`. */
  ghost predicate Serves(t: Run, from: nat, data: seq<byte>) {
    forall j: nat :: j >= from ==> t.Chunk(j) == SliceAt(data, j - from, t.size)
  }

  lemma ServesRest(t: Run, from: nat, data: seq<byte>)
    requires t.size > 0 && Serves(t, from, data)
    ensures |data| > t.size ==> t.Chunk(from) == data[..t.size] && Serves(t, from + 1, data[t.size..])
    ensures 0 < |data| <= t.size ==> t.Chunk(from) == data && t.Chunk(from + 1) == []
    ensures data == [] ==> t.Chunk(from) == []
  {
  }

  /** Reading an in-memory stream piece by piece reassembles its data. */
  lemma {:induction false} SlicesReassemble(t: Run, from: nat, data: seq<byte>) returns (last: nat)
    requires t.size > 0 && Serves(t, from, data)
    ensures last >= from && t.Received(last) == t.Received(from) + data && t.Chunk(last) == []
    ensures forall i :: from <= i < last ==> 0 < |t.Chunk(i)| <= t.size
    decreases |data|
  {
    ServesRest(t, from, data);
    if data == [] {
      last := from;
      assert t.Received(from) + data == t.Received(from);
    } else if |data| <= t.size {
      last := from + 1;
    } else {
      last := SlicesReassemble(t, from + 1, data[t.size..]);
      Rejoin(t.Received(from), data, t.size);
    }
  }

  lemma Rejoin(was: seq<byte>, data: seq<byte>, size: int)
    requires 0 <= size <= |data|
    ensures was + data[..size] + data[size..] == was + data
  {
    assert data[..size] + data[size..] == data;
  }

  lemma ServesFromStart(t: Run, data: seq<byte>)
    requires t.firstRead == 0 && t.read == BytesIO(data)
    ensures Serves(t, 0, data)
    ensures forall j: nat :: t.Reply(j).Data?
  {
  }

  /** An undisturbed transfer of an in-memory stream, in chunks of any size, receives exactly its data. */
  lemma InMemoryRunIsClean(t: Run, data: seq<byte>)
    requires t.size > 0 && t.firstRead == 0 && t.read == BytesIO(data)
    requires TakesAll(t.write) && t.cancelled.None?
    ensures exists n: nat :: IsClean(t, n) && t.Received(n) == data
  {
    ServesFromStart(t, data);
    var n := SlicesReassemble(t, 0, data);
    assert t.Received(0) + data == data;
    assert IsClean(t, n);
  }

  /** What a transfer of in-memory `data` that does not meet its declarations is refused for: too many
      bytes, too few, or else their digest. */
  function Blame(data: seq<byte>, declared: Option<int>): Failed {
    if declared.Some? && |data| > declared.value then Stopped(TooLong)
    else if declared.Some? && |data| < declared.value then Incomplete
    else Mismatch
  }

  lemma CleanStreamsFailInTheEnd(t: Run, n: nat, k: nat, h: Hash, expectedDigest: Option<string>)
    requires IsClean(t, n) && HaltsAt(t, k) && Verdict(t, k, h, expectedDigest).Failure?
    requires t.declared.Some? ==> t.declared.value >= 0
    ensures Verdict(t, k, h, expectedDigest) == Failure(Blame(t.Received(n), t.declared))
  {
    if t.declared.Some? && |t.Received(n)| > t.declared.value {
      if k < n {
        assert GoesOn(t, k);
      } else {
        LongRunsStop(t, n);
      }
    } else {
      CleanRunsEnd(t, n);
      HaltsOnce(t, n, k);
    }
  }

  /** A run that receives more than was declared stops before the end of its stream. */
  lemma LongRunsStop(t: Run, n: nat)
    requires t.declared.Some? && t.declared.value >= 0 && |t.Received(n)| > t.declared.value
    ensures !RunsTo(t, n)
  {
    if RunsTo(t, n) {
      ReceivedGrows(t, n);
    }
  }

  /** Such a transfer ends, and succeeds exactly when the data meet what was declared; then with that data. */
  lemma InMemoryRunOutcome(t: Run, data: seq<byte>, h: Hash, expectedDigest: Option<string>)
    requires t.size > 0 && t.firstRead == 0 && t.read == BytesIO(data)
    requires TakesAll(t.write) && t.cancelled.None? && (t.declared.Some? ==> t.declared.value >= 0)
    ensures Halts(t)
    ensures YieldsSome(t, h, expectedDigest) <==> Meets(data, t.declared, h, expectedDigest)
    ensures forall other :: Yields(t, h, expectedDigest, other) ==> other == data
    ensures forall error :: RunFails(t, h, expectedDigest, error) ==> error == Blame(data, t.declared)
  {
    InMemoryRunIsClean(t, data);
    var n: nat :| IsClean(t, n) && t.Received(n) == data;
    forall error | RunFails(t, h, expectedDigest, error) ensures error == Blame(data, t.declared) {
      var k: nat :| HaltsAt(t, k) && Verdict(t, k, h, expectedDigest) == Failure(error);
      CleanStreamsFailInTheEnd(t, n, k, h, expectedDigest);
    }
    forall other | Yields(t, h, expectedDigest, other) ensures other == data {
      YieldsOnce(t, h, expectedDigest, n, other);
    }
    if t.declared.Some? {
      DeclaredLengthHalts(t);
    } else {
      CleanRunsEnd(t, n);
    }
    assert Meets(data, t.declared, h, expectedDigest) ==> Yields(t, h, expectedDigest, data);
  }
}
