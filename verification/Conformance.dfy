/** The exchanges of the conformance suite between a caller and the target, for every expression, object,
    payload, and chunk size. */
module Conformance {
  import opened Basics
  import opened Core
  import opened Handles
  import opened Ranges
  import opened Digest
  import opened Requests
  import opened Catalog
  import opened Transfers
  import opened Payloads
  import opened MemoryTarget
  import Base64Url
  import Meaning
  import Ordering
  import Provider
  import Store
  import Validation

  datatype ExchangeError = Refused(why: NormalizeError) | NotExecuted(reason: TargetError)

  /** The request a data-method expression makes, if it normalizes. */
  ghost function RequestOf(p: Platform, e: Expression): (r: Option<Request>)
    requires WellFormed(Obj(e.arguments))
    ensures r.Some? <==> e.verb in DATA_METHODS && Normalized(p, e).Success?
  {
    if e.verb in DATA_METHODS && Normalized(p, e).Success? then
      NormalizedExecutes(p, e);
      RequestFromFields(p, e.verb, e.arguments, Normalized(p, e).value.resource)
    else None
  }

  /** The operation makes this request of the target, or none that it can execute. */
  ghost predicate Asks(p: Platform, op: Operation, verb: string, request: Option<Request>) {
    && MethodOf(op.contract) == verb && (verb in DATA_METHODS <==> request.Some?)
    && (request.Some? ==> Executable(p, verb, op, request.value))
  }

  /** The expression normalizes to `op` and makes `request`. */
  ghost predicate Makes(p: Platform, e: Expression, op: Result<Operation, NormalizeError>, request: Option<Request>) {
    WellFormed(Obj(e.arguments)) && Normalized(p, e) == op && RequestOf(p, e) == request
  }

  lemma OperationAsks(p: Platform, e: Expression, op: Result<Operation, NormalizeError>, request: Option<Request>)
    requires Makes(p, e, op, request) && op.Success?
    ensures Asks(p, op.value, e.verb, request)
  {
    assert Normalized(p, e) == op;
    if e.verb in DATA_METHODS {
      NormalizedExecutes(p, e);
    } else {
      ContractNamesMethod(e.verb);
    }
  }

  /** Normalizing changes nothing that was there before. */
  method NormalizeBeside(p: Platform, e: Expression, payloads: PayloadRegistry, ghost bystanders: set<object>)
    returns (r: Result<Operation, NormalizeError>)
    requires WellFormed(Obj(e.arguments))
    ensures r == Normalized(p, e)
    ensures unchanged(payloads) && unchanged(bystanders)
  {
    r := Provider.Normalize(p, e);
  }

  /** The first half of an exchange: opening a handle gives what it gave before. */
  method NormalizeFirst(p: Platform, e: Expression, payloads: PayloadRegistry, ghost reference: PayloadReference)
    returns (r: Result<Operation, NormalizeError>)
    requires WellFormed(Obj(e.arguments))
    ensures r == Normalized(p, e)
    ensures payloads.Attempt(reference) == old(payloads.Attempt(reference))
  {
    r := NormalizeBeside(p, e, payloads, payloads.Footprint(reference.token));
  }

  /** The handle a put names; for every other request, some handle. */
  function HandleOf(request: Option<Request>): PayloadReference {
    if request.Some? && request.value.Put? then request.value.payload else PayloadReference("", None, None, false)
  }

  /** What comes back for an operation of `verb`: the answer its request means, or a refusal. */
  ghost predicate Replies(h: Hash, before: World, after: World, random: seq<byte>, verb: string,
                          request: Option<Request>,
                          resource: ResourceRef, attempt: Attempted, r: Result<Reply, TargetError>)
    requires |random| == Base64Url.TOKEN_BYTES
  {
    if request.None? then r == Failure(CannotExecute) && after == before
    else Answers(h, before, after, random, verb, request.value, resource, attempt, r)
  }

  /** The sources and streams a request may touch: those of the handle a put names. */
  ghost function TouchedBy(payloads: PayloadRegistry, request: Option<Request>): set<object>
    reads payloads
  {
    if request.Some? && request.value.Put? then payloads.Footprint(request.value.payload.token) else {}
  }

  /** What a caller gets for the outcome `op` of normalization. */
  ghost predicate Exchanged(h: Hash, before: World, after: World, random: seq<byte>, verb: string,
                            op: Result<Operation, NormalizeError>, request: Option<Request>, attempt: Attempted,
                            r: Result<Reply, ExchangeError>)
    requires |random| == Base64Url.TOKEN_BYTES
  {
    match op
    case Failure(error) => r == Failure(Refused(error)) && after == before
    case Success(op) =>
      && (r.Failure? ==> r.error.NotExecuted?)
      && Replies(h, before, after, random, verb, request, op.resource, attempt, Answer(r))
  }

  method RunOperation(target: MemoryObjectTarget, payloads: PayloadRegistry, op: Result<Operation, NormalizeError>,
                      random: seq<byte>, ghost verb: string, ghost request: Option<Request>, ghost attempt: Attempted)
    returns (r: Result<Reply, ExchangeError>)
    requires target.Valid() && |random| == Base64Url.TOKEN_BYTES
    requires op.Success? ==> Asks(target.p, op.value, verb, request)
    requires op.Success? && request.Some? ==> target.Ready(payloads, request.value, op.value.resource, attempt)
    modifies target, payloads, TouchedBy(payloads, request)
    ensures target.Valid()
    ensures Exchanged(target.h, World(old(target.Model()), old(payloads.sources)),
                      World(target.Model(), payloads.sources), random, verb, op, request, attempt, r)
    ensures Issues(Answer(r)) ==> fresh(payloads.Footprint(Base64Url.MintToken(random)))
  {
    if op.Failure? {
      return Failure(Refused(op.error));
    }
    ghost var made := if request.Some? then request.value else Request.List("", 0);
    var reply := target.Execute(op.value, payloads, random, made, attempt);
    r := if reply.Success? then Success(reply.value) else Failure(NotExecuted(reply.error));
  }

  /** `_execute`: normalizes the expression and executes the operation. Every accepted data-method expression
      gets the answer its method means; everything else is refused and changes nothing. */
  method Exchange(target: MemoryObjectTarget, payloads: PayloadRegistry, e: Expression, random: seq<byte>,
                  ghost op: Result<Operation, NormalizeError>, ghost request: Option<Request>, ghost attempt: Attempted)
    returns (r: Result<Reply, ExchangeError>)
    requires target.Valid() && |random| == Base64Url.TOKEN_BYTES && Makes(target.p, e, op, request)
    requires request.Some? ==> op.Success? && target.Ready(payloads, request.value, op.value.resource, attempt)
    modifies target, payloads, TouchedBy(payloads, request)
    ensures target.Valid()
    ensures Exchanged(target.h, World(old(target.Model()), old(payloads.sources)),
                      World(target.Model(), payloads.sources), random, e.verb, op, request, attempt, r)
    ensures Issues(Answer(r)) ==> fresh(payloads.Footprint(Base64Url.MintToken(random)))
  {
    var normalized := NormalizeFirst(target.p, e, payloads, HandleOf(request));
    if op.Success? { OperationAsks(target.p, e, op, request); }
    r := RunOperation(target, payloads, normalized, random, e.verb, request, attempt);
  }

  /** The target's answer inside the caller's. */
  function Answer(r: Result<Reply, ExchangeError>): Result<Reply, TargetError> {
    match r
    case Success(reply) => Success(reply)
    case Failure(NotExecuted(reason)) => Failure(reason)
    case Failure(Refused(_)) => Failure(CannotExecute)
  }

  // ---- What each exchange comes to ----

  lemma VerbTellsRequest(p: Platform, op: Operation, verb: string, request: Option<Request>)
    requires Asks(p, op, verb, request)
    ensures verb == "put" ==> request.Some? && request.value.Put?
    ensures verb == "get" ==> request.Some? && request.value.Read?
    ensures verb == "read_range" ==> request.Some? && request.value.ReadRange? && ValidRange(request.value.range)
  {
  }

  lemma MakesRequest(p: Platform, e: Expression, op: Result<Operation, NormalizeError>, request: Option<Request>)
    requires Makes(p, e, op, request) && op.Success?
    ensures e.verb == "put" ==> request.Some? && request.value.Put? && IsPayload(request.value.payload)
    ensures e.verb == "get" ==> request.Some? && request.value.Read?
    ensures e.verb == "read_range" ==> request.Some? && request.value.ReadRange? && ValidRange(request.value.range)
  {
    OperationAsks(p, e, op, request);
    VerbTellsRequest(p, op.value, e.verb, request);
  }

  lemma RefusedMakesNothing(p: Platform, e: Expression, op: Result<Operation, NormalizeError>, request: Option<Request>)
    requires Makes(p, e, op, request) && op.Failure?
    ensures request.None?
  {
    assert Normalized(p, e) == op;
  }

  lemma PutExchanged(h: Hash, before: World, after: World, random: seq<byte>, verb: string,
                     op: Result<Operation, NormalizeError>, request: Option<Request>, attempt: Attempted,
                     r: Result<Reply, ExchangeError>)
    requires |random| == Base64Url.TOKEN_BYTES && op.Success? && request.Some? && request.value.Put?
    requires Exchanged(h, before, after, random, verb, op, request, attempt, r)
    ensures AnswersPut(h, before, after, request.value, op.value.resource, attempt, Answer(r))
  {
  }

  lemma GetExchanged(h: Hash, before: World, after: World, random: seq<byte>, verb: string,
                     op: Result<Operation, NormalizeError>, request: Option<Request>, attempt: Attempted,
                     r: Result<Reply, ExchangeError>)
    requires |random| == Base64Url.TOKEN_BYTES && op.Success? && request.Some? && request.value.Read? && verb == "get"
    requires Exchanged(h, before, after, random, verb, op, request, attempt, r)
    ensures AnswersGet(h, before, after, random, TargetOf(request.value), op.value.resource, Answer(r))
  {
  }

  lemma RangeExchanged(h: Hash, before: World, after: World, random: seq<byte>, verb: string,
                       op: Result<Operation, NormalizeError>, request: Option<Request>, attempt: Attempted,
                       r: Result<Reply, ExchangeError>)
    requires |random| == Base64Url.TOKEN_BYTES && op.Success? && request.Some? && request.value.ReadRange?
    requires Exchanged(h, before, after, random, verb, op, request, attempt, r)
    ensures AnswersRange(h, before, after, random, request.value.range, TargetOf(request.value), op.value.resource,
                         Answer(r))
  {
  }

  lemma ReadersKeepObjects(h: Hash, before: World, after: World, random: seq<byte>, verb: string, request: Request,
                           resource: ResourceRef, attempt: Attempted, r: Result<Reply, TargetError>)
    requires |random| == Base64Url.TOKEN_BYTES && !request.Put? && !request.Delete?
    requires Answers(h, before, after, random, verb, request, resource, attempt, r)
    ensures after.model == before.model
  {
  }

  lemma ReadOnlyIsNoWriter(p: Platform, e: Expression, op: Result<Operation, NormalizeError>, request: Option<Request>)
    requires Makes(p, e, op, request) && op.Success? && op.value.readOnly && request.Some?
    ensures !request.value.Put? && !request.value.Delete?
  {
    OperationAsks(p, e, op, request);
    ReadOnlyVerb(p, e);
    ReadersAreNoWriters(p, op.value, e.verb, request.value);
  }

  lemma ReadOnlyVerb(p: Platform, e: Expression)
    requires Normalized(p, e).Success? && Normalized(p, e).value.readOnly && e.verb in DATA_METHODS
    ensures e.verb != "put" && e.verb != "delete"
  {
    Meaning.NormalizesExactly(p, e);
    Meaning.DataOperation(p, e.verb, e.arguments);
    Meaning.ReadOnlyMethods(e.verb);
  }

  lemma ReadersAreNoWriters(p: Platform, op: Operation, verb: string, request: Request)
    requires verb != "put" && verb != "delete" && Executable(p, verb, op, request)
    ensures !request.Put? && !request.Delete?
  {
  }

  /** Exchanging an expression whose operation is read-only leaves the plain map as it was. */
  lemma ReadOnlyChangesNothing(p: Platform, e: Expression, op: Result<Operation, NormalizeError>,
                               request: Option<Request>,
                               h: Hash, before: World, after: World, random: seq<byte>, attempt: Attempted,
                               r: Result<Reply, ExchangeError>)
    requires |random| == Base64Url.TOKEN_BYTES && Makes(p, e, op, request) && op.Success? && op.value.readOnly
    requires Exchanged(h, before, after, random, e.verb, op, request, attempt, r)
    ensures after.model == before.model
  {
    if request.Some? {
      ReadOnlyIsNoWriter(p, e, op, request);
      ReadersKeepObjects(h, before, after, random, e.verb, request.value, op.value.resource, attempt, Answer(r));
    }
  }

  // ---- Transfers of what came back ----

  /** Transferring a replayable in-memory handle, in chunks of any legal size and any number of times,
      gives exactly its data and leaves the handle in place. */
  method Receive(raw: Fields, ghost reference: PayloadReference, payloads: PayloadRegistry, h: Hash, size: int,
                 ghost data: seq<byte>)
    returns (identity: ContentIdentity, content: seq<byte>)
    requires PayloadFromFields(raw) == Some(reference) && reference.replayable && IsLegalSize(size)
    requires reference.token in payloads.sources && Holds(payloads.sources[reference.token], data)
    requires Meets(data, reference.expectedLength, h, reference.expectedDigest)
    modifies payloads, payloads.Footprint(reference.token)
    ensures payloads.sources == old(payloads.sources)
    ensures content == data && identity == IdentityOf(h, data)
  {
    ghost var attempt := payloads.Attempt(reference);
    HeldOutcome(attempt, size, reference, h, data);
    var parsed := PayloadFromFields(raw).value;
    var r := Collect(parsed, payloads, h, size, attempt);
    identity, content := r.value.0, r.value.1;
  }

  lemma IssuedHandle(before: Sources, after: Sources, random: seq<byte>, raw: Fields, data: seq<byte>,
                     digest: Option<string>)
    returns (reference: PayloadReference)
    requires |random| == Base64Url.TOKEN_BYTES && Issued(before, after, random, raw, data, digest)
    ensures reference == PayloadReference(Base64Url.MintToken(random), Some(|data|), digest, true)
    ensures PayloadFromFields(raw) == Some(reference)
    ensures reference.token in after && Holds(after[reference.token], data)
  {
    reference := PayloadReference(Base64Url.MintToken(random), Some(|data|), digest, true);
    PayloadRoundTrip(reference);
  }

  /** Transferring a handle the target just issued. */
  method ReceiveIssued(raw: Fields, payloads: PayloadRegistry, h: Hash, size: int,
                       ghost before: Sources, ghost random: seq<byte>, ghost data: seq<byte>,
                       ghost digest: Option<string>)
    returns (identity: ContentIdentity, content: seq<byte>)
    requires |random| == Base64Url.TOKEN_BYTES && Issued(before, payloads.sources, random, raw, data, digest)
    requires IsLegalSize(size) && (digest.Some? ==> digest.value == DigestOf(h, data))
    modifies payloads, payloads.Footprint(Base64Url.MintToken(random))
    ensures content == data && identity == IdentityOf(h, data)
  {
    ghost var reference := IssuedHandle(before, payloads.sources, random, raw, data, digest);
    identity, content := Receive(raw, reference, payloads, h, size, data);
  }

  // ---- Get ----

  /** The bytes last committed under the reference's id, with their identity, which the metadata states. */
  ghost predicate IsFetched(h: Hash, m: Model, resource: ResourceRef, reference: ObjectReference,
                            metadata: ObjectMetadata,
                            identity: ContentIdentity, content: seq<byte>)
  {
    && Store.Names(h, m, resource, reference)
    && content == m[Store.KeyOf(resource, reference.objectId)].content
    && identity == ContentIdentity(DigestOf(h, content), |content|)
    && Store.IsMetadataOf(h, Store.KeyOf(resource, reference.objectId), m[Store.KeyOf(resource, reference.objectId)],
                          metadata)
  }

  /** A fetched object, or the news that there is none. */
  ghost predicate IsGet(h: Hash, m: Model, resource: ResourceRef, reference: ObjectReference,
                        r: Result<(ObjectMetadata, ContentIdentity, seq<byte>), ExchangeError>)
  {
    if !Store.Names(h, m, resource, reference) then r == Failure(NotExecuted(NotFound))
    else r.Success? && IsFetched(h, m, resource, reference, r.value.0, r.value.1, r.value.2)
  }

  /** Transferring what a get came back with. */
  method ReceiveGet(reply: Result<Reply, ExchangeError>, payloads: PayloadRegistry, h: Hash, size: int,
                    ghost before: World, ghost random: seq<byte>, ghost resource: ResourceRef,
                    ghost reference: ObjectReference)
    returns (r: Result<(ObjectMetadata, ContentIdentity, seq<byte>), ExchangeError>)
    requires |random| == Base64Url.TOKEN_BYTES && IsLegalSize(size) && (reply.Failure? ==> reply.error.NotExecuted?)
    requires AnswersGet(h, before, World(before.model, payloads.sources), random, reference, resource, Answer(reply))
    modifies payloads, if reply.Success? then payloads.Footprint(Base64Url.MintToken(random)) else {}
    ensures IsGet(h, before.model, resource, reference, r)
  {
    if reply.Failure? {
      return Failure(reply.error);
    }
    ghost var data := before.model[Store.KeyOf(resource, reference.objectId)].content;
    var identity, content := ReceiveIssued(reply.value.payload, payloads, h, size, before.sources, random, data,
                                           Some(DigestOf(h, data)));
    return Success((reply.value.metadata, identity, content));
  }

  /** Normalizing and executing a get and transferring what it returns, in chunks of any size, yields exactly
      the bytes last committed under the reference's id; it fails when the expression is refused or the map
      holds no such object, and changes no object. */
  method FetchBytes(target: MemoryObjectTarget, payloads: PayloadRegistry, e: Expression, random: seq<byte>, size: int,
                    ghost op: Result<Operation, NormalizeError>, ghost request: Option<Request>)
    returns (r: Result<(ObjectMetadata, ContentIdentity, seq<byte>), ExchangeError>)
    requires target.Valid() && Makes(target.p, e, op, request) && e.verb == "get"
    requires |random| == Base64Url.TOKEN_BYTES && IsLegalSize(size)
    modifies target, payloads
    ensures target.Valid() && target.Model() == old(target.Model())
    ensures op.Failure? ==> r == Failure(Refused(op.error))
    ensures op.Success? ==>
              && request.Some? && request.value.Read?
              && IsGet(target.h, target.Model(), op.value.resource, TargetOf(request.value), r)
  {
    ghost var before := World(target.Model(), payloads.sources);
    if op.Success? { MakesRequest(target.p, e, op, request); } else { RefusedMakesNothing(target.p, e, op, request); }
    var reply := Exchange(target, payloads, e, random, op, request, Failure(Unavailable));
    if reply.Failure? && reply.error.Refused? {
      return Failure(reply.error);
    }
    GetExchanged(target.h, before, World(target.Model(), payloads.sources), random, e.verb, op, request,
                 Failure(Unavailable), reply);
    r := ReceiveGet(reply, payloads, target.h, size, before, random, op.value.resource, TargetOf(request.value));
  }

  // ---- Range read ----

  /** The slice of `stored` the range resolves to, or why it does not resolve. */
  ghost predicate Slices(range: ByteRange, stored: seq<byte>, r: Result<(ResolvedRange, seq<byte>), ExchangeError>)
    requires ValidRange(range)
  {
    match Resolve(range, |stored|)
    case Failure(why) => r == Failure(NotExecuted(BadRange(why)))
    case Success(resolved) =>
      0 <= resolved.start <= resolved.end < |stored|
        && r == Success((resolved, stored[resolved.start..resolved.end + 1]))
  }

  lemma RefusedPart(before: Sources, after: Sources, random: seq<byte>, range: ByteRange, metadata: ObjectMetadata,
                    stored: seq<byte>, why: TargetError)
    requires |random| == Base64Url.TOKEN_BYTES && ValidRange(range)
    requires Parts(before, after, random, range, metadata, stored, Failure(why))
    ensures Slices(range, stored, Failure(NotExecuted(why)))
  {
  }

  method ReceivePart(reply: Reply, payloads: PayloadRegistry, h: Hash, size: int, ghost before: Sources,
                     ghost random: seq<byte>, ghost range: ByteRange, ghost metadata: ObjectMetadata,
                     ghost stored: seq<byte>)
    returns (r: Result<(ResolvedRange, seq<byte>), ExchangeError>)
    requires |random| == Base64Url.TOKEN_BYTES && ValidRange(range) && IsLegalSize(size)
    requires Parts(before, payloads.sources, random, range, metadata, stored, Success(reply))
    modifies payloads, payloads.Footprint(Base64Url.MintToken(random))
    ensures Slices(range, stored, r)
  {
    ghost var data := stored[reply.range.start..reply.range.end + 1];
    var identity, content := ReceiveIssued(reply.payload, payloads, h, size, before, random, data, None);
    return Success((reply.range, content));
  }

  /** The slice a range read fetched, or why there is none. */
  ghost predicate IsRange(h: Hash, m: Model, resource: ResourceRef, range: ByteRange, reference: ObjectReference,
                          r: Result<(ResolvedRange, seq<byte>), ExchangeError>)
    requires ValidRange(range)
  {
    if !Store.Names(h, m, resource, reference) then r == Failure(NotExecuted(NotFound))
    else Slices(range, m[Store.KeyOf(resource, reference.objectId)].content, r)
  }

  /** Transferring what a range read came back with. */
  method ReceiveRange(reply: Result<Reply, ExchangeError>, payloads: PayloadRegistry, h: Hash, size: int,
                      ghost before: World, ghost random: seq<byte>, ghost resource: ResourceRef, ghost range: ByteRange,
                      ghost reference: ObjectReference)
    returns (r: Result<(ResolvedRange, seq<byte>), ExchangeError>)
    requires |random| == Base64Url.TOKEN_BYTES && IsLegalSize(size) && (reply.Failure? ==> reply.error.NotExecuted?)
    requires ValidRange(range)
    requires AnswersRange(h, before, World(before.model, payloads.sources), random, range, reference, resource,
                          Answer(reply))
    modifies payloads, if reply.Success? then payloads.Footprint(Base64Url.MintToken(random)) else {}
    ensures IsRange(h, before.model, resource, range, reference, r)
  {
    ghost var metadata: ObjectMetadata, data;
    if Store.Names(h, before.model, resource, reference) {
      data := before.model[Store.KeyOf(resource, reference.objectId)].content;
      metadata :| Parts(before.sources, payloads.sources, random, range, metadata, data, Answer(reply));
    }
    if reply.Failure? {
      if Store.Names(h, before.model, resource, reference) {
        RefusedPart(before.sources, payloads.sources, random, range, metadata, data, reply.error.reason);
      }
      return Failure(reply.error);
    }
    r := ReceivePart(reply.value, payloads, h, size, before.sources, random, range, metadata, data);
  }

  /** Normalizing and executing a range read and transferring what it returns yields exactly the slice of the
      committed bytes that the range resolves to. */
  method FetchRange(target: MemoryObjectTarget, payloads: PayloadRegistry, e: Expression, random: seq<byte>, size: int,
                    ghost op: Result<Operation, NormalizeError>, ghost request: Option<Request>)
    returns (r: Result<(ResolvedRange, seq<byte>), ExchangeError>)
    requires target.Valid() && Makes(target.p, e, op, request) && e.verb == "read_range"
    requires |random| == Base64Url.TOKEN_BYTES && IsLegalSize(size)
    modifies target, payloads
    ensures target.Valid() && target.Model() == old(target.Model())
    ensures op.Failure? ==> r == Failure(Refused(op.error))
    ensures op.Success? ==>
              && request.Some? && request.value.ReadRange? && ValidRange(request.value.range)
              && IsRange(target.h, target.Model(), op.value.resource, request.value.range, TargetOf(request.value), r)
  {
    ghost var before := World(target.Model(), payloads.sources);
    if op.Success? { MakesRequest(target.p, e, op, request); } else { RefusedMakesNothing(target.p, e, op, request); }
    var reply := Exchange(target, payloads, e, random, op, request, Failure(Unavailable));
    if reply.Failure? && reply.error.Refused? {
      return Failure(reply.error);
    }
    RangeExchanged(target.h, before, World(target.Model(), payloads.sources), random, e.verb, op, request,
                   Failure(Unavailable), reply);
    r := ReceiveRange(reply, payloads, target.h, size, before, random, op.value.resource, request.value.range,
                      TargetOf(request.value));
  }

  // ---- Put ----

  /** What the arguments of a put say about the object: its media type, its user metadata in key order, its two
      context dictionaries, and its mutability, which is "mutable" when no intent is given. */
  ghost predicate SaysDescription(a: Fields, d: Store.Description) {
    var metadata, intent := FindOrNull(a, "userMetadata"), FindOrNull(a, "immutability");
    && FindOrNull(a, "mediaType") == Str(d.mediaType)
    && metadata.Obj? && Permuted(d.userMetadata, metadata.fields)
    && Ordering.Ascending(Validation.EntryLess, d.userMetadata)
    && FindOrNull(a, "creationContext") == Obj(d.creationContext) && FindOrNull(a, "provenance") == Obj(d.provenance)
    && if intent.Obj? then FindOrNull(intent.fields, "mutability") == Str(d.mutability)
       else intent == Null && d.mutability == "mutable"
  }

  lemma RequestDescribes(p: Platform, a: Fields, q: Request)
    requires q.Put? && Meaning.SaysPut(a, q) && Meaning.SaysMetadata(a, q) && Meaning.SaysIntents(p, a, q)
    ensures SaysDescription(a, Store.Described(q))
  {
  }

  lemma PutMakes(p: Platform, e: Expression, op: Result<Operation, NormalizeError>, request: Option<Request>)
    requires Makes(p, e, op, request) && op.Success? && e.verb == "put" && request.Some?
    ensures PutFromFields(p, e.arguments, op.value.resource) == request
  {
    Meaning.DispatchesPut(p, e.verb, e.arguments, op.value.resource);
  }

  /** A put's request says what its arguments say. */
  lemma PutSaysWhatItWasGiven(p: Platform, e: Expression, op: Result<Operation, NormalizeError>,
                              request: Option<Request>)
    requires Makes(p, e, op, request) && op.Success? && e.verb == "put"
    ensures request.Some? && request.value.Put?
    ensures Meaning.SaysPut(e.arguments, request.value) && Meaning.SaysHandle(e.arguments, request.value)
    ensures SaysDescription(e.arguments, Store.Described(request.value))
  {
    MakesRequest(p, e, op, request);
    PutMakes(p, e, op, request);
    Meaning.PutRequestSays(p, e.arguments, op.value.resource);
    RequestDescribes(p, e.arguments, request.value);
  }

  lemma HeldAttempt(payloads: PayloadRegistry, reference: PayloadReference, h: Hash, data: seq<byte>)
    requires reference.replayable && IsPayload(reference)
    requires reference.token in payloads.sources && Holds(payloads.sources[reference.token], data)
    ensures var attempt := payloads.Attempt(reference);
            && attempt == Success((BytesIO(data), 0))
            && Halts(MemoryRun(attempt.value, UPLOAD_CHUNK, reference.expectedLength))
    ensures Opening(payloads.sources, reference) == payloads.sources
  {
    HeldOutcome(payloads.Attempt(reference), UPLOAD_CHUNK, reference, h, data);
  }

  lemma HeldPut(h: Hash, before: World, after: World, request: Request, resource: ResourceRef,
                r: Result<Reply, TargetError>, data: seq<byte>)
    requires request.Put? && IsPayload(request.payload) && Opening(before.sources, request.payload) == before.sources
    requires AnswersPut(h, before, after, request, resource, Success((BytesIO(data), 0)), r)
    ensures IsStored(h, before, after, request, resource, r, data)
  {
    HeldOutcome(Success((BytesIO(data), 0)), UPLOAD_CHUNK, request.payload, h, data);
  }

  /** A put of held data: a conflict, the data committed, or the reason they were not. */
  ghost predicate IsStored(h: Hash, before: World, after: World, request: Request, resource: ResourceRef,
                           r: Result<Reply, TargetError>, data: seq<byte>)
    requires request.Put?
  {
    && after.sources == before.sources
    && (r.Failure? ==> after.model == before.model)
    && var (length, digest) := (request.payload.expectedLength, request.payload.expectedDigest);
       if request.createOnly && Store.KeyOf(resource, request.objectId) in before.model then
         r == Failure(ConditionalConflict)
       else if length.Some? && |data| > length.value then r == Failure(TransferFailed(Stopped(TooLong)))
       else if length.Some? && |data| < length.value then r == Failure(TransferFailed(Incomplete))
       else if digest.Some? && digest.value != DigestOf(h, data) then r == Failure(TransferFailed(Mismatch))
       else r.Success? && IsCommitted(h, before.model, after.model, request, resource, data, r.value)
  }

  /** Normalizing and executing a put whose handle holds data conflicts exactly when create-only meets a used
      id; else it commits the data exactly when they meet the declared length and digest, and fails for too many
      bytes, too few, or else for the digest. */
  method StoreBytes(target: MemoryObjectTarget, payloads: PayloadRegistry, e: Expression, random: seq<byte>,
                    ghost op: Result<Operation, NormalizeError>, ghost request: Option<Request>, ghost data: seq<byte>)
    returns (r: Result<Reply, ExchangeError>)
    requires target.Valid() && Makes(target.p, e, op, request) && e.verb == "put" && |random| == Base64Url.TOKEN_BYTES
    requires request.Some? && request.value.Put? ==>
               && request.value.payload.replayable && request.value.payload.token in payloads.sources
               && Holds(payloads.sources[request.value.payload.token], data)
    modifies target, payloads, TouchedBy(payloads, request)
    ensures target.Valid()
    ensures op.Failure? ==> r == Failure(Refused(op.error)) && target.Model() == old(target.Model())
    ensures op.Success? ==>
              && request.Some? && request.value.Put? && (r.Failure? ==> r.error.NotExecuted?)
              && Meaning.SaysPut(e.arguments, request.value)
              && SaysDescription(e.arguments, Store.Described(request.value))
              && IsStored(target.h, World(old(target.Model()), old(payloads.sources)),
                          World(target.Model(), payloads.sources), request.value, op.value.resource, Answer(r), data)
  {
    ghost var before := World(target.Model(), payloads.sources);
    ghost var attempt: Attempted := Failure(Unavailable);
    if op.Success? {
      MakesRequest(target.p, e, op, request);
      PutSaysWhatItWasGiven(target.p, e, op, request);
      HeldAttempt(payloads, request.value.payload, target.h, data);
      attempt := payloads.Attempt(request.value.payload);
    } else {
      RefusedMakesNothing(target.p, e, op, request);
    }
    r := Exchange(target, payloads, e, random, op, request, attempt);
    if op.Success? {
      PutExchanged(target.h, before, World(target.Model(), payloads.sources), random, e.verb, op, request, attempt, r);
      HeldPut(target.h, before, World(target.Model(), payloads.sources), request.value, op.value.resource, Answer(r),
              data);
    }
  }
}
