/** The in-memory execution target: it runs normalized operations against one dictionary of objects. */
module MemoryTarget {
  import opened Basics
  import opened Core
  import opened References
  import opened Validation
  import opened Handles
  import opened Ranges
  import opened Digest
  import opened Signed
  import opened Requests
  import opened Catalog
  import opened Transfers
  import opened Payloads
  import Base64Url
  import Dictionary
  import Store

  type Objects = Store.Objects
  type ObjectMetadata = Store.ObjectMetadata
  type Model = Store.PlainMap
  type Sources = map<string, Source>

  type Attempted = Result<(ReadScript, nat), Failed>

  datatype TargetError =
    | CannotExecute
    | ConditionalConflict
    | NotFound
    | BadRange(why: RangeError)
    | TransferFailed(cause: Failed)

  datatype Reply =
    | Committed(metadata: ObjectMetadata)
    | Content(metadata: ObjectMetadata, payload: Fields)
    | Status(metadata: ObjectMetadata)
    | Part(metadata: ObjectMetadata, payload: Fields, range: ResolvedRange)
    | Page(items: seq<ObjectMetadata>)
    | Deleted

  // ---- Normalized operations ----

  /** The operation's input is in normal form and makes this request of a data method. */
  ghost predicate Carries(p: Platform, verb: string, op: Operation, request: Request) {
    && verb in DATA_METHODS && op.contract == CONTRACT_PREFIX + verb && DistinctKeys(op.input)
    && RequestFromFields(p, verb, op.input, op.resource) == Some(request)
    && Requests.Render(request, op.input) == op.input
  }

  /** Every operation the normalizer produces carries the request its expression made. */
  lemma NormalizedCarries(p: Platform, e: Expression)
    requires WellFormed(Obj(e.arguments)) && e.verb in DATA_METHODS && Normalized(p, e).Success?
    ensures var op := Normalized(p, e).value;
            && RequestFromFields(p, e.verb, e.arguments, op.resource).Some?
            && Carries(p, e.verb, op, RequestFromFields(p, e.verb, e.arguments, op.resource).value)
  {
    MethodsAreApart(e.verb);
    var op := Normalized(p, e).value;
    var request := RequestFromFields(p, e.verb, e.arguments, op.resource).value;
    RequestIsIdempotent(p, e.verb, e.arguments, op.resource);
    RenderKeepsKeys(request, e.arguments);
    RenderIsIdempotent(request, e.arguments);
  }

  /** The method an operation contract names. */
  function MethodOf(contract: string): string {
    if CONTRACT_PREFIX <= contract then contract[|CONTRACT_PREFIX|..] else contract
  }

  lemma CarriedPut(p: Platform, verb: string, op: Operation, request: Request)
    requires verb == "put" && Carries(p, verb, op, request)
    ensures request.Put? && PutFromFields(p, op.input, op.resource) == Some(request)
  {
  }

  /** What a put's handler reads from the input is its request's. */
  ghost predicate ReadsPut(f: Fields, request: Request) {
    && request.Put? && FindOrNull(f, "objectId") == Str(request.objectId)
    && FindOrNull(f, "createOnly") == Bool(request.createOnly)
    && FindOrNull(f, "payload") == Obj(PayloadToFields(request.payload)) && IsPayload(request.payload)
    && ReadsDescription(f, request)
  }

  ghost predicate ReadsDescription(f: Fields, request: Request)
    requires request.Put?
  {
    && FindOrNull(f, "mediaType") == Str(request.mediaType)
    && FindOrNull(f, "creationContext") == Obj(request.creationContext)
    && FindOrNull(f, "provenance") == Obj(request.provenance)
    && FindOrNull(f, "userMetadata") == Obj(request.metadata)
    && FindOrNull(f, "immutability") == ImmutabilityToJson(request.immutability)
  }

  lemma PutInput(p: Platform, verb: string, op: Operation, request: Request)
    requires verb == "put" && Carries(p, verb, op, request)
    ensures ReadsPut(op.input, request)
  {
    CarriedPut(p, verb, op, request);
    PutObjectsRender(request, op.input);
  }

  lemma MutabilityReadsBack(i: Immutability)
    ensures TextAt(ImmutabilityToFields(i), "mutability") == Some(i.mutability)
  {
    ImmutabilityKeys(i);
    FindAt(ImmutabilityToFields(i), 0);
  }

  function TargetOf(request: Request): ObjectReference
    requires request.Read? || request.ReadRange? || request.Delete?
  {
    if request.Delete? then request.version else request.reference.Target()
  }

  lemma SelectedInput(p: Platform, raw: Json, resource: ResourceRef, verb: string, requireDigest: bool)
    requires SelectReference(p, raw, resource, verb, requireDigest).Some?
    ensures raw.Obj? && ParseLogical(p, raw.fields) == SelectReference(p, raw, resource, verb, requireDigest)
  {
  }

  lemma CarriedReference(p: Platform, verb: string, op: Operation, request: Request)
    requires verb in {"get", "stat", "read_range", "delete"} && Carries(p, verb, op, request)
    ensures verb in {"get", "stat"} ==> ReadFromFields(p, verb, op.input, op.resource) == Some(request)
    ensures verb == "read_range" ==> RangeRequestFromFields(p, op.input, op.resource) == Some(request)
    ensures verb == "delete" ==> DeleteFromFields(p, op.input, op.resource) == Some(request)
  {
  }

  /** The reference a handler parses is the one its request names. */
  ghost predicate ReadsReference(p: Platform, f: Fields, request: Request) {
    && (request.Read? || request.ReadRange? || request.Delete?)
    && var raw := FindOrNull(f, "reference");
       raw.Obj? && ParseLogical(p, raw.fields).Some? && ParseLogical(p, raw.fields).value.Target() == TargetOf(request)
  }

  lemma ReferenceInput(p: Platform, verb: string, op: Operation, request: Request)
    requires verb in {"get", "stat", "read_range", "delete"} && Carries(p, verb, op, request)
    ensures ReadsReference(p, op.input, request)
  {
    var raw := FindOrNull(op.input, "reference");
    CarriedReference(p, verb, op, request);
    if verb == "delete" {
      SelectedInput(p, raw, op.resource, "delete", true);
    } else if verb == "read_range" {
      SelectedInput(p, raw, op.resource, "read_range", false);
    } else {
      SelectedInput(p, raw, op.resource, verb, false);
    }
  }

  ghost predicate ReadsRange(p: Platform, f: Fields, request: Request) {
    && request.ReadRange? && ReadsReference(p, f, request) && ValidRange(request.range)
    && var raw := FindOrNull(f, "range"); raw.Obj? && RangeFromFields(raw.fields) == Some(request.range)
  }

  lemma RangeInput(p: Platform, verb: string, op: Operation, request: Request)
    requires verb == "read_range" && Carries(p, verb, op, request)
    ensures ReadsRange(p, op.input, request)
  {
    ReferenceInput(p, verb, op, request);
    CarriedReference(p, verb, op, request);
  }

  ghost predicate ReadsList(f: Fields, request: Request) {
    && request.List? && 1 <= request.limit <= 1000
    && FindOrNull(f, "prefix") == Str(request.prefix) && FindOrNull(f, "limit") == Int(request.limit)
  }

  lemma ListInput(p: Platform, verb: string, op: Operation, request: Request)
    requires verb == "list" && Carries(p, verb, op, request)
    ensures ReadsList(op.input, request)
  {
  }

  /** A delete names one exact version in the operation's resource. */
  ghost predicate ReadsDelete(p: Platform, f: Fields, resource: ResourceRef, request: Request) {
    request.Delete? && ReadsReference(p, f, request) && IsPinned(request.version)
      && request.version.resource == resource
  }

  lemma DeleteInput(p: Platform, verb: string, op: Operation, request: Request)
    requires verb == "delete" && Carries(p, verb, op, request)
    ensures ReadsDelete(p, op.input, op.resource, request)
  {
    ReferenceInput(p, verb, op, request);
    CarriedReference(p, verb, op, request);
    DeletesAreExact(p, op.input, op.resource);
  }

  /** The handler of each method reads the request out of the input. */
  ghost predicate Reads(p: Platform, verb: string, op: Operation, request: Request) {
    match request
    case Put(_, _, _, _, _, _, _, _, _) => verb == "put" && ReadsPut(op.input, request)
    case Read(_) => (verb == "get" || verb == "stat") && ReadsReference(p, op.input, request)
    case ReadRange(_, _) => verb == "read_range" && ReadsRange(p, op.input, request)
    case List(_, _) => verb == "list" && ReadsList(op.input, request)
    case Delete(_) => verb == "delete" && ReadsDelete(p, op.input, op.resource, request)
  }

  /** What the target needs of an operation: its contract names the method that handles its input. */
  ghost predicate Executable(p: Platform, verb: string, op: Operation, request: Request) {
    MethodOf(op.contract) == verb && Reads(p, verb, op, request)
  }

  lemma ReadInput(p: Platform, verb: string, op: Operation, request: Request)
    requires verb in {"get", "stat"} && Carries(p, verb, op, request)
    ensures Reads(p, verb, op, request)
  {
    ReferenceInput(p, verb, op, request);
    CarriedReference(p, verb, op, request);
  }

  lemma WriteInput(p: Platform, verb: string, op: Operation, request: Request)
    requires Carries(p, verb, op, request)
    ensures verb in {"put", "delete"} ==> Reads(p, verb, op, request)
  {
    if verb == "put" {
      PutInput(p, verb, op, request);
    } else if verb == "delete" {
      DeleteInput(p, verb, op, request);
    }
  }

  lemma ScanInput(p: Platform, verb: string, op: Operation, request: Request)
    requires Carries(p, verb, op, request)
    ensures verb in {"list", "read_range"} ==> Reads(p, verb, op, request)
  {
    if verb == "list" {
      ListInput(p, verb, op, request);
    } else if verb == "read_range" {
      RangeInput(p, verb, op, request);
    }
  }

  lemma ContractNamesMethod(verb: string)
    ensures MethodOf(CONTRACT_PREFIX + verb) == verb
  {
  }

  lemma KnownMethods(verb: string)
    requires verb in DATA_METHODS
    ensures verb in {"put", "delete"} || verb in {"list", "read_range"} || verb in {"get", "stat"}
  {
  }

  lemma CarriedInput(p: Platform, verb: string, op: Operation, request: Request)
    requires Carries(p, verb, op, request)
    ensures Reads(p, verb, op, request)
  {
    WriteInput(p, verb, op, request);
    ScanInput(p, verb, op, request);
    KnownMethods(verb);
    if verb in {"get", "stat"} {
      ReadInput(p, verb, op, request);
    }
  }

  lemma CarriedExecutes(p: Platform, verb: string, op: Operation, request: Request)
    requires Carries(p, verb, op, request)
    ensures Executable(p, verb, op, request)
  {
    CarriedInput(p, verb, op, request);
    ContractNamesMethod(verb);
  }

  /** The target can run every operation the normalizer produces, and runs the request its expression made. */
  lemma NormalizedExecutes(p: Platform, e: Expression)
    requires WellFormed(Obj(e.arguments)) && e.verb in DATA_METHODS && Normalized(p, e).Success?
    ensures var op := Normalized(p, e).value;
            && RequestFromFields(p, e.verb, e.arguments, op.resource).Some?
            && Executable(p, e.verb, op, RequestFromFields(p, e.verb, e.arguments, op.resource).value)
  {
    NormalizedCarries(p, e);
    var op := Normalized(p, e).value;
    CarriedExecutes(p, e.verb, op, RequestFromFields(p, e.verb, e.arguments, op.resource).value);
  }

  // ---- Transfers into memory ----

  function TakeAll(i: nat): WriteReply { Whole }

  ghost function MemoryRun(from: (ReadScript, nat), size: int, declared: Option<int>): Run {
    Run(from.0, from.1, TakeAll, 0, None, size, declared)
  }

  /** The handle opens on a stream that ends cleanly after exactly `data`, as declared. */
  ghost predicate Delivers(attempt: Attempted, size: int, reference: PayloadReference, h: Hash, data: seq<byte>) {
    attempt.Success?
      && Yields(MemoryRun(attempt.value, size, reference.expectedLength), h, reference.expectedDigest, data)
  }

  ghost predicate Arrives(attempt: Attempted, size: int, reference: PayloadReference, h: Hash) {
    attempt.Success?
      && YieldsSome(MemoryRun(attempt.value, size, reference.expectedLength), h, reference.expectedDigest)
  }

  /** The transfer fails with this error: the handle does not open, or the run ends so. */
  ghost predicate FailsWith(attempt: Attempted, size: int, reference: PayloadReference, h: Hash, error: Failed) {
    if attempt.Failure? then error == attempt.error
    else RunFails(MemoryRun(attempt.value, size, reference.expectedLength), h, reference.expectedDigest, error)
  }

  /** What the registry keeps once the handle has been opened. */
  ghost function Opening(sources: Sources, reference: PayloadReference): Sources {
    if IsGoodHandle(sources, reference) && !reference.replayable then sources - {reference.token} else sources
  }

  /** A transfer into a new in-memory sink: all of the stream, or nothing the caller sees. */
  method Collect(reference: PayloadReference, payloads: PayloadRegistry, h: Hash, size: int,
                 ghost attempt: Attempted)
    returns (r: Result<(ContentIdentity, seq<byte>), Failed>)
    requires IsLegalSize(size) && attempt == payloads.Attempt(reference)
    requires attempt.Success? ==> Halts(MemoryRun(attempt.value, size, reference.expectedLength))
    modifies payloads, payloads.Footprint(reference.token)
    ensures payloads.sources == Opening(old(payloads.sources), reference)
    ensures r.Success? <==> Arrives(attempt, size, reference, h)
    ensures r.Failure? ==> FailsWith(attempt, size, reference, h, r.error)
    ensures r.Success? ==> Delivers(attempt, size, reference, h, r.value.1) && r.value.0 == IdentityOf(h, r.value.1)
  {
    var sink := new Sink(TakeAll);
    assert attempt == payloads.Attempt(reference);
    var identity := CollectInto(reference, payloads, sink, h, size, attempt);
    r := if identity.Failure? then Failure(identity.error) else Success((identity.value, sink.content));
  }

  lemma TransferredToMemory(t: Run, h: Hash, expectedDigest: Option<string>, content: seq<byte>,
                            r: Result<ContentIdentity, Failed>)
    requires Transferred(t, h, expectedDigest, [], content, r)
    ensures r.Success? ==> Yields(t, h, expectedDigest, content) && r.value == IdentityOf(h, content)
  {
    assert forall data: seq<byte> :: [] + data == data;
  }

  method CollectInto(reference: PayloadReference, payloads: PayloadRegistry, sink: Sink, h: Hash, size: int,
                     ghost attempt: Attempted)
    returns (r: Result<ContentIdentity, Failed>)
    requires IsLegalSize(size) && attempt == payloads.Attempt(reference)
    requires sink.script == TakeAll && sink.writeCount == 0 && sink.content == []
    requires attempt.Success? ==> Halts(MemoryRun(attempt.value, size, reference.expectedLength))
    modifies payloads, payloads.Footprint(reference.token), sink
    ensures payloads.sources == Opening(old(payloads.sources), reference)
    ensures r.Success? <==> Arrives(attempt, size, reference, h)
    ensures r.Failure? ==> FailsWith(attempt, size, reference, h, r.error)
    ensures r.Success? ==> Delivers(attempt, size, reference, h, sink.content) && r.value == IdentityOf(h, sink.content)
  {
    ghost var ended;
    r, ended := Transfer(reference, payloads, sink, h, size, None);
    if attempt.Success? {
      TransferredToMemory(MemoryRun(attempt.value, size, reference.expectedLength), h, reference.expectedDigest,
                          sink.content, r);
    }
  }

  /** The source is a replayable factory of in-memory streams over `data`. */
  ghost predicate Holds(source: Source, data: seq<byte>) {
    source.FromFactory? && source.f.replayable && forall i: nat :: source.f.make(i) == Opens(BytesIO(data))
  }

  /** Opening a handle on held data and transferring it to memory ends, and succeeds exactly when the data
      meet what the handle declares; then with that data. */
  lemma HeldOutcome(attempt: Attempted, size: int, reference: PayloadReference, h: Hash, data: seq<byte>)
    requires attempt == Success((BytesIO(data), 0)) && size > 0 && IsPayload(reference)
    ensures Halts(MemoryRun(attempt.value, size, reference.expectedLength))
    ensures Arrives(attempt, size, reference, h) <==> Meets(data, reference.expectedLength, h, reference.expectedDigest)
    ensures forall other :: Delivers(attempt, size, reference, h, other) ==> other == data
    ensures forall error :: FailsWith(attempt, size, reference, h, error) ==>
              error == Blame(data, reference.expectedLength)
  {
    InMemoryRunOutcome(MemoryRun(attempt.value, size, reference.expectedLength), data, h, reference.expectedDigest);
  }

  /** `payload` is the wire form of a new replayable handle on `data`, filed under the minted token. */
  ghost predicate Issued(before: Sources, after: Sources, random: seq<byte>, payload: Fields,
                         data: seq<byte>, digest: Option<string>)
    requires |random| == Base64Url.TOKEN_BYTES
  {
    var reference := PayloadReference(Base64Url.MintToken(random), Some(|data|), digest, true);
    && IsPayload(reference) && payload == PayloadToFields(reference)
    && reference.token in after && Holds(after[reference.token], data)
    && after == before[reference.token := after[reference.token]]
  }

  method Issue(payloads: PayloadRegistry, random: seq<byte>, data: seq<byte>, digest: Option<string>)
    returns (payload: Fields, ghost source: FactorySource)
    requires |random| == Base64Url.TOKEN_BYTES && (digest.Some? ==> IsDigest(digest.value))
    modifies payloads
    ensures Issued(old(payloads.sources), payloads.sources, random, payload, data, digest)
    ensures fresh(source) && payloads.sources[Base64Url.MintToken(random)] == FromFactory(source)
  {
    var made := new FactorySource(_ => Opens(BytesIO(data)), true);
    var reference := payloads.Register(FromFactory(made), random, Some(|data|), digest);
    payload := PayloadToFields(reference.value);
    source := made;
  }

  // ---- The target ----

  const UPLOAD_CHUNK := 7

  /** A create-only put finds its id already in use. */
  ghost predicate Taken(m: Model, request: Request, resource: ResourceRef)
    requires request.Put?
  {
    request.createOnly && Store.KeyOf(resource, request.objectId) in m
  }

  /** What a put did: its upload, when the transfer succeeded, is the command executed. */
  ghost predicate Uploads(h: Hash, before: seq<Store.Command>, after: seq<Store.Command>, request: Request,
                          resource: ResourceRef,
                          attempt: Attempted, data: seq<byte>)
  {
    && request.Put? && Delivers(attempt, UPLOAD_CHUNK, request.payload, h, data)
    && after == before + [Store.Upload(request, resource, Some(data))]
  }

  /** The map gained exactly the data under the put's id, with what its request says about them, and the reply
      is the metadata of that entry. */
  ghost predicate IsCommitted(h: Hash, before: Model, after: Model, request: Request, resource: ResourceRef,
                              data: seq<byte>, reply: Reply)
    requires request.Put?
  {
    var key := Store.ObjectKey(resource.namespace, resource.name, request.objectId);
    var entry := Store.Entry(data, Store.Described(request));
    after == before[key := entry] && reply.Committed? && Store.IsMetadataOf(h, key, entry, reply.metadata)
  }

  /** The entry found describes the bytes the plain map holds under the reference's id. */
  ghost predicate Describes(h: Hash, m: Model, resource: ResourceRef, reference: ObjectReference,
                            metadata: ObjectMetadata, data: seq<byte>)
  {
    var key := Store.KeyOf(resource, reference.objectId);
    && Store.Names(h, m, resource, reference) && m[key].content == data
    && Store.IsMetadataOf(h, key, m[key], metadata)
  }

  method ReadPayload(f: Fields, ghost request: Request) returns (payload: PayloadReference)
    requires ReadsPut(f, request)
    ensures payload == request.payload
  {
    PayloadRoundTrip(request.payload);
    payload := PayloadFromFields(FindOrNull(f, "payload").fields).value;
  }

  method CollectUpload(f: Fields, payloads: PayloadRegistry, h: Hash, ghost request: Request,
                       ghost attempt: Attempted)
    returns (r: Result<(ContentIdentity, seq<byte>), Failed>)
    requires ReadsPut(f, request) && attempt == payloads.Attempt(request.payload)
    requires attempt.Success? ==> Halts(MemoryRun(attempt.value, UPLOAD_CHUNK, request.payload.expectedLength))
    modifies payloads, payloads.Footprint(request.payload.token)
    ensures payloads.sources == Opening(old(payloads.sources), request.payload)
    ensures r.Success? <==> Arrives(attempt, UPLOAD_CHUNK, request.payload, h)
    ensures r.Failure? ==> FailsWith(attempt, UPLOAD_CHUNK, request.payload, h, r.error)
    ensures r.Success? ==>
              Delivers(attempt, UPLOAD_CHUNK, request.payload, h, r.value.1) && r.value.0 == IdentityOf(h, r.value.1)
  {
    var payload := ReadPayload(f, request);
    r := Collect(payload, payloads, h, UPLOAD_CHUNK, attempt);
  }

  method IssueContent(payloads: PayloadRegistry, random: seq<byte>, stored: Store.Stored) returns (r: Reply)
    requires |random| == Base64Url.TOKEN_BYTES && IsDigest(stored.metadata.digest)
    modifies payloads
    ensures r.Content? && r.metadata == stored.metadata
    ensures Issued(old(payloads.sources), payloads.sources, random, r.payload, stored.data,
                   Some(stored.metadata.digest))
    ensures fresh(payloads.Footprint(Base64Url.MintToken(random)))
  {
    var payload, source := Issue(payloads, random, stored.data, Some(stored.metadata.digest));
    r := Content(stored.metadata, payload);
  }

  /** What a range read answers about an object holding `data`: the resolved range, and a new handle on
      exactly the slice it cuts. */
  ghost predicate Parts(before: Sources, after: Sources, random: seq<byte>, range: ByteRange,
                        metadata: ObjectMetadata, data: seq<byte>, r: Result<Reply, TargetError>)
    requires |random| == Base64Url.TOKEN_BYTES && ValidRange(range)
  {
    var resolved := Resolve(range, |data|);
    if resolved.Failure? then r == Failure(BadRange(resolved.error)) && after == before
    else
      && 0 <= resolved.value.start <= resolved.value.end < |data|
      && r.Success? && r.value.Part? && r.value.metadata == metadata && r.value.range == resolved.value
      && Issued(before, after, random, r.value.payload, data[resolved.value.start..resolved.value.end + 1], None)
  }

  method IssuePart(payloads: PayloadRegistry, random: seq<byte>, range: ByteRange, stored: Store.Stored)
    returns (r: Result<Reply, TargetError>)
    requires |random| == Base64Url.TOKEN_BYTES && ValidRange(range)
    modifies payloads
    ensures Parts(old(payloads.sources), payloads.sources, random, range, stored.metadata, stored.data, r)
    ensures r.Success? ==> fresh(payloads.Footprint(Base64Url.MintToken(random)))
  {
    ResolveIsIntersection(range, |stored.data|);
    var resolved := Resolve(range, |stored.data|);
    if resolved.Failure? {
      return Failure(BadRange(resolved.error));
    }
    var part := stored.data[resolved.value.start..resolved.value.end + 1];
    var payload, source := Issue(payloads, random, part, None);
    return Success(Part(stored.metadata, payload, resolved.value));
  }

  /** What a handler sees and changes: the plain map of objects and the handles of the registry. */
  datatype World = World(model: Model, sources: Sources)

  /** The meaning of a data method: the world before and after, and the reply. */
  ghost predicate Answers(h: Hash, before: World, after: World, random: seq<byte>, verb: string, request: Request,
                          resource: ResourceRef, attempt: Attempted, r: Result<Reply, TargetError>)
    requires |random| == Base64Url.TOKEN_BYTES
  {
    match request
    case Put(_, _, _, _, _, _, _, _, _) => AnswersPut(h, before, after, request, resource, attempt, r)
    case Read(_) =>
      if verb == "get" then AnswersGet(h, before, after, random, TargetOf(request), resource, r)
      else after == before && AnswersStat(h, before.model, TargetOf(request), resource, r)
    case ReadRange(_, range) => AnswersRange(h, before, after, random, range, TargetOf(request), resource, r)
    case List(prefix, limit) => after == before && AnswersList(h, before.model, prefix, limit, resource, r)
    case Delete(version) =>
      after.sources == before.sources && AnswersDelete(h, before.model, after.model, version, resource, r)
  }

  /** A put conflicts before its handle is touched; else it commits exactly the bytes delivered, or fails as
      the transfer did and changes no object. */
  ghost predicate AnswersPut(h: Hash, before: World, after: World, request: Request, resource: ResourceRef,
                             attempt: Attempted, r: Result<Reply, TargetError>)
    requires request.Put?
  {
    && (request.createOnly && Store.KeyOf(resource, request.objectId) in before.model ==>
          r == Failure(ConditionalConflict) && after.sources == before.sources)
    && (!(request.createOnly && Store.KeyOf(resource, request.objectId) in before.model) ==>
          && after.sources == Opening(before.sources, request.payload)
          && (r.Success? <==> Arrives(attempt, UPLOAD_CHUNK, request.payload, h))
          && (r.Failure? ==>
                r.error.TransferFailed? && FailsWith(attempt, UPLOAD_CHUNK, request.payload, h, r.error.cause)))
    && (r.Failure? ==> after.model == before.model)
    && (r.Success? ==>
          exists data ::
            && Delivers(attempt, UPLOAD_CHUNK, request.payload, h, data)
            && IsCommitted(h, before.model, after.model, request, resource, data, r.value))
  }

  /** A get hands out, for an object that exists, its metadata and a new handle on exactly its bytes. */
  ghost predicate AnswersGet(h: Hash, before: World, after: World, random: seq<byte>, reference: ObjectReference,
                             resource: ResourceRef, r: Result<Reply, TargetError>)
    requires |random| == Base64Url.TOKEN_BYTES
  {
    && after.model == before.model
    && if !Store.Names(h, before.model, resource, reference) then
         r == Failure(NotFound) && after.sources == before.sources
       else
         var data := before.model[Store.KeyOf(resource, reference.objectId)].content;
         && r.Success? && r.value.Content?
         && Describes(h, before.model, resource, reference, r.value.metadata, data)
         && Issued(before.sources, after.sources, random, r.value.payload, data, Some(DigestOf(h, data)))
  }

  ghost predicate AnswersStat(h: Hash, m: Model, reference: ObjectReference, resource: ResourceRef,
                              r: Result<Reply, TargetError>)
  {
    if !Store.Names(h, m, resource, reference) then r == Failure(NotFound)
    else
      && r.Success? && r.value.Status?
      && Describes(h, m, resource, reference, r.value.metadata,
                   m[Store.KeyOf(resource, reference.objectId)].content)
  }

  /** A range read hands out, for an object that exists, its metadata, the resolved range, and a new handle
      on exactly the slice it cuts, or says why it does not resolve. */
  ghost predicate AnswersRange(h: Hash, before: World, after: World, random: seq<byte>, range: ByteRange,
                               reference: ObjectReference, resource: ResourceRef, r: Result<Reply, TargetError>)
    requires |random| == Base64Url.TOKEN_BYTES
  {
    && ValidRange(range) && after.model == before.model
    && if !Store.Names(h, before.model, resource, reference) then
         r == Failure(NotFound) && after.sources == before.sources
       else
         exists metadata ::
           var data := before.model[Store.KeyOf(resource, reference.objectId)].content;
           && Describes(h, before.model, resource, reference, metadata, data)
           && Parts(before.sources, after.sources, random, range, metadata, data, r)
  }

  ghost predicate AnswersList(h: Hash, m: Model, prefix: string, limit: int, resource: ResourceRef,
                              r: Result<Reply, TargetError>)
  {
    && r.Success? && r.value.Page? && limit >= 0
    && exists ids :: Store.IsPage(h, m, resource, prefix, limit, ids, r.value.items)
  }

  ghost predicate AnswersDelete(h: Hash, m: Model, n: Model, version: ObjectReference, resource: ResourceRef,
                                r: Result<Reply, TargetError>)
  {
    var key := Store.KeyOf(resource, version.objectId);
    && IsPinned(version)
    && r == (if key in m && DigestOf(h, m[key].content) == version.digest.value then Success(Deleted)
             else Failure(NotFound))
    && n == (if r.Success? then m - {key} else m)
  }

  /** The reply holds a new handle. */
  predicate Issues(r: Result<Reply, TargetError>) {
    r.Success? && (r.value.Content? || r.value.Part?)
  }

  class MemoryObjectTarget {
    const p: Platform
    const h: Hash
    var objects: Objects
    ghost var history: seq<Store.Command>

    /** The dictionary is what the commands executed so far made of it. */
    ghost predicate Valid()
      reads this
    {
      (forall i :: 0 <= i < |history| ==> Store.IsCommand(history[i])) && objects == Store.Run(h, history)
    }

    /** The plain map the target stands for. */
    ghost function Model(): Model
      reads this
    {
      Store.Contents(objects)
    }

    constructor (p: Platform, h: Hash)
      ensures Valid() && this.p == p && this.h == h && history == [] && Model() == map[]
    {
      this.p := p;
      this.h := h;
      objects := [];
      history := [];
    }

    /** The new dictionary executes one more command; the plain map changes as that command says. */
    ghost method Record(was: seq<Store.Command>, before: Objects, c: Store.Command)
      requires (forall i :: 0 <= i < |was| ==> Store.IsCommand(was[i])) && before == Store.Run(h, was)
      requires Store.IsCommand(c) && objects == Store.Execute(h, before, c)
      modifies this`history
      ensures Valid() && history == was + [c]
      ensures Model() == Store.Model(h, Store.Contents(before), c)
    {
      Store.RunRefines(h, was);
      Store.ExecuteRefines(h, before, c);
      history := was + [c];
      assert history[..|was|] == was;
    }

    method Reset()
      requires Valid()
      modifies this
      ensures Valid() && history == old(history) + [Store.Reset] && Model() == map[]
    {
      ghost var was, before := history, objects;
      objects := [];
      Record(was, before, Store.Reset);
    }

    /** The metadata a put builds from its input. */
    method Describe(op: Operation, identity: ContentIdentity, ghost request: Request)
      returns (metadata: ObjectMetadata)
      requires ReadsPut(op.input, request)
      ensures metadata == Store.MetadataFor(request, op.resource, identity)
    {
      var immutability := FindOrNull(op.input, "immutability");
      var mutability := "mutable";
      if immutability.Obj? {
        MutabilityReadsBack(request.immutability.value);
        mutability := TextAt(immutability.fields, "mutability").value;
      }
      metadata := Store.ObjectMetadata(
        PutReference(op.resource, FindOrNull(op.input, "objectId").s, Some(identity.digest)),
        identity.digest, identity.byteLength,
        FindOrNull(op.input, "mediaType").s, Store.CREATED_AT, FindOrNull(op.input, "creationContext").fields,
        FindOrNull(op.input, "userMetadata").fields, mutability, FindOrNull(op.input, "provenance").fields);
    }

    method Commit(op: Operation, data: seq<byte>, identity: ContentIdentity, ghost request: Request)
      returns (metadata: ObjectMetadata)
      requires Valid() && ReadsPut(op.input, request)
      requires identity == IdentityOf(h, data)
      requires !Taken(Model(), request, op.resource)
      modifies this
      ensures Valid() && history == old(history) + [Store.Upload(request, op.resource, Some(data))]
      ensures Model() ==
                old(Model())[Store.KeyOf(op.resource, request.objectId) := Store.Entry(data, Store.Described(request))]
      ensures IsCommitted(h, old(Model()), Model(), request, op.resource, data, Committed(metadata))
    {
      ghost var was, before := history, objects;
      metadata := Describe(op, identity, request);
      Store.RunRefines(h, history);
      Dictionary.GetIsMap(objects, Store.KeyOf(op.resource, request.objectId));
      var key := Store.KeyOf(op.resource, FindOrNull(op.input, "objectId").s);
      objects := Dictionary.Put(objects, key, Store.Stored(data, metadata));
      Record(was, before, Store.Upload(request, op.resource, Some(data)));
    }

    method Conflicts(op: Operation, ghost request: Request) returns (r: bool)
      requires Valid() && ReadsPut(op.input, request)
      ensures r <==> Taken(Model(), request, op.resource)
    {
      var key := Store.KeyOf(op.resource, FindOrNull(op.input, "objectId").s);
      Store.RunRefines(h, history);
      Dictionary.GetIsMap(objects, key);
      r := FindOrNull(op.input, "createOnly").b && Dictionary.Get(objects, key).Some?;
    }

    /** A put that raises leaves the map unchanged; one that returns has committed exactly the bytes of a
        clean, complete stream that meets the declared length and digest. */
    method Put(op: Operation, payloads: PayloadRegistry, ghost request: Request, ghost attempt: Attempted)
      returns (r: Result<Reply, TargetError>)
      requires Valid() && ReadsPut(op.input, request) && attempt == payloads.Attempt(request.payload)
      requires attempt.Success? && !Taken(Model(), request, op.resource) ==>
                 Halts(MemoryRun(attempt.value, UPLOAD_CHUNK, request.payload.expectedLength))
      modifies this, payloads, payloads.Footprint(request.payload.token)
      ensures Valid()
      ensures AnswersPut(h, World(old(Model()), old(payloads.sources)), World(Model(), payloads.sources), request,
                         op.resource, attempt, r)
      ensures r.Failure? ==> objects == old(objects)
    {
      var conflicts := Conflicts(op, request);
      if conflicts {
        return Failure(ConditionalConflict);
      }
      var stored, received := Upload(op, payloads, request, attempt);
      r := if stored.Success? then Success(Committed(stored.value)) else Failure(TransferFailed(stored.error));
    }

    /** The rest of a put, once the create-only check has passed. */
    method Upload(op: Operation, payloads: PayloadRegistry, ghost request: Request, ghost attempt: Attempted)
      returns (r: Result<ObjectMetadata, Failed>, ghost received: seq<byte>)
      requires Valid() && ReadsPut(op.input, request)
      requires !Taken(Model(), request, op.resource)
      requires attempt == payloads.Attempt(request.payload)
      requires attempt.Success? ==> Halts(MemoryRun(attempt.value, UPLOAD_CHUNK, request.payload.expectedLength))
      modifies this, payloads, payloads.Footprint(request.payload.token)
      ensures Valid()
      ensures payloads.sources == Opening(old(payloads.sources), request.payload)
      ensures r.Success? <==> Arrives(attempt, UPLOAD_CHUNK, request.payload, h)
      ensures r.Failure? ==> FailsWith(attempt, UPLOAD_CHUNK, request.payload, h, r.error)
      ensures r.Failure? ==> objects == old(objects) && history == old(history)
      ensures r.Success? ==>
                && Uploads(h, old(history), history, request, op.resource, attempt, received)
                && IsCommitted(h, old(Model()), Model(), request, op.resource, received, Committed(r.value))
    {
      ghost var was, before := history, objects;
      assert this !in payloads.Footprint(request.payload.token);
      var collected := CollectUpload(op.input, payloads, h, request, attempt);
      assert objects == before && history == was;
      received := [];
      if collected.Failure? {
        return Failure(collected.error), received;
      }
      received := collected.value.1;
      var metadata := Commit(op, collected.value.1, collected.value.0, request);
      return Success(metadata), received;
    }

    /** `_lookup` */
    method Lookup(op: Operation, ghost request: Request) returns (r: Option<Store.Stored>)
      requires Valid() && ReadsReference(p, op.input, request)
      ensures r == Store.Locate(objects, op.resource, TargetOf(request))
      ensures r.Some? <==> Store.Names(h, Model(), op.resource, TargetOf(request))
      ensures r.Some? ==> Describes(h, Model(), op.resource, TargetOf(request), r.value.metadata, r.value.data)
    {
      var reference := ParseLogical(p, FindOrNull(op.input, "reference").fields).value.Target();
      var stored := Dictionary.Get(objects, Store.KeyOf(op.resource, reference.objectId));
      Store.RunRefines(h, history);
      Store.LocateRefines(h, objects, op.resource, reference);
      if stored.None? || (reference.digest.Some? && reference.digest.value != stored.value.metadata.digest) {
        return None;
      }
      return stored;
    }

    /** The reply to a get hands out a replayable handle on the object's bytes, with their length and digest. */
    method Get(op: Operation, payloads: PayloadRegistry, random: seq<byte>, ghost request: Request)
      returns (r: Result<Reply, TargetError>)
      requires Valid() && ReadsReference(p, op.input, request)
      requires |random| == Base64Url.TOKEN_BYTES
      modifies payloads
      ensures AnswersGet(h, World(Model(), old(payloads.sources)), World(Model(), payloads.sources), random,
                         TargetOf(request), op.resource, r)
      ensures r.Success? ==> fresh(payloads.Footprint(Base64Url.MintToken(random)))
    {
      var stored := Lookup(op, request);
      if stored.None? {
        return Failure(NotFound);
      }
      var reply := IssueContent(payloads, random, stored.value);
      return Success(reply);
    }

    method Stat(op: Operation, ghost request: Request) returns (r: Result<Reply, TargetError>)
      requires Valid() && ReadsReference(p, op.input, request)
      ensures AnswersStat(h, Model(), TargetOf(request), op.resource, r)
    {
      var stored := Lookup(op, request);
      if stored.None? {
        return Failure(NotFound);
      }
      return Success(Status(stored.value.metadata));
    }

    /** The reply to a range read hands out exactly the slice the resolved range cuts. */
    method ReadRange(op: Operation, payloads: PayloadRegistry, random: seq<byte>, ghost request: Request)
      returns (r: Result<Reply, TargetError>)
      requires Valid() && ReadsRange(p, op.input, request)
      requires |random| == Base64Url.TOKEN_BYTES
      modifies payloads
      ensures AnswersRange(h, World(Model(), old(payloads.sources)), World(Model(), payloads.sources), random,
                           request.range, TargetOf(request), op.resource, r)
      ensures r.Success? ==> fresh(payloads.Footprint(Base64Url.MintToken(random)))
    {
      var found := Lookup(op, request);
      if found.None? {
        return Failure(NotFound);
      }
      var selected := RangeFromFields(FindOrNull(op.input, "range").fields).value;
      r := IssuePart(payloads, random, selected, found.value);
    }

    /** The first `limit` objects of the resource, in id order, whose ids have the prefix. */
    method List(op: Operation, ghost request: Request) returns (r: Reply, ghost ids: seq<string>)
      requires Valid() && ReadsList(op.input, request)
      ensures r.Page? && Store.IsPage(h, Model(), op.resource, request.prefix, request.limit, ids, r.items)
    {
      var prefix, limit := FindOrNull(op.input, "prefix").s, FindOrNull(op.input, "limit").n;
      r := Page(Store.ListItems(objects, op.resource, prefix, limit));
      Store.RunRefines(h, history);
      Store.ListRefines(h, objects, op.resource, prefix, limit);
      ids := Map(Store.IdOf, Store.Listing(objects, op.resource, prefix));
    }

    /** A delete removes exactly the one object with its id and digest, or nothing at all. */
    method Delete(op: Operation, ghost request: Request) returns (r: Result<Reply, TargetError>)
      requires Valid() && ReadsDelete(p, op.input, op.resource, request)
      modifies this
      ensures Valid()
      ensures AnswersDelete(h, old(Model()), Model(), request.version, op.resource, r)
      ensures r.Failure? ==> objects == old(objects)
      ensures history
              == if r.Success? then old(history) + [Store.Remove(op.resource, request.version)] else old(history)
    {
      ghost var was, before := history, objects;
      var stored := Lookup(op, request);
      if stored.None? {
        return Failure(NotFound);
      }
      var key := Store.KeyOf(op.resource, stored.value.metadata.reference.objectId);
      objects := Dictionary.Del(objects, key);
      Record(was, before, Store.Remove(op.resource, request.version));
      return Success(Deleted);
    }

    /** The transfer a put makes ends. */
    ghost predicate Ready(payloads: PayloadRegistry, request: Request, resource: ResourceRef, attempt: Attempted)
      reads this, payloads, if request.Put? then payloads.Footprint(request.payload.token) else {}
    {
      request.Put? ==>
        && attempt == payloads.Attempt(request.payload)
        && (attempt.Success? && !Taken(Model(), request, resource) ==>
              Halts(MemoryRun(attempt.value, UPLOAD_CHUNK, request.payload.expectedLength)))
    }

    /** The handler of a method that changes no object. */
    method HandleReader(op: Operation, payloads: PayloadRegistry, random: seq<byte>, ghost request: Request)
      returns (r: Result<Reply, TargetError>)
      requires Valid() && Executable(p, MethodOf(op.contract), op, request) && |random| == Base64Url.TOKEN_BYTES
      requires !request.Put? && !request.Delete?
      modifies payloads
      ensures Answers(h, World(Model(), old(payloads.sources)), World(Model(), payloads.sources), random,
                      MethodOf(op.contract), request, op.resource, Failure(Unavailable), r)
      ensures Issues(r) ==> fresh(payloads.Footprint(Base64Url.MintToken(random)))
    {
      var name := MethodOf(op.contract);
      if name == "get" {
        r := Get(op, payloads, random, request);
      } else if name == "stat" {
        r := Stat(op, request);
      } else if name == "read_range" {
        r := ReadRange(op, payloads, random, request);
      } else {
        var page, ids := List(op, request);
        r := Success(page);
      }
    }

    lemma ReadersMakeNoAttempt(before: World, after: World, random: seq<byte>, verb: string, request: Request,
                               resource: ResourceRef, attempt: Attempted, r: Result<Reply, TargetError>)
      requires |random| == Base64Url.TOKEN_BYTES && !request.Put?
      requires Answers(h, before, after, random, verb, request, resource, Failure(Unavailable), r)
      ensures Answers(h, before, after, random, verb, request, resource, attempt, r)
    {
    }

    lemma NamesTellRequests(op: Operation, request: Request)
      requires Executable(p, MethodOf(op.contract), op, request)
      ensures MethodOf(op.contract) == "put" <==> request.Put?
      ensures MethodOf(op.contract) == "delete" <==> request.Delete?
      ensures request.Put? ==> ReadsPut(op.input, request)
      ensures request.Delete? ==> ReadsDelete(p, op.input, op.resource, request)
    {
    }

    lemma PutIsAnswer(before: World, after: World, random: seq<byte>, verb: string, request: Request,
                      resource: ResourceRef, attempt: Attempted, r: Result<Reply, TargetError>)
      requires |random| == Base64Url.TOKEN_BYTES && request.Put?
      requires AnswersPut(h, before, after, request, resource, attempt, r)
      ensures Answers(h, before, after, random, verb, request, resource, attempt, r) && !Issues(r)
    {
    }

    lemma DeleteIsAnswer(before: World, after: World, random: seq<byte>, verb: string, request: Request,
                         resource: ResourceRef, attempt: Attempted, r: Result<Reply, TargetError>)
      requires |random| == Base64Url.TOKEN_BYTES && request.Delete? && after.sources == before.sources
      requires AnswersDelete(h, before.model, after.model, request.version, resource, r)
      ensures Answers(h, before, after, random, verb, request, resource, attempt, r) && !Issues(r)
    {
    }

    /** `execute`: dispatches on the operation contract. Whatever the operation, the plain map, the registry,
        and the reply are those of the method's meaning; an operation of no data method is refused. */
    method Execute(op: Operation, payloads: PayloadRegistry, random: seq<byte>, ghost request: Request,
                   ghost attempt: Attempted)
      returns (r: Result<Reply, TargetError>)
      requires Valid() && |random| == Base64Url.TOKEN_BYTES
      requires MethodOf(op.contract) in DATA_METHODS ==> Executable(p, MethodOf(op.contract), op, request)
      requires Ready(payloads, request, op.resource, attempt)
      modifies this, payloads, if request.Put? then payloads.Footprint(request.payload.token) else {}
      ensures Valid()
      ensures if MethodOf(op.contract) !in DATA_METHODS then
                r == Failure(CannotExecute) && payloads.sources == old(payloads.sources)
              else
                Answers(h, World(old(Model()), old(payloads.sources)), World(Model(), payloads.sources), random,
                        MethodOf(op.contract), request, op.resource, attempt, r)
      ensures r.Failure? ==> objects == old(objects)
      ensures Issues(r) ==> fresh(payloads.Footprint(Base64Url.MintToken(random)))
    {
      if MethodOf(op.contract) !in DATA_METHODS {
        return Failure(CannotExecute);
      }
      ghost var before := World(Model(), payloads.sources);
      NamesTellRequests(op, request);
      if MethodOf(op.contract) == "put" {
        r := Put(op, payloads, request, attempt);
        PutIsAnswer(before, World(Model(), payloads.sources), random, MethodOf(op.contract), request, op.resource,
                    attempt, r);
      } else if MethodOf(op.contract) == "delete" {
        r := Delete(op, request);
        DeleteIsAnswer(before, World(Model(), payloads.sources), random, MethodOf(op.contract), request, op.resource,
                       attempt, r);
      } else {
        r := HandleReader(op, payloads, random, request);
        ReadersMakeNoAttempt(before, World(Model(), payloads.sources), random, MethodOf(op.contract), request,
                             op.resource, attempt, r);
      }
    }
  }
}
