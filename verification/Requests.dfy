/** What the arguments of each data method mean, and how a request is written back into them. */
module Requests {
  import opened Basics
  import opened Core
  import opened Validation
  import opened References
  import opened Handles
  import opened Ranges
  import opened Signed

  datatype Request =
    | Put(payload: PayloadReference, objectId: string, mediaType: string, metadata: Fields, creationContext: Fields,
          provenance: Fields, immutability: Option<Immutability>, retention: Option<Retention>, createOnly: bool)
    | Read(reference: LogicalReference)
    | ReadRange(reference: LogicalReference, range: ByteRange)
    | List(prefix: string, limit: int)
    | Delete(version: ObjectReference)

  const DATA_METHODS: set<string> := {"put", "get", "stat", "read_range", "list", "delete"}

  // ---- References ----

  /** The reference a method may use: parsed, permitted for the method when signed, digest-pinned when
      plain and the method demands it, and in the target resource. */
  function SelectReference(p: Platform, raw: Json, resource: ResourceRef, verb: string, requireDigest: bool)
    : Option<LogicalReference>
  {
    if !raw.Obj? then None
    else
      var parsed := ParseLogical(p, raw.fields);
      if parsed.None? then None
      else if parsed.value.SignedRef? && verb !in parsed.value.signed.operations then None
      else if parsed.value.Plain? && requireDigest && parsed.value.ref.digest.None? then None
      else if parsed.value.Target().resource != resource then None
      else parsed
  }

  lemma SelectReferenceIsIdempotent(p: Platform, raw: Json, resource: ResourceRef, verb: string, requireDigest: bool)
    requires SelectReference(p, raw, resource, verb, requireDigest).Some?
    ensures var r := SelectReference(p, raw, resource, verb, requireDigest);
            SelectReference(p, Obj(LogicalToFields(r.value)), resource, verb, requireDigest) == r
  {
    LogicalRoundTrip(p, raw.fields);
  }

  // ---- Put ----

  const PUT_FIELDS: set<string> := {
    "resource", "objectId", "payload", "mediaType", "expectedDigest", "expectedLength", "userMetadata",
    "creationContext", "provenance", "immutability", "retention", "createOnly"
  }

  /** The payload handle with the put's own expectations, which must not contradict the handle's. */
  function MergePayload(raw: Json, expectedDigest: Json, expectedLength: Json): (r: Option<PayloadReference>)
    ensures r.Some? ==> IsPayload(r.value)
  {
    var payload := if raw.Obj? then PayloadFromFields(raw.fields) else None;
    var digest, length := DigestFromJson(expectedDigest), LengthFromJson(expectedLength);
    if payload.None? || digest.None? || length.None? then None
    else if payload.value.expectedDigest.Some? && payload.value.expectedDigest != digest.value then None
    else if payload.value.expectedLength.Some? && payload.value.expectedLength != length.value then None
    else Some(PayloadReference(payload.value.token, length.value, digest.value, payload.value.replayable))
  }

  lemma MergeIsIdempotent(raw: Json, expectedDigest: Json, expectedLength: Json)
    requires MergePayload(raw, expectedDigest, expectedLength).Some?
    ensures var m := MergePayload(raw, expectedDigest, expectedLength);
            MergePayload(Obj(PayloadToFields(m.value)), expectedDigest, expectedLength) == m
  {
    PayloadRoundTrip(MergePayload(raw, expectedDigest, expectedLength).value);
  }

  /** An absent, null, or well-formed immutability intent. */
  function ImmutabilityFromJson(v: Json): Option<Option<Immutability>> {
    match v
    case Null => Some(None)
    case Obj(fields) =>
      var i := ImmutabilityFromFields(fields);
      if i.Some? then Some(i) else None
    case _ => None
  }

  function ImmutabilityToJson(i: Option<Immutability>): Json {
    if i.Some? then Obj(ImmutabilityToFields(i.value)) else Null
  }

  function RetentionFromJson(p: Platform, v: Json): Option<Option<Retention>> {
    match v
    case Null => Some(None)
    case Obj(fields) =>
      var r := RetentionFromFields(p, fields);
      if r.Some? then Some(r) else None
    case _ => None
  }

  function RetentionToJson(r: Option<Retention>): Json {
    if r.Some? then Obj(RetentionToFields(r.value)) else Null
  }

  lemma PolicyRoundTrips(p: Platform, i: Json, r: Json)
    ensures ImmutabilityFromJson(i).Some? ==>
              ImmutabilityFromJson(ImmutabilityToJson(ImmutabilityFromJson(i).value)) == ImmutabilityFromJson(i)
    ensures RetentionFromJson(p, r).Some? ==>
              RetentionFromJson(p, RetentionToJson(RetentionFromJson(p, r).value)) == RetentionFromJson(p, r)
  {
    if ImmutabilityFromJson(i).Some? && i.Obj? {
      ImmutabilityRoundTrip(ImmutabilityFromJson(i).value.value);
    }
    if RetentionFromJson(p, r).Some? && r.Obj? {
      RetentionRoundTrip(p, RetentionFromJson(p, r).value.value);
    }
  }

  predicate IsUserMetadata(v: Json) {
    IsStringMapping(v, 128, 128, 2048)
  }

  /** The arguments of a put, as found in its dictionary. */
  datatype PutValues = PutValues(
    payload: Json, expectedDigest: Json, expectedLength: Json, objectId: Json, mediaType: Json, metadata: Json,
    creationContext: Json, provenance: Json, immutability: Json, retention: Json, createOnly: Json)

  function PutValuesOf(fields: Fields): PutValues {
    PutValues(
      FindOrNull(fields, "payload"), FindOrNull(fields, "expectedDigest"), FindOrNull(fields, "expectedLength"),
      FindOrNull(fields, "objectId"), FindOrNull(fields, "mediaType"), FindOrNull(fields, "userMetadata"),
      FindOrNull(fields, "creationContext"), FindOrNull(fields, "provenance"), FindOrNull(fields, "immutability"),
      FindOrNull(fields, "retention"), FindOrNull(fields, "createOnly"))
  }

  function PutFromValues(p: Platform, v: PutValues, resource: ResourceRef): Option<Request> {
    var payload := MergePayload(v.payload, v.expectedDigest, v.expectedLength);
    var immutability, retention := ImmutabilityFromJson(v.immutability), RetentionFromJson(p, v.retention);
    if payload.None? || !IsMediaType(v.mediaType) || !IsBoundedString(v.objectId, 1024) then None
    else if !ValidReference(PutReference(resource, v.objectId.s, payload.value.expectedDigest)) then None
    else if !IsUserMetadata(v.metadata) || !v.creationContext.Obj? || !v.provenance.Obj? then None
    else if immutability.None? || retention.None? || !v.createOnly.Bool? then None
    else
      Some(Put(payload.value, v.objectId.s, v.mediaType.s, SortedEntries(v.metadata.fields), v.creationContext.fields,
               v.provenance.fields, immutability.value, retention.value, v.createOnly.b))
  }

  function PutFromFields(p: Platform, fields: Fields, resource: ResourceRef): Option<Request> {
    if ExactFields(fields, PUT_FIELDS, {}) then PutFromValues(p, PutValuesOf(fields), resource) else None
  }

  /** The reference an upload commits: its resource is always an object resource. */
  function PutReference(resource: ResourceRef, objectId: string, digest: Option<string>): ObjectReference {
    ObjectReference(ResourceRef(OBJECT_CATALOG, resource.namespace, resource.name), objectId, digest)
  }

  // ---- The other methods ----

  function ReadFromFields(p: Platform, verb: string, fields: Fields, resource: ResourceRef): Option<Request> {
    var r := SelectReference(p, FindOrNull(fields, "reference"), resource, verb, false);
    if ExactFields(fields, {"resource", "reference"}, {}) && r.Some? then Some(Read(r.value)) else None
  }

  function RangeRequestFromFields(p: Platform, fields: Fields, resource: ResourceRef): Option<Request> {
    var r := SelectReference(p, FindOrNull(fields, "reference"), resource, "read_range", false);
    var raw := FindOrNull(fields, "range");
    if !ExactFields(fields, {"resource", "reference", "range"}, {}) || r.None? || !raw.Obj? then None
    else
      var range := RangeFromFields(raw.fields);
      if range.Some? then Some(ReadRange(r.value, range.value)) else None
  }

  predicate IsPrefix(v: Json) {
    v.Str? && Utf8Length(v.s) <= 1024 && Printable(v.s)
  }

  function ListFromFields(fields: Fields): Option<Request> {
    var prefix, limit := FindOrNull(fields, "prefix"), FindOrNull(fields, "limit");
    var cursor := FindOrNull(fields, "cursor");
    if ExactFields(fields, {"resource", "prefix", "limit", "cursor", "purpose"}, {}) && IsPrefix(prefix)
       && limit.Int? && 1 <= limit.n <= 1000 && (cursor.Null? || IsBoundedString(cursor, 2048))
       && FindOrNull(fields, "purpose") == Str("maintenance")
    then Some(List(prefix.s, limit.n))
    else None
  }

  function DeleteFromFields(p: Platform, fields: Fields, resource: ResourceRef): Option<Request> {
    var r := SelectReference(p, FindOrNull(fields, "reference"), resource, "delete", true);
    var reason := FindOrNull(fields, "reason");
    if ExactFields(fields, {"resource", "reference", "reason"}, {}) && r.Some?
       && (reason.Null? || IsBoundedString(reason, 1024))
    then
      Some(Delete(r.value.Target()))
    else None
  }

  /** The value belonging to a data method. */
  function ForMethod<T>(verb: string, put: T, read: T, readRange: T, list: T, delete: T): T {
    if verb == "put" then put
    else if verb == "get" || verb == "stat" then read
    else if verb == "read_range" then readRange
    else if verb == "list" then list
    else delete
  }

  /** The request a data method's arguments make, if they are acceptable. */
  function RequestFromFields(p: Platform, verb: string, fields: Fields, resource: ResourceRef): Option<Request>
    requires verb in DATA_METHODS
  {
    ForMethod(verb, PutFromFields(p, fields, resource), ReadFromFields(p, verb, fields, resource),
              RangeRequestFromFields(p, fields, resource), ListFromFields(fields),
              DeleteFromFields(p, fields, resource))
  }

  lemma SelectedReference(p: Platform, raw: Json, resource: ResourceRef, verb: string, requireDigest: bool)
    requires SelectReference(p, raw, resource, verb, requireDigest).Some?
    ensures var r := SelectReference(p, raw, resource, verb, requireDigest).value;
            && ValidLogical(p, r) && r.Target().resource == resource
            && (r.SignedRef? ==> verb in SIGNABLE && r.Target().digest.Some?)
            && (r.Plain? && requireDigest ==> r.ref.digest.Some?)
  {
    var r := SelectReference(p, raw, resource, verb, requireDigest).value;
    if r.SignedRef? {
      SignedPermitsReadsOnly(p, r.signed, verb);
    }
  }

  lemma DeleteIsNotSignable(verb: string)
    requires verb == "delete"
    ensures verb !in SIGNABLE
  {
  }

  /** A delete that is accepted names one exact version by a plain reference in the target resource: no
      signed reference ever permits it. */
  lemma DeletesAreExact(p: Platform, fields: Fields, resource: ResourceRef)
    requires DeleteFromFields(p, fields, resource).Some?
    ensures var version := DeleteFromFields(p, fields, resource).value.version;
            && IsPinned(version) && version.resource == resource
            && SelectReference(p, FindOrNull(fields, "reference"), resource, "delete", true) == Some(Plain(version))
  {
    SelectedReference(p, FindOrNull(fields, "reference"), resource, "delete", true);
    DeleteIsNotSignable("delete");
  }

  // ---- Writing a request back ----

  /** The normalized value of the argument `name`, given the request its siblings make. */
  function Rendered(request: Request, name: string, value: Json): Json {
    match request
    case Put(payload, _, _, metadata, _, _, immutability, retention, _) =>
      if name == "payload" then Obj(PayloadToFields(payload))
      else if name == "userMetadata" then Obj(metadata)
      else if name == "immutability" then ImmutabilityToJson(immutability)
      else if name == "retention" then RetentionToJson(retention)
      else value
    case Read(reference) => if name == "reference" then Obj(LogicalToFields(reference)) else value
    case ReadRange(reference, range) =>
      if name == "reference" then Obj(LogicalToFields(reference))
      else if name == "range" && ValidRange(range) then Obj(RangeToFields(range))
      else value
    case List(_, _) => value
    case Delete(version) => if name == "reference" then Obj(ReferenceToFields(version)) else value
  }

  function RenderedEntry(request: Request, entry: (Key, Json)): (Key, Json) {
    match entry.0
    case Name(text) => (entry.0, Rendered(request, text, entry.1))
    case Opaque(_) => entry
  }

  /** The arguments with every value normalized in its place. */
  function Render(request: Request, fields: Fields): (r: Fields)
    ensures |r| == |fields|
    ensures forall i :: 0 <= i < |r| ==> r[i] == RenderedEntry(request, fields[i])
  {
    seq(|fields|, i requires 0 <= i < |fields| => RenderedEntry(request, fields[i]))
  }

  lemma RenderKeepsKeys(request: Request, fields: Fields)
    ensures Keys(Render(request, fields)) == Keys(fields)
    ensures DistinctKeys(fields) ==> DistinctKeys(Render(request, fields))
  {
    var r := Render(request, fields);
    forall k | k in Keys(fields) ensures k in Keys(r) {
      var i :| 0 <= i < |fields| && fields[i].0 == k;
      assert r[i].0 == k;
    }
  }

  lemma RenderFind(request: Request, fields: Fields, name: string)
    requires DistinctKeys(fields) && Name(name) in Keys(fields)
    ensures FindOrNull(Render(request, fields), name) == Rendered(request, name, FindOrNull(fields, name))
  {
    RenderKeepsKeys(request, fields);
    var i :| 0 <= i < |fields| && fields[i].0 == Name(name);
    FindAt(fields, i);
    FindAt(Render(request, fields), i);
  }

  lemma RenderIsIdempotent(request: Request, fields: Fields)
    ensures Render(request, Render(request, fields)) == Render(request, fields)
  {
  }
}
