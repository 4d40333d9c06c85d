/** Normalization of Object Catalog Expressions into Operations. */
module Catalog {
  import opened Basics
  import opened Core
  import opened Validation
  import opened References
  import opened Handles
  import opened Ranges
  import opened Signed
  import opened Requests
  import opened Registry

  datatype Expression = Expression(catalog: string, verb: string, arguments: Fields)

  datatype Requirement = Requirement(guarantees: set<string>, minimumLimits: map<string, int>)

  datatype Operation = Operation(
    contract: string,
    resource: ResourceRef,
    input: Fields,
    requirements: Option<Requirement>,
    readOnly: bool,
    idempotent: bool)

  datatype NormalizeError = WrongCatalog | UnsupportedMethod | InvalidArguments

  const GUARANTEE_CONDITIONAL_CREATE := "object.conditional-create"
  const GUARANTEE_IMMUTABILITY_INTENT := "object.immutability-intent"
  const GUARANTEE_RETENTION_INTENT := "object.retention-intent"
  const GUARANTEE_RETENTION_ENFORCEMENT := "object.retention-enforcement"
  const GUARANTEE_SIGNED_REFERENCE := "object.signed-reference"

  const LIMIT_MAX_OBJECT_BYTES := "object.max-object-bytes"
  const LIMIT_MAX_RANGE_BYTES := "object.max-range-bytes"
  const LIMIT_MAX_LIST_PAGE_SIZE := "object.max-list-page-size"
  const LIMIT_MAX_USER_METADATA_ENTRIES := "object.max-user-metadata-entries"

  const CONTRACT_PREFIX := "meridian.object."
  const READ_ONLY_METHODS: set<string> := {"get", "stat", "read_range", "list"}

  // ---- What a request asks of an adapter ----

  datatype Effects = Effects(guarantees: set<string>, limits: map<string, int>, idempotent: bool)

  function SignedGuarantee(reference: LogicalReference): set<string> {
    if reference.SignedRef? then {GUARANTEE_SIGNED_REFERENCE} else {}
  }

  function ImmutabilityGuarantees(i: Option<Immutability>): set<string> {
    if i.Some? && i.value.mutability == "immutable" then {GUARANTEE_IMMUTABILITY_INTENT} else {}
  }

  function RetentionGuarantees(r: Option<Retention>): set<string> {
    if r.None? then {}
    else if r.value.requireEnforcement then {GUARANTEE_RETENTION_INTENT} + {GUARANTEE_RETENTION_ENFORCEMENT}
    else {GUARANTEE_RETENTION_INTENT}
  }

  function PolicyGuarantees(immutability: Option<Immutability>, retention: Option<Retention>,
                            createOnly: bool): set<string> {
    ImmutabilityGuarantees(immutability) + RetentionGuarantees(retention)
    + if createOnly then {GUARANTEE_CONDITIONAL_CREATE} else {}
  }

  function EffectsOf(request: Request): Effects {
    match request
    case Put(payload, _, _, metadata, _, _, immutability, retention, createOnly) =>
      var limits := map[LIMIT_MAX_USER_METADATA_ENTRIES := |metadata|];
      Effects(
        PolicyGuarantees(immutability, retention, createOnly),
        if payload.expectedLength.Some? then limits[LIMIT_MAX_OBJECT_BYTES := payload.expectedLength.value] else limits,
        createOnly || payload.expectedDigest.Some?)
    case Read(reference) => Effects(SignedGuarantee(reference), map[], true)
    case ReadRange(reference, range) =>
      var length := if ValidRange(range) then RequestedLength(range) else None;
      Effects(
        SignedGuarantee(reference),
        if length.Some? then map[LIMIT_MAX_RANGE_BYTES := length.value] else map[],
        true)
    case List(_, limit) => Effects({}, map[LIMIT_MAX_LIST_PAGE_SIZE := limit], true)
    case Delete(_) => Effects({}, map[], true)
  }

  function RequirementsOf(e: Effects): Option<Requirement> {
    if e.guarantees == {} && e.limits == map[] then None else Some(Requirement(e.guarantees, e.limits))
  }

  // ---- Normalization on values ----

  /** The operation a method of the registry stands for; it requires nothing of an adapter. */
  function NormalizedRegistry(p: Platform, verb: string, arguments: Fields): Result<Operation, NormalizeError> {
    var left := RegistryArguments(p, verb, arguments);
    if left.None? then Failure(InvalidArguments)
    else Success(Operation(CONTRACT_PREFIX + verb, REGISTRY_REF, left.value, None, false, true))
  }

  /** The operation a data method stands for. */
  function NormalizedData(p: Platform, verb: string, arguments: Fields): Result<Operation, NormalizeError>
    requires verb in DATA_METHODS
  {
    var resource := p.parseResource(FindOrNull(arguments, "resource"));
    if resource.None? then Failure(InvalidArguments)
    else
      var request := RequestFromFields(p, verb, arguments, resource.value);
      if request.None? then Failure(InvalidArguments)
      else
        var effects := EffectsOf(request.value);
        Success(Operation(CONTRACT_PREFIX + verb, resource.value, Render(request.value, arguments),
                          RequirementsOf(effects), verb in READ_ONLY_METHODS, effects.idempotent))
  }

  /** The operation an expression stands for. */
  function Normalized(p: Platform, e: Expression): Result<Operation, NormalizeError> {
    if e.catalog != OBJECT_CATALOG then Failure(WrongCatalog)
    else if e.verb !in DATA_METHODS && e.verb !in REGISTRY_METHODS then Failure(UnsupportedMethod)
    else if !AcceptsTree(p, Obj(e.arguments)) then Failure(InvalidArguments)
    else if e.verb in REGISTRY_METHODS then NormalizedRegistry(p, e.verb, e.arguments)
    else NormalizedData(p, e.verb, e.arguments)
  }

  lemma MethodsAreApart(verb: string)
    requires verb in DATA_METHODS
    ensures verb !in REGISTRY_METHODS
  {
  }

  // ---- Idempotence ----

  lemma SortedMetadataIsMetadata(v: Json)
    requires v.Obj? && IsUserMetadata(v) && DistinctKeys(v.fields)
    ensures IsUserMetadata(Obj(SortedEntries(v.fields)))
    ensures SortedEntries(SortedEntries(v.fields)) == SortedEntries(v.fields)
  {
    PermutedEntriesStayStrings(v.fields, SortedEntries(v.fields), 128, 2048);
    SortedEntriesAscend(v.fields);
  }

  lemma RenderKeepsExactFields(request: Request, fields: Fields, required: set<string>)
    requires ExactFields(fields, required, {})
    ensures ExactFields(Render(request, fields), required, {})
  {
    RenderKeepsKeys(request, fields);
  }

  /** Arguments a put leaves as they are. */
  lemma PutScalarsStay(request: Request, fields: Fields)
    requires request.Put? && DistinctKeys(fields) && ExactFields(fields, PUT_FIELDS, {})
    ensures var f := Render(request, fields);
            && FindOrNull(f, "objectId") == FindOrNull(fields, "objectId")
            && FindOrNull(f, "mediaType") == FindOrNull(fields, "mediaType")
            && FindOrNull(f, "expectedDigest") == FindOrNull(fields, "expectedDigest")
            && FindOrNull(f, "expectedLength") == FindOrNull(fields, "expectedLength")
            && FindOrNull(f, "creationContext") == FindOrNull(fields, "creationContext")
            && FindOrNull(f, "provenance") == FindOrNull(fields, "provenance")
            && FindOrNull(f, "createOnly") == FindOrNull(fields, "createOnly")
  {
    RenderFind(request, fields, "objectId");
    RenderFind(request, fields, "mediaType");
    RenderFind(request, fields, "expectedDigest");
    RenderFind(request, fields, "expectedLength");
    RenderFind(request, fields, "creationContext");
    RenderFind(request, fields, "provenance");
    RenderFind(request, fields, "createOnly");
  }

  lemma PutObjectsRender(request: Request, fields: Fields)
    requires request.Put? && DistinctKeys(fields) && ExactFields(fields, PUT_FIELDS, {})
    ensures var f := Render(request, fields);
            && FindOrNull(f, "payload") == Obj(PayloadToFields(request.payload))
            && FindOrNull(f, "userMetadata") == Obj(request.metadata)
            && FindOrNull(f, "immutability") == ImmutabilityToJson(request.immutability)
            && FindOrNull(f, "retention") == RetentionToJson(request.retention)
  {
    RenderFind(request, fields, "payload");
    RenderFind(request, fields, "userMetadata");
    RenderFind(request, fields, "immutability");
    RenderFind(request, fields, "retention");
  }

  lemma FoundValueIsWellFormed(fields: Fields, name: string)
    requires WellFormed(Obj(fields))
    ensures WellFormed(FindOrNull(fields, name))
  {
    var r := Find(fields, name);
    if r.Some? {
      var i :| 0 <= i < |fields| && fields[i] == (Name(name), r.value);
      assert WellFormed(fields[i].1);
    }
  }

  lemma PutIsIdempotent(p: Platform, fields: Fields, resource: ResourceRef)
    requires WellFormed(Obj(fields)) && PutFromFields(p, fields, resource).Some?
    ensures var request := PutFromFields(p, fields, resource).value;
            PutFromFields(p, Render(request, fields), resource) == Some(request)
  {
    var request := PutFromFields(p, fields, resource).value;
    RenderKeepsExactFields(request, fields, PUT_FIELDS);
    PutScalarsStay(request, fields);
    PutObjectsRender(request, fields);
    MergeIsIdempotent(FindOrNull(fields, "payload"), FindOrNull(fields, "expectedDigest"),
                      FindOrNull(fields, "expectedLength"));
    PolicyRoundTrips(p, FindOrNull(fields, "immutability"), FindOrNull(fields, "retention"));
    FoundValueIsWellFormed(fields, "userMetadata");
    SortedMetadataIsMetadata(FindOrNull(fields, "userMetadata"));
  }

  lemma ReadIsIdempotent(p: Platform, verb: string, fields: Fields, resource: ResourceRef)
    requires DistinctKeys(fields) && ReadFromFields(p, verb, fields, resource).Some?
    ensures var request := ReadFromFields(p, verb, fields, resource).value;
            ReadFromFields(p, verb, Render(request, fields), resource) == Some(request)
  {
    var request := ReadFromFields(p, verb, fields, resource).value;
    RenderKeepsExactFields(request, fields, {"resource", "reference"});
    RenderFind(request, fields, "reference");
    SelectReferenceIsIdempotent(p, FindOrNull(fields, "reference"), resource, verb, false);
  }

  lemma RangeRequestFrom(p: Platform, f: Fields, resource: ResourceRef, ref: Json, range: Fields)
    requires ExactFields(f, {"resource", "reference", "range"}, {})
    requires FindOrNull(f, "reference") == ref && FindOrNull(f, "range") == Obj(range)
    requires SelectReference(p, ref, resource, "read_range", false).Some? && RangeFromFields(range).Some?
    ensures RangeRequestFromFields(p, f, resource)
            == Some(ReadRange(SelectReference(p, ref, resource, "read_range", false).value,
                              RangeFromFields(range).value))
  {
  }

  lemma RangeRequestIsIdempotent(p: Platform, fields: Fields, resource: ResourceRef)
    requires DistinctKeys(fields) && RangeRequestFromFields(p, fields, resource).Some?
    ensures var request := RangeRequestFromFields(p, fields, resource).value;
            RangeRequestFromFields(p, Render(request, fields), resource) == Some(request)
  {
    var request := RangeRequestFromFields(p, fields, resource).value;
    var f := Render(request, fields);
    RenderKeepsExactFields(request, fields, {"resource", "reference", "range"});
    RenderFind(request, fields, "reference");
    RenderFind(request, fields, "range");
    SelectReferenceIsIdempotent(p, FindOrNull(fields, "reference"), resource, "read_range", false);
    RangeRoundTrip(request.range);
    RangeRequestFrom(p, f, resource, Obj(LogicalToFields(request.reference)), RangeToFields(request.range));
  }

  lemma ListIsIdempotent(fields: Fields)
    requires DistinctKeys(fields) && ListFromFields(fields).Some?
    ensures Render(ListFromFields(fields).value, fields) == fields
  {
  }

  lemma DeleteFrom(p: Platform, f: Fields, resource: ResourceRef, version: ObjectReference)
    requires ExactFields(f, {"resource", "reference", "reason"}, {})
    requires SelectReference(p, FindOrNull(f, "reference"), resource, "delete", true) == Some(Plain(version))
    requires FindOrNull(f, "reason").Null? || IsBoundedString(FindOrNull(f, "reason"), 1024)
    ensures DeleteFromFields(p, f, resource) == Some(Delete(version))
  {
  }

  lemma DeleteRenders(request: Request, fields: Fields)
    requires request.Delete? && DistinctKeys(fields) && ExactFields(fields, {"resource", "reference", "reason"}, {})
    ensures FindOrNull(Render(request, fields), "reference") == Obj(ReferenceToFields(request.version))
    ensures FindOrNull(Render(request, fields), "reason") == FindOrNull(fields, "reason")
  {
    RenderFind(request, fields, "reference");
    RenderFind(request, fields, "reason");
  }

  lemma DeleteIsIdempotent(p: Platform, fields: Fields, resource: ResourceRef)
    requires DistinctKeys(fields) && DeleteFromFields(p, fields, resource).Some?
    ensures var request := DeleteFromFields(p, fields, resource).value;
            DeleteFromFields(p, Render(request, fields), resource) == Some(request)
  {
    var request := DeleteFromFields(p, fields, resource).value;
    DeletesAreExact(p, fields, resource);
    RenderKeepsExactFields(request, fields, {"resource", "reference", "reason"});
    DeleteRenders(request, fields);
    SelectReferenceIsIdempotent(p, FindOrNull(fields, "reference"), resource, "delete", true);
    DeleteFrom(p, Render(request, fields), resource, request.version);
  }

  /** The normalized arguments make the same request. */
  lemma RequestIsIdempotent(p: Platform, verb: string, fields: Fields, resource: ResourceRef)
    requires WellFormed(Obj(fields)) && verb in DATA_METHODS && RequestFromFields(p, verb, fields, resource).Some?
    ensures var request := RequestFromFields(p, verb, fields, resource).value;
            RequestFromFields(p, verb, Render(request, fields), resource) == Some(request)
  {
    if verb == "put" {
      PutIsIdempotent(p, fields, resource);
    } else if verb == "get" || verb == "stat" {
      ReadIsIdempotent(p, verb, fields, resource);
    } else if verb == "read_range" {
      RangeRequestIsIdempotent(p, fields, resource);
    } else if verb == "list" {
      ListIsIdempotent(fields);
    } else {
      DeleteIsIdempotent(p, fields, resource);
    }
  }

  // ---- The normalized arguments stay free of private keys ----

  lemma SortedMetadataIsPublic(p: Platform, fields: Fields)
    requires AcceptsTree(p, Obj(fields))
    ensures AcceptsTree(p, Obj(SortedEntries(fields)))
  {
    var r := SortedEntries(fields);
    forall i | 0 <= i < |r| ensures IsPublicKey(p, r[i].0) && AcceptsTree(p, r[i].1) {
      MemberFollowsMultiset(r, fields, r[i]);
      var j :| 0 <= j < |fields| && fields[j] == r[i];
    }
  }

  lemma MergedPayloadIsPublic(p: Platform, raw: Json, expectedDigest: Json, expectedLength: Json)
    requires MergePayload(raw, expectedDigest, expectedLength).Some? && AcceptsTree(p, raw)
    ensures AcceptsTree(p, Obj(PayloadToFields(MergePayload(raw, expectedDigest, expectedLength).value)))
  {
    CanonicalPayloadIsPublic(p, raw.fields, MergePayload(raw, expectedDigest, expectedLength).value);
  }

  lemma PolicyIsPublic(p: Platform, i: Json, r: Json)
    requires ImmutabilityFromJson(i).Some? && RetentionFromJson(p, r).Some?
    requires AcceptsTree(p, i) && AcceptsTree(p, r)
    ensures AcceptsTree(p, ImmutabilityToJson(ImmutabilityFromJson(i).value))
    ensures AcceptsTree(p, RetentionToJson(RetentionFromJson(p, r).value))
  {
    if i.Obj? { CanonicalImmutabilityIsPublic(p, i.fields, ImmutabilityFromJson(i).value.value); }
    if r.Obj? { CanonicalRetentionIsPublic(p, r.fields, RetentionFromJson(p, r).value.value); }
  }

  /** Everything a request writes into its arguments is free of private keys. */
  ghost predicate PartsArePublic(p: Platform, request: Request) {
    match request
    case Put(payload, _, _, metadata, _, _, immutability, retention, _) =>
      && AcceptsTree(p, Obj(PayloadToFields(payload))) && AcceptsTree(p, Obj(metadata))
      && AcceptsTree(p, ImmutabilityToJson(immutability)) && AcceptsTree(p, RetentionToJson(retention))
    case Read(reference) => AcceptsTree(p, Obj(LogicalToFields(reference)))
    case ReadRange(reference, range) =>
      AcceptsTree(p, Obj(LogicalToFields(reference)))
        && (ValidRange(range) ==> AcceptsTree(p, Obj(RangeToFields(range))))
    case List(_, _) => true
    case Delete(version) => AcceptsTree(p, Obj(ReferenceToFields(version)))
  }

  lemma PutPartsArePublic(p: Platform, fields: Fields, resource: ResourceRef)
    requires PutFromFields(p, fields, resource).Some? && AcceptsTree(p, Obj(fields))
    ensures PartsArePublic(p, PutFromFields(p, fields, resource).value)
  {
    var payload, digest := FindOrNull(fields, "payload"), FindOrNull(fields, "expectedDigest");
    var length, metadata := FindOrNull(fields, "expectedLength"), FindOrNull(fields, "userMetadata");
    var immutability, retention := FindOrNull(fields, "immutability"), FindOrNull(fields, "retention");
    PresentValueIsPublic(p, fields, "payload");
    PresentValueIsPublic(p, fields, "userMetadata");
    PresentValueIsPublic(p, fields, "immutability");
    PresentValueIsPublic(p, fields, "retention");
    MergedPayloadIsPublic(p, payload, digest, length);
    SortedMetadataIsPublic(p, metadata.fields);
    PolicyIsPublic(p, immutability, retention);
  }

  lemma RenderedIsPublic(p: Platform, request: Request, name: string, value: Json)
    requires PartsArePublic(p, request) && AcceptsTree(p, value)
    ensures AcceptsTree(p, Rendered(request, name, value))
  {
  }

  lemma CanonicalRangeIsPublic(p: Platform, fields: Fields)
    requires RangeFromFields(fields).Some? && AcceptsTree(p, Obj(fields))
    ensures AcceptsTree(p, Obj(RangeToFields(RangeFromFields(fields).value)))
  {
    RangeKeysPresent(fields);
    NoNewKeysIsPublic(p, fields, RangeToFields(RangeFromFields(fields).value));
  }

  lemma RangeKeysPresent(fields: Fields)
    requires RangeFromFields(fields).Some?
    ensures var f := RangeToFields(RangeFromFields(fields).value); Keys(f) <= Keys(fields) && Scalars(f)
  {
    PresentKey(fields, "end");
    PresentKey(fields, "suffixLength");
  }

  lemma SelectedReferenceIsPublic(p: Platform, raw: Json, resource: ResourceRef, verb: string, requireDigest: bool)
    requires SelectReference(p, raw, resource, verb, requireDigest).Some? && AcceptsTree(p, raw)
    ensures AcceptsTree(p, Obj(LogicalToFields(SelectReference(p, raw, resource, verb, requireDigest).value)))
  {
    CanonicalLogicalIsPublic(p, raw.fields);
  }

  lemma ReadPartsArePublic(p: Platform, verb: string, fields: Fields, resource: ResourceRef)
    requires ReadFromFields(p, verb, fields, resource).Some? && AcceptsTree(p, Obj(fields))
    ensures PartsArePublic(p, ReadFromFields(p, verb, fields, resource).value)
  {
    PresentValueIsPublic(p, fields, "reference");
    SelectedReferenceIsPublic(p, FindOrNull(fields, "reference"), resource, verb, false);
  }

  lemma RangePartsArePublic(p: Platform, fields: Fields, resource: ResourceRef)
    requires RangeRequestFromFields(p, fields, resource).Some? && AcceptsTree(p, Obj(fields))
    ensures PartsArePublic(p, RangeRequestFromFields(p, fields, resource).value)
  {
    PresentValueIsPublic(p, fields, "reference");
    PresentValueIsPublic(p, fields, "range");
    SelectedReferenceIsPublic(p, FindOrNull(fields, "reference"), resource, "read_range", false);
    CanonicalRangeIsPublic(p, FindOrNull(fields, "range").fields);
  }

  lemma DeletePartsArePublic(p: Platform, fields: Fields, resource: ResourceRef)
    requires DeleteFromFields(p, fields, resource).Some? && AcceptsTree(p, Obj(fields))
    ensures PartsArePublic(p, DeleteFromFields(p, fields, resource).value)
  {
    DeletesAreExact(p, fields, resource);
    PresentValueIsPublic(p, fields, "reference");
    SelectedReferenceIsPublic(p, FindOrNull(fields, "reference"), resource, "delete", true);
  }

  lemma ListPartsArePublic(p: Platform, fields: Fields)
    ensures ListFromFields(fields).Some? ==> PartsArePublic(p, ListFromFields(fields).value)
  {
  }

  lemma EveryMethod(p: Platform, verb: string, fields: Fields, resource: ResourceRef, ok: Request -> bool)
    requires verb in DATA_METHODS
    requires PutFromFields(p, fields, resource).Some? ==> ok(PutFromFields(p, fields, resource).value)
    requires ReadFromFields(p, verb, fields, resource).Some? ==> ok(ReadFromFields(p, verb, fields, resource).value)
    requires RangeRequestFromFields(p, fields, resource).Some? ==> ok(RangeRequestFromFields(p, fields, resource).value)
    requires DeleteFromFields(p, fields, resource).Some? ==> ok(DeleteFromFields(p, fields, resource).value)
    requires ListFromFields(fields).Some? ==> ok(ListFromFields(fields).value)
    ensures RequestFromFields(p, verb, fields, resource).Some? ==>
              ok(RequestFromFields(p, verb, fields, resource).value)
  {
  }

  lemma RequestPartsArePublic(p: Platform, verb: string, fields: Fields, resource: ResourceRef)
    requires verb in DATA_METHODS
    requires RequestFromFields(p, verb, fields, resource).Some? && AcceptsTree(p, Obj(fields))
    ensures PartsArePublic(p, RequestFromFields(p, verb, fields, resource).value)
  {
    if PutFromFields(p, fields, resource).Some? { PutPartsArePublic(p, fields, resource); }
    if ReadFromFields(p, verb, fields, resource).Some? { ReadPartsArePublic(p, verb, fields, resource); }
    if RangeRequestFromFields(p, fields, resource).Some? { RangePartsArePublic(p, fields, resource); }
    if DeleteFromFields(p, fields, resource).Some? { DeletePartsArePublic(p, fields, resource); }
    ListPartsArePublic(p, fields);
    EveryMethod(p, verb, fields, resource, r => PartsArePublic(p, r));
  }

  lemma RenderIsPublic(p: Platform, verb: string, fields: Fields, resource: ResourceRef)
    requires verb in DATA_METHODS
    requires RequestFromFields(p, verb, fields, resource).Some? && AcceptsTree(p, Obj(fields))
    ensures AcceptsTree(p, Obj(Render(RequestFromFields(p, verb, fields, resource).value, fields)))
  {
    var request := RequestFromFields(p, verb, fields, resource).value;
    var f := Render(request, fields);
    RequestPartsArePublic(p, verb, fields, resource);
    RenderKeepsKeys(request, fields);
    forall i | 0 <= i < |f| ensures AcceptsTree(p, f[i].1) {
      assert AcceptsTree(p, fields[i].1);
      if fields[i].0.Name? {
        RenderedIsPublic(p, request, fields[i].0.text, fields[i].1);
      }
    }
    NoNewKeysIsPublic(p, fields, f);
  }

  // ---- Main results ----

  lemma MissingFieldIsRefused(fields: Fields, required: set<string>, name: string)
    requires Name(name) !in Keys(fields) && name in required
    ensures !ExactFields(fields, required, {})
  {
  }

  lemma RequestNeedsResource(p: Platform, verb: string, fields: Fields, resource: ResourceRef)
    requires verb in DATA_METHODS && Name("resource") !in Keys(fields)
    ensures RequestFromFields(p, verb, fields, resource).None?
  {
    MissingFieldIsRefused(fields, PUT_FIELDS, "resource");
    MissingFieldIsRefused(fields, {"resource", "reference"}, "resource");
    MissingFieldIsRefused(fields, {"resource", "reference", "range"}, "resource");
    MissingFieldIsRefused(fields, {"resource", "reference", "reason"}, "resource");
    MissingFieldIsRefused(fields, {"resource", "prefix", "limit", "cursor", "purpose"}, "resource");
  }

  lemma RenderedResource(request: Request, value: Json)
    ensures Rendered(request, "resource", value) == value
  {
  }

  lemma ResourceStays(p: Platform, verb: string, fields: Fields, resource: ResourceRef)
    requires DistinctKeys(fields) && verb in DATA_METHODS && RequestFromFields(p, verb, fields, resource).Some?
    ensures FindOrNull(Render(RequestFromFields(p, verb, fields, resource).value, fields), "resource")
            == FindOrNull(fields, "resource")
  {
    if Name("resource") !in Keys(fields) {
      RequestNeedsResource(p, verb, fields, resource);
    } else {
      var request := RequestFromFields(p, verb, fields, resource).value;
      RenderFind(request, fields, "resource");
      RenderedResource(request, FindOrNull(fields, "resource"));
    }
  }

  lemma DataIsIdempotent(p: Platform, verb: string, arguments: Fields)
    requires WellFormed(Obj(arguments)) && AcceptsTree(p, Obj(arguments))
    requires verb in DATA_METHODS && NormalizedData(p, verb, arguments).Success?
    ensures var input := NormalizedData(p, verb, arguments).value.input;
            AcceptsTree(p, Obj(input)) && NormalizedData(p, verb, input) == NormalizedData(p, verb, arguments)
  {
    var resource := p.parseResource(FindOrNull(arguments, "resource")).value;
    RequestIsIdempotent(p, verb, arguments, resource);
    RenderIsPublic(p, verb, arguments, resource);
    ResourceStays(p, verb, arguments, resource);
    RenderIsIdempotent(RequestFromFields(p, verb, arguments, resource).value, arguments);
  }

  /** Normalizing an already normalized operation's input gives the same operation again: input, resource,
      requirements, and flags. For a new resource it does exactly when the profile parser leaves the
      canonical profile as it is, without private keys. */
  lemma NormalizationIsIdempotent(p: Platform, e: Expression)
    requires WellFormed(Obj(e.arguments)) && Normalized(p, e).Success?
    ensures Normalized(p, Expression(e.catalog, e.verb, Normalized(p, e).value.input)) == Normalized(p, e)
            <==> (e.verb in REGISTRY_METHODS ==> ProfileIsFixed(p, e.verb, e.arguments))
  {
    if e.verb in REGISTRY_METHODS {
      RegistryIsIdempotent(p, e.verb, e.arguments);
    } else {
      DataIsIdempotent(p, e.verb, e.arguments);
    }
  }

  /** No dictionary at any depth of a normalized input has a private key; for a new resource, unless the
      profile parser puts one there. */
  lemma NormalizedInputIsPublic(p: Platform, e: Expression)
    requires WellFormed(Obj(e.arguments)) && Normalized(p, e).Success?
    ensures (forall path :: PublicAt(p, Obj(Normalized(p, e).value.input), path))
            <==> (e.verb in REGISTRY_METHODS && e.verb != "publish_schema" ==>
                    AcceptsTree(p, Obj(ProfileOf(p, e.arguments).value)))
  {
    AcceptsExactlyPublicTrees(p, Obj(Normalized(p, e).value.input));
    if e.verb !in REGISTRY_METHODS {
      DataIsIdempotent(p, e.verb, e.arguments);
    } else if e.verb != "publish_schema" {
      ProfileIsPresent(p, e.arguments);
      AssignedIsPublic(p, e.arguments, "profile", Obj(ProfileOf(p, e.arguments).value));
    }
  }

  // ---- A profile parser that is not stable ----

  /** A platform whose profile parser has two canonical forms and turns each into the other. */
  function Alternating(p: Platform): Platform {
    p.(namesResource := (namespace, name) => true,
       profile := fields => Some(if fields == [] then [(Name("artifact"), Null)] else []))
  }

  ghost predicate IsNewResource(f: Fields) {
    && |f| == 4 && f[0] == (Name("namespace"), Str("n")) && f[1] == (Name("name"), Str("r"))
    && f[2] == (Name("profile"), Obj([])) && f[3] == (Name("options"), Obj([]))
  }

  lemma LowerCaseIsPublic(p: Platform, name: string)
    requires IsLowerCase(name) && name !in PRIVATE_KEYS
    ensures IsPublicKey(p, Name(name))
  {
    LowerCaseFolds(p, name);
  }

  lemma NamespaceIsPublic(p: Platform)
    ensures IsPublicKey(p, Name("namespace"))
  {
    LowerCaseIsPublic(p, "namespace");
  }

  lemma NameIsPublic(p: Platform)
    ensures IsPublicKey(p, Name("name"))
  {
    LowerCaseIsPublic(p, "name");
  }

  lemma ProfileIsPublic(p: Platform)
    ensures IsPublicKey(p, Name("profile"))
  {
    LowerCaseIsPublic(p, "profile");
  }

  lemma OptionsIsPublic(p: Platform)
    ensures IsPublicKey(p, Name("options"))
  {
    LowerCaseIsPublic(p, "options");
  }

  lemma FourPublicEntries(p: Platform, f: Fields)
    requires |f| == 4 && IsPublicKey(p, f[0].0) && IsPublicKey(p, f[1].0) && IsPublicKey(p, f[2].0)
    requires IsPublicKey(p, f[3].0) && AcceptsTree(p, f[0].1) && AcceptsTree(p, f[1].1)
    requires AcceptsTree(p, f[2].1) && AcceptsTree(p, f[3].1)
    ensures AcceptsTree(p, Obj(f))
  {
  }

  lemma NewResourceIsPublic(p: Platform, f: Fields)
    requires IsNewResource(f)
    ensures AcceptsTree(p, Obj(f))
  {
    NamespaceIsPublic(p);
    NameIsPublic(p);
    ProfileIsPublic(p);
    OptionsIsPublic(p);
    FourPublicEntries(p, f);
  }

  lemma NewResourceIsAccepted(p: Platform, f: Fields)
    requires IsNewResource(f)
    ensures WellFormed(Obj(f)) && AcceptsResource(Alternating(p), f)
    ensures ProfileOf(Alternating(p), f) == Some([(Name("artifact"), Null)])
  {
    assert DistinctKeys(f);
    FindAt(f, 0);
    FindAt(f, 1);
    FindAt(f, 2);
    FindAt(f, 3);
    assert Keys(f) == {f[0].0, f[1].0, f[2].0, f[3].0};
  }

  /** With such a parser a new resource normalizes, but not twice to the same operation. */
  lemma UnstableProfileWitness(p: Platform) returns (e: Expression)
    ensures var q := Alternating(p);
            && Normalized(q, e).Success?
            && Normalized(q, Expression(e.catalog, e.verb, Normalized(q, e).value.input)) != Normalized(q, e)
  {
    var f := [(Name("namespace"), Str("n")), (Name("name"), Str("r")), (Name("profile"), Obj([])),
              (Name("options"), Obj([]))];
    e := Expression(OBJECT_CATALOG, "create_resource", f);
    NewResourceIsPublic(Alternating(p), f);
    NewResourceIsAccepted(p, f);
    NewResourceNormalizes(Alternating(p), e);
    NormalizationIsIdempotent(Alternating(p), e);
  }

  lemma NewResourceNormalizes(p: Platform, e: Expression)
    requires e.catalog == OBJECT_CATALOG && e.verb == "create_resource"
    requires AcceptsTree(p, Obj(e.arguments)) && AcceptsResource(p, e.arguments)
    ensures Normalized(p, e).Success? && e.verb in REGISTRY_METHODS && e.verb != "publish_schema"
  {
  }
}
