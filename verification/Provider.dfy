/** The normalizer as it runs: it overwrites the entries of one argument dictionary in place. */
module Provider {
  import opened Basics
  import opened Core
  import opened Validation
  import opened References
  import opened Handles
  import opened Ranges
  import opened Signed
  import opened Requests
  import opened Registry
  import opened Catalog

  /** `fields` with the entries named in `changes` holding their new values, each in its place. */
  function Written(fields: Fields, changes: map<string, Json>): (r: Fields)
    ensures |r| == |fields|
    ensures forall i :: 0 <= i < |r| ==> r[i] == WrittenEntry(fields[i], changes)
  {
    seq(|fields|, i requires 0 <= i < |fields| => WrittenEntry(fields[i], changes))
  }

  function WrittenEntry(entry: (Key, Json), changes: map<string, Json>): (Key, Json) {
    if entry.0.Name? && entry.0.text in changes then (entry.0, changes[entry.0.text]) else entry
  }

  lemma WrittenKeepsKeys(fields: Fields, changes: map<string, Json>)
    ensures Keys(Written(fields, changes)) == Keys(fields)
    ensures DistinctKeys(fields) ==> DistinctKeys(Written(fields, changes))
  {
    var r := Written(fields, changes);
    forall k | k in Keys(fields) ensures k in Keys(r) {
      var i :| 0 <= i < |fields| && fields[i].0 == k;
      assert r[i].0 == k;
    }
  }

  lemma WrittenFind(fields: Fields, changes: map<string, Json>, name: string)
    requires DistinctKeys(fields) && Name(name) in Keys(fields)
    ensures FindOrNull(Written(fields, changes), name)
            == if name in changes then changes[name] else FindOrNull(fields, name)
  {
    WrittenKeepsKeys(fields, changes);
    var i :| 0 <= i < |fields| && fields[i].0 == Name(name);
    FindAt(fields, i);
    FindAt(Written(fields, changes), i);
  }

  lemma AssignWrites(fields: Fields, changes: map<string, Json>, name: string, v: Json)
    requires DistinctKeys(fields) && Name(name) in Keys(fields)
    ensures Assign(Written(fields, changes), name, v) == Written(fields, changes[name := v])
  {
    WrittenKeepsKeys(fields, changes);
    var a, b := Assign(Written(fields, changes), name, v), Written(fields, changes[name := v]);
    forall i | 0 <= i < |fields| ensures a[i] == b[i] {
    }
  }

  lemma NoWrites(fields: Fields)
    ensures Written(fields, map[]) == fields
  {
  }

  lemma RequiredIsPresent(fields: Fields, required: set<string>, name: string)
    requires ExactFields(fields, required, {}) && name in required
    ensures Name(name) in Keys(fields)
  {
  }

  /** The mutable dictionary `input_value`; `original` and `changes` are for reasoning only. */
  class Arguments {
    var fields: Fields
    ghost const original: Fields
    ghost var changes: map<string, Json>

    ghost predicate Valid()
      reads this
    {
      WellFormed(Obj(original)) && fields == Written(original, changes)
    }

    constructor (arguments: Fields)
      requires WellFormed(Obj(arguments))
      ensures Valid() && original == arguments && changes == map[] && fields == arguments
    {
      fields := arguments;
      original := arguments;
      changes := map[];
    }

    /** `value[name]` */
    method Get(name: string) returns (v: Json)
      requires Valid() && Name(name) in Keys(original)
      ensures v == if name in changes then changes[name] else FindOrNull(original, name)
    {
      WrittenFind(original, changes, name);
      v := FindOrNull(fields, name);
    }

    /** `value[name] = v` on a present name */
    method Set(name: string, v: Json)
      requires Valid() && Name(name) in Keys(original)
      modifies this
      ensures Valid() && changes == old(changes)[name := v]
    {
      AssignWrites(original, changes, name, v);
      fields := Assign(fields, name, v);
      changes := changes[name := v];
    }
  }

  // ---- In-place validation of each method ----

  /** `_normalize_reference` */
  method NormalizeReference(p: Platform, value: Arguments, resource: ResourceRef, verb: string, requireDigest: bool)
    returns (signed: Option<bool>)
    requires value.Valid() && value.changes == map[] && Name("reference") in Keys(value.original)
    modifies value
    ensures value.Valid()
    ensures var selected := SelectReference(p, FindOrNull(value.original, "reference"), resource, verb, requireDigest);
            && (signed.Some? <==> selected.Some?)
            && (signed.Some? ==>
                  && value.changes == map["reference" := Obj(LogicalToFields(selected.value))]
                  && signed.value == selected.value.SignedRef?)
  {
    var raw := value.Get("reference");
    if !raw.Obj? {
      return None;
    }
    var parsed := ParseLogical(p, raw.fields);
    if parsed.None? {
      return None;
    }
    var reference: ObjectReference;
    if parsed.value.SignedRef? {
      if verb !in parsed.value.signed.operations {
        return None;
      }
      reference := parsed.value.signed.objectRef;
      value.Set("reference", Obj(ToFields(parsed.value.signed)));
    } else {
      reference := parsed.value.ref;
      if requireDigest && reference.digest.None? {
        return None;
      }
      value.Set("reference", Obj(ReferenceToFields(reference)));
    }
    if reference.resource != resource {
      return None;
    }
    return Some(parsed.value.SignedRef?);
  }

  // ---- The writes of each method are the entries its request renders ----

  lemma ReadWrites(request: Request, fields: Fields)
    requires request.Read?
    ensures Written(fields, map["reference" := Obj(LogicalToFields(request.reference))]) == Render(request, fields)
  {
  }

  lemma RangeWrites(request: Request, fields: Fields)
    requires request.ReadRange? && ValidRange(request.range)
    ensures Written(fields, map["reference" := Obj(LogicalToFields(request.reference))]
                               ["range" := Obj(RangeToFields(request.range))])
            == Render(request, fields)
  {
  }

  lemma RangeEffects(reference: LogicalReference, range: ByteRange)
    requires ValidRange(range)
    ensures EffectsOf(ReadRange(reference, range))
            == Effects(SignedGuarantee(reference),
                       if RequestedLength(range).None? then map[]
                       else map[LIMIT_MAX_RANGE_BYTES := RequestedLength(range).value],
                       true)
  {
  }

  lemma DeleteWrites(request: Request, fields: Fields)
    requires request.Delete?
    ensures Written(fields, map["reference" := Obj(ReferenceToFields(request.version))]) == Render(request, fields)
  {
  }

  lemma DeleteOutcome(p: Platform, fields: Fields, resource: ResourceRef, changes: map<string, Json>)
    requires DeleteFromFields(p, fields, resource).Some?
    requires var selected := SelectReference(p, FindOrNull(fields, "reference"), resource, "delete", true);
             selected.Some? && changes == map["reference" := Obj(LogicalToFields(selected.value))]
    ensures var request := DeleteFromFields(p, fields, resource).value;
            Written(fields, changes) == Render(request, fields) && EffectsOf(request) == Effects({}, map[], true)
  {
    DeletesAreExact(p, fields, resource);
    DeleteWrites(DeleteFromFields(p, fields, resource).value, fields);
  }

  lemma ListWrites(request: Request, fields: Fields)
    requires request.List?
    ensures Render(request, fields) == fields
  {
  }

  /** The branch of `_validate_data_arguments` for `get` and `stat`. */
  method ValidateRead(p: Platform, value: Arguments, resource: ResourceRef, verb: string) returns (r: Option<Effects>)
    requires value.Valid() && value.changes == map[]
    modifies value
    ensures var request := ReadFromFields(p, verb, value.original, resource);
            && (r.Some? <==> request.Some?)
            && (r.Some? ==>
                value.fields == Render(request.value, value.original) && r.value == EffectsOf(request.value))
  {
    NoWrites(value.original);
    if !ExactFields(value.fields, {"resource", "reference"}, {}) {
      return None;
    }
    var signed := NormalizeReference(p, value, resource, verb, false);
    if signed.None? {
      return None;
    }
    ReadWrites(ReadFromFields(p, verb, value.original, resource).value, value.original);
    r := Some(Effects(if signed.value then {GUARANTEE_SIGNED_REFERENCE} else {}, map[], true));
  }

  method ValidateReadRange(p: Platform, value: Arguments, resource: ResourceRef) returns (r: Option<Effects>)
    requires value.Valid() && value.changes == map[]
    modifies value
    ensures var request := RangeRequestFromFields(p, value.original, resource);
            && (r.Some? <==> request.Some?)
            && (r.Some? ==>
                value.fields == Render(request.value, value.original) && r.value == EffectsOf(request.value))
  {
    NoWrites(value.original);
    if !ExactFields(value.fields, {"resource", "reference", "range"}, {}) {
      return None;
    }
    RequiredIsPresent(value.original, {"resource", "reference", "range"}, "reference");
    var signed := NormalizeReference(p, value, resource, "read_range", false);
    if signed.None? {
      return None;
    }
    RequiredIsPresent(value.original, {"resource", "reference", "range"}, "range");
    var raw := value.Get("range");
    if !raw.Obj? {
      return None;
    }
    var selected := RangeFromFields(raw.fields);
    if selected.None? {
      return None;
    }
    value.Set("range", Obj(RangeToFields(selected.value)));
    ghost var reference := SelectReference(p, FindOrNull(value.original, "reference"), resource, "read_range",
                                           false).value;
    RangeWrites(ReadRange(reference, selected.value), value.original);
    RangeEffects(reference, selected.value);
    var length := RequestedLength(selected.value);
    var limits := if length.None? then map[] else map[LIMIT_MAX_RANGE_BYTES := length.value];
    r := Some(Effects(if signed.value then {GUARANTEE_SIGNED_REFERENCE} else {}, limits, true));
  }

  method ValidateList(value: Arguments) returns (r: Option<Effects>)
    requires value.Valid() && value.changes == map[]
    ensures var request := ListFromFields(value.original);
            && (r.Some? <==> request.Some?)
            && (r.Some? ==>
                value.fields == Render(request.value, value.original) && r.value == EffectsOf(request.value))
  {
    NoWrites(value.original);
    if !ExactFields(value.fields, {"resource", "prefix", "limit", "cursor", "purpose"}, {}) {
      return None;
    }
    var prefix := FindOrNull(value.fields, "prefix");
    if !IsPrefix(prefix) {
      return None;
    }
    var limit := FindOrNull(value.fields, "limit");
    if !limit.Int? || limit.n < 1 || limit.n > 1000 {
      return None;
    }
    var cursor := FindOrNull(value.fields, "cursor");
    if !cursor.Null? && !IsBoundedString(cursor, 2048) {
      return None;
    }
    var purpose := FindOrNull(value.fields, "purpose");
    if purpose != Str("maintenance") {
      return None;
    }
    ListWrites(ListFromFields(value.original).value, value.original);
    r := Some(Effects({}, map[LIMIT_MAX_LIST_PAGE_SIZE := limit.n], true));
  }

  method ValidateDelete(p: Platform, value: Arguments, resource: ResourceRef) returns (r: Option<Effects>)
    requires value.Valid() && value.changes == map[]
    modifies value
    ensures var request := DeleteFromFields(p, value.original, resource);
            && (r.Some? <==> request.Some?)
            && (r.Some? ==>
                value.fields == Render(request.value, value.original) && r.value == EffectsOf(request.value))
  {
    NoWrites(value.original);
    if !ExactFields(value.fields, {"resource", "reference", "reason"}, {}) {
      return None;
    }
    RequiredIsPresent(value.original, {"resource", "reference", "reason"}, "reference");
    RequiredIsPresent(value.original, {"resource", "reference", "reason"}, "reason");
    var signed := NormalizeReference(p, value, resource, "delete", true);
    if signed.None? {
      return None;
    }
    var reason := value.Get("reason");
    if !reason.Null? && !IsBoundedString(reason, 1024) {
      return None;
    }
    DeleteOutcome(p, value.original, resource, value.changes);
    r := Some(Effects({}, map[], true));
  }

  // ---- `_validate_put` ----

  /** The dictionary came with the entry `name`, holding `v`. */
  ghost predicate Came(fields: Fields, name: string, v: Json) {
    Name(name) in Keys(fields) && FindOrNull(fields, name) == v
  }

  ghost predicate CameDescribed(fields: Fields, v: PutValues) {
    && Came(fields, "payload", v.payload) && Came(fields, "expectedDigest", v.expectedDigest)
    && Came(fields, "expectedLength", v.expectedLength) && Came(fields, "mediaType", v.mediaType)
    && Came(fields, "objectId", v.objectId) && Came(fields, "userMetadata", v.metadata)
    && Came(fields, "creationContext", v.creationContext) && Came(fields, "provenance", v.provenance)
  }

  ghost predicate CameWithPolicy(fields: Fields, v: PutValues) {
    && Came(fields, "immutability", v.immutability) && Came(fields, "retention", v.retention)
    && Came(fields, "createOnly", v.createOnly)
  }

  lemma PutCame(fields: Fields, v: PutValues)
    requires ExactFields(fields, PUT_FIELDS, {}) && v == PutValuesOf(fields)
    ensures CameDescribed(fields, v) && CameWithPolicy(fields, v) && Came(fields, "userMetadata", v.metadata)
  {
  }

  function HandleChanges(payload: PayloadReference, v: PutValues): (r: map<string, Json>)
    ensures r.Keys == {"payload", "expectedDigest", "expectedLength"}
  {
    map["payload" := Obj(PayloadToFields(payload))]["expectedDigest" := v.expectedDigest]
      ["expectedLength" := v.expectedLength]
  }

  function DescriptionChanges(payload: PayloadReference, metadata: Fields, v: PutValues): (r: map<string, Json>)
    ensures r.Keys == {"payload", "expectedDigest", "expectedLength", "userMetadata", "creationContext", "provenance"}
    ensures r["userMetadata"] == Obj(metadata)
  {
    HandleChanges(payload, v)
      ["userMetadata" := Obj(metadata)]["creationContext" := v.creationContext]["provenance" := v.provenance]
  }

  function ImmutabilityChanges(changes: map<string, Json>, i: Option<Immutability>): map<string, Json> {
    if i.Some? then changes["immutability" := ImmutabilityToJson(i)] else changes
  }

  function RetentionChanges(changes: map<string, Json>, r: Option<Retention>): map<string, Json> {
    if r.Some? then changes["retention" := RetentionToJson(r)] else changes
  }

  predicate IsIdentity(v: PutValues, resource: ResourceRef, digest: Option<string>) {
    && IsMediaType(v.mediaType) && IsBoundedString(v.objectId, 1024)
    && ValidReference(PutReference(resource, v.objectId.s, digest))
  }

  predicate IsContent(v: PutValues) {
    IsUserMetadata(v.metadata) && v.creationContext.Obj? && v.provenance.Obj?
  }

  predicate IsDescription(v: PutValues, resource: ResourceRef, digest: Option<string>) {
    IsIdentity(v, resource, digest) && IsContent(v)
  }

  lemma HandleLeavesTheRest(payload: PayloadReference, v: PutValues)
    ensures var changes := HandleChanges(payload, v);
            && "mediaType" !in changes && "objectId" !in changes && "userMetadata" !in changes
            && "creationContext" !in changes && "provenance" !in changes
  {
  }

  lemma DescriptionLeavesPolicy(payload: PayloadReference, metadata: Fields, v: PutValues)
    ensures PolicyPending(DescriptionChanges(payload, metadata, v))
  {
  }

  /** The handle, with the put's expectations merged in and written back. */
  method DescribeHandle(value: Arguments, ghost v: PutValues) returns (r: Option<PayloadReference>)
    requires value.Valid() && value.changes == map[]
    requires Came(value.original, "payload", v.payload) && Came(value.original, "expectedDigest", v.expectedDigest)
    requires Came(value.original, "expectedLength", v.expectedLength)
    modifies value
    ensures value.Valid()
    ensures r == MergePayload(v.payload, v.expectedDigest, v.expectedLength)
    ensures r.Some? ==> value.changes == HandleChanges(r.value, v)
  {
    var raw := value.Get("payload");
    var expectedDigest := value.Get("expectedDigest");
    var expectedLength := value.Get("expectedLength");
    r := MergePayload(raw, expectedDigest, expectedLength);
    if r.Some? {
      value.Set("payload", Obj(PayloadToFields(r.value)));
      value.Set("expectedDigest", TextToJson(r.value.expectedDigest));
      value.Set("expectedLength", LengthToJson(r.value.expectedLength));
    }
  }

  /** Media type and object id, which are checked and stay. */
  method DescribeIdentity(value: Arguments, resource: ResourceRef, digest: Option<string>, ghost v: PutValues)
    returns (ok: bool)
    requires value.Valid()
    requires Came(value.original, "mediaType", v.mediaType) && Came(value.original, "objectId", v.objectId)
    requires "mediaType" !in value.changes && "objectId" !in value.changes
    ensures ok <==> IsIdentity(v, resource, digest)
  {
    var mediaType := value.Get("mediaType");
    if !IsMediaType(mediaType) {
      return false;
    }
    var objectId := value.Get("objectId");
    ok := IsBoundedString(objectId, 1024) && ValidReference(PutReference(resource, objectId.s, digest));
  }

  /** User metadata, sorted, and the two context dictionaries. */
  method DescribeContent(value: Arguments, ghost v: PutValues) returns (ok: bool, ghost metadata: Fields)
    requires value.Valid() && Came(value.original, "userMetadata", v.metadata)
    requires Came(value.original, "creationContext", v.creationContext)
            && Came(value.original, "provenance", v.provenance)
    requires "userMetadata" !in value.changes && "creationContext" !in value.changes && "provenance" !in value.changes
    modifies value
    ensures value.Valid()
    ensures ok <==> IsContent(v)
    ensures ok ==>
              && metadata == SortedEntries(v.metadata.fields)
              && value.changes == old(value.changes)["userMetadata" := Obj(metadata)]
                                    ["creationContext" := v.creationContext]["provenance" := v.provenance]
  {
    metadata := [];
    FoundValueIsWellFormed(value.original, "userMetadata");
    var raw := value.Get("userMetadata");
    var sorted := StringMapping(raw, 128, 128, 2048);
    if sorted.None? {
      return false, metadata;
    }
    metadata := sorted.value;
    value.Set("userMetadata", Obj(sorted.value));
    var creationContext := value.Get("creationContext");
    if !creationContext.Obj? {
      return false, metadata;
    }
    value.Set("creationContext", creationContext);
    var provenance := value.Get("provenance");
    if !provenance.Obj? {
      return false, metadata;
    }
    value.Set("provenance", provenance);
    ok := true;
  }

  /** Handle, identity, and description, each entry read where it is needed, between the writes. */
  method DescribePut(value: Arguments, resource: ResourceRef, ghost v: PutValues)
    returns (r: Option<PayloadReference>, ghost metadata: Fields)
    requires value.Valid() && CameDescribed(value.original, v) && value.changes == map[]
    modifies value
    ensures value.Valid()
    ensures var payload := MergePayload(v.payload, v.expectedDigest, v.expectedLength);
            && (r.Some? <==> payload.Some? && IsDescription(v, resource, payload.value.expectedDigest))
            && (r.Some? ==>
                  && r == payload && metadata == SortedEntries(v.metadata.fields)
                  && value.changes == DescriptionChanges(r.value, metadata, v))
  {
    metadata := [];
    var payload := DescribeHandle(value, v);
    if payload.None? {
      return None, metadata;
    }
    HandleLeavesTheRest(payload.value, v);
    var identified := DescribeIdentity(value, resource, payload.value.expectedDigest, v);
    if !identified {
      return None, metadata;
    }
    var ok;
    ok, metadata := DescribeContent(value, v);
    r := if ok then payload else None;
  }

  datatype Policy = Policy(immutability: Option<Immutability>, retention: Option<Retention>, createOnly: bool)

  function PolicyOf(p: Platform, v: PutValues): Option<Policy> {
    var immutability, retention := ImmutabilityFromJson(v.immutability), RetentionFromJson(p, v.retention);
    if immutability.None? || retention.None? || !v.createOnly.Bool? then None
    else Some(Policy(immutability.value, retention.value, v.createOnly.b))
  }

  method ApplyImmutability(value: Arguments, ghost v: PutValues)
    returns (r: Option<Option<Immutability>>, guarantees: set<string>)
    requires value.Valid() && Came(value.original, "immutability", v.immutability) && "immutability" !in value.changes
    modifies value
    ensures value.Valid()
    ensures r == ImmutabilityFromJson(v.immutability)
    ensures r.Some? ==> value.changes == ImmutabilityChanges(old(value.changes), r.value)
    ensures r.Some? ==> guarantees == ImmutabilityGuarantees(r.value)
  {
    guarantees := {};
    var raw := value.Get("immutability");
    r := ImmutabilityFromJson(raw);
    if r.Some? && r.value.Some? {
      value.Set("immutability", ImmutabilityToJson(r.value));
      if r.value.value.mutability == "immutable" {
        guarantees := guarantees + {GUARANTEE_IMMUTABILITY_INTENT};
      }
    }
  }

  method ApplyRetention(p: Platform, value: Arguments, ghost v: PutValues)
    returns (r: Option<Option<Retention>>, guarantees: set<string>)
    requires value.Valid() && Came(value.original, "retention", v.retention) && "retention" !in value.changes
    modifies value
    ensures value.Valid()
    ensures r == RetentionFromJson(p, v.retention)
    ensures r.Some? ==> value.changes == RetentionChanges(old(value.changes), r.value)
    ensures r.Some? ==> guarantees == RetentionGuarantees(r.value)
  {
    guarantees := {};
    var raw := value.Get("retention");
    r := RetentionFromJson(p, raw);
    if r.Some? && r.value.Some? {
      value.Set("retention", RetentionToJson(r.value));
      guarantees := guarantees + {GUARANTEE_RETENTION_INTENT};
      if r.value.value.requireEnforcement {
        guarantees := guarantees + {GUARANTEE_RETENTION_ENFORCEMENT};
      }
    }
  }

  ghost predicate PolicyPending(changes: map<string, Json>) {
    "immutability" !in changes && "retention" !in changes && "createOnly" !in changes
  }

  /** The intents, growing the guarantee set as they are found. */
  method ApplyPolicy(p: Platform, value: Arguments, ghost v: PutValues)
    returns (ok: bool, guarantees: set<string>, ghost policy: Policy)
    requires value.Valid() && CameWithPolicy(value.original, v) && PolicyPending(value.changes)
    modifies value
    ensures value.Valid()
    ensures ok <==> PolicyOf(p, v).Some?
    ensures ok ==>
              && policy == PolicyOf(p, v).value
              && value.changes == PolicyChanges(old(value.changes), policy)
              && guarantees == PolicyGuarantees(policy.immutability, policy.retention, policy.createOnly)
  {
    ok, policy := false, Policy(None, None, false);
    var immutability, retention, more;
    immutability, guarantees := ApplyImmutability(value, v);
    if immutability.None? {
      return;
    }
    retention, more := ApplyRetention(p, value, v);
    if retention.None? {
      return;
    }
    guarantees := guarantees + more;
    var createOnly := value.Get("createOnly");
    if !createOnly.Bool? {
      return;
    }
    if createOnly.b {
      guarantees := guarantees + {GUARANTEE_CONDITIONAL_CREATE};
    }
    ok, policy := true, Policy(immutability.value, retention.value, createOnly.b);
  }

  function PolicyChanges(changes: map<string, Json>, policy: Policy): map<string, Json> {
    RetentionChanges(ImmutabilityChanges(changes, policy.immutability), policy.retention)
  }

  function PutChanges(v: PutValues, payload: PayloadReference, metadata: Fields, policy: Policy): map<string, Json> {
    PolicyChanges(DescriptionChanges(payload, metadata, v), policy)
  }

  function PutOf(v: PutValues, payload: PayloadReference, metadata: Fields, policy: Policy): Request
    requires v.objectId.Str? && v.mediaType.Str? && v.creationContext.Obj? && v.provenance.Obj?
  {
    Put(payload, v.objectId.s, v.mediaType.s, metadata, v.creationContext.fields, v.provenance.fields,
        policy.immutability, policy.retention, policy.createOnly)
  }

  lemma PutExactly(p: Platform, v: PutValues, resource: ResourceRef)
    ensures var payload := MergePayload(v.payload, v.expectedDigest, v.expectedLength);
            var r := PutFromValues(p, v, resource);
            && (r.Some? <==>
                  payload.Some? && IsDescription(v, resource, payload.value.expectedDigest) && PolicyOf(p, v).Some?)
            && (r.Some? ==> r.value == PutOf(v, payload.value, SortedEntries(v.metadata.fields), PolicyOf(p, v).value))
  {
  }

  /** The value the entry `name` holds after the changes. */
  function After(changes: map<string, Json>, name: string, value: Json): Json {
    if name in changes then changes[name] else value
  }

  lemma AfterPolicy(changes: map<string, Json>, i: Option<Immutability>, r: Option<Retention>, name: string,
                    value: Json)
    requires name == "immutability" && i.None? ==> value == Null
    requires name == "retention" && r.None? ==> value == Null
    requires "immutability" !in changes && "retention" !in changes
    ensures After(RetentionChanges(ImmutabilityChanges(changes, i), r), name, value)
            == if name == "immutability" then ImmutabilityToJson(i)
               else if name == "retention" then RetentionToJson(r)
               else After(changes, name, value)
  {
  }

  lemma AfterDescription(payload: PayloadReference, metadata: Fields, v: PutValues, name: string, value: Json)
    requires name == "expectedDigest" ==> value == v.expectedDigest
    requires name == "expectedLength" ==> value == v.expectedLength
    requires name == "creationContext" ==> value == v.creationContext
    requires name == "provenance" ==> value == v.provenance
    ensures "immutability" !in DescriptionChanges(payload, metadata, v)
            && "retention" !in DescriptionChanges(payload, metadata, v)
    ensures After(DescriptionChanges(payload, metadata, v), name, value)
            == if name == "payload" then Obj(PayloadToFields(payload))
               else if name == "userMetadata" then Obj(metadata)
               else value
  {
  }

  lemma PutEntryWrites(v: PutValues, payload: PayloadReference, metadata: Fields, policy: Policy, name: string,
                       value: Json)
    requires v.objectId.Str? && v.mediaType.Str? && v.creationContext.Obj? && v.provenance.Obj?
    requires name == "expectedDigest" ==> value == v.expectedDigest
    requires name == "expectedLength" ==> value == v.expectedLength
    requires name == "creationContext" ==> value == v.creationContext
    requires name == "provenance" ==> value == v.provenance
    requires name == "immutability" && policy.immutability.None? ==> value == Null
    requires name == "retention" && policy.retention.None? ==> value == Null
    ensures Rendered(PutOf(v, payload, metadata, policy), name, value)
            == After(PutChanges(v, payload, metadata, policy), name, value)
  {
    AfterDescription(payload, metadata, v, name, value);
    AfterPolicy(DescriptionChanges(payload, metadata, v), policy.immutability, policy.retention, name, value);
  }

  lemma NoPolicyMeansNull(p: Platform, v: PutValues)
    requires PolicyOf(p, v).Some?
    ensures PolicyOf(p, v).value.immutability.None? ==> v.immutability == Null
    ensures PolicyOf(p, v).value.retention.None? ==> v.retention == Null
  {
  }

  lemma FieldIsItsValue(fields: Fields, i: nat)
    requires DistinctKeys(fields) && i < |fields| && fields[i].0.Name?
    ensures FindOrNull(fields, fields[i].0.text) == fields[i].1
  {
    FindAt(fields, i);
  }

  /** Every write a put makes is the entry its request renders, and it makes no other. */
  lemma PutWrites(p: Platform, fields: Fields, v: PutValues, payload: PayloadReference, metadata: Fields,
                  policy: Policy)
    requires DistinctKeys(fields) && v == PutValuesOf(fields) && PolicyOf(p, v) == Some(policy)
    requires v.objectId.Str? && v.mediaType.Str? && v.creationContext.Obj? && v.provenance.Obj?
    ensures Written(fields, PutChanges(v, payload, metadata, policy))
            == Render(PutOf(v, payload, metadata, policy), fields)
  {
    NoPolicyMeansNull(p, v);
    var changes := PutChanges(v, payload, metadata, policy);
    var request := PutOf(v, payload, metadata, policy);
    forall i | 0 <= i < |fields| ensures WrittenEntry(fields[i], changes) == RenderedEntry(request, fields[i]) {
      if fields[i].0.Name? {
        FieldIsItsValue(fields, i);
        PutEntryWrites(v, payload, metadata, policy, fields[i].0.text, fields[i].1);
      }
    }
  }

  lemma PolicyLeavesTheRest(changes: map<string, Json>, policy: Policy, name: string)
    requires name != "immutability" && name != "retention"
    ensures name in PolicyChanges(changes, policy) <==> name in changes
    ensures name in changes ==> PolicyChanges(changes, policy)[name] == changes[name]
  {
  }

  /** What a put requires, read from the dictionary as rewritten. */
  method PutEffects(value: Arguments, payload: PayloadReference, guarantees: set<string>, ghost request: Request,
                    ghost v: PutValues, ghost policy: Policy)
    returns (r: Effects)
    requires value.Valid() && request.Put? && Came(value.original, "createOnly", Bool(request.createOnly))
    requires Name("userMetadata") in Keys(value.original)
    requires value.changes == PolicyChanges(DescriptionChanges(payload, request.metadata, v), policy)
    requires request.payload == payload
    requires guarantees == PolicyGuarantees(request.immutability, request.retention, request.createOnly)
    ensures r == EffectsOf(request)
  {
    PolicyLeavesTheRest(DescriptionChanges(payload, request.metadata, v), policy, "userMetadata");
    PolicyLeavesTheRest(DescriptionChanges(payload, request.metadata, v), policy, "createOnly");
    var metadata := value.Get("userMetadata");
    var limits := map[LIMIT_MAX_USER_METADATA_ENTRIES := |metadata.fields|];
    if payload.expectedLength.Some? {
      limits := limits[LIMIT_MAX_OBJECT_BYTES := payload.expectedLength.value];
    }
    var createOnly := value.Get("createOnly");
    r := Effects(guarantees, limits, createOnly.b || payload.expectedDigest.Some?);
  }

  /** Everything after the check of the field names. */
  method RewritePut(p: Platform, value: Arguments, resource: ResourceRef, ghost v: PutValues)
    returns (r: Option<Effects>)
    requires value.Valid() && value.changes == map[]
    requires v == PutValuesOf(value.original) && CameDescribed(value.original, v) && CameWithPolicy(value.original, v)
    modifies value
    ensures value.Valid()
    ensures var request := PutFromValues(p, v, resource);
            && (r.Some? <==> request.Some?)
            && (r.Some? ==>
                value.fields == Render(request.value, value.original) && r.value == EffectsOf(request.value))
  {
    PutExactly(p, v, resource);
    var payload, metadata := DescribePut(value, resource, v);
    if payload.None? {
      return None;
    }
    DescriptionLeavesPolicy(payload.value, metadata, v);
    var ok, guarantees, policy := ApplyPolicy(p, value, v);
    if !ok {
      return None;
    }
    PutWrites(p, value.original, v, payload.value, metadata, policy);
    var effects := PutEffects(value, payload.value, guarantees, PutOf(v, payload.value, metadata, policy), v, policy);
    r := Some(effects);
  }

  method ValidatePut(p: Platform, value: Arguments, resource: ResourceRef) returns (r: Option<Effects>)
    requires value.Valid() && value.changes == map[]
    modifies value
    ensures value.Valid()
    ensures var request := PutFromFields(p, value.original, resource);
            && (r.Some? <==> request.Some?)
            && (r.Some? ==>
                value.fields == Render(request.value, value.original) && r.value == EffectsOf(request.value))
  {
    NoWrites(value.original);
    if !ExactFields(value.fields, PUT_FIELDS, {}) {
      return None;
    }
    ghost var v := PutValuesOf(value.original);
    PutCame(value.original, v);
    r := RewritePut(p, value, resource, v);
  }

  /** `_validate_data_arguments` */
  method ValidateDataArguments(p: Platform, verb: string, value: Arguments, resource: ResourceRef)
    returns (r: Option<Effects>)
    requires verb in DATA_METHODS && value.Valid() && value.changes == map[]
    modifies value
    ensures var request := RequestFromFields(p, verb, value.original, resource);
            && (r.Some? <==> request.Some?)
            && (r.Some? ==>
                value.fields == Render(request.value, value.original) && r.value == EffectsOf(request.value))
  {
    if verb == "put" {
      r := ValidatePut(p, value, resource);
    } else if verb == "get" || verb == "stat" {
      r := ValidateRead(p, value, resource, verb);
    } else if verb == "read_range" {
      r := ValidateReadRange(p, value, resource);
    } else if verb == "list" {
      r := ValidateList(value);
    } else {
      r := ValidateDelete(p, value, resource);
    }
  }

  /** `_validate_registry_arguments` */
  method ValidateRegistryArguments(p: Platform, verb: string, value: Arguments) returns (ok: bool)
    requires verb in REGISTRY_METHODS && value.Valid() && value.changes == map[]
    modifies value
    ensures var left := RegistryArguments(p, verb, value.original);
            ok == left.Some? && (ok ==> value.fields == left.value)
  {
    NoWrites(value.original);
    if verb == "publish_schema" {
      ok := AcceptsSchema(p, value.fields);
    } else {
      ok := AcceptsResource(p, value.fields);
      if ok {
        RequiredIsPresent(value.original, RESOURCE_FIELDS, "profile");
        RequiredIsPresent(value.original, RESOURCE_FIELDS, "options");
        ghost var profile := Obj(ProfileOf(p, value.original).value);
        var raw := value.Get("profile");
        value.Set("profile", Obj(p.profile(raw.fields).value));
        var options := value.Get("options");
        value.Set("options", options);
        ResourceWrites(value.original, profile);
      }
    }
  }

  /** A write that stores what the entry came with changes nothing. */
  lemma SameValueWritten(fields: Fields, profile: Json, i: nat)
    requires DistinctKeys(fields) && i < |fields|
    ensures WrittenEntry(fields[i], map["profile" := profile]["options" := FindOrNull(fields, "options")])
            == if fields[i].0 == Name("profile") then (Name("profile"), profile) else fields[i]
  {
    if fields[i].0.Name? && fields[i].0.text == "options" { FieldIsItsValue(fields, i); }
  }

  lemma ResourceWrites(fields: Fields, profile: Json)
    requires DistinctKeys(fields) && Name("profile") in Keys(fields) && Name("options") in Keys(fields)
    ensures Written(fields, map["profile" := profile]["options" := FindOrNull(fields, "options")])
            == Assign(fields, "profile", profile)
  {
    var r := Assign(fields, "profile", profile);
    var changes := map["profile" := profile]["options" := FindOrNull(fields, "options")];
    forall i | 0 <= i < |fields| ensures Written(fields, changes)[i] == r[i] {
      SameValueWritten(fields, profile, i);
    }
  }

  lemma RegistryOutcome(p: Platform, verb: string, arguments: Fields, left: Fields)
    requires verb in REGISTRY_METHODS && RegistryArguments(p, verb, arguments) == Some(left)
    ensures var effects := Effects({}, map[], true);
            NormalizedRegistry(p, verb, arguments)
            == Success(Operation(CONTRACT_PREFIX + verb, REGISTRY_REF, left, RequirementsOf(effects),
                                 verb in READ_ONLY_METHODS, effects.idempotent))
  {
  }

  method ValidateData(p: Platform, verb: string, value: Arguments) returns (r: Option<(ResourceRef, Effects)>)
    requires verb in DATA_METHODS && value.Valid() && value.changes == map[]
    modifies value
    ensures var n := NormalizedData(p, verb, value.original);
            && (r.None? ==> n == Failure(InvalidArguments))
            && (r.Some? ==>
                  n == Success(Operation(CONTRACT_PREFIX + verb, r.value.0, value.fields, RequirementsOf(r.value.1),
                                         verb in READ_ONLY_METHODS, r.value.1.idempotent)))
  {
    NoWrites(value.original);
    var resource := p.parseResource(FindOrNull(value.fields, "resource"));
    if resource.None? {
      return None;
    }
    var effects := ValidateDataArguments(p, verb, value, resource.value);
    r := if effects.Some? then Some((resource.value, effects.value)) else None;
  }

  /** Resource and requirements of an expression whose dictionary has no private key. */
  method ValidateArguments(p: Platform, verb: string, value: Arguments) returns (r: Option<(ResourceRef, Effects)>)
    requires (verb in DATA_METHODS || verb in REGISTRY_METHODS) && value.Valid() && value.changes == map[]
    modifies value
    ensures var n := if verb in REGISTRY_METHODS then NormalizedRegistry(p, verb, value.original)
                     else NormalizedData(p, verb, value.original);
            && (r.None? ==> n == Failure(InvalidArguments))
            && (r.Some? ==>
                  n == Success(Operation(CONTRACT_PREFIX + verb, r.value.0, value.fields, RequirementsOf(r.value.1),
                                         verb in READ_ONLY_METHODS, r.value.1.idempotent)))
  {
    if verb in REGISTRY_METHODS {
      var ok := ValidateRegistryArguments(p, verb, value);
      if !ok {
        return None;
      }
      RegistryOutcome(p, verb, value.original, value.fields);
      return Some((REGISTRY_REF, Effects({}, map[], true)));
    }
    r := ValidateData(p, verb, value);
  }

  /** `ObjectCatalogProvider.normalize` */
  method Normalize(p: Platform, e: Expression) returns (r: Result<Operation, NormalizeError>)
    requires WellFormed(Obj(e.arguments))
    ensures r == Normalized(p, e)
  {
    if e.catalog != OBJECT_CATALOG {
      return Failure(WrongCatalog);
    }
    if e.verb !in DATA_METHODS && e.verb !in REGISTRY_METHODS {
      return Failure(UnsupportedMethod);
    }
    var value := new Arguments(e.arguments);
    if !AcceptsTree(p, Obj(value.fields)) {
      return Failure(InvalidArguments);
    }
    var validated := ValidateArguments(p, e.verb, value);
    if validated.None? {
      return Failure(InvalidArguments);
    }
    var (resource, effects) := validated.value;
    var required := effects.guarantees != {} || effects.limits != map[];
    r := Success(Operation(CONTRACT_PREFIX + e.verb, resource, value.fields,
                           if required then Some(Requirement(effects.guarantees, effects.limits)) else None,
                           e.verb in READ_ONLY_METHODS, effects.idempotent));
  }
}
