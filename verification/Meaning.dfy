/** What a normalized operation says, in terms of the arguments its expression came with. */
module Meaning {
  import opened Basics
  import opened Core
  import opened Ordering
  import opened Validation
  import opened References
  import opened Handles
  import opened Ranges
  import opened Signed
  import Base64Url
  import opened Requests
  import opened Registry
  import opened Catalog

  // ---- Wire values ----

  /** An optional text under `name`: a string, or null. */
  ghost predicate SaysText(f: Fields, name: string, v: Option<string>) {
    FindOrNull(f, name) == (match v case Some(s) => Str(s) case None => Null)
  }

  /** An optional length under `name`: a number, or null. */
  ghost predicate SaysLength(f: Fields, name: string, v: Option<int>) {
    FindOrNull(f, name) == (match v case Some(n) => Int(n) case None => Null)
  }

  lemma PayloadSays(f: Fields)
    requires PayloadFromFields(f).Some?
    ensures var r := PayloadFromFields(f).value;
            && FindOrNull(f, "formatVersion") == Str("meridian.object.payload-reference.v1")
            && FindOrNull(f, "token") == Str(r.token) && FindOrNull(f, "replayable") == Bool(r.replayable)
            && SaysLength(f, "expectedLength", r.expectedLength) && SaysText(f, "expectedDigest", r.expectedDigest)
  {
  }

  lemma ImmutabilitySays(f: Fields)
    requires ImmutabilityFromFields(f).Some?
    ensures var i := ImmutabilityFromFields(f).value;
            && FindOrNull(f, "mutability") == Str(i.mutability) && FindOrNull(f, "publishOnce") == Bool(i.publishOnce)
            && i.mutability in {"mutable", "immutable"} && (i.publishOnce ==> i.mutability == "immutable")
  {
  }

  lemma RetentionSays(p: Platform, f: Fields)
    requires RetentionFromFields(p, f).Some?
    ensures var r := RetentionFromFields(p, f).value;
            && SaysText(f, "retainUntil", r.retainUntil) && SaysText(f, "policy", r.policy)
            && FindOrNull(f, "requireEnforcement") == Bool(r.requireEnforcement)
            && (r.retainUntil.Some? || r.policy.Some?)
            && (r.retainUntil.Some? ==> p.instant(r.retainUntil.value).Some?)
  {
  }

  lemma RangeSays(f: Fields)
    requires RangeFromFields(f).Some?
    ensures var r := RangeFromFields(f).value;
            if FindOrNull(f, "suffixLength").Int? then
              r == ByteRange(None, None, Some(FindOrNull(f, "suffixLength").n)) && r.suffixLength.value > 0
            else
              && FindOrNull(f, "start").Int? && r.start == Some(FindOrNull(f, "start").n) && r.start.value >= 0
              && SaysLength(f, "end", r.end) && r.suffixLength.None? && (r.end.Some? ==> r.end.value >= r.start.value)
  {
  }

  lemma ReferenceSays(f: Fields)
    requires ReferenceFromFields(f).Some?
    ensures var r, resource := ReferenceFromFields(f).value, FindOrNull(f, "resourceRef");
            && FindOrNull(f, "objectId") == Str(r.objectId) && SaysText(f, "digest", r.digest)
            && resource.Obj? && FindOrNull(resource.fields, "catalog") == Str(r.resource.catalog)
            && FindOrNull(resource.fields, "namespace") == Str(r.resource.namespace)
            && FindOrNull(resource.fields, "name") == Str(r.resource.name)
            && r.resource.catalog == "object"
  {
  }

  lemma SignedSays(p: Platform, f: Fields)
    requires FromFields(p, f).Some?
    ensures var s := FromFields(p, f).value;
            && FindOrNull(f, "formatVersion") == Str("meridian.object.signed-reference.v1")
            && FindOrNull(f, "expiresAt") == Str(s.expiresAt) && FindOrNull(f, "audience") == Str(s.audience)
            && FindOrNull(f, "nonce") == Str(s.nonce) && FindOrNull(f, "keyId") == Str(s.keyId)
            && FindOrNull(f, "algorithm") == Str(s.algorithm) && FindOrNull(f, "signature") == Str(s.signature)
    ensures var s, ref := FromFields(p, f).value, FindOrNull(f, "objectRef");
            ref.Obj? && ReferenceFromFields(ref.fields) == Some(s.objectRef) && s.objectRef.digest.Some?
    ensures var s, operations := FromFields(p, f).value, FindOrNull(f, "allowedOperations");
            && operations.Arr? && forall verb :: verb in s.operations <==> Str(verb) in operations.items
  {
    SequenceSays(FindOrNull(f, "allowedOperations").items);
  }

  lemma SequenceSays(items: seq<Json>)
    requires StringSequence(items).Some?
    ensures |StringSequence(items).value| == |items|
    ensures forall verb :: verb in StringSequence(items).value <==> Str(verb) in items
  {
    StringSequenceIsSortedUnique(items);
    var r, texts := StringSequence(items).value, Texts(items);
    MembersFollowMultiset(r, texts);
    assert |r| == |multiset(r)| == |multiset(texts)|;
    forall verb ensures verb in r <==> Str(verb) in items {
      if verb in texts {
        var i :| 0 <= i < |items| && texts[i] == verb;
        assert items[i] == Str(verb);
      }
      if Str(verb) in items {
        var i :| 0 <= i < |items| && items[i] == Str(verb);
        assert texts[i] == verb;
      }
    }
  }

  // ---- Which wire values parse ----

  ghost predicate IsDigestOrNull(v: Json) {
    v.Null? || (v.Str? && IsDigest(v.s))
  }

  ghost predicate IsLengthOrNull(v: Json) {
    v.Null? || (v.Int? && v.n >= 0)
  }

  lemma PayloadParsesExactly(f: Fields)
    ensures PayloadFromFields(f).Some? <==>
              && Keys(f) == Named({"formatVersion", "token", "expectedLength", "expectedDigest", "replayable"})
              && FindOrNull(f, "formatVersion") == Str("meridian.object.payload-reference.v1")
              && FindOrNull(f, "token").Str? && IsToken(FindOrNull(f, "token").s)
              && IsLengthOrNull(FindOrNull(f, "expectedLength")) && IsDigestOrNull(FindOrNull(f, "expectedDigest"))
              && FindOrNull(f, "replayable").Bool?
  {
    ExactFieldsMeans(f, PAYLOAD_FIELDS);
    ExpectationsParse(FindOrNull(f, "expectedDigest"), FindOrNull(f, "expectedLength"));
  }

  lemma ImmutabilityParsesExactly(f: Fields)
    ensures ImmutabilityFromFields(f).Some? <==>
              && Keys(f) == Named({"mutability", "publishOnce"})
              && FindOrNull(f, "mutability") in {Str("mutable"), Str("immutable")}
              && FindOrNull(f, "publishOnce").Bool?
              && (FindOrNull(f, "publishOnce").b ==> FindOrNull(f, "mutability") == Str("immutable"))
  {
    ExactFieldsMeans(f, IMMUTABILITY_FIELDS);
  }

  lemma RetentionParsesExactly(p: Platform, f: Fields)
    ensures var until, policy := FindOrNull(f, "retainUntil"), FindOrNull(f, "policy");
            RetentionFromFields(p, f).Some? <==>
              && Keys(f) == Named({"retainUntil", "policy", "requireEnforcement"})
              && (until.Null? || (until.Str? && p.instant(until.s).Some?))
              && (policy.Null? || (policy.Str? && Bounded(policy.s, 256))) && (until.Str? || policy.Str?)
              && FindOrNull(f, "requireEnforcement").Bool?
  {
    ExactFieldsMeans(f, RETENTION_FIELDS);
  }

  /** A range is a suffix of at least one byte, or a start with an end that is not before it or left open. */
  lemma RangeParsesExactly(f: Fields)
    ensures var start, end, suffix := FindOrNull(f, "start"), FindOrNull(f, "end"), FindOrNull(f, "suffixLength");
            RangeFromFields(f).Some? <==>
              || (Keys(f) == Named({"suffixLength"}) && suffix.Int? && suffix.n > 0)
              || (Name("start") in Keys(f) && Keys(f) <= Named({"start", "end"})
                  && start.Int? && start.n >= 0 && (end.Null? || (end.Int? && end.n >= start.n)))
  {
    ExactFieldsMeans(f, {"suffixLength"});
    PresentKey(f, "suffixLength");
    RequiredFieldsMean(f, {"start"}, {"end"});
    assert Named({"start"}) == {Name("start")} && Named({"start"} + {"end"}) == Named({"start", "end"});
    assert Name("suffixLength") in Named({"suffixLength"}) && Name("suffixLength") !in Named({"start", "end"});
  }

  lemma RequiredFieldsMean(f: Fields, required: set<string>, optional: set<string>)
    ensures ExactFields(f, required, optional) <==>
              Named(required) <= Keys(f) && Keys(f) <= Named(required + optional)
  {
    assert forall name :: name in required ==> Name(name) in Named(required);
  }

  ghost predicate ParsableResource(v: Json) {
    && v.Obj? && Keys(v.fields) == Named({"catalog", "namespace", "name"})
    && FindOrNull(v.fields, "catalog") == Str("object")
    && FindOrNull(v.fields, "namespace").Str? && IsLogicalName(FindOrNull(v.fields, "namespace").s)
    && FindOrNull(v.fields, "name").Str? && IsLogicalName(FindOrNull(v.fields, "name").s)
  }

  lemma ResourceParsesExactly(f: Fields)
    ensures ResourceFromFields(f).Some? <==> ParsableResource(Obj(f))
  {
    ExactFieldsMeans(f, {"catalog", "namespace", "name"});
  }

  lemma ReferenceParsesExactly(f: Fields)
    ensures ReferenceFromFields(f).Some? <==>
              && Named({"resourceRef", "objectId"}) <= Keys(f) <= Named({"resourceRef", "objectId", "digest"})
              && ParsableResource(FindOrNull(f, "resourceRef"))
              && FindOrNull(f, "objectId").Str? && Bounded(FindOrNull(f, "objectId").s, 1024)
              && IsDigestOrNull(FindOrNull(f, "digest"))
  {
    RequiredFieldsMean(f, {"resourceRef", "objectId"}, {"digest"});
    assert {"resourceRef", "objectId"} + {"digest"} == {"resourceRef", "objectId", "digest"};
    if FindOrNull(f, "resourceRef").Obj? { ResourceParsesExactly(FindOrNull(f, "resourceRef").fields); }
  }

  /** Operations to sign: at least one, none twice, each of them signable. */
  ghost predicate ParsableOperations(v: Json) {
    && v.Arr? && v.items != []
    && (forall i :: 0 <= i < |v.items| ==> v.items[i] in {Str("get"), Str("read_range"), Str("stat")})
    && (forall i, j :: 0 <= i < j < |v.items| ==> v.items[i] != v.items[j])
  }

  lemma SignableIsBounded(v: Json)
    requires v in {Str("get"), Str("read_range"), Str("stat")}
    ensures IsBoundedString(v, 128)
  {
    LowerCaseIsBounded(v.s);
  }

  lemma OperationsParseExactly(items: seq<Json>)
    ensures SelectOperations(items).Some? <==> ParsableOperations(Arr(items))
  {
    StringSequenceIsSortedUnique(items);
    if ParsableOperations(Arr(items)) {
      forall i | 0 <= i < |items| ensures IsBoundedString(items[i], 128) { SignableIsBounded(items[i]); }
    }
    if StringSequence(items).Some? { SignableExactly(items); }
  }

  lemma SignableExactly(items: seq<Json>)
    requires StringSequence(items).Some?
    ensures StringSequence(items).value == [] <==> items == []
    ensures Members(StringSequence(items).value) <= SIGNABLE <==>
              forall i :: 0 <= i < |items| ==> items[i] in {Str("get"), Str("read_range"), Str("stat")}
  {
    SequenceSays(items);
    StringSequenceIsSortedUnique(items);
    var r := StringSequence(items).value;
    if Members(r) <= SIGNABLE {
      forall i | 0 <= i < |items| ensures items[i] in {Str("get"), Str("read_range"), Str("stat")} {
        assert items[i].s in Members(r);
      }
    }
  }

  ghost predicate IsTextValue(f: Fields, name: string) {
    FindOrNull(f, name).Str?
  }

  /** The dictionary has the shape of a signed reference. */
  ghost predicate SignedShape(f: Fields) {
    && Keys(f) == Named({"formatVersion", "objectRef", "allowedOperations", "expiresAt", "audience", "nonce", "keyId",
                         "algorithm", "signature"})
    && FindOrNull(f, "formatVersion") == Str("meridian.object.signed-reference.v1")
    && FindOrNull(f, "objectRef").Obj? && FindOrNull(f, "allowedOperations").Arr?
    && IsTextValue(f, "expiresAt") && IsTextValue(f, "audience") && IsTextValue(f, "nonce") && IsTextValue(f, "keyId")
    && IsTextValue(f, "algorithm") && IsTextValue(f, "signature")
  }

  lemma ShapedMakes(p: Platform, f: Fields)
    requires SignedShape(f)
    ensures FromFields(p, f) ==
              var ref := ReferenceFromFields(FindOrNull(f, "objectRef").fields);
              if ref.None? then None
              else
                Make(p, ref.value, FindOrNull(f, "allowedOperations").items, FindOrNull(f, "expiresAt").s,
                     FindOrNull(f, "audience").s, FindOrNull(f, "nonce").s, FindOrNull(f, "keyId").s,
                     FindOrNull(f, "algorithm").s, FindOrNull(f, "signature").s)
  {
    ExactFieldsMeans(f, SIGNED_FIELDS);
  }

  lemma MakesHaveShape(p: Platform, f: Fields)
    requires FromFields(p, f).Some?
    ensures SignedShape(f)
  {
    ExactFieldsMeans(f, SIGNED_FIELDS);
  }

  /** A dictionary is a signed reference exactly when it has the shape of one, names a pinned object and
      operations that may be signed, and each of its texts meets its own grammar. */
  lemma SignedParsesExactly(p: Platform, f: Fields)
    ensures FromFields(p, f).Some? <==>
              && SignedShape(f)
              && var ref, signature := FindOrNull(f, "objectRef").fields, FindOrNull(f, "signature").s;
                 && ReferenceFromFields(ref).Some? && FindOrNull(ref, "digest").Str?
                 && ParsableOperations(FindOrNull(f, "allowedOperations"))
                 && p.instant(FindOrNull(f, "expiresAt").s).Some? && Bounded(FindOrNull(f, "audience").s, 256)
                 && IsToken(FindOrNull(f, "nonce").s) && IsToken(FindOrNull(f, "keyId").s)
                 && IsToken(FindOrNull(f, "algorithm").s)
                 && 1 <= |signature| <= 2048 && Base64Url.Decode(signature).Some?
  {
    if FromFields(p, f).Some? { MakesHaveShape(p, f); }
    if SignedShape(f) { ShapedParsesExactly(p, f); }
  }

  lemma ShapedParsesExactly(p: Platform, f: Fields)
    requires SignedShape(f)
    ensures FromFields(p, f).Some? <==>
              var ref, signature := FindOrNull(f, "objectRef").fields, FindOrNull(f, "signature").s;
              && ReferenceFromFields(ref).Some? && FindOrNull(ref, "digest").Str?
              && ParsableOperations(FindOrNull(f, "allowedOperations"))
              && p.instant(FindOrNull(f, "expiresAt").s).Some? && Bounded(FindOrNull(f, "audience").s, 256)
              && IsToken(FindOrNull(f, "nonce").s) && IsToken(FindOrNull(f, "keyId").s)
              && IsToken(FindOrNull(f, "algorithm").s)
              && 1 <= |signature| <= 2048 && Base64Url.Decode(signature).Some?
  {
    ShapedMakes(p, f);
    var parsed := ReferenceFromFields(FindOrNull(f, "objectRef").fields);
    if parsed.Some? {
      ReferenceSays(FindOrNull(f, "objectRef").fields);
      MakeAcceptsExactly(p, parsed.value, FindOrNull(f, "allowedOperations").items, FindOrNull(f, "expiresAt").s,
                         FindOrNull(f, "audience").s, FindOrNull(f, "nonce").s, FindOrNull(f, "keyId").s,
                         FindOrNull(f, "algorithm").s, FindOrNull(f, "signature").s);
    }
  }

  lemma MakeAcceptsExactly(p: Platform, ref: ObjectReference, operations: seq<Json>, expiresAt: string,
                           audience: string, nonce: string, keyId: string, algorithm: string, signature: string)
    requires ValidReference(ref)
    ensures Make(p, ref, operations, expiresAt, audience, nonce, keyId, algorithm, signature).Some? <==>
              && ref.digest.Some? && ParsableOperations(Arr(operations)) && p.instant(expiresAt).Some?
              && Bounded(audience, 256) && IsToken(nonce) && IsToken(keyId) && IsToken(algorithm)
              && 1 <= |signature| <= 2048 && Base64Url.Decode(signature).Some?
  {
    OperationsParseExactly(operations);
  }

  // ---- Puts ----

  /** The arguments of a put and the request they make. */
  ghost predicate SaysPut(a: Fields, q: Request)
    requires q.Put?
  {
    && FindOrNull(a, "objectId") == Str(q.objectId) && FindOrNull(a, "mediaType") == Str(q.mediaType)
    && FindOrNull(a, "creationContext") == Obj(q.creationContext) && FindOrNull(a, "provenance") == Obj(q.provenance)
    && FindOrNull(a, "createOnly") == Bool(q.createOnly)
    && SaysText(a, "expectedDigest", q.payload.expectedDigest)
    && SaysLength(a, "expectedLength", q.payload.expectedLength)
  }

  /** The handle of a put: its token and replayability, and no expectation but the put's own. */
  ghost predicate SaysHandle(a: Fields, q: Request)
    requires q.Put?
  {
    var payload := FindOrNull(a, "payload");
    && payload.Obj? && FindOrNull(payload.fields, "token") == Str(q.payload.token)
    && FindOrNull(payload.fields, "replayable") == Bool(q.payload.replayable)
    && FindOrNull(payload.fields, "expectedDigest") in {Null, FindOrNull(a, "expectedDigest")}
    && FindOrNull(payload.fields, "expectedLength") in {Null, FindOrNull(a, "expectedLength")}
  }

  /** The user metadata of a put: the same entries, in key order. */
  ghost predicate SaysMetadata(a: Fields, q: Request)
    requires q.Put?
  {
    var metadata := FindOrNull(a, "userMetadata");
    && metadata.Obj? && Permuted(q.metadata, metadata.fields) && Ascending(EntryLess, q.metadata)
    && |metadata.fields| <= 128 && |q.metadata| == |metadata.fields|
    && forall i :: 0 <= i < |metadata.fields| ==>
         && metadata.fields[i].0.Name? && Bounded(metadata.fields[i].0.text, 128)
         && metadata.fields[i].1.Str? && Bounded(metadata.fields[i].1.s, 2048)
  }

  /** The intents of a put: none for null, and otherwise what their fields say. */
  ghost predicate SaysIntents(p: Platform, a: Fields, q: Request)
    requires q.Put?
  {
    var immutability, retention := FindOrNull(a, "immutability"), FindOrNull(a, "retention");
    && (match q.immutability
        case None => immutability == Null
        case Some(i) =>
          && immutability.Obj? && FindOrNull(immutability.fields, "mutability") == Str(i.mutability)
          && FindOrNull(immutability.fields, "publishOnce") == Bool(i.publishOnce))
    && (match q.retention
        case None => retention == Null
        case Some(r) =>
          && retention.Obj? && SaysText(retention.fields, "retainUntil", r.retainUntil)
          && SaysText(retention.fields, "policy", r.policy)
          && FindOrNull(retention.fields, "requireEnforcement") == Bool(r.requireEnforcement))
  }

  lemma MergeSays(raw: Json, digest: Json, length: Json)
    requires MergePayload(raw, digest, length).Some?
    ensures var m := MergePayload(raw, digest, length).value;
            && raw.Obj? && FindOrNull(raw.fields, "token") == Str(m.token)
            && FindOrNull(raw.fields, "replayable") == Bool(m.replayable)
            && FindOrNull(raw.fields, "expectedDigest") in {Null, digest}
            && FindOrNull(raw.fields, "expectedLength") in {Null, length}
            && digest == (match m.expectedDigest case Some(s) => Str(s) case None => Null)
            && length == (match m.expectedLength case Some(n) => Int(n) case None => Null)
  {
    PayloadSays(raw.fields);
  }

  lemma IntentsSay(p: Platform, i: Json, r: Json)
    requires ImmutabilityFromJson(i).Some? && RetentionFromJson(p, r).Some?
    ensures match ImmutabilityFromJson(i).value
            case None => i == Null
            case Some(x) => i.Obj? && ImmutabilityFromFields(i.fields) == Some(x)
    ensures match RetentionFromJson(p, r).value
            case None => r == Null
            case Some(x) => r.Obj? && RetentionFromFields(p, r.fields) == Some(x)
  {
  }

  lemma PutSays(p: Platform, a: Fields, resource: ResourceRef)
    requires PutFromFields(p, a, resource).Some?
    ensures var q := PutFromFields(p, a, resource).value; q.Put? && SaysPut(a, q) && SaysHandle(a, q)
  {
    MergeSays(FindOrNull(a, "payload"), FindOrNull(a, "expectedDigest"), FindOrNull(a, "expectedLength"));
  }

  lemma PutMetadataSays(p: Platform, a: Fields, resource: ResourceRef)
    requires WellFormed(Obj(a)) && PutFromFields(p, a, resource).Some?
    ensures var q := PutFromFields(p, a, resource).value; q.Put? && SaysMetadata(a, q)
  {
    var q := PutFromFields(p, a, resource).value;
    FoundValueIsWellFormed(a, "userMetadata");
    var metadata := FindOrNull(a, "userMetadata").fields;
    SortedEntriesAscend(metadata);
    MembersFollowMultiset(q.metadata, metadata);
  }

  lemma PutIntentsSay(p: Platform, a: Fields, resource: ResourceRef)
    requires PutFromFields(p, a, resource).Some?
    ensures var q := PutFromFields(p, a, resource).value; q.Put? && SaysIntents(p, a, q)
  {
    var q := PutFromFields(p, a, resource).value;
    IntentsSay(p, FindOrNull(a, "immutability"), FindOrNull(a, "retention"));
    if q.immutability.Some? { ImmutabilitySays(FindOrNull(a, "immutability").fields); }
    if q.retention.Some? { RetentionSays(p, FindOrNull(a, "retention").fields); }
  }

  /** Everything a put's request says is in the arguments, under its own name. */
  lemma PutRequestSays(p: Platform, a: Fields, resource: ResourceRef)
    requires WellFormed(Obj(a)) && PutFromFields(p, a, resource).Some?
    ensures var q := PutFromFields(p, a, resource).value;
            q.Put? && SaysPut(a, q) && SaysHandle(a, q) && SaysMetadata(a, q) && SaysIntents(p, a, q)
  {
    PutSays(p, a, resource);
    PutMetadataSays(p, a, resource);
    PutIntentsSay(p, a, resource);
  }

  /** The rewritten arguments say the same request, the handle now with the put's own expectations and the
      user metadata in key order. */
  lemma PutInputSays(p: Platform, a: Fields, resource: ResourceRef)
    requires WellFormed(Obj(a)) && PutFromFields(p, a, resource).Some?
    ensures var q := PutFromFields(p, a, resource).value;
            var f := Render(q, a);
            && q.Put? && SaysPut(f, q) && SaysHandle(f, q) && SaysIntents(p, f, q)
            && FindOrNull(f, "payload").Obj?
            && SaysText(FindOrNull(f, "payload").fields, "expectedDigest", q.payload.expectedDigest)
            && SaysLength(FindOrNull(f, "payload").fields, "expectedLength", q.payload.expectedLength)
            && FindOrNull(f, "userMetadata") == Obj(q.metadata)
  {
    var q := PutFromFields(p, a, resource).value;
    PutIsIdempotent(p, a, resource);
    PutSays(p, Render(q, a), resource);
    PutIntentsSay(p, Render(q, a), resource);
    PutObjectsRender(q, a);
    PayloadRoundTrip(q.payload);
    PayloadSays(PayloadToFields(q.payload));
  }

  // ---- Acceptance ----

  function Named(names: set<string>): set<Key> {
    set name | name in names :: Name(name)
  }

  lemma ExactFieldsMeans(f: Fields, names: set<string>)
    ensures ExactFields(f, names, {}) <==> Keys(f) == Named(names)
  {
    if ExactFields(f, names, {}) {
      forall key ensures key in Keys(f) <==> key in Named(names) {
      }
    }
    if Keys(f) == Named(names) {
      assert forall name :: name in names ==> Name(name) in Named(names);
    }
  }

  ghost predicate AcceptableHandle(payload: Json, digest: Json, length: Json) {
    && payload.Obj? && PayloadFromFields(payload.fields).Some?
    && (digest.Null? || (digest.Str? && IsDigest(digest.s))) && (length.Null? || (length.Int? && length.n >= 0))
    && FindOrNull(payload.fields, "expectedDigest") in {Null, digest}
    && FindOrNull(payload.fields, "expectedLength") in {Null, length}
  }

  ghost predicate AcceptableIdentity(mediaType: Json, objectId: Json, resource: ResourceRef) {
    && IsMediaType(mediaType) && objectId.Str? && Bounded(objectId.s, 1024)
    && IsLogicalName(resource.namespace) && IsLogicalName(resource.name)
  }

  ghost predicate AcceptableMetadata(metadata: Json) {
    && metadata.Obj? && |metadata.fields| <= 128
    && forall i :: 0 <= i < |metadata.fields| ==>
         && metadata.fields[i].0.Name? && Bounded(metadata.fields[i].0.text, 128)
         && metadata.fields[i].1.Str? && Bounded(metadata.fields[i].1.s, 2048)
  }

  ghost predicate AcceptableIntents(p: Platform, immutability: Json, retention: Json) {
    && (immutability.Null? || (immutability.Obj? && ImmutabilityFromFields(immutability.fields).Some?))
    && (retention.Null? || (retention.Obj? && RetentionFromFields(p, retention.fields).Some?))
  }

  ghost predicate AcceptablePut(p: Platform, v: PutValues, resource: ResourceRef) {
    && AcceptableHandle(v.payload, v.expectedDigest, v.expectedLength)
    && AcceptableIdentity(v.mediaType, v.objectId, resource) && AcceptableMetadata(v.metadata)
    && v.creationContext.Obj? && v.provenance.Obj? && AcceptableIntents(p, v.immutability, v.retention)
    && v.createOnly.Bool?
  }

  lemma DigestSaid(said: Json, own: Option<string>, digest: Json)
    requires said == (match own case Some(s) => Str(s) case None => Null) && DigestFromJson(digest).Some?
    ensures own.Some? && own != DigestFromJson(digest).value <==> said !in {Null, digest}
  {
  }

  lemma LengthSaid(said: Json, own: Option<int>, length: Json)
    requires said == (match own case Some(n) => Int(n) case None => Null) && LengthFromJson(length).Some?
    ensures own.Some? && own != LengthFromJson(length).value <==> said !in {Null, length}
  {
  }

  lemma ExpectationsParse(digest: Json, length: Json)
    ensures DigestFromJson(digest).Some? <==> digest.Null? || (digest.Str? && IsDigest(digest.s))
    ensures LengthFromJson(length).Some? <==> length.Null? || (length.Int? && length.n >= 0)
  {
  }

  lemma MergedExactly(raw: Json, digest: Json, length: Json)
    ensures MergePayload(raw, digest, length).Some? <==> AcceptableHandle(raw, digest, length)
  {
    ExpectationsParse(digest, length);
    if raw.Obj? && PayloadFromFields(raw.fields).Some? && DigestFromJson(digest).Some? && LengthFromJson(length).Some? {
      var own := PayloadFromFields(raw.fields).value;
      PayloadSays(raw.fields);
      DigestSaid(FindOrNull(raw.fields, "expectedDigest"), own.expectedDigest, digest);
      LengthSaid(FindOrNull(raw.fields, "expectedLength"), own.expectedLength, length);
    }
  }

  lemma IdentityExactly(v: PutValues, resource: ResourceRef, digest: Option<string>)
    requires digest.Some? ==> IsDigest(digest.value)
    ensures IsMediaType(v.mediaType) && IsBoundedString(v.objectId, 1024)
            && ValidReference(PutReference(resource, v.objectId.s, digest))
            <==> AcceptableIdentity(v.mediaType, v.objectId, resource)
  {
  }

  lemma MetadataExactly(metadata: Json)
    ensures IsUserMetadata(metadata) <==> AcceptableMetadata(metadata)
  {
  }

  lemma IntentsExactly(p: Platform, i: Json, r: Json)
    ensures ImmutabilityFromJson(i).Some? && RetentionFromJson(p, r).Some? <==> AcceptableIntents(p, i, r)
  {
  }

  lemma PutValuesAcceptedExactly(p: Platform, v: PutValues, resource: ResourceRef)
    ensures PutFromValues(p, v, resource).Some? <==> AcceptablePut(p, v, resource)
  {
    MergedExactly(v.payload, v.expectedDigest, v.expectedLength);
    var payload := MergePayload(v.payload, v.expectedDigest, v.expectedLength);
    if payload.Some? { IdentityExactly(v, resource, payload.value.expectedDigest); }
    MetadataExactly(v.metadata);
    IntentsExactly(p, v.immutability, v.retention);
  }

  /** A put is accepted exactly when it has the twelve arguments and each is acceptable. */
  lemma PutAcceptedExactly(p: Platform, a: Fields, resource: ResourceRef)
    ensures PutFromFields(p, a, resource).Some? <==>
              && Keys(a) == Named({"resource", "objectId", "payload", "mediaType", "expectedDigest", "expectedLength",
                                   "userMetadata", "creationContext", "provenance", "immutability", "retention",
                                   "createOnly"})
              && AcceptablePut(p, PutValuesOf(a), resource)
  {
    ExactFieldsMeans(a, PUT_FIELDS);
    PutValuesAcceptedExactly(p, PutValuesOf(a), resource);
  }

  /** The reference may be used: a signed one when it names the method, a plain one when it has a digest or
      needs none; and it is in the resource. */
  ghost predicate Usable(p: Platform, raw: Json, resource: ResourceRef, verb: string, requireDigest: bool) {
    && raw.Obj?
    && if FindOrNull(raw.fields, "formatVersion") == Str("meridian.object.signed-reference.v1") then
         && FromFields(p, raw.fields).Some? && FindOrNull(raw.fields, "allowedOperations").Arr?
         && Str(verb) in FindOrNull(raw.fields, "allowedOperations").items
         && FromFields(p, raw.fields).value.objectRef.resource == resource
       else
         && ReferenceFromFields(raw.fields).Some?
         && (requireDigest ==> FindOrNull(raw.fields, "digest").Str?)
         && ReferenceFromFields(raw.fields).value.resource == resource
  }

  lemma ParsedExactly(p: Platform, f: Fields)
    ensures ParseLogical(p, f) ==
              if FindOrNull(f, "formatVersion") == Str("meridian.object.signed-reference.v1") then
                (match FromFields(p, f) case Some(s) => Some(SignedRef(s)) case None => None)
              else
                match ReferenceFromFields(f) case Some(r) => Some(Plain(r)) case None => None
  {
  }

  ghost predicate Selected(raw: Json, r: Option<LogicalReference>, p: Platform) {
    r.Some? ==>
      && raw.Obj?
      && (r.value.SignedRef? <==> FindOrNull(raw.fields, "formatVersion") == Str("meridian.object.signed-reference.v1"))
      && (r.value.SignedRef? ==> FromFields(p, raw.fields) == Some(r.value.signed))
      && (r.value.Plain? ==> ReferenceFromFields(raw.fields) == Some(r.value.ref))
  }

  lemma SignedSelectedExactly(p: Platform, f: Fields, resource: ResourceRef, verb: string, requireDigest: bool)
    requires FindOrNull(f, "formatVersion") == Str("meridian.object.signed-reference.v1")
    ensures var r := SelectReference(p, Obj(f), resource, verb, requireDigest);
            Selected(Obj(f), r, p) && (r.Some? <==> Usable(p, Obj(f), resource, verb, requireDigest))
  {
    ParsedExactly(p, f);
    if FromFields(p, f).Some? { SignedSays(p, f); }
  }

  lemma PlainSelectedExactly(p: Platform, f: Fields, resource: ResourceRef, verb: string, requireDigest: bool)
    requires FindOrNull(f, "formatVersion") != Str("meridian.object.signed-reference.v1")
    ensures var r := SelectReference(p, Obj(f), resource, verb, requireDigest);
            Selected(Obj(f), r, p) && (r.Some? <==> Usable(p, Obj(f), resource, verb, requireDigest))
  {
    ParsedExactly(p, f);
    if ReferenceFromFields(f).Some? { ReferenceSays(f); }
  }

  /** A method gets a reference exactly when it may use it, and gets the one the argument says. */
  lemma SelectedExactly(p: Platform, raw: Json, resource: ResourceRef, verb: string, requireDigest: bool)
    ensures var r := SelectReference(p, raw, resource, verb, requireDigest);
            Selected(raw, r, p) && (r.Some? <==> Usable(p, raw, resource, verb, requireDigest))
  {
    if raw.Obj? {
      if FindOrNull(raw.fields, "formatVersion") == Str("meridian.object.signed-reference.v1") {
        SignedSelectedExactly(p, raw.fields, resource, verb, requireDigest);
      } else {
        PlainSelectedExactly(p, raw.fields, resource, verb, requireDigest);
      }
    }
  }

  lemma ReadAcceptedExactly(p: Platform, verb: string, a: Fields, resource: ResourceRef)
    ensures ReadFromFields(p, verb, a, resource).Some? <==>
              Keys(a) == Named({"resource", "reference"})
                && Usable(p, FindOrNull(a, "reference"), resource, verb, false)
    ensures ReadFromFields(p, verb, a, resource).Some? ==>
              ReadFromFields(p, verb, a, resource).value
              == Read(SelectReference(p, FindOrNull(a, "reference"), resource, verb, false).value)
  {
    ExactFieldsMeans(a, {"resource", "reference"});
    SelectedExactly(p, FindOrNull(a, "reference"), resource, verb, false);
  }

  lemma RangeReadAcceptedExactly(p: Platform, a: Fields, resource: ResourceRef)
    ensures RangeRequestFromFields(p, a, resource).Some? <==>
              && Keys(a) == Named({"resource", "reference", "range"})
              && Usable(p, FindOrNull(a, "reference"), resource, "read_range", false)
              && FindOrNull(a, "range").Obj? && RangeFromFields(FindOrNull(a, "range").fields).Some?
    ensures RangeRequestFromFields(p, a, resource).Some? ==>
              RangeRequestFromFields(p, a, resource).value
              == ReadRange(SelectReference(p, FindOrNull(a, "reference"), resource, "read_range", false).value,
                           RangeFromFields(FindOrNull(a, "range").fields).value)
  {
    ExactFieldsMeans(a, {"resource", "reference", "range"});
    SelectedExactly(p, FindOrNull(a, "reference"), resource, "read_range", false);
  }

  lemma DeleteAcceptedExactly(p: Platform, a: Fields, resource: ResourceRef)
    ensures DeleteFromFields(p, a, resource).Some? <==>
              && Keys(a) == Named({"resource", "reference", "reason"})
              && Usable(p, FindOrNull(a, "reference"), resource, "delete", true)
              && (FindOrNull(a, "reason").Null?
                  || (FindOrNull(a, "reason").Str? && Bounded(FindOrNull(a, "reason").s, 1024)))
  {
    ExactFieldsMeans(a, {"resource", "reference", "reason"});
    SelectedExactly(p, FindOrNull(a, "reference"), resource, "delete", true);
  }

  lemma ListAcceptedExactly(a: Fields)
    ensures var prefix, limit, cursor := FindOrNull(a, "prefix"), FindOrNull(a, "limit"), FindOrNull(a, "cursor");
            && (ListFromFields(a).Some? <==>
                  && Keys(a) == Named({"resource", "prefix", "limit", "cursor", "purpose"})
                  && prefix.Str? && Utf8Length(prefix.s) <= 1024
                  && (forall i :: 0 <= i < |prefix.s| ==> prefix.s[i] as int >= 32 && prefix.s[i] as int != 127)
                  && limit.Int? && 1 <= limit.n <= 1000
                  && (cursor.Null? || (cursor.Str? && Bounded(cursor.s, 2048)))
                  && FindOrNull(a, "purpose") == Str("maintenance"))
            && (ListFromFields(a).Some? ==> ListFromFields(a).value == List(prefix.s, limit.n))
  {
    ExactFieldsMeans(a, {"resource", "prefix", "limit", "cursor", "purpose"});
  }

  // ---- Requirements and flags ----

  lemma PutEffectsSay(q: Request)
    requires q.Put?
    ensures var e := EffectsOf(q);
            && (e.idempotent <==> q.createOnly || q.payload.expectedDigest.Some?)
            && ("object.conditional-create" in e.guarantees <==> q.createOnly)
            && ("object.immutability-intent" in e.guarantees <==>
                  q.immutability.Some? && q.immutability.value.mutability == "immutable")
            && ("object.retention-intent" in e.guarantees <==> q.retention.Some?)
            && ("object.retention-enforcement" in e.guarantees <==>
                  q.retention.Some? && q.retention.value.requireEnforcement)
            && e.guarantees <= {"object.conditional-create", "object.immutability-intent", "object.retention-intent",
                                "object.retention-enforcement"}
  {
  }

  lemma PutLimitsSay(q: Request)
    requires q.Put?
    ensures var limits := EffectsOf(q).limits;
            && "object.max-user-metadata-entries" in limits
            && limits["object.max-user-metadata-entries"] == |q.metadata|
            && ("object.max-object-bytes" in limits <==> q.payload.expectedLength.Some?)
            && (q.payload.expectedLength.Some? ==> limits["object.max-object-bytes"] == q.payload.expectedLength.value)
            && limits.Keys <= {"object.max-user-metadata-entries", "object.max-object-bytes"}
  {
  }

  /** What an operation guarantees and limits; nothing when it carries no requirement. */
  function GuaranteesIn(op: Operation): set<string> {
    match op.requirements case Some(r) => r.guarantees case None => {}
  }

  function LimitsIn(op: Operation): map<string, int> {
    match op.requirements case Some(r) => r.minimumLimits case None => map[]
  }

  lemma RequirementsSay(e: Effects, op: Operation)
    requires op.requirements == RequirementsOf(e)
    ensures GuaranteesIn(op) == e.guarantees && LimitsIn(op) == e.limits
  {
  }

  lemma DataOperation(p: Platform, verb: string, a: Fields)
    requires verb in DATA_METHODS && NormalizedData(p, verb, a).Success?
    ensures var op := NormalizedData(p, verb, a).value;
            && p.parseResource(FindOrNull(a, "resource")) == Some(op.resource)
            && RequestFromFields(p, verb, a, op.resource).Some?
            && var q := RequestFromFields(p, verb, a, op.resource).value;
               && op.contract == "meridian.object." + verb && op.input == Render(q, a)
               && op.idempotent == EffectsOf(q).idempotent && op.readOnly == (verb in READ_ONLY_METHODS)
               && GuaranteesIn(op) == EffectsOf(q).guarantees && LimitsIn(op) == EffectsOf(q).limits
  {
    var op := NormalizedData(p, verb, a).value;
    RequirementsSay(EffectsOf(RequestFromFields(p, verb, a, op.resource).value), op);
  }

  /** The idempotent flag and the guarantees of a put, argument by argument. */
  ghost predicate PutPromises(a: Fields, op: Operation) {
    var immutability, retention := FindOrNull(a, "immutability"), FindOrNull(a, "retention");
    && (op.idempotent <==> FindOrNull(a, "createOnly") == Bool(true) || FindOrNull(a, "expectedDigest").Str?)
    && ("object.conditional-create" in GuaranteesIn(op) <==> FindOrNull(a, "createOnly") == Bool(true))
    && ("object.immutability-intent" in GuaranteesIn(op) <==>
          immutability.Obj? && FindOrNull(immutability.fields, "mutability") == Str("immutable"))
    && ("object.retention-intent" in GuaranteesIn(op) <==> retention.Obj?)
    && ("object.retention-enforcement" in GuaranteesIn(op) <==>
          retention.Obj? && FindOrNull(retention.fields, "requireEnforcement") == Bool(true))
    && GuaranteesIn(op) <= {"object.conditional-create", "object.immutability-intent", "object.retention-intent",
                            "object.retention-enforcement"}
  }

  /** The limits of a put: the entries of its user metadata, and its declared length if it has one. */
  ghost predicate PutLimits(a: Fields, op: Operation) {
    var metadata, length := FindOrNull(a, "userMetadata"), FindOrNull(a, "expectedLength");
    && metadata.Obj?
    && LimitsIn(op) ==
         if length.Int? then
           map["object.max-user-metadata-entries" := |metadata.fields|]["object.max-object-bytes" := length.n]
         else map["object.max-user-metadata-entries" := |metadata.fields|]
  }

  lemma PutPromisesFrom(p: Platform, a: Fields, op: Operation, q: Request)
    requires q.Put? && SaysPut(a, q) && SaysIntents(p, a, q)
    requires op.idempotent == EffectsOf(q).idempotent && GuaranteesIn(op) == EffectsOf(q).guarantees
    ensures PutPromises(a, op)
  {
    PutEffectsSay(q);
  }

  lemma PutLimitsFrom(a: Fields, op: Operation, q: Request)
    requires q.Put? && SaysPut(a, q) && SaysMetadata(a, q) && LimitsIn(op) == EffectsOf(q).limits
    ensures PutLimits(a, op)
  {
    PutLimitsSay(q);
  }

  lemma DispatchesPut(p: Platform, verb: string, a: Fields, resource: ResourceRef)
    requires verb == "put"
    ensures verb in DATA_METHODS && RequestFromFields(p, verb, a, resource) == PutFromFields(p, a, resource)
  {
  }

  lemma DispatchesRead(p: Platform, verb: string, a: Fields, resource: ResourceRef)
    requires verb == "get" || verb == "stat"
    ensures verb in DATA_METHODS && RequestFromFields(p, verb, a, resource) == ReadFromFields(p, verb, a, resource)
  {
  }

  lemma DispatchesRange(p: Platform, verb: string, a: Fields, resource: ResourceRef)
    requires verb == "read_range"
    ensures verb in DATA_METHODS && RequestFromFields(p, verb, a, resource) == RangeRequestFromFields(p, a, resource)
  {
  }

  lemma DispatchesList(p: Platform, verb: string, a: Fields, resource: ResourceRef)
    requires verb == "list"
    ensures verb in DATA_METHODS && RequestFromFields(p, verb, a, resource) == ListFromFields(a)
  {
  }

  lemma DispatchesDelete(p: Platform, verb: string, a: Fields, resource: ResourceRef)
    requires verb == "delete"
    ensures verb in DATA_METHODS && RequestFromFields(p, verb, a, resource) == DeleteFromFields(p, a, resource)
  {
  }

  lemma ReadOnlyMethods(verb: string)
    requires verb in DATA_METHODS
    ensures verb in READ_ONLY_METHODS <==> verb != "put" && verb != "delete"
  {
  }

  lemma ReadEffectsSay(reference: LogicalReference)
    ensures var e := EffectsOf(Read(reference));
            e == Effects(if reference.SignedRef? then {"object.signed-reference"} else {}, map[], true)
  {
  }

  lemma RangeEffectsSay(reference: LogicalReference, range: ByteRange)
    requires ValidRange(range)
    ensures var e := EffectsOf(ReadRange(reference, range));
            && e.idempotent && e.guarantees == (if reference.SignedRef? then {"object.signed-reference"} else {})
            && e.limits ==
                 if range.suffixLength.Some? then map["object.max-range-bytes" := range.suffixLength.value]
                 else if range.end.Some? then map["object.max-range-bytes" := range.end.value - range.start.value + 1]
                 else map[]
  {
  }

  lemma ScanEffectsSay(q: Request)
    ensures q.List? ==> EffectsOf(q) == Effects({}, map["object.max-list-page-size" := q.limit], true)
    ensures q.Delete? ==> EffectsOf(q) == Effects({}, map[], true)
  {
  }

  lemma DeletesDelete(p: Platform, a: Fields, resource: ResourceRef)
    requires DeleteFromFields(p, a, resource).Some?
    ensures DeleteFromFields(p, a, resource).value.Delete?
  {
  }

  /** A normalized put: not read-only; idempotent, guarantees, and limits as its arguments call for; and the
      rewritten dictionary says the same request. */
  lemma PutMeans(p: Platform, verb: string, a: Fields)
    requires WellFormed(Obj(a)) && verb == "put" && verb in DATA_METHODS && NormalizedData(p, verb, a).Success?
    ensures var op := NormalizedData(p, verb, a).value;
            && !op.readOnly && op.contract == "meridian.object." + verb
            && p.parseResource(FindOrNull(a, "resource")) == Some(op.resource)
            && PutPromises(a, op) && PutLimits(a, op)
            && PutFromFields(p, a, op.resource).Some? && op.input == Render(PutFromFields(p, a, op.resource).value, a)
  {
    var op := NormalizedData(p, verb, a).value;
    DataOperation(p, verb, a);
    ReadOnlyMethods(verb);
    DispatchesPut(p, verb, a, op.resource);
    PutRequestSays(p, a, op.resource);
    PutPromisesFrom(p, a, op, PutFromFields(p, a, op.resource).value);
    PutLimitsFrom(a, op, PutFromFields(p, a, op.resource).value);
  }

  /** A reference that must be verified before it is used asks for that guarantee, and nothing else does. */
  ghost predicate ReadPromises(a: Fields, op: Operation) {
    var reference := FindOrNull(a, "reference");
    && op.idempotent && op.readOnly && reference.Obj?
    && GuaranteesIn(op) ==
         if FindOrNull(reference.fields, "formatVersion") == Str("meridian.object.signed-reference.v1") then
           {"object.signed-reference"}
         else {}
  }

  lemma ReadMeans(p: Platform, verb: string, a: Fields)
    requires (verb == "get" || verb == "stat") && verb in DATA_METHODS && NormalizedData(p, verb, a).Success?
    ensures var op := NormalizedData(p, verb, a).value;
            && p.parseResource(FindOrNull(a, "resource")) == Some(op.resource)
            && op.contract == "meridian.object." + verb && ReadPromises(a, op) && LimitsIn(op) == map[]
  {
    var op := NormalizedData(p, verb, a).value;
    DataOperation(p, verb, a);
    ReadOnlyMethods(verb);
    DispatchesRead(p, verb, a, op.resource);
    ReadAcceptedExactly(p, verb, a, op.resource);
    SelectedExactly(p, FindOrNull(a, "reference"), op.resource, verb, false);
    ReadEffectsSay(SelectReference(p, FindOrNull(a, "reference"), op.resource, verb, false).value);
  }

  /** The limit of a range read: the suffix, or the bytes from start to end; none when the end is open. */
  ghost predicate RangeLimits(a: Fields, op: Operation) {
    var range := FindOrNull(a, "range");
    && range.Obj?
    && var (start, end, suffix) :=
         (FindOrNull(range.fields, "start"), FindOrNull(range.fields, "end"), FindOrNull(range.fields, "suffixLength"));
       LimitsIn(op) ==
         if suffix.Int? then map["object.max-range-bytes" := suffix.n]
         else if start.Int? && end.Int? then map["object.max-range-bytes" := end.n - start.n + 1]
         else map[]
  }

  lemma RangeReadSays(p: Platform, a: Fields, resource: ResourceRef)
    requires RangeRequestFromFields(p, a, resource).Some?
    ensures var q := RangeRequestFromFields(p, a, resource).value;
            && q.ReadRange? && ValidRange(q.range) && FindOrNull(a, "range").Obj? && FindOrNull(a, "reference").Obj?
            && RangeFromFields(FindOrNull(a, "range").fields) == Some(q.range)
            && (q.reference.SignedRef? <==>
                  FindOrNull(FindOrNull(a, "reference").fields, "formatVersion")
                  == Str("meridian.object.signed-reference.v1"))
  {
    RangeReadAcceptedExactly(p, a, resource);
    SelectedExactly(p, FindOrNull(a, "reference"), resource, "read_range", false);
  }

  lemma RangeLimitsFrom(a: Fields, op: Operation, range: ByteRange, reference: LogicalReference)
    requires ValidRange(range) && FindOrNull(a, "range").Obj?
    requires RangeFromFields(FindOrNull(a, "range").fields) == Some(range)
    requires LimitsIn(op) == EffectsOf(ReadRange(reference, range)).limits
    ensures RangeLimits(a, op)
  {
    RangeSays(FindOrNull(a, "range").fields);
    RangeEffectsSay(reference, range);
  }

  lemma RangeMeans(p: Platform, verb: string, a: Fields)
    requires verb == "read_range" && verb in DATA_METHODS && NormalizedData(p, verb, a).Success?
    ensures var op := NormalizedData(p, verb, a).value;
            && p.parseResource(FindOrNull(a, "resource")) == Some(op.resource)
            && op.contract == "meridian.object." + verb && ReadPromises(a, op) && RangeLimits(a, op)
  {
    var op := NormalizedData(p, verb, a).value;
    DataOperation(p, verb, a);
    ReadOnlyMethods(verb);
    DispatchesRange(p, verb, a, op.resource);
    RangeReadSays(p, a, op.resource);
    var q := RangeRequestFromFields(p, a, op.resource).value;
    RangeEffectsSay(q.reference, q.range);
    RangeLimitsFrom(a, op, q.range, q.reference);
  }

  lemma ListMeans(p: Platform, verb: string, a: Fields)
    requires verb == "list" && verb in DATA_METHODS && NormalizedData(p, verb, a).Success?
    ensures var op := NormalizedData(p, verb, a).value;
            && p.parseResource(FindOrNull(a, "resource")) == Some(op.resource)
            && op.contract == "meridian.object." + verb && op.idempotent && op.readOnly && op.input == a
            && GuaranteesIn(op) == {} && FindOrNull(a, "limit").Int?
            && LimitsIn(op) == map["object.max-list-page-size" := FindOrNull(a, "limit").n]
  {
    var op := NormalizedData(p, verb, a).value;
    DataOperation(p, verb, a);
    ReadOnlyMethods(verb);
    DispatchesList(p, verb, a, op.resource);
    ListAcceptedExactly(a);
    ListIsIdempotentAlways(a);
    ScanEffectsSay(ListFromFields(a).value);
  }

  lemma ListIsIdempotentAlways(a: Fields)
    requires ListFromFields(a).Some?
    ensures Render(ListFromFields(a).value, a) == a
  {
  }

  lemma DeleteMeans(p: Platform, verb: string, a: Fields)
    requires verb == "delete" && verb in DATA_METHODS && NormalizedData(p, verb, a).Success?
    ensures var op := NormalizedData(p, verb, a).value;
            && p.parseResource(FindOrNull(a, "resource")) == Some(op.resource)
            && op.contract == "meridian.object." + verb && op.idempotent && !op.readOnly
            && GuaranteesIn(op) == {} && LimitsIn(op) == map[]
            && Usable(p, FindOrNull(a, "reference"), op.resource, "delete", true)
  {
    var op := NormalizedData(p, verb, a).value;
    DataOperation(p, verb, a);
    ReadOnlyMethods(verb);
    DispatchesDelete(p, verb, a, op.resource);
    DeleteAcceptedExactly(p, a, op.resource);
    DeletesDelete(p, a, op.resource);
    ScanEffectsSay(DeleteFromFields(p, a, op.resource).value);
  }

  // ---- Which expressions normalize ----

  /** The arguments the method takes, each acceptable. */
  ghost predicate Acceptable(p: Platform, verb: string, a: Fields, resource: ResourceRef) {
    var reference := FindOrNull(a, "reference");
    if verb == "put" then
      && Keys(a) == Named({"resource", "objectId", "payload", "mediaType", "expectedDigest", "expectedLength",
                           "userMetadata", "creationContext", "provenance", "immutability", "retention", "createOnly"})
      && AcceptablePut(p, PutValuesOf(a), resource)
    else if verb == "get" || verb == "stat" then
      Keys(a) == Named({"resource", "reference"}) && Usable(p, reference, resource, verb, false)
    else if verb == "read_range" then
      && Keys(a) == Named({"resource", "reference", "range"}) && Usable(p, reference, resource, verb, false)
      && FindOrNull(a, "range").Obj? && RangeFromFields(FindOrNull(a, "range").fields).Some?
    else if verb == "list" then ListFromFields(a).Some?
    else
      && verb == "delete" && Keys(a) == Named({"resource", "reference", "reason"})
      && Usable(p, reference, resource, verb, true)
      && (FindOrNull(a, "reason").Null? || (FindOrNull(a, "reason").Str? && Bounded(FindOrNull(a, "reason").s, 1024)))
  }

  lemma RequestAcceptedExactly(p: Platform, verb: string, a: Fields, resource: ResourceRef)
    requires verb in DATA_METHODS
    ensures RequestFromFields(p, verb, a, resource).Some? <==> Acceptable(p, verb, a, resource)
  {
    if verb == "put" {
      DispatchesPut(p, verb, a, resource);
      PutAcceptedExactly(p, a, resource);
    } else if verb == "get" || verb == "stat" {
      DispatchesRead(p, verb, a, resource);
      ReadAcceptedExactly(p, verb, a, resource);
    } else if verb == "read_range" {
      DispatchesRange(p, verb, a, resource);
      RangeReadAcceptedExactly(p, a, resource);
    } else if verb == "list" {
      DispatchesList(p, verb, a, resource);
    } else {
      DispatchesDelete(p, verb, a, resource);
      DeleteAcceptedExactly(p, a, resource);
    }
  }

  /** A data method normalizes exactly when its resource parses and its arguments are acceptable. */
  lemma DataAcceptedExactly(p: Platform, verb: string, a: Fields)
    requires verb in DATA_METHODS
    ensures var resource := p.parseResource(FindOrNull(a, "resource"));
            NormalizedData(p, verb, a).Success? <==> resource.Some? && Acceptable(p, verb, a, resource.value)
  {
    var resource := p.parseResource(FindOrNull(a, "resource"));
    if resource.Some? { RequestAcceptedExactly(p, verb, a, resource.value); }
  }

  /** An expression of a data method normalizes exactly when it is addressed to the Object Catalog, no mapping
      in it has a private key, its resource parses, and its arguments are acceptable. */
  lemma NormalizesExactly(p: Platform, e: Expression)
    requires e.verb in DATA_METHODS
    ensures var resource := p.parseResource(FindOrNull(e.arguments, "resource"));
            Normalized(p, e).Success? <==>
              && e.catalog == "object" && (forall path :: PublicAt(p, Obj(e.arguments), path))
              && resource.Some? && Acceptable(p, e.verb, e.arguments, resource.value)
    ensures Normalized(p, e).Success? ==> Normalized(p, e) == NormalizedData(p, e.verb, e.arguments)
  {
    MethodsAreApart(e.verb);
    AcceptsExactlyPublicTrees(p, Obj(e.arguments));
    DataAcceptedExactly(p, e.verb, e.arguments);
  }

  lemma SchemaAcceptedExactly(p: Platform, a: Fields)
    ensures var namespace, name, revision :=
              FindOrNull(a, "namespace"), FindOrNull(a, "name"), FindOrNull(a, "expectedRegistryRevision");
            AcceptsSchema(p, a) <==>
              && Keys(a) == Named({"namespace", "name", "version", "definition", "allowBreaking",
                                   "expectedRegistryRevision"})
              && p.namesResource(namespace, name) && p.namesSchema(namespace, name, FindOrNull(a, "version"))
              && FindOrNull(a, "definition").Obj? && FindOrNull(a, "allowBreaking").Bool?
              && (revision.Null? || (revision.Int? && revision.n >= 0))
  {
    ExactFieldsMeans(a, SCHEMA_FIELDS);
  }

  lemma ResourceAcceptedExactly(p: Platform, a: Fields)
    ensures AcceptsResource(p, a) <==>
              && Keys(a) == Named({"namespace", "name", "profile", "options"})
              && p.namesResource(FindOrNull(a, "namespace"), FindOrNull(a, "name"))
              && FindOrNull(a, "profile").Obj? && p.profile(FindOrNull(a, "profile").fields).Some?
              && FindOrNull(a, "options").Obj?
  {
    ExactFieldsMeans(a, RESOURCE_FIELDS);
  }

  /** A new resource keeps its arguments, with the profile in canonical form. */
  lemma NewResourceSays(p: Platform, verb: string, a: Fields, name: string)
    requires DistinctKeys(a) && verb == "create_resource" && NormalizedRegistry(p, verb, a).Success?
    ensures FindOrNull(a, "profile").Obj? && p.profile(FindOrNull(a, "profile").fields).Some?
    ensures FindOrNull(NormalizedRegistry(p, verb, a).value.input, name) ==
              if name == "profile" then Obj(p.profile(FindOrNull(a, "profile").fields).value) else FindOrNull(a, name)
  {
    ResourceAcceptedExactly(p, a);
    ProfileIsPresent(p, a);
    AssignedFind(a, "profile", Obj(ProfileOf(p, a).value), name);
  }

  /** An expression of a registry method normalizes to an operation on the registry that requires nothing. */
  lemma RegistryMeans(p: Platform, verb: string, a: Fields)
    requires NormalizedRegistry(p, verb, a).Success?
    ensures var op := NormalizedRegistry(p, verb, a).value;
            && op.resource == ResourceRef("object", "meridian", "registry") && op.contract == "meridian.object." + verb
            && op.idempotent && !op.readOnly && op.requirements.None?
            && (verb == "publish_schema" ==> op.input == a)
  {
  }
}
