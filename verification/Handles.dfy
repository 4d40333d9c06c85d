/** Serialized payload handles, and the two small policy values a put carries. */
module Handles {
  import opened Basics
  import opened Core
  import opened Validation
  import opened References

  const PAYLOAD_FORMAT := "meridian.object.payload-reference.v1"

  datatype PayloadReference = PayloadReference(
    token: string,
    expectedLength: Option<int>,
    expectedDigest: Option<string>,
    replayable: bool)

  predicate IsPayload(r: PayloadReference) {
    && IsToken(r.token)
    && (r.expectedLength.Some? ==> r.expectedLength.value >= 0)
    && (r.expectedDigest.Some? ==> IsDigest(r.expectedDigest.value))
  }

  // ---- Optional scalars ----

  function LengthToJson(n: Option<int>): Json {
    if n.Some? then Int(n.value) else Null
  }

  /** A length, or null; anything else is no length. */
  function LengthFromJson(v: Json): (r: Option<Option<int>>)
    ensures r.Some? ==> LengthToJson(r.value) == v
  {
    match v
    case Null => Some(None)
    case Int(n) => if n >= 0 then Some(Some(n)) else None
    case _ => None
  }

  function TextToJson(d: Option<string>): Json {
    if d.Some? then Str(d.value) else Null
  }

  function DigestFromJson(v: Json): (r: Option<Option<string>>)
    ensures r.Some? ==> TextToJson(r.value) == v
  {
    match v
    case Null => Some(None)
    case Str(s) => if IsDigest(s) then Some(Some(s)) else None
    case _ => None
  }

  ghost predicate Scalars(f: Fields) {
    forall i :: 0 <= i < |f| ==> !f[i].1.Obj? && !f[i].1.Arr?
  }

  /** Scalar entries under the same names as an accepted dictionary are accepted. */
  lemma SameNamesArePublic(p: Platform, fields: Fields, f: Fields, names: set<string>)
    requires AcceptsTree(p, Obj(fields)) && Scalars(f)
    requires ExactFields(fields, names, {}) && ExactFields(f, names, {})
    ensures AcceptsTree(p, Obj(f))
  {
    NoNewKeysIsPublic(p, fields, f);
  }

  // ---- Payload references ----

  const PAYLOAD_FIELDS: set<string> := {"formatVersion", "token", "expectedLength", "expectedDigest", "replayable"}

  /** `PayloadReference.from_mapping`. */
  function PayloadFromFields(fields: Fields): (r: Option<PayloadReference>)
    ensures r.Some? ==> IsPayload(r.value)
  {
    var token := TextAt(fields, "token");
    var length := LengthFromJson(FindOrNull(fields, "expectedLength"));
    var digest := DigestFromJson(FindOrNull(fields, "expectedDigest"));
    var replayable := FindOrNull(fields, "replayable");
    if !ExactFields(fields, PAYLOAD_FIELDS, {}) || TextAt(fields, "formatVersion") != Some(PAYLOAD_FORMAT) then None
    else if token.None? || !IsToken(token.value) || length.None? || digest.None? || !replayable.Bool? then None
    else Some(PayloadReference(token.value, length.value, digest.value, replayable.b))
  }

  function PayloadToFields(r: PayloadReference): Fields {
    [ (Name("formatVersion"), Str(PAYLOAD_FORMAT)),
      (Name("token"), Str(r.token)),
      (Name("expectedLength"), LengthToJson(r.expectedLength)),
      (Name("expectedDigest"), TextToJson(r.expectedDigest)),
      (Name("replayable"), Bool(r.replayable)) ]
  }

  lemma PayloadKeys(r: PayloadReference)
    ensures Scalars(PayloadToFields(r)) && DistinctKeys(PayloadToFields(r))
    ensures ExactFields(PayloadToFields(r), PAYLOAD_FIELDS, {})
  {
    var f := PayloadToFields(r);
    assert Keys(f) == {f[0].0, f[1].0, f[2].0, f[3].0, f[4].0};
  }

  lemma PayloadEntriesReadBack(f: Fields, r: PayloadReference)
    requires IsPayload(r) && DistinctKeys(f) && |f| == 5 && ExactFields(f, PAYLOAD_FIELDS, {})
    requires f[0] == (Name("formatVersion"), Str(PAYLOAD_FORMAT)) && f[1] == (Name("token"), Str(r.token))
    requires f[2] == (Name("expectedLength"), LengthToJson(r.expectedLength))
    requires f[3] == (Name("expectedDigest"), TextToJson(r.expectedDigest))
    requires f[4] == (Name("replayable"), Bool(r.replayable))
    ensures PayloadFromFields(f) == Some(r)
  {
    FindAt(f, 0);
    FindAt(f, 1);
    FindAt(f, 2);
    FindAt(f, 3);
    FindAt(f, 4);
  }

  lemma PayloadRoundTrip(r: PayloadReference)
    requires IsPayload(r)
    ensures PayloadFromFields(PayloadToFields(r)) == Some(r)
  {
    PayloadKeys(r);
    PayloadEntriesReadBack(PayloadToFields(r), r);
  }

  lemma CanonicalPayloadIsPublic(p: Platform, fields: Fields, r: PayloadReference)
    requires PayloadFromFields(fields).Some? && AcceptsTree(p, Obj(fields))
    ensures AcceptsTree(p, Obj(PayloadToFields(r)))
  {
    PayloadKeys(r);
    SameNamesArePublic(p, fields, PayloadToFields(r), PAYLOAD_FIELDS);
  }

  // ---- Immutability and retention intent ----

  datatype Immutability = Immutability(mutability: string, publishOnce: bool)

  predicate IsImmutability(i: Immutability) {
    i.mutability in {"immutable", "mutable"} && (i.publishOnce ==> i.mutability == "immutable")
  }

  const IMMUTABILITY_FIELDS: set<string> := {"mutability", "publishOnce"}

  function ImmutabilityFromFields(fields: Fields): (r: Option<Immutability>)
    ensures r.Some? ==> IsImmutability(r.value)
  {
    var mutability, publishOnce := TextAt(fields, "mutability"), FindOrNull(fields, "publishOnce");
    if ExactFields(fields, IMMUTABILITY_FIELDS, {}) && mutability.Some? && publishOnce.Bool?
       && IsImmutability(Immutability(mutability.value, publishOnce.b))
    then Some(Immutability(mutability.value, publishOnce.b))
    else None
  }

  function ImmutabilityToFields(i: Immutability): Fields {
    [(Name("mutability"), Str(i.mutability)), (Name("publishOnce"), Bool(i.publishOnce))]
  }

  lemma ImmutabilityKeys(i: Immutability)
    ensures Scalars(ImmutabilityToFields(i)) && DistinctKeys(ImmutabilityToFields(i))
    ensures ExactFields(ImmutabilityToFields(i), IMMUTABILITY_FIELDS, {})
  {
    var f := ImmutabilityToFields(i);
    assert Keys(f) == {f[0].0, f[1].0};
  }

  lemma ImmutabilityRoundTrip(i: Immutability)
    requires IsImmutability(i)
    ensures ImmutabilityFromFields(ImmutabilityToFields(i)) == Some(i)
  {
    ImmutabilityKeys(i);
    FindAt(ImmutabilityToFields(i), 0);
    FindAt(ImmutabilityToFields(i), 1);
  }

  lemma CanonicalImmutabilityIsPublic(p: Platform, fields: Fields, i: Immutability)
    requires ImmutabilityFromFields(fields).Some? && AcceptsTree(p, Obj(fields))
    ensures AcceptsTree(p, Obj(ImmutabilityToFields(i)))
  {
    ImmutabilityKeys(i);
    SameNamesArePublic(p, fields, ImmutabilityToFields(i), IMMUTABILITY_FIELDS);
  }

  datatype Retention = Retention(retainUntil: Option<string>, policy: Option<string>, requireEnforcement: bool)

  predicate IsRetention(p: Platform, r: Retention) {
    && (r.retainUntil.Some? || r.policy.Some?)
    && (r.retainUntil.Some? ==> p.instant(r.retainUntil.value).Some?)
    && (r.policy.Some? ==> Bounded(r.policy.value, 256))
  }

  const RETENTION_FIELDS: set<string> := {"retainUntil", "policy", "requireEnforcement"}

  function TextOrNull(v: Json): (r: Option<Option<string>>)
    ensures r.Some? ==> TextToJson(r.value) == v
  {
    match v
    case Null => Some(None)
    case Str(s) => Some(Some(s))
    case _ => None
  }

  function RetentionFromFields(p: Platform, fields: Fields): (r: Option<Retention>)
    ensures r.Some? ==> IsRetention(p, r.value)
  {
    var retainUntil := TextOrNull(FindOrNull(fields, "retainUntil"));
    var policy := TextOrNull(FindOrNull(fields, "policy"));
    var enforce := FindOrNull(fields, "requireEnforcement");
    if ExactFields(fields, RETENTION_FIELDS, {}) && retainUntil.Some? && policy.Some? && enforce.Bool?
       && IsRetention(p, Retention(retainUntil.value, policy.value, enforce.b))
    then Some(Retention(retainUntil.value, policy.value, enforce.b))
    else None
  }

  function RetentionToFields(r: Retention): Fields {
    [ (Name("retainUntil"), TextToJson(r.retainUntil)),
      (Name("policy"), TextToJson(r.policy)),
      (Name("requireEnforcement"), Bool(r.requireEnforcement)) ]
  }

  lemma RetentionKeys(r: Retention)
    ensures Scalars(RetentionToFields(r)) && DistinctKeys(RetentionToFields(r))
    ensures ExactFields(RetentionToFields(r), RETENTION_FIELDS, {})
  {
    var f := RetentionToFields(r);
    assert Keys(f) == {f[0].0, f[1].0, f[2].0};
  }

  lemma RetentionRoundTrip(p: Platform, r: Retention)
    requires IsRetention(p, r)
    ensures RetentionFromFields(p, RetentionToFields(r)) == Some(r)
  {
    RetentionKeys(r);
    FindAt(RetentionToFields(r), 0);
    FindAt(RetentionToFields(r), 1);
    FindAt(RetentionToFields(r), 2);
  }

  lemma CanonicalRetentionIsPublic(p: Platform, fields: Fields, r: Retention)
    requires RetentionFromFields(p, fields).Some? && AcceptsTree(p, Obj(fields))
    ensures AcceptsTree(p, Obj(RetentionToFields(r)))
  {
    RetentionKeys(r);
    SameNamesArePublic(p, fields, RetentionToFields(r), RETENTION_FIELDS);
  }
}
