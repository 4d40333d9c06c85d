/** Signed logical object references: construction, wire form, signing, and verification. */
module Signed {
  import opened Basics
  import opened Core
  import opened Ordering
  import opened Validation
  import opened References
  import Base64Url

  const SIGNED_FORMAT := "meridian.object.signed-reference.v1"
  const SIGNABLE: set<string> := {"get", "read_range", "stat"}
  const MAX_SIGNATURE_TEXT := 2048
  const MAX_SIGNATURE_BYTES := 1536

  datatype SignedReference = SignedReference(
    objectRef: ObjectReference,
    operations: seq<string>,
    expiresAt: string,
    audience: string,
    nonce: string,
    keyId: string,
    algorithm: string,
    signature: string)

  predicate IsSignature(s: string) {
    s != "" && |s| <= MAX_SIGNATURE_TEXT && Base64Url.Decode(s).Some?
  }

  /** What every constructed signed reference satisfies. */
  ghost predicate Valid(p: Platform, s: SignedReference) {
    && IsPinned(s.objectRef)
    && s.operations != [] && Members(s.operations) <= SIGNABLE
    && StringSequence(Strings(s.operations)) == Some(s.operations)
    && p.instant(s.expiresAt).Some?
    && Bounded(s.audience, 256)
    && IsToken(s.nonce) && IsToken(s.keyId) && IsToken(s.algorithm)
    && IsSignature(s.signature)
  }

  /** The operations the constructor stores. */
  function SelectOperations(items: seq<Json>): Option<seq<string>> {
    var r := StringSequence(items);
    if r.Some? && r.value != [] && Members(r.value) <= SIGNABLE then r else None
  }

  /** `SignedObjectReference.__post_init__`. */
  function Make(p: Platform, objectRef: ObjectReference, operations: seq<Json>, expiresAt: string, audience: string,
                nonce: string, keyId: string, algorithm: string, signature: string): (r: Option<SignedReference>)
    ensures r.Some? ==> Valid(p, r.value)
  {
    var selected := SelectOperations(operations);
    if IsPinned(objectRef) && selected.Some? && p.instant(expiresAt).Some? && Bounded(audience, 256)
       && IsToken(nonce) && IsToken(keyId) && IsToken(algorithm) && IsSignature(signature)
    then
      StringSequenceIsIdempotent(operations);
      Some(SignedReference(objectRef, selected.value, expiresAt, audience, nonce, keyId, algorithm, signature))
    else None
  }

  /** Constructing a signed reference again from its own fields changes nothing. */
  lemma MakeIsIdempotent(p: Platform, s: SignedReference)
    requires Valid(p, s)
    ensures Make(p, s.objectRef, Strings(s.operations), s.expiresAt, s.audience, s.nonce, s.keyId, s.algorithm,
                 s.signature)
            == Some(s)
  {
  }

  // ---- Wire form ----

  /** Everything that is signed: the fields other than the signature. */
  function Claims(s: SignedReference): Fields {
    [ (Name("formatVersion"), Str(SIGNED_FORMAT)),
      (Name("objectRef"), Obj(ReferenceToFields(s.objectRef))),
      (Name("allowedOperations"), Arr(Strings(s.operations))),
      (Name("expiresAt"), Str(s.expiresAt)),
      (Name("audience"), Str(s.audience)),
      (Name("nonce"), Str(s.nonce)),
      (Name("keyId"), Str(s.keyId)),
      (Name("algorithm"), Str(s.algorithm)) ]
  }

  function ToFields(s: SignedReference): Fields {
    Claims(s) + [(Name("signature"), Str(s.signature))]
  }

  const SIGNED_FIELDS: set<string> := {
    "formatVersion", "objectRef", "allowedOperations", "expiresAt", "audience", "nonce", "keyId",
    "algorithm", "signature"
  }

  function FromFields(p: Platform, fields: Fields): (r: Option<SignedReference>)
    ensures r.Some? ==> Valid(p, r.value)
  {
    var ref, operations := FindOrNull(fields, "objectRef"), FindOrNull(fields, "allowedOperations");
    var expiresAt, audience := TextAt(fields, "expiresAt"), TextAt(fields, "audience");
    var nonce, keyId := TextAt(fields, "nonce"), TextAt(fields, "keyId");
    var algorithm, signature := TextAt(fields, "algorithm"), TextAt(fields, "signature");
    if !ExactFields(fields, SIGNED_FIELDS, {}) || !ref.Obj? || !operations.Arr? then None
    else if TextAt(fields, "formatVersion") != Some(SIGNED_FORMAT) then None
    else if expiresAt.None? || audience.None? || nonce.None? || keyId.None? || algorithm.None? || signature.None? then
      None
    else
      var parsed := ReferenceFromFields(ref.fields);
      if parsed.None? then None
      else
        Make(p, parsed.value, operations.items, expiresAt.value, audience.value, nonce.value, keyId.value,
             algorithm.value, signature.value)
  }

  lemma ToFieldsKeys(s: SignedReference)
    ensures DistinctKeys(ToFields(s))
    ensures ExactFields(ToFields(s), SIGNED_FIELDS, {})
  {
    var f := ToFields(s);
    assert f[8].0 == Name("signature");
    assert Keys(f) == {f[0].0, f[1].0, f[2].0, f[3].0, f[4].0, f[5].0, f[6].0, f[7].0, f[8].0};
  }

  lemma TextEntry(f: Fields, i: nat, name: string, text: string)
    requires DistinctKeys(f) && i < |f| && f[i] == (Name(name), Str(text))
    ensures TextAt(f, name) == Some(text)
  {
    FindAt(f, i);
  }

  lemma ToFieldsAt(s: SignedReference)
    ensures var f := ToFields(s);
            && |f| == 9 && f[0] == (Name("formatVersion"), Str(SIGNED_FORMAT))
            && f[1] == (Name("objectRef"), Obj(ReferenceToFields(s.objectRef)))
            && f[2] == (Name("allowedOperations"), Arr(Strings(s.operations)))
            && f[3] == (Name("expiresAt"), Str(s.expiresAt)) && f[4] == (Name("audience"), Str(s.audience))
            && f[5] == (Name("nonce"), Str(s.nonce)) && f[6] == (Name("keyId"), Str(s.keyId))
            && f[7] == (Name("algorithm"), Str(s.algorithm)) && f[8] == (Name("signature"), Str(s.signature))
  {
  }

  lemma TextsAt(f: Fields, s: SignedReference)
    requires DistinctKeys(f) && |f| == 9
    requires f[3] == (Name("expiresAt"), Str(s.expiresAt)) && f[4] == (Name("audience"), Str(s.audience))
    requires f[5] == (Name("nonce"), Str(s.nonce)) && f[6] == (Name("keyId"), Str(s.keyId))
    requires f[7] == (Name("algorithm"), Str(s.algorithm)) && f[8] == (Name("signature"), Str(s.signature))
    ensures TextAt(f, "expiresAt") == Some(s.expiresAt) && TextAt(f, "audience") == Some(s.audience)
    ensures TextAt(f, "nonce") == Some(s.nonce) && TextAt(f, "keyId") == Some(s.keyId)
    ensures TextAt(f, "algorithm") == Some(s.algorithm) && TextAt(f, "signature") == Some(s.signature)
  {
    TextEntry(f, 3, "expiresAt", s.expiresAt);
    TextEntry(f, 4, "audience", s.audience);
    TextEntry(f, 5, "nonce", s.nonce);
    TextEntry(f, 6, "keyId", s.keyId);
    TextEntry(f, 7, "algorithm", s.algorithm);
    TextEntry(f, 8, "signature", s.signature);
  }

  lemma ValuesAt(f: Fields, a: Json, b: Json)
    requires DistinctKeys(f) && |f| == 9 && f[0] == (Name("formatVersion"), Str(SIGNED_FORMAT))
    requires f[1] == (Name("objectRef"), a) && f[2] == (Name("allowedOperations"), b)
    ensures TextAt(f, "formatVersion") == Some(SIGNED_FORMAT)
    ensures FindOrNull(f, "objectRef") == a && FindOrNull(f, "allowedOperations") == b
  {
    TextEntry(f, 0, "formatVersion", SIGNED_FORMAT);
    FindAt(f, 1);
    FindAt(f, 2);
  }

  /** Nine distinct entries spelled like the wire form read back as the reference. */
  lemma EntriesReadBack(p: Platform, f: Fields, s: SignedReference)
    requires Valid(p, s) && DistinctKeys(f) && ExactFields(f, SIGNED_FIELDS, {})
    requires |f| == 9 && f[0] == (Name("formatVersion"), Str(SIGNED_FORMAT))
    requires f[1] == (Name("objectRef"), Obj(ReferenceToFields(s.objectRef)))
    requires f[2] == (Name("allowedOperations"), Arr(Strings(s.operations)))
    requires f[3] == (Name("expiresAt"), Str(s.expiresAt)) && f[4] == (Name("audience"), Str(s.audience))
    requires f[5] == (Name("nonce"), Str(s.nonce)) && f[6] == (Name("keyId"), Str(s.keyId))
    requires f[7] == (Name("algorithm"), Str(s.algorithm)) && f[8] == (Name("signature"), Str(s.signature))
    ensures TextAt(f, "formatVersion") == Some(SIGNED_FORMAT)
    ensures FromFields(p, f) == Some(s)
  {
    ValuesAt(f, Obj(ReferenceToFields(s.objectRef)), Arr(Strings(s.operations)));
    TextsAt(f, s);
    ReferenceRoundTrip(s.objectRef);
    MakeIsIdempotent(p, s);
  }

  /** A signed reference survives the trip through its wire form. */
  lemma WireRoundTrip(p: Platform, s: SignedReference)
    requires Valid(p, s)
    ensures TextAt(ToFields(s), "formatVersion") == Some(SIGNED_FORMAT)
    ensures FromFields(p, ToFields(s)) == Some(s)
  {
    ToFieldsAt(s);
    ToFieldsKeys(s);
    EntriesReadBack(p, ToFields(s), s);
  }

  lemma CanonicalSignedIsPublic(p: Platform, fields: Fields)
    requires FromFields(p, fields).Some? && AcceptsTree(p, Obj(fields))
    ensures AcceptsTree(p, Obj(ToFields(FromFields(p, fields).value)))
  {
    var s := FromFields(p, fields).value;
    PresentValueIsPublic(p, fields, "objectRef");
    CanonicalReferenceIsPublic(p, FindOrNull(fields, "objectRef").fields);
    ToFieldsKeys(s);
    SignedValuesArePublic(p, s);
    assert Keys(ToFields(s)) <= Keys(fields);
    NoNewKeysIsPublic(p, fields, ToFields(s));
  }

  lemma SignedValuesArePublic(p: Platform, s: SignedReference)
    requires AcceptsTree(p, Obj(ReferenceToFields(s.objectRef)))
    ensures var f := ToFields(s); forall i :: 0 <= i < |f| ==> AcceptsTree(p, f[i].1)
  {
    assert AcceptsTree(p, Arr(Strings(s.operations)));
  }

  // ---- Logical references ----

  datatype LogicalReference = Plain(ref: ObjectReference) | SignedRef(signed: SignedReference) {
    function Target(): ObjectReference {
      match this
      case Plain(ref) => ref
      case SignedRef(signed) => signed.objectRef
    }
  }

  ghost predicate ValidLogical(p: Platform, r: LogicalReference) {
    match r
    case Plain(ref) => ValidReference(ref)
    case SignedRef(signed) => Valid(p, signed)
  }

  /** `parse_logical_reference`. */
  function ParseLogical(p: Platform, fields: Fields): (r: Option<LogicalReference>)
    ensures r.Some? ==> ValidLogical(p, r.value)
  {
    if FindOrNull(fields, "formatVersion") == Str(SIGNED_FORMAT) then
      var s := FromFields(p, fields);
      if s.Some? then Some(SignedRef(s.value)) else None
    else
      var r := ReferenceFromFields(fields);
      if r.Some? then Some(Plain(r.value)) else None
  }

  function LogicalToFields(r: LogicalReference): Fields {
    match r
    case Plain(ref) => ReferenceToFields(ref)
    case SignedRef(signed) => ToFields(signed)
  }

  lemma PlainRoundTrip(p: Platform, ref: ObjectReference)
    requires ValidReference(ref)
    ensures ParseLogical(p, ReferenceToFields(ref)) == Some(Plain(ref))
  {
    ReferenceRoundTrip(ref);
    PlainHasNoFormat(ref);
  }

  lemma PlainHasNoFormat(ref: ObjectReference)
    ensures FindOrNull(ReferenceToFields(ref), "formatVersion") == Null
  {
    var f := ReferenceToFields(ref);
    assert f[0].0 == Name("resourceRef") && f[1].0 == Name("objectId");
    assert |f| > 2 ==> f[2].0 == Name("digest");
  }

  lemma SignedRoundTrip(p: Platform, signed: SignedReference)
    requires Valid(p, signed)
    ensures ParseLogical(p, ToFields(signed)) == Some(SignedRef(signed))
  {
    WireRoundTrip(p, signed);
  }

  /** Whatever parses, parses again from its canonical form to the same reference. */
  lemma LogicalRoundTrip(p: Platform, fields: Fields)
    requires ParseLogical(p, fields).Some?
    ensures ParseLogical(p, LogicalToFields(ParseLogical(p, fields).value)) == ParseLogical(p, fields)
  {
    match ParseLogical(p, fields).value
    case Plain(ref) => PlainRoundTrip(p, ref);
    case SignedRef(signed) => SignedRoundTrip(p, signed);
  }

  lemma CanonicalLogicalIsPublic(p: Platform, fields: Fields)
    requires ParseLogical(p, fields).Some? && AcceptsTree(p, Obj(fields))
    ensures AcceptsTree(p, Obj(LogicalToFields(ParseLogical(p, fields).value)))
  {
    match ParseLogical(p, fields).value
    case Plain(ref) => CanonicalReferenceIsPublic(p, fields);
    case SignedRef(signed) => CanonicalSignedIsPublic(p, fields);
  }

  /** No signed reference permits anything but the three read operations. */
  lemma SignedPermitsReadsOnly(p: Platform, s: SignedReference, operation: string)
    requires Valid(p, s) && operation in s.operations
    ensures operation in SIGNABLE
  {
    assert operation in Members(s.operations);
  }

  // ---- Signing and verification ----

  datatype Signer = Signer(
    keyId: string,
    algorithm: string,
    sign: seq<byte> -> seq<byte>,
    verify: (seq<byte>, seq<byte>) -> bool)

  function Message(p: Platform, s: SignedReference): seq<byte> {
    p.canonicalBytes(Obj(Claims(s)))
  }

  /** `sign_object_reference`; `draw` is the random material for an absent or empty nonce. */
  function Sign(p: Platform, signer: Signer, objectRef: ObjectReference, operations: seq<string>, expiresAt: string,
                audience: string, nonce: Option<string>, draw: seq<byte>): Option<SignedReference>
  {
    var selectedNonce := if nonce.Some? && nonce.value != "" then nonce.value else Base64Url.MintNonce(draw);
    var unsigned :=
      Make(p, objectRef, Strings(operations), expiresAt, audience, selectedNonce, signer.keyId, signer.algorithm, "AA");
    if unsigned.None? then None else Attach(p, signer, unsigned.value)
  }

  /** `replace(unsigned, signature=...)`, which constructs, and so checks, the reference again. */
  function Attach(p: Platform, signer: Signer, u: SignedReference): Option<SignedReference> {
    var signature := Base64Url.Encode(signer.sign(Message(p, u)));
    if signature.None? then None
    else
      Make(p, u.objectRef, Strings(u.operations), u.expiresAt, u.audience, u.nonce, u.keyId, u.algorithm,
           signature.value)
  }

  datatype AuthorizationFailure = KeyMismatch | OperationDenied | AudienceMismatch | Expired | SignatureInvalid

  function Verify(p: Platform, s: SignedReference, signer: Signer, operation: string, audience: string, now: int)
    : Result<ObjectReference, AuthorizationFailure>
    requires Valid(p, s)
  {
    if signer.keyId != s.keyId || signer.algorithm != s.algorithm then Failure(KeyMismatch)
    else if operation !in s.operations then Failure(OperationDenied)
    else if audience != s.audience then Failure(AudienceMismatch)
    else if now >= p.instant(s.expiresAt).value then Failure(Expired)
    else if !signer.verify(Message(p, s), Base64Url.Decode(s.signature).value) then Failure(SignatureInvalid)
    else Success(s.objectRef)
  }

  /** The signature plays no part in what is signed. */
  lemma ClaimsIgnoreSignature(p: Platform, s: SignedReference, signature: string)
    ensures Message(p, s.(signature := signature)) == Message(p, s)
  {
    assert Claims(s.(signature := signature)) == Claims(s);
  }

  lemma PlaceholderIsASignature()
    ensures IsSignature("AA")
  {
    Base64Url.DecodesExactly("AA");
  }

  /** An encoded signature fits the text bound exactly when it has between 1 and 1536 bytes. */
  lemma SignatureBound(raw: seq<byte>)
    ensures (Base64Url.Encode(raw).Some? && IsSignature(Base64Url.Encode(raw).value)) <==>
              1 <= |raw| <= 1536
  {
    if raw != [] {
      Base64Url.DecodeEncode(raw);
    }
  }

  /** What the caller of `sign_object_reference` has to get right. */
  ghost predicate Signable(p: Platform, signer: Signer, objectRef: ObjectReference, operations: seq<string>,
                           expiresAt: string, audience: string, nonce: string)
  {
    && IsPinned(objectRef)
    && operations != [] && Distinct(operations) && Members(operations) <= SIGNABLE
    && p.instant(expiresAt).Some? && Bounded(audience, 256)
    && IsToken(nonce) && IsToken(signer.keyId) && IsToken(signer.algorithm)
  }

  lemma LowerCaseIsBounded(s: string)
    requires 1 <= |s| <= 128 && forall i :: 0 <= i < |s| ==> s[i] == '_' || 'a' <= s[i] <= 'z'
    ensures Bounded(s, 128)
  {
    AsciiLength(s);
  }

  lemma SignableNamesAreBounded(operations: seq<string>)
    requires Members(operations) <= SIGNABLE
    ensures forall i :: 0 <= i < |operations| ==> IsBoundedString(Strings(operations)[i], 128)
  {
    forall i | 0 <= i < |operations| ensures IsBoundedString(Strings(operations)[i], 128) {
      assert operations[i] in Members(operations);
      LowerCaseIsBounded(operations[i]);
    }
  }

  lemma SelectsExactly(operations: seq<string>)
    ensures SelectOperations(Strings(operations)).Some? <==>
              operations != [] && Distinct(operations) && Members(operations) <= {"get", "read_range", "stat"}
    ensures SelectOperations(Strings(operations)).Some? ==>
              Permuted(SelectOperations(Strings(operations)).value, operations)
  {
    var items := Strings(operations);
    assert Texts(items) == operations;
    StringSequenceIsSortedUnique(items);
    if Members(operations) <= SIGNABLE { SignableNamesAreBounded(operations); }
    if StringSequence(items).Some? {
      var r := StringSequence(items).value;
      MembersFollowMultiset(r, operations);
      assert Members(r) == Members(operations);
      assert Distinct(operations) by {
        forall i, j | 0 <= i < j < |operations| ensures operations[i] != operations[j] {
          assert items[i] != items[j];
        }
      }
    }
  }

  function Unsigned(objectRef: ObjectReference, operations: seq<string>, expiresAt: string, audience: string,
                    nonce: string, signer: Signer): SignedReference
    requires SelectOperations(Strings(operations)).Some?
  {
    SignedReference(objectRef, SelectOperations(Strings(operations)).value, expiresAt, audience, nonce, signer.keyId,
                    signer.algorithm, "AA")
  }

  lemma AttachesExactly(p: Platform, signer: Signer, u: SignedReference)
    requires Valid(p, u)
    ensures var raw, r := signer.sign(Message(p, u)), Attach(p, signer, u);
            && (r.Some? <==> 1 <= |raw| <= MAX_SIGNATURE_BYTES)
            && (r.Some? ==> Base64Url.Encode(raw).Some? && r.value == u.(signature := Base64Url.Encode(raw).value))
  {
    SignatureBound(signer.sign(Message(p, u)));
  }

  lemma MakesExactly(p: Platform, objectRef: ObjectReference, operations: seq<string>, expiresAt: string,
                     audience: string,
                     nonce: string, signer: Signer, signature: string)
    requires IsSignature(signature)
    ensures var r := Make(p, objectRef, Strings(operations), expiresAt, audience, nonce, signer.keyId,
                          signer.algorithm, signature);
            && (r.Some? <==> Signable(p, signer, objectRef, operations, expiresAt, audience, nonce))
            && (r.Some? ==>
                  && SelectOperations(Strings(operations)).Some?
                  && r.value == SignedReference(objectRef, SelectOperations(Strings(operations)).value, expiresAt,
                                                audience,
                                                nonce, signer.keyId, signer.algorithm, signature))
  {
    SelectsExactly(operations);
  }

  /** Signing succeeds exactly on signable input whose signature has between 1 and 1536 bytes, and
      attaches that signature to the normalized claims and nothing else. */
  lemma SignsExactly(p: Platform, signer: Signer, objectRef: ObjectReference, operations: seq<string>,
                     expiresAt: string, audience: string, nonce: string, draw: seq<byte>)
    requires nonce != ""
    ensures var r := Sign(p, signer, objectRef, operations, expiresAt, audience, Some(nonce), draw);
            && (Signable(p, signer, objectRef, operations, expiresAt, audience, nonce) ==>
                  SelectOperations(Strings(operations)).Some?)
            && (r.Some? <==>
                  && Signable(p, signer, objectRef, operations, expiresAt, audience, nonce)
                  && var u := Unsigned(objectRef, operations, expiresAt, audience, nonce, signer);
                     1 <= |signer.sign(Message(p, u))| <= MAX_SIGNATURE_BYTES)
            && (r.Some? ==>
                  var u := Unsigned(objectRef, operations, expiresAt, audience, nonce, signer);
                  && Base64Url.Encode(signer.sign(Message(p, u))).Some?
                  && r.value == u.(signature := Base64Url.Encode(signer.sign(Message(p, u))).value))
  {
    PlaceholderIsASignature();
    MakesExactly(p, objectRef, operations, expiresAt, audience, nonce, signer, "AA");
    if Signable(p, signer, objectRef, operations, expiresAt, audience, nonce) {
      AttachesExactly(p, signer, Unsigned(objectRef, operations, expiresAt, audience, nonce, signer));
    }
  }

  /** A generated nonce is always well formed, so leaving it out never makes signing fail. */
  lemma GeneratedNonceSigns(p: Platform, signer: Signer, objectRef: ObjectReference, operations: seq<string>,
                            expiresAt: string, audience: string, draw: seq<byte>)
    requires |draw| == Base64Url.NONCE_BYTES
    ensures IsToken(Base64Url.MintNonce(draw))
    ensures Sign(p, signer, objectRef, operations, expiresAt, audience, None, draw)
            == Sign(p, signer, objectRef, operations, expiresAt, audience, Some(""), draw)
            == Sign(p, signer, objectRef, operations, expiresAt, audience, Some(Base64Url.MintNonce(draw)), draw)
  {
    Base64Url.MintedNonceIsAToken(draw);
  }

  /** The signer accepts every signature it makes of a size that can be attached. */
  ghost predicate AcceptsItsOwn(signer: Signer) {
    forall m :: 1 <= |signer.sign(m)| <= MAX_SIGNATURE_BYTES ==> signer.verify(m, signer.sign(m))
  }

  /** What was signed says what was asked: the reference, the operations in any order, and every other claim. */
  lemma SignedAsAsked(p: Platform, signer: Signer, objectRef: ObjectReference, operations: seq<string>,
                      expiresAt: string, audience: string, nonce: string, draw: seq<byte>)
    requires nonce != ""
    requires Sign(p, signer, objectRef, operations, expiresAt, audience, Some(nonce), draw).Some?
    ensures var s := Sign(p, signer, objectRef, operations, expiresAt, audience, Some(nonce), draw).value;
            && s.objectRef == objectRef && Permuted(s.operations, operations) && Ascending(StringLess, s.operations)
            && s.expiresAt == expiresAt && s.audience == audience && s.nonce == nonce
            && s.keyId == signer.keyId && s.algorithm == signer.algorithm
            && 1 <= |signer.sign(Message(p, s))| <= MAX_SIGNATURE_BYTES
            && Base64Url.Decode(s.signature) == Some(signer.sign(Message(p, s)))
  {
    SignsExactly(p, signer, objectRef, operations, expiresAt, audience, nonce, draw);
    var u := Unsigned(objectRef, operations, expiresAt, audience, nonce, signer);
    var s := Sign(p, signer, objectRef, operations, expiresAt, audience, Some(nonce), draw).value;
    SelectsExactly(operations);
    StringSequenceIsSortedUnique(Strings(operations));
    ClaimsIgnoreSignature(p, u, s.signature);
    Base64Url.DecodeEncode(signer.sign(Message(p, u)));
  }

  /** What verification makes of a reference, whoever verifies, whatever is asked, and whenever. */
  lemma VerifiesExactly(p: Platform, s: SignedReference, verifier: Signer, operation: string, audience: string,
                        now: int, raw: seq<byte>)
    requires Valid(p, s) && Base64Url.Decode(s.signature) == Some(raw)
    ensures var r := Verify(p, s, verifier, operation, audience, now);
            && (r == Failure(KeyMismatch) <==> verifier.keyId != s.keyId || verifier.algorithm != s.algorithm)
            && (r == Failure(OperationDenied) ==> operation !in s.operations)
            && (r == Failure(AudienceMismatch) ==> audience != s.audience)
            && (r == Failure(Expired) ==> now >= p.instant(s.expiresAt).value)
            && (r == Failure(SignatureInvalid) ==> !verifier.verify(Message(p, s), raw))
            && (r.Success? <==>
                  && verifier.keyId == s.keyId && verifier.algorithm == s.algorithm && operation in s.operations
                  && audience == s.audience && now < p.instant(s.expiresAt).value
                  && verifier.verify(Message(p, s), raw))
            && (r.Success? ==> r.value == s.objectRef)
  {
  }

  lemma VerdictOnSigned(p: Platform, s: SignedReference, signer: Signer, verifier: Signer, operation: string,
                        requested: string, now: int)
    requires Valid(p, s) && s.keyId == signer.keyId && s.algorithm == signer.algorithm
    requires Base64Url.Decode(s.signature) == Some(signer.sign(Message(p, s)))
    requires AcceptsItsOwn(signer) && 1 <= |signer.sign(Message(p, s))| <= MAX_SIGNATURE_BYTES
    ensures var r := Verify(p, s, verifier, operation, requested, now);
            if verifier.keyId != signer.keyId || verifier.algorithm != signer.algorithm then r == Failure(KeyMismatch)
            else if operation !in s.operations then r == Failure(OperationDenied)
            else if requested != s.audience then r == Failure(AudienceMismatch)
            else if now >= p.instant(s.expiresAt).value then r == Failure(Expired)
            else if verifier == signer then r == Success(s.objectRef)
            else r in {Success(s.objectRef), Failure(SignatureInvalid)}
  {
  }

  /** Sign, write, read, verify: a signed reference that went over the wire comes back as it was. A verifier with
      another key or algorithm refuses it; then an operation it was not given, another audience than it was signed
      for, and a time at or past its expiry are refused, in that order; and the signer itself, accepting its own
      signatures, returns the reference. */
  lemma SignThenVerify(p: Platform, signer: Signer, objectRef: ObjectReference, operations: seq<string>,
                       expiresAt: string, audience: string, nonce: string, draw: seq<byte>, verifier: Signer,
                       operation: string, requested: string, now: int)
    requires AcceptsItsOwn(signer)
    requires nonce != ""
    requires Sign(p, signer, objectRef, operations, expiresAt, audience, Some(nonce), draw).Some?
    ensures var s := Sign(p, signer, objectRef, operations, expiresAt, audience, Some(nonce), draw).value;
            && FromFields(p, ToFields(s)) == Some(s)
            && var r := Verify(p, s, verifier, operation, requested, now);
               if verifier.keyId != signer.keyId || verifier.algorithm != signer.algorithm then
                 r == Failure(KeyMismatch)
               else if operation !in operations then r == Failure(OperationDenied)
               else if requested != audience then r == Failure(AudienceMismatch)
               else if now >= p.instant(expiresAt).value then r == Failure(Expired)
               else if verifier == signer then r == Success(objectRef)
               else r in {Success(objectRef), Failure(SignatureInvalid)}
  {
    var s := Sign(p, signer, objectRef, operations, expiresAt, audience, Some(nonce), draw).value;
    SignedAsAsked(p, signer, objectRef, operations, expiresAt, audience, nonce, draw);
    WireRoundTrip(p, s);
    MembersFollowMultiset(s.operations, operations);
    VerdictOnSigned(p, s, signer, verifier, operation, requested, now);
  }

  lemma MakeFollowsSelection(p: Platform, objectRef: ObjectReference, a: seq<Json>, b: seq<Json>, expiresAt: string,
                             audience: string, nonce: string, keyId: string, algorithm: string, signature: string)
    requires SelectOperations(a) == SelectOperations(b)
    ensures Make(p, objectRef, a, expiresAt, audience, nonce, keyId, algorithm, signature)
            == Make(p, objectRef, b, expiresAt, audience, nonce, keyId, algorithm, signature)
  {
  }

  lemma MakeForgetsOrder(p: Platform, objectRef: ObjectReference, a: seq<string>, b: seq<string>, expiresAt: string,
                         audience: string, nonce: string, keyId: string, algorithm: string, signature: string)
    requires Permuted(a, b)
    ensures Make(p, objectRef, Strings(a), expiresAt, audience, nonce, keyId, algorithm, signature)
            == Make(p, objectRef, Strings(b), expiresAt, audience, nonce, keyId, algorithm, signature)
  {
    StringSequenceForgetsOrder(a, b);
    MakeFollowsSelection(p, objectRef, Strings(a), Strings(b), expiresAt, audience, nonce, keyId, algorithm, signature);
  }

  /** The order the operations are given in changes nothing that is signed. */
  lemma SigningForgetsOrder(p: Platform, signer: Signer, objectRef: ObjectReference, a: seq<string>, b: seq<string>,
                            expiresAt: string, audience: string, nonce: Option<string>, draw: seq<byte>)
    requires Permuted(a, b)
    ensures Sign(p, signer, objectRef, a, expiresAt, audience, nonce, draw)
            == Sign(p, signer, objectRef, b, expiresAt, audience, nonce, draw)
  {
    var selected := if nonce.Some? && nonce.value != "" then nonce.value else Base64Url.MintNonce(draw);
    MakeForgetsOrder(p, objectRef, a, b, expiresAt, audience, selected, signer.keyId, signer.algorithm, "AA");
  }

  /** For a signer that accepts only its own signature of a message, a reference that verifies was asked for
      with its own key, audience, and operation, in time, and is one that signing its own fields reproduces, save
      for the unused trailing bits of the signature text. */
  lemma VerifiedMeansSigned(p: Platform, s: SignedReference, signer: Signer, operation: string, audience: string,
                            now: int, draw: seq<byte>)
    requires Valid(p, s)
    requires forall m, x :: signer.verify(m, x) <==> x == signer.sign(m)
    requires Verify(p, s, signer, operation, audience, now).Success?
    ensures Verify(p, s, signer, operation, audience, now) == Success(s.objectRef)
    ensures signer.keyId == s.keyId && signer.algorithm == s.algorithm && audience == s.audience
    ensures operation in s.operations && now < p.instant(s.expiresAt).value
    ensures var again := Sign(p, signer, s.objectRef, s.operations, s.expiresAt, s.audience, Some(s.nonce), draw);
            && again.Some?
            && again.value == s.(signature := again.value.signature)
            && (again.value == s <==> Base64Url.TrailingBitsZero(Base64Url.Read(s.signature)))
  {
    Base64Url.DecodesExactly(s.signature);
    var raw := Base64Url.Decode(s.signature).value;
    assert raw == signer.sign(Message(p, s));
    var u := Unsigned(s.objectRef, s.operations, s.expiresAt, s.audience, s.nonce, signer);
    assert u == s.(signature := "AA");
    ClaimsIgnoreSignature(p, s, "AA");
    SignsExactly(p, signer, s.objectRef, s.operations, s.expiresAt, s.audience, s.nonce, draw);
    SelectsExactly(s.operations);
    SignatureBound(raw);
    Base64Url.EncodeDecode(s.signature);
  }

  // ---- The message determines what is claimed ----

  /** Two references that claim the same differ in their signature at most. */
  lemma ClaimsDetermine(a: SignedReference, b: SignedReference)
    requires Claims(a) == Claims(b)
    ensures a.(signature := b.signature) == b
  {
    ClaimsAt(a);
    ClaimsAt(b);
    ReferenceFieldsDetermine(a.objectRef, b.objectRef);
    assert Strings(a.operations) == Strings(b.operations);
    assert forall i :: 0 <= i < |a.operations| ==> Strings(a.operations)[i] == Str(a.operations[i]);
  }

  lemma ClaimsAt(s: SignedReference)
    ensures var f := Claims(s);
            && |f| == 8 && f[1].1 == Obj(ReferenceToFields(s.objectRef)) && f[2].1 == Arr(Strings(s.operations))
            && f[3].1 == Str(s.expiresAt) && f[4].1 == Str(s.audience) && f[5].1 == Str(s.nonce)
            && f[6].1 == Str(s.keyId) && f[7].1 == Str(s.algorithm)
  {
  }

  lemma ReferenceFieldsDetermine(a: ObjectReference, b: ObjectReference)
    requires ReferenceToFields(a) == ReferenceToFields(b)
    ensures a == b
  {
    var f, g := ReferenceToFields(a), ReferenceToFields(b);
    assert f[0].1 == Obj(ResourceToFields(a.resource)) && g[0].1 == Obj(ResourceToFields(b.resource));
    assert ResourceToFields(a.resource)[0].1 == Str(a.resource.catalog);
    assert ResourceToFields(a.resource)[1].1 == Str(a.resource.namespace);
    assert ResourceToFields(a.resource)[2].1 == Str(a.resource.name);
    assert f[1].1 == Str(a.objectId) && g[1].1 == Str(b.objectId);
    assert a.digest.Some? <==> |f| == 3;
    assert b.digest.Some? <==> |g| == 3;
    if a.digest.Some? { assert f[2].1 == Str(a.digest.value) && g[2].1 == Str(b.digest.value); }
  }

  ghost predicate Injective<T(!new), U>(f: T -> U) {
    forall x, y :: f(x) == f(y) ==> x == y
  }

  /** With canonical bytes and signatures that tell their inputs apart, no other reference verifies under the
      signature of one that verifies: an altered field is found out. */
  lemma AlteredReferencesFail(p: Platform, s: SignedReference, t: SignedReference, signer: Signer, operation: string,
                              other: string, audience: string, another: string, now: int, later: int)
    requires Valid(p, s) && Valid(p, t) && t.signature == s.signature && t != s
    requires Injective(p.canonicalBytes) && Injective(signer.sign)
    requires forall m, x :: signer.verify(m, x) <==> x == signer.sign(m)
    requires Verify(p, s, signer, operation, audience, now).Success?
    ensures Verify(p, t, signer, other, another, later).Failure?
  {
    if Verify(p, t, signer, other, another, later).Success? {
      var raw := Base64Url.Decode(s.signature).value;
      assert raw == signer.sign(Message(p, s)) && raw == signer.sign(Message(p, t));
      assert Obj(Claims(s)) == Obj(Claims(t));
      ClaimsDetermine(s, t);
    }
  }
}
