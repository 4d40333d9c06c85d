/** Plain object references and their wire form. */
module References {
  import opened Basics
  import opened Core
  import opened Validation

  const OBJECT_CATALOG := "object"

  predicate IsNameChar(c: char) {
    IsAlphanumeric(c) || c == '_' || c == '.' || c == '-'
  }

  /** The logical-name pattern of the wire contracts. */
  predicate IsLogicalName(s: string) {
    && 1 <= |s| <= 255
    && ('A' <= s[0] <= 'Z' || 'a' <= s[0] <= 'z')
    && IsAlphanumeric(s[|s| - 1])
    && forall i :: 0 <= i < |s| ==> IsNameChar(s[i])
  }

  predicate ValidResource(r: ResourceRef) {
    r.catalog == OBJECT_CATALOG && IsLogicalName(r.namespace) && IsLogicalName(r.name)
  }

  predicate ValidReference(r: ObjectReference) {
    ValidResource(r.resource) && Bounded(r.objectId, 1024) && (r.digest.Some? ==> IsDigest(r.digest.value))
  }

  /** A reference that names one exact version. */
  predicate IsPinned(r: ObjectReference) {
    ValidReference(r) && r.digest.Some?
  }

  function TextAt(fields: Fields, name: string): Option<string> {
    var v := FindOrNull(fields, name);
    if v.Str? then Some(v.s) else None
  }

  function ResourceFromFields(fields: Fields): (r: Option<ResourceRef>)
    ensures r.Some? ==> ValidResource(r.value)
  {
    var catalog, namespace, name := TextAt(fields, "catalog"), TextAt(fields, "namespace"), TextAt(fields, "name");
    if ExactFields(fields, {"catalog", "namespace", "name"}, {}) && catalog.Some? && namespace.Some? && name.Some?
       && ValidResource(ResourceRef(catalog.value, namespace.value, name.value))
    then Some(ResourceRef(catalog.value, namespace.value, name.value))
    else None
  }

  function ResourceToFields(r: ResourceRef): Fields {
    [(Name("catalog"), Str(r.catalog)), (Name("namespace"), Str(r.namespace)), (Name("name"), Str(r.name))]
  }

  /** `parse_object_reference`. */
  function ReferenceFromFields(fields: Fields): (r: Option<ObjectReference>)
    ensures r.Some? ==> ValidReference(r.value)
  {
    var resource := FindOrNull(fields, "resourceRef");
    var objectId := TextAt(fields, "objectId");
    var digest := FindOrNull(fields, "digest");
    if !ExactFields(fields, {"resourceRef", "objectId"}, {"digest"}) || !resource.Obj? || objectId.None? then None
    else if !digest.Null? && !digest.Str? then None
    else
      var parsed := ResourceFromFields(resource.fields);
      if parsed.None? then None
      else
        var r := ObjectReference(parsed.value, objectId.value, if digest.Str? then Some(digest.s) else Option.None);
        if ValidReference(r) then Some(r) else None
  }

  function ReferenceToFields(r: ObjectReference): Fields {
    [(Name("resourceRef"), Obj(ResourceToFields(r.resource))), (Name("objectId"), Str(r.objectId))]
    + if r.digest.Some? then [(Name("digest"), Str(r.digest.value))] else []
  }

  lemma ResourceRoundTrip(r: ResourceRef)
    requires ValidResource(r)
    ensures ResourceFromFields(ResourceToFields(r)) == Some(r)
  {
    var f := ResourceToFields(r);
    assert DistinctKeys(f);
    FindAt(f, 0);
    FindAt(f, 1);
    FindAt(f, 2);
    assert Keys(f) == {Name("catalog"), Name("namespace"), Name("name")};
  }

  lemma ReferenceEntries(r: ObjectReference)
    ensures var f := ReferenceToFields(r);
            && FindOrNull(f, "resourceRef") == Obj(ResourceToFields(r.resource))
            && TextAt(f, "objectId") == Some(r.objectId)
            && FindOrNull(f, "digest") == (if r.digest.Some? then Str(r.digest.value) else Null)
            && ExactFields(f, {"resourceRef", "objectId"}, {"digest"})
  {
    var f := ReferenceToFields(r);
    assert DistinctKeys(f);
    FindAt(f, 0);
    FindAt(f, 1);
    if r.digest.Some? {
      FindAt(f, 2);
      assert Keys(f) == {Name("resourceRef"), Name("objectId"), Name("digest")};
    } else {
      assert Keys(f) == {Name("resourceRef"), Name("objectId")};
      assert Find(f, "digest").None?;
    }
  }

  lemma ReferenceRoundTrip(r: ObjectReference)
    requires ValidReference(r)
    ensures ReferenceFromFields(ReferenceToFields(r)) == Some(r)
  {
    ReferenceEntries(r);
    ResourceRoundTrip(r.resource);
  }

  lemma PresentValueIsPublic(p: Platform, fields: Fields, name: string)
    requires AcceptsTree(p, Obj(fields))
    ensures AcceptsTree(p, FindOrNull(fields, name))
  {
    var r := Find(fields, name);
    if r.Some? {
      var i :| 0 <= i < |fields| && fields[i] == (Name(name), r.value);
      assert AcceptsTree(p, fields[i].1);
    }
  }

  lemma PresentKey(fields: Fields, name: string)
    ensures Find(fields, name).Some? <==> Name(name) in Keys(fields)
  {
    var r := Find(fields, name);
    if r.Some? {
      var i :| 0 <= i < |fields| && fields[i] == (Name(name), r.value);
      assert fields[i].0 in Keys(fields);
    }
  }

  /** A dictionary whose keys all come from an accepted one and whose values are accepted is accepted. */
  lemma NoNewKeysIsPublic(p: Platform, fields: Fields, f: Fields)
    requires AcceptsTree(p, Obj(fields)) && Keys(f) <= Keys(fields)
    requires forall i :: 0 <= i < |f| ==> AcceptsTree(p, f[i].1)
    ensures AcceptsTree(p, Obj(f))
  {
    forall i | 0 <= i < |f| ensures IsPublicKey(p, f[i].0) {
      assert f[i].0 in Keys(f);
      var j :| 0 <= j < |fields| && fields[j].0 == f[i].0;
    }
  }

  lemma CanonicalResourceIsPublic(p: Platform, fields: Fields, r: ResourceRef)
    requires ExactFields(fields, {"catalog", "namespace", "name"}, {}) && AcceptsTree(p, Obj(fields))
    ensures AcceptsTree(p, Obj(ResourceToFields(r)))
  {
    NoNewKeysIsPublic(p, fields, ResourceToFields(r));
  }

  lemma ReferenceKeys(fields: Fields)
    requires ReferenceFromFields(fields).Some?
    ensures Keys(ReferenceToFields(ReferenceFromFields(fields).value)) <= Keys(fields)
  {
    PresentKey(fields, "digest");
  }

  lemma ReferenceValuesArePublic(p: Platform, r: ObjectReference)
    requires AcceptsTree(p, Obj(ResourceToFields(r.resource)))
    ensures var f := ReferenceToFields(r); forall i :: 0 <= i < |f| ==> AcceptsTree(p, f[i].1)
  {
    assert AcceptsTree(p, Str(r.objectId));
    assert r.digest.Some? ==> AcceptsTree(p, Str(r.digest.value));
  }

  /** The wire form introduces no key that the reference it came from did not already have. */
  lemma CanonicalReferenceIsPublic(p: Platform, fields: Fields)
    requires ReferenceFromFields(fields).Some? && AcceptsTree(p, Obj(fields))
    ensures AcceptsTree(p, Obj(ReferenceToFields(ReferenceFromFields(fields).value)))
  {
    var r := ReferenceFromFields(fields).value;
    PresentValueIsPublic(p, fields, "resourceRef");
    CanonicalResourceIsPublic(p, FindOrNull(fields, "resourceRef").fields, r.resource);
    ReferenceKeys(fields);
    ReferenceValuesArePublic(p, r);
    NoNewKeysIsPublic(p, fields, ReferenceToFields(r));
  }
}
