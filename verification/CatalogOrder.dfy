/** Normalization does not depend on the order dictionaries were filled in. */
module CatalogOrder {
  import opened Basics
  import opened Core
  import opened Validation
  import opened References
  import opened Handles
  import opened Requests
  import opened Registry
  import opened Catalog
  import opened TreeOrder

  /** The same argument: dictionaries in any order at any depth, and the operations of a signed reference. */
  ghost predicate SameArgument(name: string, a: Json, b: Json) {
    if name == "reference" && a.Obj? && b.Obj? then SameReference(a.fields, b.fields) else SameTree(a, b)
  }

  /** The same arguments, in any order. */
  ghost predicate SameArguments(a: Fields, b: Fields) {
    Keys(a) == Keys(b) && forall name :: SameArgument(name, FindOrNull(a, name), FindOrNull(b, name))
  }

  /** Arguments that differ only in the order of dictionary entries, at any depth, are the same arguments. */
  lemma ReorderedArguments(a: Fields, b: Fields)
    requires SameTree(Obj(a), Obj(b))
    ensures SameArguments(a, b)
  {
    forall name ensures SameArgument(name, FindOrNull(a, name), FindOrNull(b, name)) {
      ChildAlike(a, b, name);
      var x, y := FindOrNull(a, name), FindOrNull(b, name);
      if x.Obj? && y.Obj? { SameTreeIsSameReference(x.fields, y.fields); }
    }
  }

  /** What comes from elsewhere does not tell the arguments apart: the `resource` parser, the name checks,
      and the profile parser. */
  ghost predicate ForeignAgree(p: Platform, a: Fields, b: Fields) {
    && p.parseResource(FindOrNull(a, "resource")) == p.parseResource(FindOrNull(b, "resource"))
    && p.namesResource(FindOrNull(a, "namespace"), FindOrNull(a, "name"))
       == p.namesResource(FindOrNull(b, "namespace"), FindOrNull(b, "name"))
    && p.namesSchema(FindOrNull(a, "namespace"), FindOrNull(a, "name"), FindOrNull(a, "version"))
       == p.namesSchema(FindOrNull(b, "namespace"), FindOrNull(b, "name"), FindOrNull(b, "version"))
    && ProfileOf(p, a) == ProfileOf(p, b)
  }

  lemma OtherArgument(a: Fields, b: Fields, name: string)
    requires SameArguments(a, b) && name != "reference"
    ensures SameTree(FindOrNull(a, name), FindOrNull(b, name))
  {
    assert SameArgument(name, FindOrNull(a, name), FindOrNull(b, name));
  }

  lemma ScalarArgument(a: Fields, b: Fields, name: string)
    requires SameArguments(a, b) && name != "reference"
    ensures var x, y := FindOrNull(a, name), FindOrNull(b, name);
            && LengthFromJson(x) == LengthFromJson(y) && DigestFromJson(x) == DigestFromJson(y)
            && (x.Str? || y.Str? || x.Bool? || y.Bool? || x.Null? || y.Null? || x.Int? || y.Int? ==> x == y)
            && (x.Obj? <==> y.Obj?)
  {
    OtherArgument(a, b, name);
    ScalarParsersAgree(FindOrNull(a, name), FindOrNull(b, name));
  }

  // ---- Private keys ----

  lemma SameArgumentIsPublic(p: Platform, name: string, a: Json, b: Json)
    requires SameArgument(name, a, b) && AcceptsTree(p, a)
    requires b.Obj? ==> DistinctKeys(b.fields)
    ensures AcceptsTree(p, b)
  {
    if name == "reference" && a.Obj? && b.Obj? {
      SameReferenceIsPublic(p, a.fields, b.fields);
    } else {
      SameTreeIsPublic(p, a, b);
    }
  }

  lemma SameReferenceIsPublic(p: Platform, a: Fields, b: Fields)
    requires SameReference(a, b) && AcceptsTree(p, Obj(a)) && DistinctKeys(b)
    ensures AcceptsTree(p, Obj(b))
  {
    forall j | 0 <= j < |b| ensures IsPublicKey(p, b[j].0) && AcceptsTree(p, b[j].1) {
      assert b[j].0 in Keys(a);
      var i :| 0 <= i < |a| && a[i].0 == b[j].0;
      assert AcceptsTree(p, a[i].1);
      if b[j].0 == Name(OPERATIONS) {
        FindAt(b, j);
        PresentValueIsPublic(p, a, OPERATIONS);
        SameOperationsArePublic(p, FindOrNull(a, OPERATIONS), FindOrNull(b, OPERATIONS));
      } else {
        SameTreeIsPublic(p, a[i].1, b[j].1);
      }
    }
  }

  lemma AcceptanceForgetsOrder(p: Platform, a: Fields, b: Fields)
    requires WellFormed(Obj(a)) && WellFormed(Obj(b)) && SameArguments(a, b)
    requires AcceptsTree(p, Obj(a))
    ensures AcceptsTree(p, Obj(b))
  {
    forall i | 0 <= i < |b| ensures IsPublicKey(p, b[i].0) && AcceptsTree(p, b[i].1) {
      assert b[i].0 in Keys(a);
      var j :| 0 <= j < |a| && a[j].0 == b[i].0;
      assert IsPublicKey(p, a[j].0);
      var name := b[i].0.text;
      FindAt(b, i);
      assert WellFormed(b[i].1);
      PresentValueIsPublic(p, a, name);
      SameArgumentIsPublic(p, name, FindOrNull(a, name), FindOrNull(b, name));
    }
  }

  // ---- Puts ----

  /** The same request; the two context dictionaries of a put may be in another order. */
  ghost predicate SameRequest(x: Request, y: Request) {
    if x.Put? then
      && y.Put? && y == x.(creationContext := y.creationContext, provenance := y.provenance)
      && SameTree(Obj(x.creationContext), Obj(y.creationContext)) && SameTree(Obj(x.provenance), Obj(y.provenance))
    else y == x
  }

  ghost predicate SameOutcome(x: Option<Request>, y: Option<Request>) {
    if x.Some? then y.Some? && SameRequest(x.value, y.value) else y.None?
  }

  lemma MergesAgree(a: Fields, b: Fields)
    requires SameArguments(a, b)
    ensures MergePayload(FindOrNull(a, "payload"), FindOrNull(a, "expectedDigest"), FindOrNull(a, "expectedLength"))
            == MergePayload(FindOrNull(b, "payload"), FindOrNull(b, "expectedDigest"), FindOrNull(b, "expectedLength"))
  {
    OtherArgument(a, b, "payload");
    ScalarArgument(a, b, "expectedDigest");
    ScalarArgument(a, b, "expectedLength");
    var x, y := FindOrNull(a, "payload"), FindOrNull(b, "payload");
    if x.Obj? {
      ChildrenAlike(x.fields, y.fields);
      PayloadsAgree(x.fields, y.fields);
    }
  }

  lemma PoliciesAgree(p: Platform, a: Fields, b: Fields)
    requires SameArguments(a, b)
    ensures ImmutabilityFromJson(FindOrNull(a, "immutability")) == ImmutabilityFromJson(FindOrNull(b, "immutability"))
    ensures RetentionFromJson(p, FindOrNull(a, "retention")) == RetentionFromJson(p, FindOrNull(b, "retention"))
  {
    OtherArgument(a, b, "immutability");
    OtherArgument(a, b, "retention");
    var i, j := FindOrNull(a, "immutability"), FindOrNull(b, "immutability");
    var r, s := FindOrNull(a, "retention"), FindOrNull(b, "retention");
    if i.Obj? {
      ChildrenAlike(i.fields, j.fields);
      ImmutabilitiesAgree(i.fields, j.fields);
    }
    if r.Obj? {
      ChildrenAlike(r.fields, s.fields);
      RetentionsAgree(p, r.fields, s.fields);
    }
  }

  lemma MetadataAgrees(a: Fields, b: Fields)
    requires WellFormed(Obj(a)) && WellFormed(Obj(b)) && SameArguments(a, b)
    ensures var x, y := FindOrNull(a, "userMetadata"), FindOrNull(b, "userMetadata");
            && IsUserMetadata(x) == IsUserMetadata(y)
            && (IsUserMetadata(x) ==> SortedEntries(x.fields) == SortedEntries(y.fields))
  {
    OtherArgument(a, b, "userMetadata");
    FoundValueIsWellFormed(a, "userMetadata");
    FoundValueIsWellFormed(b, "userMetadata");
    StringMappingsAgree(FindOrNull(a, "userMetadata"), FindOrNull(b, "userMetadata"), 128, 128, 2048);
  }

  lemma PutsAgree(p: Platform, v: PutValues, w: PutValues, resource: ResourceRef)
    requires MergePayload(v.payload, v.expectedDigest, v.expectedLength)
             == MergePayload(w.payload, w.expectedDigest, w.expectedLength)
    requires v.mediaType.Str? || w.mediaType.Str? ==> v.mediaType == w.mediaType
    requires v.objectId.Str? || w.objectId.Str? ==> v.objectId == w.objectId
    requires v.createOnly.Bool? || w.createOnly.Bool? ==> v.createOnly == w.createOnly
    requires IsUserMetadata(v.metadata) == IsUserMetadata(w.metadata)
    requires IsUserMetadata(v.metadata) ==> SortedEntries(v.metadata.fields) == SortedEntries(w.metadata.fields)
    requires ImmutabilityFromJson(v.immutability) == ImmutabilityFromJson(w.immutability)
    requires RetentionFromJson(p, v.retention) == RetentionFromJson(p, w.retention)
    requires SameTree(v.creationContext, w.creationContext) && SameTree(v.provenance, w.provenance)
    ensures SameOutcome(PutFromValues(p, v, resource), PutFromValues(p, w, resource))
  {
  }

  lemma PutForgetsOrder(p: Platform, a: Fields, b: Fields, resource: ResourceRef)
    requires WellFormed(Obj(a)) && WellFormed(Obj(b)) && SameArguments(a, b)
    ensures SameOutcome(PutFromFields(p, a, resource), PutFromFields(p, b, resource))
  {
    FieldNamesAgree(a, b, PUT_FIELDS, {});
    MergesAgree(a, b);
    PoliciesAgree(p, a, b);
    MetadataAgrees(a, b);
    ScalarArgument(a, b, "mediaType");
    ScalarArgument(a, b, "objectId");
    ScalarArgument(a, b, "createOnly");
    OtherArgument(a, b, "creationContext");
    OtherArgument(a, b, "provenance");
    PutsAgree(p, PutValuesOf(a), PutValuesOf(b), resource);
  }

  // ---- The other methods ----

  lemma SelectionForgetsOrder(p: Platform, a: Fields, b: Fields, resource: ResourceRef, verb: string,
                              requireDigest: bool)
    requires SameArguments(a, b)
    ensures SelectReference(p, FindOrNull(a, "reference"), resource, verb, requireDigest)
            == SelectReference(p, FindOrNull(b, "reference"), resource, verb, requireDigest)
  {
    var name := "reference";
    var x, y := FindOrNull(a, name), FindOrNull(b, name);
    assert SameArgument(name, x, y);
    if x.Obj? && y.Obj? { LogicalAgree(p, x.fields, y.fields); }
  }

  lemma ReadForgetsOrder(p: Platform, verb: string, a: Fields, b: Fields, resource: ResourceRef)
    requires SameArguments(a, b)
    ensures SameOutcome(ReadFromFields(p, verb, a, resource), ReadFromFields(p, verb, b, resource))
  {
    FieldNamesAgree(a, b, {"resource", "reference"}, {});
    SelectionForgetsOrder(p, a, b, resource, verb, false);
  }

  lemma RangeForgetsOrder(p: Platform, a: Fields, b: Fields, resource: ResourceRef)
    requires SameArguments(a, b)
    ensures SameOutcome(RangeRequestFromFields(p, a, resource), RangeRequestFromFields(p, b, resource))
  {
    FieldNamesAgree(a, b, {"resource", "reference", "range"}, {});
    SelectionForgetsOrder(p, a, b, resource, "read_range", false);
    OtherArgument(a, b, "range");
    var x, y := FindOrNull(a, "range"), FindOrNull(b, "range");
    if x.Obj? {
      ChildrenAlike(x.fields, y.fields);
      RangesAgree(x.fields, y.fields);
    }
  }

  lemma DeleteForgetsOrder(p: Platform, a: Fields, b: Fields, resource: ResourceRef)
    requires SameArguments(a, b)
    ensures SameOutcome(DeleteFromFields(p, a, resource), DeleteFromFields(p, b, resource))
  {
    FieldNamesAgree(a, b, {"resource", "reference", "reason"}, {});
    SelectionForgetsOrder(p, a, b, resource, "delete", true);
    ScalarArgument(a, b, "reason");
  }

  lemma ListForgetsOrder(a: Fields, b: Fields)
    requires SameArguments(a, b)
    ensures SameOutcome(ListFromFields(a), ListFromFields(b))
  {
    FieldNamesAgree(a, b, {"resource", "prefix", "limit", "cursor", "purpose"}, {});
    ScalarArgument(a, b, "prefix");
    ScalarArgument(a, b, "limit");
    ScalarArgument(a, b, "cursor");
    ScalarArgument(a, b, "purpose");
  }

  lemma Dispatch(verb: string, put: Option<Request>, read: Option<Request>, range: Option<Request>,
                 list: Option<Request>,
                 delete: Option<Request>, put': Option<Request>, read': Option<Request>, range': Option<Request>,
                 list': Option<Request>, delete': Option<Request>)
    requires SameOutcome(put, put') && SameOutcome(read, read') && SameOutcome(range, range')
    requires SameOutcome(list, list') && SameOutcome(delete, delete')
    ensures SameOutcome(ForMethod(verb, put, read, range, list, delete),
                        ForMethod(verb, put', read', range', list', delete'))
  {
  }

  lemma RequestForgetsOrder(p: Platform, verb: string, a: Fields, b: Fields, resource: ResourceRef)
    requires WellFormed(Obj(a)) && WellFormed(Obj(b)) && SameArguments(a, b) && verb in DATA_METHODS
    ensures SameOutcome(RequestFromFields(p, verb, a, resource), RequestFromFields(p, verb, b, resource))
  {
    PutForgetsOrder(p, a, b, resource);
    ReadForgetsOrder(p, verb, a, b, resource);
    RangeForgetsOrder(p, a, b, resource);
    DeleteForgetsOrder(p, a, b, resource);
    ListForgetsOrder(a, b);
    Dispatch(verb, PutFromFields(p, a, resource), ReadFromFields(p, verb, a, resource),
             RangeRequestFromFields(p, a, resource),
             ListFromFields(a), DeleteFromFields(p, a, resource), PutFromFields(p, b, resource),
             ReadFromFields(p, verb, b, resource), RangeRequestFromFields(p, b, resource), ListFromFields(b),
             DeleteFromFields(p, b, resource));
  }

  // ---- The rewritten dictionaries ----

  /** The same dictionary: under each name equal values, or values equal up to order. */
  ghost predicate SameDictionary(a: Fields, b: Fields) {
    Keys(a) == Keys(b) && forall name :: AlikeAt(a, b, name)
  }

  ghost predicate AlikeAt(a: Fields, b: Fields, name: string) {
    FindOrNull(a, name) == FindOrNull(b, name) || SameTree(FindOrNull(a, name), FindOrNull(b, name))
  }

  lemma UnknownFieldIsRefused(fields: Fields, required: set<string>, name: string)
    requires Name(name) in Keys(fields) && name !in required
    ensures !ExactFields(fields, required, {})
  {
  }

  predicate IsReader(request: Request) {
    request.Read? || request.ReadRange? || request.Delete?
  }

  lemma ReadersOrNothing(p: Platform, verb: string, fields: Fields, resource: ResourceRef)
    requires Name("reference") in Keys(fields)
    ensures PutFromFields(p, fields, resource).None? && ListFromFields(fields).None?
    ensures ReadFromFields(p, verb, fields, resource).Some? ==>
              IsReader(ReadFromFields(p, verb, fields, resource).value)
    ensures RangeRequestFromFields(p, fields, resource).Some? ==>
              IsReader(RangeRequestFromFields(p, fields, resource).value)
    ensures DeleteFromFields(p, fields, resource).Some? ==> IsReader(DeleteFromFields(p, fields, resource).value)
  {
    UnknownFieldIsRefused(fields, PUT_FIELDS, "reference");
    UnknownFieldIsRefused(fields, {"resource", "prefix", "limit", "cursor", "purpose"}, "reference");
  }

  lemma OnlyReadersHaveAReference(p: Platform, verb: string, fields: Fields, resource: ResourceRef)
    requires verb in DATA_METHODS && Name("reference") in Keys(fields)
    requires RequestFromFields(p, verb, fields, resource).Some?
    ensures IsReader(RequestFromFields(p, verb, fields, resource).value)
  {
    ReadersOrNothing(p, verb, fields, resource);
    EveryMethod(p, verb, fields, resource, IsReader);
  }

  lemma RenderedAgree(x: Request, y: Request, name: string, v: Json, w: Json)
    requires SameRequest(x, y) && SameArgument(name, v, w)
    requires name == "reference" ==> IsReader(x)
    ensures Rendered(x, name, v) == Rendered(y, name, w) || SameTree(Rendered(x, name, v), Rendered(y, name, w))
  {
  }

  lemma RenderForgetsOrder(p: Platform, verb: string, a: Fields, b: Fields, resource: ResourceRef)
    requires DistinctKeys(a) && DistinctKeys(b) && SameArguments(a, b) && verb in DATA_METHODS
    requires RequestFromFields(p, verb, a, resource).Some?
    requires SameOutcome(RequestFromFields(p, verb, a, resource), RequestFromFields(p, verb, b, resource))
    ensures var x, y := RequestFromFields(p, verb, a, resource).value, RequestFromFields(p, verb, b, resource).value;
            SameDictionary(Render(x, a), Render(y, b))
  {
    var x, y := RequestFromFields(p, verb, a, resource).value, RequestFromFields(p, verb, b, resource).value;
    RenderKeepsKeys(x, a);
    RenderKeepsKeys(y, b);
    forall name ensures AlikeAt(Render(x, a), Render(y, b), name) {
      PresentKey(Render(x, a), name);
      PresentKey(Render(y, b), name);
      if Name(name) in Keys(a) {
        RenderFind(x, a, name);
        RenderFind(y, b, name);
        if name == "reference" { OnlyReadersHaveAReference(p, verb, a, resource); }
        RenderedAgree(x, y, name, FindOrNull(a, name), FindOrNull(b, name));
      }
    }
  }

  lemma EffectsAgree(x: Request, y: Request)
    requires SameRequest(x, y)
    ensures EffectsOf(x) == EffectsOf(y)
  {
  }

  /** Equal operations, their inputs compared as dictionaries. */
  ghost predicate SameOperation(a: Operation, b: Operation) {
    SameDictionary(a.input, b.input) && a.(input := []) == b.(input := [])
  }

  ghost predicate SameResult(x: Result<Operation, NormalizeError>, y: Result<Operation, NormalizeError>) {
    if x.Success? then y.Success? && SameOperation(x.value, y.value) else y == x
  }

  lemma DataForgetsOrder(p: Platform, verb: string, a: Fields, b: Fields)
    requires WellFormed(Obj(a)) && WellFormed(Obj(b)) && SameArguments(a, b) && verb in DATA_METHODS
    requires p.parseResource(FindOrNull(a, "resource")) == p.parseResource(FindOrNull(b, "resource"))
    ensures SameResult(NormalizedData(p, verb, a), NormalizedData(p, verb, b))
  {
    var resource := p.parseResource(FindOrNull(a, "resource"));
    if resource.Some? {
      RequestForgetsOrder(p, verb, a, b, resource.value);
      var x, y := RequestFromFields(p, verb, a, resource.value), RequestFromFields(p, verb, b, resource.value);
      if x.Some? {
        RenderForgetsOrder(p, verb, a, b, resource.value);
        EffectsAgree(x.value, y.value);
      }
    }
  }

  lemma RegistryAcceptsAlike(p: Platform, a: Fields, b: Fields)
    requires SameArguments(a, b) && ForeignAgree(p, a, b)
    ensures AcceptsSchema(p, a) == AcceptsSchema(p, b) && AcceptsResource(p, a) == AcceptsResource(p, b)
  {
    FieldNamesAgree(a, b, SCHEMA_FIELDS, {});
    FieldNamesAgree(a, b, RESOURCE_FIELDS, {});
    ScalarArgument(a, b, "definition");
    ScalarArgument(a, b, "allowBreaking");
    ScalarArgument(a, b, "expectedRegistryRevision");
    ScalarArgument(a, b, "options");
  }

  lemma RegistryHasNoReference(p: Platform, verb: string, fields: Fields)
    requires verb in REGISTRY_METHODS && RegistryArguments(p, verb, fields).Some?
    ensures Name("reference") !in Keys(fields)
  {
    if Name("reference") in Keys(fields) {
      UnknownFieldIsRefused(fields, SCHEMA_FIELDS, "reference");
      UnknownFieldIsRefused(fields, RESOURCE_FIELDS, "reference");
    }
  }

  lemma RegistryInputAlike(p: Platform, verb: string, a: Fields, b: Fields)
    requires DistinctKeys(a) && DistinctKeys(b) && SameArguments(a, b) && ForeignAgree(p, a, b)
    requires verb in REGISTRY_METHODS && RegistryArguments(p, verb, a).Some? && RegistryArguments(p, verb, b).Some?
    ensures SameDictionary(RegistryArguments(p, verb, a).value, RegistryArguments(p, verb, b).value)
  {
    RegistryHasNoReference(p, verb, a);
    var x, y := RegistryArguments(p, verb, a).value, RegistryArguments(p, verb, b).value;
    if verb != "publish_schema" {
      ProfileIsPresent(p, a);
      AssignedFind(a, "profile", Obj(ProfileOf(p, a).value), "profile");
      AssignedFind(b, "profile", Obj(ProfileOf(p, b).value), "profile");
    }
    forall name ensures AlikeAt(x, y, name) {
      PresentKey(a, name);
      PresentKey(b, name);
      if verb != "publish_schema" {
        AssignedFind(a, "profile", Obj(ProfileOf(p, a).value), name);
        AssignedFind(b, "profile", Obj(ProfileOf(p, b).value), name);
      }
      if name != "reference" { OtherArgument(a, b, name); }
    }
  }

  lemma RegistryForgetsOrder(p: Platform, verb: string, a: Fields, b: Fields)
    requires DistinctKeys(a) && DistinctKeys(b) && SameArguments(a, b) && ForeignAgree(p, a, b)
    requires verb in REGISTRY_METHODS
    ensures SameResult(NormalizedRegistry(p, verb, a), NormalizedRegistry(p, verb, b))
  {
    RegistryAcceptsAlike(p, a, b);
    if RegistryArguments(p, verb, a).Some? { RegistryInputAlike(p, verb, a, b); }
  }

  lemma SameArgumentsSymmetric(a: Fields, b: Fields)
    requires WellFormed(Obj(a)) && WellFormed(Obj(b)) && SameArguments(a, b)
    ensures SameArguments(b, a)
  {
    forall name ensures SameArgument(name, FindOrNull(b, name), FindOrNull(a, name)) {
      assert SameArgument(name, FindOrNull(a, name), FindOrNull(b, name));
      SameArgumentSymmetric(name, FindOrNull(a, name), FindOrNull(b, name));
    }
  }

  lemma SameArgumentSymmetric(name: string, a: Json, b: Json)
    requires SameArgument(name, a, b)
    ensures SameArgument(name, b, a)
  {
    if name == "reference" && a.Obj? && b.Obj? {
      forall i, j | 0 <= i < |b.fields| && 0 <= j < |a.fields| && b.fields[i].0 == a.fields[j].0
                    && b.fields[i].0 != Name(OPERATIONS)
        ensures SameTree(b.fields[i].1, a.fields[j].1)
      {
        SameTreeSymmetric(a.fields[j].1, b.fields[i].1);
      }
      var x, y := FindOrNull(a.fields, OPERATIONS), FindOrNull(b.fields, OPERATIONS);
      if SameTree(x, y) { SameTreeSymmetric(x, y); }
    } else {
      SameTreeSymmetric(a, b);
    }
  }

  /** Filling any dictionary of the arguments in another order, at any depth, or listing the operations of a
      signed reference in another order, normalizes to the same operation or fails alike. */
  lemma NormalizationForgetsOrder(p: Platform, catalog: string, verb: string, a: Fields, b: Fields)
    requires WellFormed(Obj(a)) && WellFormed(Obj(b)) && SameArguments(a, b) && ForeignAgree(p, a, b)
    ensures SameResult(Normalized(p, Expression(catalog, verb, a)), Normalized(p, Expression(catalog, verb, b)))
  {
    SameArgumentsSymmetric(a, b);
    if AcceptsTree(p, Obj(a)) { AcceptanceForgetsOrder(p, a, b); }
    if AcceptsTree(p, Obj(b)) { AcceptanceForgetsOrder(p, b, a); }
    if verb in DATA_METHODS {
      MethodsAreApart(verb);
      DataForgetsOrder(p, verb, a, b);
    } else if verb in REGISTRY_METHODS {
      RegistryForgetsOrder(p, verb, a, b);
    }
  }

  /** In particular, filling the argument dictionary itself in another order. */
  lemma ArgumentOrderIsForgotten(p: Platform, catalog: string, verb: string, a: Fields, b: Fields)
    requires WellFormed(Obj(a)) && WellFormed(Obj(b)) && Permuted(a, b)
    ensures SameResult(Normalized(p, Expression(catalog, verb, a)), Normalized(p, Expression(catalog, verb, b)))
  {
    PermutedIsSameTree(a, b);
    ReorderedArguments(a, b);
    PermutedFind(a, b, "resource");
    PermutedFind(a, b, "namespace");
    PermutedFind(a, b, "name");
    PermutedFind(a, b, "version");
    PermutedFind(a, b, "profile");
    NormalizationForgetsOrder(p, catalog, verb, a, b);
  }

  lemma PermutedFind(a: Fields, b: Fields, name: string)
    requires DistinctKeys(a) && DistinctKeys(b) && Permuted(a, b)
    ensures FindOrNull(a, name) == FindOrNull(b, name)
  {
    var x, y := Find(a, name), Find(b, name);
    if x.Some? {
      var i :| 0 <= i < |a| && a[i] == (Name(name), x.value);
      MemberFollowsMultiset(a, b, a[i]);
      var j :| 0 <= j < |b| && b[j] == a[i];
      FindAt(b, j);
    } else if y.Some? {
      var j :| 0 <= j < |b| && b[j] == (Name(name), y.value);
      MemberFollowsMultiset(b, a, b[j]);
    }
  }
}
