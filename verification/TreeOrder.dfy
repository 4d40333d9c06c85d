/** JSON values that differ only in the order of dictionary entries, and what every parser makes of them. */
module TreeOrder {
  import opened Basics
  import opened Core
  import opened Ordering
  import opened Validation
  import opened References
  import opened Handles
  import opened Ranges
  import opened Signed

  /** Equal up to the order of the entries of any dictionary in them, at any depth. */
  ghost predicate SameTree(a: Json, b: Json)
    decreases a
  {
    match a
    case Arr(items) => b.Arr? && |items| == |b.items| && forall i :: 0 <= i < |items| ==> SameTree(items[i], b.items[i])
    case Obj(fields) =>
      && b.Obj? && |fields| == |b.fields| && Keys(fields) == Keys(b.fields)
      && forall i, j :: 0 <= i < |fields| && 0 <= j < |b.fields| && fields[i].0 == b.fields[j].0 ==>
           SameTree(fields[i].1, b.fields[j].1)
    case _ => a == b
  }

  const OPERATIONS := "allowedOperations"

  /** The same entries in any order, save that the operations may differ. */
  ghost predicate SameEntries(a: Fields, b: Fields) {
    && |a| == |b| && Keys(a) == Keys(b)
    && forall i, j :: 0 <= i < |a| && 0 <= j < |b| && a[i].0 == b[j].0 && a[i].0 != Name(OPERATIONS) ==>
         SameTree(a[i].1, b[j].1)
  }

  ghost predicate SameOperations(a: Json, b: Json) {
    SameTree(a, b) || (a.Arr? && b.Arr? && Permuted(a.items, b.items))
  }

  /** The same reference dictionary: entries in any order, and the operations of a signed one too. */
  ghost predicate SameReference(a: Fields, b: Fields) {
    SameEntries(a, b) && SameOperations(FindOrNull(a, OPERATIONS), FindOrNull(b, OPERATIONS))
  }

  // ---- Looking entries up ----

  lemma PresentAlike(a: Fields, b: Fields, name: string)
    requires Keys(a) == Keys(b)
    ensures Find(a, name).Some? <==> Find(b, name).Some?
  {
    PresentKey(a, name);
    PresentKey(b, name);
  }

  lemma FoundAlike(a: Fields, b: Fields, name: string)
    requires SameEntries(a, b) && name != OPERATIONS
    ensures SameTree(FindOrNull(a, name), FindOrNull(b, name))
  {
    PresentAlike(a, b, name);
    var x, y := Find(a, name), Find(b, name);
    if x.Some? {
      var i :| 0 <= i < |a| && a[i] == (Name(name), x.value);
      var j :| 0 <= j < |b| && b[j] == (Name(name), y.value);
    }
  }

  lemma ChildrenAlike(a: Fields, b: Fields)
    requires SameTree(Obj(a), Obj(b))
    ensures SameEntries(a, b)
  {
  }

  lemma ChildAlike(a: Fields, b: Fields, name: string)
    requires SameTree(Obj(a), Obj(b))
    ensures SameTree(FindOrNull(a, name), FindOrNull(b, name))
  {
    PresentAlike(a, b, name);
    var x, y := Find(a, name), Find(b, name);
    if x.Some? {
      var i :| 0 <= i < |a| && a[i] == (Name(name), x.value);
      var j :| 0 <= j < |b| && b[j] == (Name(name), y.value);
    }
  }

  lemma SameTreeIsSameReference(a: Fields, b: Fields)
    requires SameTree(Obj(a), Obj(b))
    ensures SameReference(a, b)
  {
    ChildrenAlike(a, b);
    ChildAlike(a, b, OPERATIONS);
  }

  lemma TextsAlike(a: Fields, b: Fields, name: string)
    requires SameEntries(a, b) && name != OPERATIONS
    ensures TextAt(a, name) == TextAt(b, name)
  {
    FoundAlike(a, b, name);
  }

  lemma ScalarParsersAgree(a: Json, b: Json)
    requires SameTree(a, b)
    ensures LengthFromJson(a) == LengthFromJson(b) && DigestFromJson(a) == DigestFromJson(b)
    ensures TextOrNull(a) == TextOrNull(b) && OptionalInt(a) == OptionalInt(b)
    ensures a.Str? || b.Str? || a.Bool? || b.Bool? || a.Null? || b.Null? || a.Int? || b.Int? ==> a == b
  {
  }

  lemma FieldNamesAgree(a: Fields, b: Fields, required: set<string>, optional: set<string>)
    requires Keys(a) == Keys(b)
    ensures ExactFields(a, required, optional) == ExactFields(b, required, optional)
  {
  }

  lemma {:induction false} SameTreeReflexive(v: Json)
    requires WellFormed(v)
    ensures SameTree(v, v)
  {
    match v
    case Arr(items) =>
      forall i | 0 <= i < |items| ensures SameTree(items[i], items[i]) { SameTreeReflexive(items[i]); }
    case Obj(fields) =>
      forall i, j | 0 <= i < |fields| && 0 <= j < |fields| && fields[i].0 == fields[j].0
        ensures SameTree(fields[i].1, fields[j].1)
      {
        assert WellFormed(fields[i].1) && i == j;
        SameTreeReflexive(fields[i].1);
      }
    case _ =>
  }

  /** A dictionary filled in another order is the same tree. */
  lemma PermutedIsSameTree(a: Fields, b: Fields)
    requires WellFormed(Obj(a)) && Permuted(a, b)
    ensures SameTree(Obj(a), Obj(b))
  {
    MembersFollowMultiset(a, b);
    forall key ensures key in Keys(a) <==> key in Keys(b) {
      if i :| 0 <= i < |a| && a[i].0 == key { PermutedKey(a, b, i); }
      if j :| 0 <= j < |b| && b[j].0 == key { PermutedKey(b, a, j); }
    }
    forall i, j | 0 <= i < |a| && 0 <= j < |b| && a[i].0 == b[j].0 ensures SameTree(a[i].1, b[j].1) {
      assert b[j] in a;
      var k :| 0 <= k < |a| && a[k] == b[j];
      assert k == i && WellFormed(a[i].1);
      SameTreeReflexive(a[i].1);
    }
  }

  lemma PermutedKey(a: Fields, b: Fields, i: nat)
    requires Permuted(a, b) && i < |a|
    ensures a[i].0 in Keys(b)
  {
    MemberFollowsMultiset(a, b, a[i]);
    var j :| 0 <= j < |b| && b[j] == a[i];
  }

  lemma {:induction false} SameTreeSymmetric(a: Json, b: Json)
    requires SameTree(a, b)
    ensures SameTree(b, a)
    decreases a
  {
    match a
    case Arr(items) =>
      forall i | 0 <= i < |items| ensures SameTree(b.items[i], items[i]) { SameTreeSymmetric(items[i], b.items[i]); }
    case Obj(fields) =>
      forall i, j | 0 <= i < |b.fields| && 0 <= j < |fields| && b.fields[i].0 == fields[j].0
        ensures SameTree(b.fields[i].1, fields[j].1)
      {
        SameTreeSymmetric(fields[j].1, b.fields[i].1);
      }
    case _ =>
  }

  // ---- Private keys ----

  lemma {:induction false} SameTreeIsPublic(p: Platform, a: Json, b: Json)
    requires SameTree(a, b)
    ensures AcceptsTree(p, a) <==> AcceptsTree(p, b)
    decreases a
  {
    match a
    case Arr(items) =>
      forall i | 0 <= i < |items| ensures AcceptsTree(p, items[i]) <==> AcceptsTree(p, b.items[i]) {
        SameTreeIsPublic(p, items[i], b.items[i]);
      }
    case Obj(fields) =>
      if AcceptsTree(p, a) {
        forall j | 0 <= j < |b.fields| ensures IsPublicKey(p, b.fields[j].0) && AcceptsTree(p, b.fields[j].1) {
          assert b.fields[j].0 in Keys(fields);
          var i :| 0 <= i < |fields| && fields[i].0 == b.fields[j].0;
          SameTreeIsPublic(p, fields[i].1, b.fields[j].1);
        }
      }
      if AcceptsTree(p, b) {
        forall i | 0 <= i < |fields| ensures IsPublicKey(p, fields[i].0) && AcceptsTree(p, fields[i].1) {
          assert fields[i].0 in Keys(b.fields);
          var j :| 0 <= j < |b.fields| && b.fields[j].0 == fields[i].0;
          SameTreeIsPublic(p, fields[i].1, b.fields[j].1);
        }
      }
    case _ =>
  }

  lemma SameOperationsArePublic(p: Platform, a: Json, b: Json)
    requires SameOperations(a, b)
    ensures AcceptsTree(p, a) <==> AcceptsTree(p, b)
  {
    if SameTree(a, b) {
      SameTreeIsPublic(p, a, b);
    } else {
      if AcceptsTree(p, a) {
        forall i | 0 <= i < |b.items| ensures AcceptsTree(p, b.items[i]) {
          MemberFollowsMultiset(b.items, a.items, b.items[i]);
        }
      }
      if AcceptsTree(p, b) {
        forall i | 0 <= i < |a.items| ensures AcceptsTree(p, a.items[i]) {
          MemberFollowsMultiset(a.items, b.items, a.items[i]);
        }
      }
    }
  }

  // ---- Wire forms ----

  lemma PayloadsAgree(a: Fields, b: Fields)
    requires SameEntries(a, b)
    ensures PayloadFromFields(a) == PayloadFromFields(b)
  {
    FieldNamesAgree(a, b, PAYLOAD_FIELDS, {});
    TextsAlike(a, b, "formatVersion");
    TextsAlike(a, b, "token");
    FoundAlike(a, b, "expectedLength");
    FoundAlike(a, b, "expectedDigest");
    FoundAlike(a, b, "replayable");
    ScalarParsersAgree(FindOrNull(a, "expectedLength"), FindOrNull(b, "expectedLength"));
    ScalarParsersAgree(FindOrNull(a, "expectedDigest"), FindOrNull(b, "expectedDigest"));
    ScalarParsersAgree(FindOrNull(a, "replayable"), FindOrNull(b, "replayable"));
  }

  lemma ImmutabilitiesAgree(a: Fields, b: Fields)
    requires SameEntries(a, b)
    ensures ImmutabilityFromFields(a) == ImmutabilityFromFields(b)
  {
    FieldNamesAgree(a, b, IMMUTABILITY_FIELDS, {});
    TextsAlike(a, b, "mutability");
    FoundAlike(a, b, "publishOnce");
    ScalarParsersAgree(FindOrNull(a, "publishOnce"), FindOrNull(b, "publishOnce"));
  }

  lemma RetentionsAgree(p: Platform, a: Fields, b: Fields)
    requires SameEntries(a, b)
    ensures RetentionFromFields(p, a) == RetentionFromFields(p, b)
  {
    FieldNamesAgree(a, b, RETENTION_FIELDS, {});
    FoundAlike(a, b, "retainUntil");
    FoundAlike(a, b, "policy");
    FoundAlike(a, b, "requireEnforcement");
    ScalarParsersAgree(FindOrNull(a, "retainUntil"), FindOrNull(b, "retainUntil"));
    ScalarParsersAgree(FindOrNull(a, "policy"), FindOrNull(b, "policy"));
    ScalarParsersAgree(FindOrNull(a, "requireEnforcement"), FindOrNull(b, "requireEnforcement"));
  }

  lemma RangesAgree(a: Fields, b: Fields)
    requires SameEntries(a, b)
    ensures RangeFromFields(a) == RangeFromFields(b)
  {
    PresentAlike(a, b, "suffixLength");
    FieldNamesAgree(a, b, {"suffixLength"}, {});
    FieldNamesAgree(a, b, {"start"}, {"end"});
    FoundAlike(a, b, "suffixLength");
    FoundAlike(a, b, "start");
    FoundAlike(a, b, "end");
    ScalarParsersAgree(FindOrNull(a, "suffixLength"), FindOrNull(b, "suffixLength"));
    ScalarParsersAgree(FindOrNull(a, "start"), FindOrNull(b, "start"));
    ScalarParsersAgree(FindOrNull(a, "end"), FindOrNull(b, "end"));
  }

  lemma ResourcesAgree(a: Fields, b: Fields)
    requires SameEntries(a, b)
    ensures ResourceFromFields(a) == ResourceFromFields(b)
  {
    FieldNamesAgree(a, b, {"catalog", "namespace", "name"}, {});
    TextsAlike(a, b, "catalog");
    TextsAlike(a, b, "namespace");
    TextsAlike(a, b, "name");
  }

  lemma ReferencesAgree(a: Fields, b: Fields)
    requires SameEntries(a, b)
    ensures ReferenceFromFields(a) == ReferenceFromFields(b)
  {
    FieldNamesAgree(a, b, {"resourceRef", "objectId"}, {"digest"});
    FoundAlike(a, b, "resourceRef");
    TextsAlike(a, b, "objectId");
    FoundAlike(a, b, "digest");
    ScalarParsersAgree(FindOrNull(a, "digest"), FindOrNull(b, "digest"));
    var x, y := FindOrNull(a, "resourceRef"), FindOrNull(b, "resourceRef");
    if x.Obj? {
      ChildrenAlike(x.fields, y.fields);
      ResourcesAgree(x.fields, y.fields);
    }
  }

  lemma StringArraysAgree(a: seq<Json>, b: seq<Json>)
    requires SameOperations(Arr(a), Arr(b))
    ensures SelectOperations(a) == SelectOperations(b)
  {
    if SameTree(Arr(a), Arr(b)) {
      SameTreeArrays(a, b);
      if StringSequence(a).Some? { assert a == b; }
      if StringSequence(b).Some? { assert a == b; }
    } else {
      StringArrayForgetsOrder(a, b);
    }
  }

  lemma SameTreeArrays(a: seq<Json>, b: seq<Json>)
    requires SameTree(Arr(a), Arr(b))
    ensures |a| == |b| && forall i :: 0 <= i < |a| && (a[i].Str? || b[i].Str?) ==> a[i] == b[i]
  {
    forall i | 0 <= i < |a| && (a[i].Str? || b[i].Str?) ensures a[i] == b[i] {
      assert SameTree(Arr(a).items[i], Arr(b).items[i]);
    }
  }

  lemma NestedReferencesAgree(a: Fields, b: Fields)
    requires SameEntries(a, b)
    ensures SameNested(FindOrNull(a, "objectRef"), FindOrNull(b, "objectRef"))
  {
    FoundAlike(a, b, "objectRef");
    var x, y := FindOrNull(a, "objectRef"), FindOrNull(b, "objectRef");
    if x.Obj? {
      ChildrenAlike(x.fields, y.fields);
      ReferencesAgree(x.fields, y.fields);
    }
  }

  lemma OperationsAgree(a: Json, b: Json)
    requires SameOperations(a, b)
    ensures SameSelection(a, b)
  {
    if a.Arr? { StringArraysAgree(a.items, b.items); }
  }

  ghost predicate SameNested(a: Json, b: Json) {
    (a.Obj? <==> b.Obj?) && (a.Obj? ==> ReferenceFromFields(a.fields) == ReferenceFromFields(b.fields))
  }

  ghost predicate SameSelection(a: Json, b: Json) {
    (a.Arr? <==> b.Arr?) && (a.Arr? ==> SelectOperations(a.items) == SelectOperations(b.items))
  }

  ghost predicate SameParts(a: Fields, b: Fields) {
    && ExactFields(a, SIGNED_FIELDS, {}) == ExactFields(b, SIGNED_FIELDS, {})
    && (forall name :: name != OPERATIONS ==> TextAt(a, name) == TextAt(b, name))
    && SameNested(FindOrNull(a, "objectRef"), FindOrNull(b, "objectRef"))
    && SameSelection(FindOrNull(a, OPERATIONS), FindOrNull(b, OPERATIONS))
  }

  lemma PartsParseAlike(p: Platform, a: Fields, b: Fields)
    requires SameParts(a, b)
    ensures FromFields(p, a) == FromFields(p, b)
  {
  }

  /** A signed reference filled in in another order, its operations too, parses to the same reference. */
  lemma SignedAgree(p: Platform, a: Fields, b: Fields)
    requires SameReference(a, b)
    ensures FromFields(p, a) == FromFields(p, b)
  {
    FieldNamesAgree(a, b, SIGNED_FIELDS, {});
    forall name | name != OPERATIONS ensures TextAt(a, name) == TextAt(b, name) {
      TextsAlike(a, b, name);
    }
    NestedReferencesAgree(a, b);
    OperationsAgree(FindOrNull(a, OPERATIONS), FindOrNull(b, OPERATIONS));
    PartsParseAlike(p, a, b);
  }

  lemma LogicalAgree(p: Platform, a: Fields, b: Fields)
    requires SameReference(a, b)
    ensures ParseLogical(p, a) == ParseLogical(p, b)
  {
    FoundAlike(a, b, "formatVersion");
    ScalarParsersAgree(FindOrNull(a, "formatVersion"), FindOrNull(b, "formatVersion"));
    SignedAgree(p, a, b);
    ReferencesAgree(a, b);
  }

  // ---- String mappings ----

  lemma {:induction false} DistinctCount<T>(s: seq<T>, x: T)
    requires Distinct(s)
    ensures multiset(s)[x] == if x in s then 1 else 0
  {
    if s != [] {
      DistinctCount(s[1..], x);
      assert s == [s[0]] + s[1..];
    }
  }

  lemma SameMembersPermute<T>(a: seq<T>, b: seq<T>)
    requires Distinct(a) && Distinct(b) && forall x :: x in a <==> x in b
    ensures Permuted(a, b)
  {
    forall x ensures multiset(a)[x] == multiset(b)[x] {
      DistinctCount(a, x);
      DistinctCount(b, x);
    }
  }

  lemma SameStringEntries(a: Fields, b: Fields, e: (Key, Json))
    requires SameTree(Obj(a), Obj(b)) && e in a && !e.1.Obj? && !e.1.Arr?
    ensures e in b
  {
    var i :| 0 <= i < |a| && a[i] == e;
    assert a[i].0 in Keys(b);
    var j :| 0 <= j < |b| && b[j].0 == a[i].0;
    assert SameTree(Obj(a).fields[i].1, Obj(b).fields[j].1);
  }

  lemma SameScalarsPermute(a: Fields, b: Fields)
    requires SameTree(Obj(a), Obj(b)) && DistinctKeys(a) && DistinctKeys(b)
    requires forall i :: 0 <= i < |a| ==> !a[i].1.Obj? && !a[i].1.Arr?
    ensures Permuted(a, b)
  {
    forall e | e in a ensures e in b {
      SameStringEntries(a, b, e);
    }
    forall e | e in b ensures e in a {
      var j :| 0 <= j < |b| && b[j] == e;
      assert b[j].0 in Keys(a);
      var i :| 0 <= i < |a| && a[i].0 == b[j].0;
      assert SameTree(Obj(a).fields[i].1, Obj(b).fields[j].1);
    }
    SameMembersPermute(a, b);
  }

  /** The same mapping in another order is accepted alike and sorted into the same entries. */
  lemma StringMappingsAgree(a: Json, b: Json, maximumEntries: nat, maximumKey: nat, maximumValue: nat)
    requires SameTree(a, b) && (a.Obj? ==> DistinctKeys(a.fields)) && (b.Obj? ==> DistinctKeys(b.fields))
    ensures IsStringMapping(a, maximumEntries, maximumKey, maximumValue)
            == IsStringMapping(b, maximumEntries, maximumKey, maximumValue)
    ensures IsStringMapping(a, maximumEntries, maximumKey, maximumValue) ==>
              SortedEntries(a.fields) == SortedEntries(b.fields)
  {
    if a.Obj? {
      if IsStringMapping(b, maximumEntries, maximumKey, maximumValue) {
        StringsAlike(a.fields, b.fields);
      }
      if forall i :: 0 <= i < |a.fields| ==> !a.fields[i].1.Obj? && !a.fields[i].1.Arr? {
        SameScalarsPermute(a.fields, b.fields);
        StringMappingForgetsOrder(a.fields, b.fields, maximumEntries, maximumKey, maximumValue);
      }
    }
  }

  lemma StringsAlike(a: Fields, b: Fields)
    requires SameTree(Obj(a), Obj(b)) && forall j :: 0 <= j < |b| ==> b[j].1.Str?
    ensures forall i :: 0 <= i < |a| ==> a[i].1.Str?
  {
    forall i | 0 <= i < |a| ensures a[i].1.Str? {
      assert a[i].0 in Keys(b);
      var j :| 0 <= j < |b| && b[j].0 == a[i].0;
      assert SameTree(Obj(a).fields[i].1, Obj(b).fields[j].1);
    }
  }
}
