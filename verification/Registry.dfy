/** The arguments of `publish_schema` and `create_resource`. */
module Registry {
  import opened Basics
  import opened Core
  import opened Validation
  import opened References
  import Handles

  const REGISTRY_METHODS: set<string> := {"publish_schema", "create_resource"}
  const REGISTRY_REF := ResourceRef(OBJECT_CATALOG, "meridian", "registry")

  const SCHEMA_FIELDS: set<string> := {
    "namespace", "name", "version", "definition", "allowBreaking", "expectedRegistryRevision"
  }

  const RESOURCE_FIELDS: set<string> := {"namespace", "name", "profile", "options"}

  predicate AcceptsSchema(p: Platform, fields: Fields) {
    var namespace, name := FindOrNull(fields, "namespace"), FindOrNull(fields, "name");
    && ExactFields(fields, SCHEMA_FIELDS, {})
    && p.namesResource(namespace, name) && p.namesSchema(namespace, name, FindOrNull(fields, "version"))
    && FindOrNull(fields, "definition").Obj? && FindOrNull(fields, "allowBreaking").Bool?
    && Handles.LengthFromJson(FindOrNull(fields, "expectedRegistryRevision")).Some?
  }

  /** The canonical form of the profile the arguments hold. */
  function ProfileOf(p: Platform, fields: Fields): Option<Fields> {
    var profile := FindOrNull(fields, "profile");
    if profile.Obj? then p.profile(profile.fields) else None
  }

  predicate AcceptsResource(p: Platform, fields: Fields) {
    && ExactFields(fields, RESOURCE_FIELDS, {})
    && p.namesResource(FindOrNull(fields, "namespace"), FindOrNull(fields, "name"))
    && ProfileOf(p, fields).Some? && FindOrNull(fields, "options").Obj?
  }

  /** `_validate_registry_arguments`: the arguments it leaves, if it accepts them. */
  function RegistryArguments(p: Platform, verb: string, fields: Fields): Option<Fields> {
    if verb == "publish_schema" then (if AcceptsSchema(p, fields) then Some(fields) else None)
    else if !AcceptsResource(p, fields) then None
    else Some(Assign(fields, "profile", Obj(ProfileOf(p, fields).value)))
  }

  /** The profile of a new resource is in canonical form once it has been brought there, and has no
      private key there. */
  ghost predicate ProfileIsFixed(p: Platform, verb: string, fields: Fields) {
    verb == "publish_schema"
    || (ProfileOf(p, fields).Some?
        && var profile := ProfileOf(p, fields).value;
           p.profile(profile) == Some(profile) && AcceptsTree(p, Obj(profile)))
  }

  lemma AssignedFind(fields: Fields, name: string, value: Json, other: string)
    requires DistinctKeys(fields) && Name(name) in Keys(fields)
    ensures FindOrNull(Assign(fields, name, value), other) == if other == name then value else FindOrNull(fields, other)
    ensures DistinctKeys(Assign(fields, name, value)) && Keys(Assign(fields, name, value)) == Keys(fields)
  {
    var r := Assign(fields, name, value);
    assert forall i :: 0 <= i < |fields| ==> r[i].0 == fields[i].0;
    forall k | k in Keys(fields) ensures k in Keys(r) {
      var i :| 0 <= i < |fields| && fields[i].0 == k;
      assert r[i].0 == k;
    }
    if i :| 0 <= i < |fields| && fields[i].0 == Name(other) {
      FindAt(fields, i);
      FindAt(r, i);
    }
  }

  lemma AssignTwice(fields: Fields, name: string, v: Json, w: Json)
    requires DistinctKeys(fields) && Name(name) in Keys(fields)
    ensures Assign(Assign(fields, name, v), name, w) == Assign(fields, name, v) <==> v == w
  {
    var r := Assign(fields, name, v);
    AssignedFind(fields, name, v, name);
    AssignedFind(r, name, w, name);
  }

  lemma AssignedIsPublic(p: Platform, fields: Fields, name: string, value: Json)
    requires DistinctKeys(fields) && Name(name) in Keys(fields) && AcceptsTree(p, Obj(fields))
    ensures AcceptsTree(p, Obj(Assign(fields, name, value))) <==> AcceptsTree(p, value)
  {
    var r := Assign(fields, name, value);
    AssignedFind(fields, name, value, name);
    if AcceptsTree(p, value) {
      NoNewKeysIsPublic(p, fields, r);
    }
    if AcceptsTree(p, Obj(r)) {
      PresentValueIsPublic(p, r, name);
    }
  }

  lemma ProfileIsPresent(p: Platform, fields: Fields)
    requires AcceptsResource(p, fields)
    ensures Name("profile") in Keys(fields)
  {
  }

  lemma ReplacedProfile(p: Platform, fields: Fields, r: Fields, profile: Fields)
    requires AcceptsResource(p, fields) && Keys(r) == Keys(fields)
    requires FindOrNull(r, "profile") == Obj(profile)
    requires forall other :: other != "profile" ==> FindOrNull(r, other) == FindOrNull(fields, other)
    ensures ProfileOf(p, r) == p.profile(profile)
    ensures AcceptsResource(p, r) <==> p.profile(profile).Some?
  {
  }

  /** With its canonical profile in place, a resource is acceptable exactly when that profile is. */
  lemma ResourceAgain(p: Platform, fields: Fields, profile: Fields)
    requires DistinctKeys(fields) && AcceptsResource(p, fields)
    ensures var r := Assign(fields, "profile", Obj(profile));
            && ProfileOf(p, r) == p.profile(profile)
            && (AcceptsResource(p, r) <==> p.profile(profile).Some?)
  {
    var r := Assign(fields, "profile", Obj(profile));
    ProfileIsPresent(p, fields);
    AssignedFind(fields, "profile", Obj(profile), "profile");
    forall other | other != "profile" ensures FindOrNull(r, other) == FindOrNull(fields, other) {
      AssignedFind(fields, "profile", Obj(profile), other);
    }
    ReplacedProfile(p, fields, r, profile);
  }

  /** The arguments left are accepted and left alone, and free of private keys, exactly when the canonical
      profile is a fixed point without private keys. */
  lemma RegistryIsIdempotent(p: Platform, verb: string, fields: Fields)
    requires DistinctKeys(fields) && AcceptsTree(p, Obj(fields)) && RegistryArguments(p, verb, fields).Some?
    ensures var r := RegistryArguments(p, verb, fields).value;
            (AcceptsTree(p, Obj(r)) && RegistryArguments(p, verb, r) == Some(r)) <==> ProfileIsFixed(p, verb, fields)
  {
    if verb != "publish_schema" {
      var profile := ProfileOf(p, fields).value;
      ProfileIsPresent(p, fields);
      ResourceAgain(p, fields, profile);
      AssignedIsPublic(p, fields, "profile", Obj(profile));
      if p.profile(profile).Some? {
        AssignTwice(fields, "profile", Obj(profile), Obj(p.profile(profile).value));
      }
    }
  }
}
