/** The object store as values: what each command does, and the plain map from keys to bytes it refines. */
module Store {
  import opened Basics
  import opened Core
  import opened Ordering
  import opened References
  import opened Digest
  import opened Requests
  import opened Dictionary

  datatype ObjectKey = ObjectKey(namespace: string, name: string, objectId: string)

  datatype ObjectMetadata = ObjectMetadata(
    reference: ObjectReference,
    digest: string,
    byteLength: nat,
    mediaType: string,
    createdAt: string,
    creationContext: Fields,
    userMetadata: Fields,
    mutability: string,
    provenance: Fields)

  datatype Stored = Stored(data: seq<byte>, metadata: ObjectMetadata)

  type Objects = Dict<ObjectKey, Stored>

  const CREATED_AT := "2026-08-25T00:00:00.000000Z"

  function KeyOf(resource: ResourceRef, objectId: string): ObjectKey {
    ObjectKey(resource.namespace, resource.name, objectId)
  }

  /** The metadata a put commits for the content it received. */
  function MetadataFor(request: Request, resource: ResourceRef, identity: ContentIdentity): ObjectMetadata
    requires request.Put?
  {
    ObjectMetadata(
      PutReference(resource, request.objectId, Some(identity.digest)), identity.digest, identity.byteLength,
      request.mediaType, CREATED_AT, request.creationContext, request.metadata,
      if request.immutability.Some? then request.immutability.value.mutability else "mutable",
      request.provenance)
  }

  function StoredFor(h: Hash, request: Request, resource: ResourceRef, data: seq<byte>): Stored
    requires request.Put?
  {
    Stored(data, MetadataFor(request, resource, IdentityOf(h, data)))
  }

  // ---- The invariant ----

  /** An entry's metadata describes its bytes and its key. */
  ghost predicate Coherent(h: Hash, key: ObjectKey, stored: Stored) {
    && stored.metadata.digest == DigestOf(h, stored.data)
    && stored.metadata.byteLength == |stored.data|
    && stored.metadata.reference ==
         ObjectReference(ResourceRef(OBJECT_CATALOG, key.namespace, key.name), key.objectId,
                         Some(DigestOf(h, stored.data)))
    && stored.metadata.createdAt == CREATED_AT
  }

  ghost predicate Valid(h: Hash, objects: Objects) {
    Unique(objects) && forall key :: key in ToMap(objects) ==> Coherent(h, key, ToMap(objects)[key])
  }

  // ---- The plain map ----

  /** What the caller of a put says about an object. */
  datatype Description = Description(
    mediaType: string,
    userMetadata: Fields,
    creationContext: Fields,
    provenance: Fields,
    mutability: string)

  datatype Entry = Entry(content: seq<byte>, description: Description)

  type PlainMap = map<ObjectKey, Entry>

  /** The metadata of an entry: identity and length of its content, its own reference, and all that its caller
      said about it. */
  ghost predicate IsMetadataOf(h: Hash, key: ObjectKey, entry: Entry, metadata: ObjectMetadata) {
    && metadata.reference == ObjectReference(ResourceRef("object", key.namespace, key.name), key.objectId,
                                             Some(DigestOf(h, entry.content)))
    && metadata.digest == DigestOf(h, entry.content) && metadata.byteLength == |entry.content|
    && metadata.createdAt == "2026-08-25T00:00:00.000000Z"
    && metadata.mediaType == entry.description.mediaType
    && metadata.userMetadata == entry.description.userMetadata
    && metadata.creationContext == entry.description.creationContext
    && metadata.provenance == entry.description.provenance
    && metadata.mutability == entry.description.mutability
  }

  /** What a put's request says about its object; without an intent it is mutable. */
  ghost function Described(request: Request): Description
    requires request.Put?
  {
    Description(request.mediaType, request.metadata, request.creationContext, request.provenance,
                match request.immutability case Some(i) => i.mutability case None => "mutable")
  }

  ghost function EntryOf(stored: Stored): Entry {
    var m := stored.metadata;
    Entry(stored.data, Description(m.mediaType, m.userMetadata, m.creationContext, m.provenance, m.mutability))
  }

  /** The plain map the store stands for. */
  ghost function Contents(objects: Objects): PlainMap {
    map key | key in ToMap(objects) :: EntryOf(ToMap(objects)[key])
  }

  // ---- Commands ----

  /** `received` is what the upload delivered, or nothing when the transfer failed. */
  datatype Command =
    | Reset
    | Upload(request: Request, resource: ResourceRef, received: Option<seq<byte>>)
    | Remove(resource: ResourceRef, reference: ObjectReference)

  ghost predicate IsCommand(c: Command) {
    c.Upload? ==> c.request.Put?
  }

  /** `_lookup`: the object under the reference's id, if its digest is the one asked for. */
  function Locate(objects: Objects, resource: ResourceRef, reference: ObjectReference): Option<Stored> {
    var stored := Get(objects, KeyOf(resource, reference.objectId));
    if stored.None? || (reference.digest.Some? && reference.digest.value != stored.value.metadata.digest) then None
    else stored
  }

  function Execute(h: Hash, objects: Objects, c: Command): Objects
    requires IsCommand(c)
  {
    match c
    case Reset => []
    case Upload(request, resource, received) =>
      var key := KeyOf(resource, request.objectId);
      if (request.createOnly && Get(objects, key).Some?) || received.None? then objects
      else Dictionary.Put(objects, key, StoredFor(h, request, resource, received.value))
    case Remove(resource, reference) =>
      var stored := Locate(objects, resource, reference);
      if stored.None? then objects else Del(objects, KeyOf(resource, stored.value.metadata.reference.objectId))
  }

  /** The same command on the plain map. */
  ghost function Model(h: Hash, m: PlainMap, c: Command): PlainMap
    requires IsCommand(c)
  {
    match c
    case Reset => map[]
    case Upload(request, resource, received) =>
      var key := KeyOf(resource, request.objectId);
      if received.None? || (request.createOnly && key in m) then m
      else m[key := Entry(received.value, Described(request))]
    case Remove(resource, reference) =>
      var key := KeyOf(resource, reference.objectId);
      if Names(h, m, resource, reference) then m - {key} else m
  }

  /** The map holds the object the reference names: its id, and its digest when the reference has one. */
  ghost predicate Names(h: Hash, m: PlainMap, resource: ResourceRef, reference: ObjectReference) {
    var key := KeyOf(resource, reference.objectId);
    key in m && (reference.digest.Some? ==> reference.digest.value == DigestOf(h, m[key].content))
  }

  // ---- Refinement ----

  /** Looking up finds exactly what the plain map holds, with metadata that describes it. */
  lemma LocateRefines(h: Hash, objects: Objects, resource: ResourceRef, reference: ObjectReference)
    requires Valid(h, objects)
    ensures Locate(objects, resource, reference).Some? <==> Names(h, Contents(objects), resource, reference)
    ensures Locate(objects, resource, reference).Some? ==>
              var key, stored := KeyOf(resource, reference.objectId), Locate(objects, resource, reference).value;
              && stored.data == Contents(objects)[key].content
              && IsMetadataOf(h, key, Contents(objects)[key], stored.metadata)
    ensures Locate(objects, resource, reference).Some? <==>
              && KeyOf(resource, reference.objectId) in Contents(objects)
              && (reference.digest.Some? ==>
                    reference.digest.value ==
                      DigestOf(h, Contents(objects)[KeyOf(resource, reference.objectId)].content))
  {
    GetIsMap(objects, KeyOf(resource, reference.objectId));
  }

  lemma ExecuteKeepsValid(h: Hash, objects: Objects, c: Command)
    requires Valid(h, objects) && IsCommand(c)
    ensures Valid(h, Execute(h, objects, c))
  {
    match c
    case Reset =>
    case Upload(request, resource, received) =>
      if received.Some? {
        PutIsMap(objects, KeyOf(resource, request.objectId), StoredFor(h, request, resource, received.value));
      }
    case Remove(resource, reference) =>
      LocateRefines(h, objects, resource, reference);
      DelIsMap(objects, KeyOf(resource, reference.objectId));
  }

  lemma ContentsAfterPut(objects: Objects, key: ObjectKey, stored: Stored)
    requires Unique(objects)
    ensures Contents(Dictionary.Put(objects, key, stored)) == Contents(objects)[key := EntryOf(stored)]
  {
    PutIsMap(objects, key, stored);
  }

  lemma ContentsAfterDel(objects: Objects, key: ObjectKey)
    requires Unique(objects)
    ensures Contents(Del(objects, key)) == Contents(objects) - {key}
  {
    DelIsMap(objects, key);
  }

  /** Each command does to the store what it does to the plain map. */
  lemma ExecuteRefines(h: Hash, objects: Objects, c: Command)
    requires Valid(h, objects) && IsCommand(c)
    ensures Contents(Execute(h, objects, c)) == Model(h, Contents(objects), c)
  {
    match c
    case Reset =>
    case Upload(request, resource, received) =>
      GetIsMap(objects, KeyOf(resource, request.objectId));
      if received.Some? {
        ContentsAfterPut(objects, KeyOf(resource, request.objectId), StoredFor(h, request, resource, received.value));
      }
    case Remove(resource, reference) =>
      LocateRefines(h, objects, resource, reference);
      ContentsAfterDel(objects, KeyOf(resource, reference.objectId));
  }

  function Run(h: Hash, commands: seq<Command>): Objects
    requires forall i :: 0 <= i < |commands| ==> IsCommand(commands[i])
  {
    if commands == [] then [] else Execute(h, Run(h, commands[..|commands| - 1]), commands[|commands| - 1])
  }

  ghost function ModelRun(h: Hash, commands: seq<Command>): PlainMap
    requires forall i :: 0 <= i < |commands| ==> IsCommand(commands[i])
  {
    if commands == [] then map[] else Model(h, ModelRun(h, commands[..|commands| - 1]), commands[|commands| - 1])
  }

  /** Over every run of commands the store is valid and refines the plain map. */
  lemma {:induction false} RunRefines(h: Hash, commands: seq<Command>)
    requires forall i :: 0 <= i < |commands| ==> IsCommand(commands[i])
    ensures Valid(h, Run(h, commands)) && Contents(Run(h, commands)) == ModelRun(h, commands)
  {
    if commands != [] {
      var before := commands[..|commands| - 1];
      RunRefines(h, before);
      ExecuteKeepsValid(h, Run(h, before), commands[|commands| - 1]);
      ExecuteRefines(h, Run(h, before), commands[|commands| - 1]);
    }
  }

  /** Removing by a pinned reference removes the one object with that id and digest, or nothing. */
  lemma PinnedRemovalIsExact(h: Hash, objects: Objects, resource: ResourceRef, version: ObjectReference)
    requires Valid(h, objects) && IsPinned(version)
    ensures var m, r := Contents(objects), Contents(Execute(h, objects, Remove(resource, version)));
            var key := KeyOf(resource, version.objectId);
            && (forall k :: k != key ==> (k in r <==> k in m))
            && (forall k :: k in r ==> k in m && r[k] == m[k])
            && (key !in r <==> key !in m || DigestOf(h, m[key].content) == version.digest.value)
  {
    ExecuteRefines(h, objects, Remove(resource, version));
  }

  // ---- Listing ----

  predicate KeyLess(a: ObjectKey, b: ObjectKey) {
    || StringLess(a.namespace, b.namespace)
    || (a.namespace == b.namespace
        && (StringLess(a.name, b.name) || (a.name == b.name && StringLess(a.objectId, b.objectId))))
  }

  predicate EntryLess(a: (ObjectKey, Stored), b: (ObjectKey, Stored)) {
    KeyLess(a.0, b.0)
  }

  lemma KeyOrder()
    ensures StrictOrder(EntryLess)
  {
    StringOrder();
    assert forall x: string :: !StringLess(x, x);
  }

  lemma KeysCompare(objects: Objects)
    requires Unique(objects)
    ensures Comparable(EntryLess, objects)
  {
    forall i, j | 0 <= i < j < |objects|
      ensures EntryLess(objects[i], objects[j]) || EntryLess(objects[j], objects[i])
    {
      var a, b := objects[i].0, objects[j].0;
      if a.namespace != b.namespace { StringLessTotal(a.namespace, b.namespace); }
      else if a.name != b.name { StringLessTotal(a.name, b.name); }
      else { StringLessTotal(a.objectId, b.objectId); }
    }
  }

  predicate Matches(key: ObjectKey, resource: ResourceRef, prefix: string) {
    key.namespace == resource.namespace && key.name == resource.name && prefix <= key.objectId
  }

  function Filter(entries: seq<(ObjectKey, Stored)>, resource: ResourceRef, prefix: string): seq<(ObjectKey, Stored)> {
    if entries == [] then []
    else
      (if Matches(entries[0].0, resource, prefix) then [entries[0]] else []) + Filter(entries[1..], resource, prefix)
  }

  /** The matching entries in key order. */
  function Listing(objects: Objects, resource: ResourceRef, prefix: string): seq<(ObjectKey, Stored)> {
    Filter(SortBy(EntryLess, objects), resource, prefix)
  }

  function MetadataOf(entry: (ObjectKey, Stored)): ObjectMetadata { entry.1.metadata }
  function IdOf(entry: (ObjectKey, Stored)): string { entry.0.objectId }

  /** `_list`: the first `limit` matches. */
  function ListItems(objects: Objects, resource: ResourceRef, prefix: string, limit: nat): seq<ObjectMetadata> {
    var matches := Map(MetadataOf, Listing(objects, resource, prefix));
    if limit < |matches| then matches[..limit] else matches
  }

  lemma {:induction false} FilterMembers(entries: seq<(ObjectKey, Stored)>, resource: ResourceRef, prefix: string,
                                         e: (ObjectKey, Stored))
    ensures e in Filter(entries, resource, prefix) <==> e in entries && Matches(e.0, resource, prefix)
  {
    if entries != [] {
      FilterMembers(entries[1..], resource, prefix, e);
      assert entries == [entries[0]] + entries[1..];
    }
  }

  lemma {:induction false} FilterAscends(entries: seq<(ObjectKey, Stored)>, resource: ResourceRef, prefix: string)
    requires Ascending(EntryLess, entries)
    ensures Ascending(EntryLess, Filter(entries, resource, prefix))
  {
    if entries != [] {
      FilterAscends(entries[1..], resource, prefix);
      var rest := Filter(entries[1..], resource, prefix);
      forall i | 0 <= i < |rest| ensures EntryLess(entries[0], rest[i]) {
        FilterMembers(entries[1..], resource, prefix, rest[i]);
        var j :| 0 <= j < |entries[1..]| && entries[1..][j] == rest[i];
        assert entries[j + 1] == rest[i];
      }
    }
  }

  /** `ids` are all the ids the plain map has under the resource and prefix, strictly ascending, and
      `items` describe the first `limit` of them. */
  ghost predicate IsPage(h: Hash, m: PlainMap, resource: ResourceRef, prefix: string, limit: nat,
                         ids: seq<string>, items: seq<ObjectMetadata>)
  {
    && Ascending(StringLess, ids)
    && (forall id :: id in ids <==> prefix <= id && KeyOf(resource, id) in m)
    && |items| == (if limit < |ids| then limit else |ids|)
    && forall i :: 0 <= i < |items| ==>
         && items[i].reference.objectId == ids[i]
         && KeyOf(resource, ids[i]) in m
         && IsMetadataOf(h, KeyOf(resource, ids[i]), m[KeyOf(resource, ids[i])], items[i])
  }

  /** A listing is exactly the page the plain map has. */
  lemma ListRefines(h: Hash, objects: Objects, resource: ResourceRef, prefix: string, limit: nat)
    requires Valid(h, objects)
    ensures IsPage(h, Contents(objects), resource, prefix, limit, Map(IdOf, Listing(objects, resource, prefix)),
                   ListItems(objects, resource, prefix, limit))
  {
    var sorted := SortBy(EntryLess, objects);
    var listing := Listing(objects, resource, prefix);
    KeyOrder();
    KeysCompare(objects);
    SortAscends(EntryLess, objects);
    FilterAscends(sorted, resource, prefix);
    forall i | 0 <= i < |listing|
      ensures Matches(listing[i].0, resource, prefix) && listing[i].0 == KeyOf(resource, IdOf(listing[i]))
      ensures listing[i].0 in ToMap(objects) && ToMap(objects)[listing[i].0] == listing[i].1
    {
      ListedIsStored(objects, resource, prefix, i);
    }
    var ids := Map(IdOf, listing);
    forall id ensures id in ids <==> prefix <= id && KeyOf(resource, id) in Contents(objects) {
      if prefix <= id && KeyOf(resource, id) in ToMap(objects) {
        StoredIsListed(objects, resource, prefix, id);
      }
    }
    assert Ascending(StringLess, ids) by {
      StringOrder();
      forall i, j | 0 <= i < j < |ids| ensures StringLess(ids[i], ids[j]) {
        assert EntryLess(listing[i], listing[j]);
        StringLessIrreflexive(resource.namespace);
        StringLessIrreflexive(resource.name);
      }
    }
  }

  lemma ListedIsStored(objects: Objects, resource: ResourceRef, prefix: string, i: nat)
    requires Unique(objects) && i < |Listing(objects, resource, prefix)|
    ensures var e := Listing(objects, resource, prefix)[i];
            Matches(e.0, resource, prefix) && e.0 in ToMap(objects) && ToMap(objects)[e.0] == e.1
  {
    var sorted := SortBy(EntryLess, objects);
    var e := Listing(objects, resource, prefix)[i];
    FilterMembers(sorted, resource, prefix, e);
    MemberFollowsMultiset(sorted, objects, e);
    var j :| 0 <= j < |objects| && objects[j] == e;
    MapAt(objects, j);
  }

  lemma StoredIsListed(objects: Objects, resource: ResourceRef, prefix: string, id: string)
    requires Unique(objects) && prefix <= id && KeyOf(resource, id) in ToMap(objects)
    ensures id in Map(IdOf, Listing(objects, resource, prefix))
  {
    var sorted := SortBy(EntryLess, objects);
    var listing := Listing(objects, resource, prefix);
    MapMembers(objects, KeyOf(resource, id));
    var i :| 0 <= i < |objects| && objects[i].0 == KeyOf(resource, id);
    MemberFollowsMultiset(objects, sorted, objects[i]);
    FilterMembers(sorted, resource, prefix, objects[i]);
    var j :| 0 <= j < |listing| && listing[j] == objects[i];
    assert Map(IdOf, listing)[j] == id;
  }
}
