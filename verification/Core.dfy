/** JSON values, dictionaries, and the released Core and Semantics values the Object contracts use. */
module Core {
  import opened Basics
  import Dictionary

  /** A dictionary key. `Opaque` stands for a key that is not a string. */
  datatype Key = Name(text: string) | Opaque(code: int)

  /** A JSON value; a dictionary is the sequence of its entries in insertion order. */
  datatype Json =
    | Null
    | Bool(b: bool)
    | Int(n: int)
    | Real(x: real)
    | Str(s: string)
    | Arr(items: seq<Json>)
    | Obj(fields: seq<(Key, Json)>)

  type Fields = Dictionary.Dict<Key, Json>

  datatype ResourceRef = ResourceRef(catalog: string, namespace: string, name: string)

  datatype ObjectReference = ObjectReference(resource: ResourceRef, objectId: string, digest: Option<string>)

  /** What this library takes from elsewhere: Unicode case folding, the `resource` argument parser, the
      checks of resource and schema names, the profile parser with its canonical form, timestamp parsing,
      and canonical JSON bytes. Nothing is assumed about any of them. */
  datatype Platform = Platform(
    foldNonAscii: char -> string,
    parseResource: Json -> Option<ResourceRef>,
    namesResource: (Json, Json) -> bool,
    namesSchema: (Json, Json, Json) -> bool,
    profile: Fields -> Option<Fields>,
    instant: string -> Option<int>,
    canonicalBytes: Json -> seq<byte>)

  ghost predicate DistinctKeys(fields: Fields) {
    Dictionary.Unique(fields)
  }

  /** Every dictionary in the tree has distinct keys, as every Python dictionary does. */
  ghost predicate WellFormed(v: Json) {
    match v
    case Arr(items) => forall i :: 0 <= i < |items| ==> WellFormed(items[i])
    case Obj(fields) => DistinctKeys(fields) && forall i :: 0 <= i < |fields| ==> WellFormed(fields[i].1)
    case _ => true
  }

  function Keys(fields: Fields): set<Key> {
    Dictionary.Keys(fields)
  }

  /** `dict.get`. */
  function Find(fields: Fields, name: string): (r: Option<Json>)
    ensures r.Some? ==> exists i :: 0 <= i < |fields| && fields[i] == (Name(name), r.value)
    ensures r.None? ==> forall i :: 0 <= i < |fields| ==> fields[i].0 != Name(name)
  {
    Dictionary.Get(fields, Name(name))
  }

  lemma FindAt(fields: Fields, i: nat)
    requires DistinctKeys(fields) && i < |fields| && fields[i].0.Name?
    ensures Find(fields, fields[i].0.text) == Some(fields[i].1)
  {
    Dictionary.GetAt(fields, i);
  }

  /** `dict.get`, with a missing entry read as null. */
  function FindOrNull(fields: Fields, name: string): Json {
    var v := Find(fields, name);
    if v.Some? then v.value else Null
  }

  /** `dict[name] = value`: an existing key keeps its place, a new one goes last. */
  function Assign(fields: Fields, name: string, value: Json): (r: Fields)
    ensures Name(name) in Keys(fields) ==> |r| == |fields|
    ensures Name(name) in Keys(fields) && DistinctKeys(fields) ==>
              forall i :: 0 <= i < |fields| ==>
                r[i] == if fields[i].0 == Name(name) then (Name(name), value) else fields[i]
    ensures Name(name) !in Keys(fields) ==> r == fields + [(Name(name), value)]
  {
    Dictionary.Put(fields, Name(name), value)
  }
}
