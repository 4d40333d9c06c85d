/** The validation helpers shared by every Object contract. */
module Validation {
  import opened Basics
  import opened Core
  import opened Ordering

  // ---- Bounded strings and grammars ----

  function Utf8Size(c: char): nat {
    var code := c as int;
    if code < 0x80 then 1 else if code < 0x800 then 2 else if code < 0x10000 then 3 else 4
  }

  function Utf8Length(s: string): (n: nat)
    ensures |s| <= n <= 4 * |s|
  {
    if s == "" then 0 else Utf8Size(s[0]) + Utf8Length(s[1..])
  }

  predicate IsControl(c: char) {
    c as int < 32 || c as int == 127
  }

  predicate Printable(s: string) {
    forall i :: 0 <= i < |s| ==> !IsControl(s[i])
  }

  predicate Bounded(s: string, maximum: nat) {
    s != "" && Utf8Length(s) <= maximum && Printable(s)
  }

  predicate IsBoundedString(v: Json, maximum: nat) {
    v.Str? && Bounded(v.s, maximum)
  }

  predicate IsAlphanumeric(c: char) {
    'A' <= c <= 'Z' || 'a' <= c <= 'z' || '0' <= c <= '9'
  }

  predicate IsTokenChar(c: char) {
    IsAlphanumeric(c) || c == '.' || c == '_' || c == '~' || c == '-'
  }

  /** An opaque token: alphanumeric at both ends, so never a URL or a path. */
  predicate IsToken(s: string) {
    && Bounded(s, 512)
    && IsAlphanumeric(s[0]) && IsAlphanumeric(s[|s| - 1])
    && forall i :: 0 <= i < |s| ==> IsTokenChar(s[i])
  }

  predicate IsLowerHex(s: string) {
    forall i :: 0 <= i < |s| ==> '0' <= s[i] <= '9' || 'a' <= s[i] <= 'f'
  }

  const DIGEST_PREFIX := "sha256:"

  predicate IsDigest(s: string) {
    |s| == 71 && s[..7] == DIGEST_PREFIX && IsLowerHex(s[7..])
  }

  /** Python's `\s` for text patterns. */
  predicate IsSpace(c: char) {
    var code := c as int;
    || 9 <= code <= 13 || 28 <= code <= 32 || code == 0x85 || code == 0xA0 || code == 0x1680
    || 0x2000 <= code <= 0x200A || code == 0x2028 || code == 0x2029 || code == 0x202F
    || code == 0x205F || code == 0x3000
  }

  predicate IsMediaSegment(s: string) {
    s != "" && forall i :: 0 <= i < |s| ==> s[i] != '/' && !IsSpace(s[i])
  }

  predicate IsMediaType(v: Json) {
    && IsBoundedString(v, 255)
    && exists cut :: 0 <= cut < |v.s| && v.s[cut] == '/' && IsMediaSegment(v.s[..cut]) && IsMediaSegment(v.s[cut + 1..])
  }

  lemma AsciiLength(s: string)
    requires forall i :: 0 <= i < |s| ==> s[i] as int < 0x80
    ensures Utf8Length(s) == |s|
  {
  }

  /** Over token characters the byte bound is the length bound of the token pattern. */
  lemma TokenGrammar(s: string)
    ensures forall c :: IsAlphanumeric(c) <==> 'A' <= c <= 'Z' || 'a' <= c <= 'z' || '0' <= c <= '9'
    ensures forall c :: IsTokenChar(c) <==> IsAlphanumeric(c) || c in {'.', '_', '~', '-'}
    ensures IsToken(s) <==>
              && 1 <= |s| <= 512
              && IsAlphanumeric(s[0]) && IsAlphanumeric(s[|s| - 1])
              && forall i :: 0 <= i < |s| ==> IsTokenChar(s[i])
  {
    if forall i :: 0 <= i < |s| ==> IsTokenChar(s[i]) {
      AsciiLength(s);
    }
  }

  /** `sha256:` and 64 lower-case hexadecimal digits. */
  lemma DigestGrammar(s: string)
    ensures IsDigest(s) <==>
              && |s| == 71 && s[..7] == "sha256:"
              && forall i :: 7 <= i < 71 ==> '0' <= s[i] <= '9' || 'a' <= s[i] <= 'f'
  {
    if |s| == 71 {
      assert forall i :: 0 <= i < 64 ==> s[7..][i] == s[i + 7];
      if IsLowerHex(s[7..]) {
        forall i | 7 <= i < 71 ensures '0' <= s[i] <= '9' || 'a' <= s[i] <= 'f' {
          assert s[i] == s[7..][i - 7];
        }
      }
    }
  }

  /** Bounded, with one slash between two non-empty parts and no white space. */
  lemma MediaTypeExactly(v: Json)
    ensures IsMediaType(v) <==>
              && v.Str? && Bounded(v.s, 255)
              && exists cut :: 0 < cut < |v.s| - 1 && v.s[cut] == '/'
                            && forall i :: 0 <= i < |v.s| && i != cut ==> v.s[i] != '/' && !IsSpace(v.s[i])
  {
    if v.Str? && Bounded(v.s, 255) {
      forall cut | 0 <= cut < |v.s| && v.s[cut] == '/'
        ensures IsMediaSegment(v.s[..cut]) && IsMediaSegment(v.s[cut + 1..]) <==>
                  && 0 < cut < |v.s| - 1
                  && forall i :: 0 <= i < |v.s| && i != cut ==> v.s[i] != '/' && !IsSpace(v.s[i])
      {
        SegmentsExactly(v.s, cut);
      }
    }
  }

  lemma SegmentsExactly(s: string, cut: nat)
    requires cut < |s|
    ensures IsMediaSegment(s[..cut]) && IsMediaSegment(s[cut + 1..]) <==>
              && 0 < cut < |s| - 1
              && forall i :: 0 <= i < |s| && i != cut ==> s[i] != '/' && !IsSpace(s[i])
  {
    var before, after := s[..cut], s[cut + 1..];
    if IsMediaSegment(before) && IsMediaSegment(after) {
      forall i | 0 <= i < |s| && i != cut ensures s[i] != '/' && !IsSpace(s[i]) {
        if i < cut { assert before[i] == s[i]; } else { assert after[i - cut - 1] == s[i]; }
      }
    }
  }

  /** Non-empty, within the byte bound, and without a character below 32 or the character 127. */
  lemma BoundedExactly(s: string, maximum: nat)
    ensures Bounded(s, maximum) <==>
              && s != "" && Utf8Length(s) <= maximum
              && forall i :: 0 <= i < |s| ==> s[i] as int >= 32 && s[i] as int != 127
  {
  }

  /** Characters take one byte below 128, two below 2048, three below 65536, and four above. */
  lemma {:induction false} Utf8LengthExactly(s: string, c: char)
    ensures Utf8Length(s + [c]) ==
              Utf8Length(s) +
                if c as int < 0x80 then 1
                else if c as int < 0x800 then 2
                else if c as int < 0x10000 then 3
                else 4
  {
    if s == "" {
      assert s + [c] == [c] && [c][1..] == "";
    } else {
      Utf8LengthExactly(s[1..], c);
      assert (s + [c])[0] == s[0] && (s + [c])[1..] == s[1..] + [c];
    }
  }

  // ---- Dictionaries ----

  /** `exact_fields`: no required field missing, no other field present. */
  predicate ExactFields(fields: Fields, required: set<string>, optional: set<string>) {
    && (forall name :: name in required ==> Name(name) in Keys(fields))
    && (forall key :: key in Keys(fields) ==> key.Name? && key.text in required + optional)
  }

  predicate EntryLess(a: (Key, Json), b: (Key, Json)) {
    StringLess(KeyText(a.0), KeyText(b.0))
  }

  function KeyText(k: Key): string {
    match k
    case Name(text) => text
    case Opaque(_) => ""
  }

  lemma EntryOrder()
    ensures StrictOrder(EntryLess)
  {
    StringOrder();
  }

  lemma NamedEntriesCompare(fields: Fields)
    requires DistinctKeys(fields) && forall i :: 0 <= i < |fields| ==> fields[i].0.Name?
    ensures Comparable(EntryLess, fields)
  {
    forall i, j | 0 <= i < j < |fields|
      ensures EntryLess(fields[i], fields[j]) || EntryLess(fields[j], fields[i])
    {
      assert fields[i].0 != fields[j].0;
      StringLessTotal(fields[i].0.text, fields[j].0.text);
    }
  }

  predicate IsStringEntry(entry: (Key, Json), maximumKey: nat, maximumValue: nat) {
    entry.0.Name? && Bounded(entry.0.text, maximumKey) && IsBoundedString(entry.1, maximumValue)
  }

  predicate IsStringMapping(v: Json, maximumEntries: nat, maximumKey: nat, maximumValue: nat) {
    && v.Obj? && |v.fields| <= maximumEntries
    && forall i :: 0 <= i < |v.fields| ==> IsStringEntry(v.fields[i], maximumKey, maximumValue)
  }

  /** The entries in key order. */
  function SortedEntries(fields: Fields): (r: Fields)
    ensures Permuted(r, fields)
  {
    SortBy(EntryLess, fields)
  }

  lemma SortedEntriesAscend(fields: Fields)
    requires DistinctKeys(fields) && forall i :: 0 <= i < |fields| ==> fields[i].0.Name?
    ensures Ascending(EntryLess, SortedEntries(fields))
    ensures SortedEntries(SortedEntries(fields)) == SortedEntries(fields)
  {
    EntryOrder();
    NamedEntriesCompare(fields);
    SortAscends(EntryLess, fields);
    SortKeepsAscending(EntryLess, SortedEntries(fields));
  }

  /** `string_mapping`: fills a result dictionary entry by entry, then sorts it. */
  method StringMapping(value: Json, maximumEntries: nat, maximumKey: nat, maximumValue: nat) returns (r: Option<Fields>)
    requires value.Obj? ==> DistinctKeys(value.fields)
    ensures r.Some? <==> IsStringMapping(value, maximumEntries, maximumKey, maximumValue)
    ensures r.Some? ==> Permuted(r.value, value.fields) && Ascending(EntryLess, r.value)
    ensures r.Some? ==> r.value == SortedEntries(value.fields)
  {
    if !value.Obj? || |value.fields| > maximumEntries {
      return None;
    }
    var result: Fields := [];
    var i := 0;
    while i < |value.fields|
      invariant 0 <= i <= |value.fields|
      invariant result == value.fields[..i]
      invariant forall j :: 0 <= j < i ==> IsStringEntry(value.fields[j], maximumKey, maximumValue)
    {
      var entry := value.fields[i];
      if !IsStringEntry(entry, maximumKey, maximumValue) {
        return None;
      }
      assert entry.0 !in Keys(result);
      result := Assign(result, entry.0.text, entry.1);
      i := i + 1;
    }
    assert result == value.fields;
    SortedEntriesAscend(result);
    r := Some(SortedEntries(result));
  }

  lemma PermutedEntriesStayStrings(a: Fields, b: Fields, maximumKey: nat, maximumValue: nat)
    requires Permuted(a, b)
    requires forall i :: 0 <= i < |a| ==> IsStringEntry(a[i], maximumKey, maximumValue)
    ensures |a| == |b| && forall i :: 0 <= i < |b| ==> IsStringEntry(b[i], maximumKey, maximumValue)
  {
    assert |multiset(a)| == |multiset(b)|;
    forall i | 0 <= i < |b| ensures IsStringEntry(b[i], maximumKey, maximumValue) {
      MemberFollowsMultiset(b, a, b[i]);
    }
  }

  lemma NamedEntriesForgetOrder(a: Fields, b: Fields)
    requires DistinctKeys(a) && DistinctKeys(b) && Permuted(a, b)
    requires forall i :: 0 <= i < |a| ==> a[i].0.Name?
    ensures SortedEntries(a) == SortedEntries(b)
  {
    EntryOrder();
    MembersFollowMultiset(a, b);
    NamedEntriesCompare(a);
    forall i | 0 <= i < |b| ensures b[i].0.Name? {
      assert b[i] in b && b[i] in a;
    }
    NamedEntriesCompare(b);
    SortForgetsOrder(EntryLess, a, b);
  }

  /** Listing the same entries in another order changes neither acceptance nor the normalized mapping. */
  lemma StringMappingForgetsOrder(a: Fields, b: Fields, maximumEntries: nat, maximumKey: nat, maximumValue: nat)
    requires DistinctKeys(a) && DistinctKeys(b) && Permuted(a, b)
    ensures IsStringMapping(Obj(a), maximumEntries, maximumKey, maximumValue)
            <==> IsStringMapping(Obj(b), maximumEntries, maximumKey, maximumValue)
    ensures IsStringMapping(Obj(a), maximumEntries, maximumKey, maximumValue) ==> SortedEntries(a) == SortedEntries(b)
  {
    if IsStringMapping(Obj(a), maximumEntries, maximumKey, maximumValue) {
      PermutedEntriesStayStrings(a, b, maximumKey, maximumValue);
      NamedEntriesForgetOrder(a, b);
    }
    if IsStringMapping(Obj(b), maximumEntries, maximumKey, maximumValue) {
      PermutedEntriesStayStrings(b, a, maximumKey, maximumValue);
    }
  }

  // ---- String sequences ----

  /** `string_sequence` on an array: sorted, and rejected when two entries coincide. */
  function StringSequence(items: seq<Json>): Option<seq<string>> {
    if forall i :: 0 <= i < |items| ==> IsBoundedString(items[i], 128) then
      var result := SortBy(StringLess, Texts(items));
      if |Members(result)| != |result| then None else Some(result)
    else None
  }

  function Texts(items: seq<Json>): (r: seq<string>)
    requires forall i :: 0 <= i < |items| ==> items[i].Str?
    ensures |r| == |items| && forall i :: 0 <= i < |items| ==> r[i] == items[i].s
  {
    seq(|items|, i requires 0 <= i < |items| => items[i].s)
  }

  function Members<T(==)>(s: seq<T>): set<T> {
    set x | x in s
  }

  lemma {:induction false} MembersCount<T>(s: seq<T>)
    ensures |Members(s)| <= |s|
    ensures |Members(s)| == |s| <==> Distinct(s)
  {
    if s == [] {
      assert Members(s) == {};
    } else {
      var n := |s| - 1;
      MembersCount(s[..n]);
      assert s == s[..n] + [s[n]];
      assert Members(s) == Members(s[..n]) + {s[n]};
      if s[n] in s[..n] {
        assert Members(s) == Members(s[..n]);
        var i :| 0 <= i < n && s[..n][i] == s[n];
        assert s[i] == s[n];
      } else {
        forall i | 0 <= i < n ensures s[i] != s[n] { assert s[i] in s[..n]; }
        if Distinct(s) { assert Distinct(s[..n]); }
        if Distinct(s[..n]) {
          forall i, j | 0 <= i < j < |s| ensures s[i] != s[j] {
            assert j < n ==> s[i] == s[..n][i] && s[j] == s[..n][j];
          }
        }
      }
    }
  }

  lemma DistinctFollowsMultiset<T>(a: seq<T>, b: seq<T>)
    requires Permuted(a, b) && Distinct(a)
    ensures Distinct(b)
  {
    MembersFollowMultiset(a, b);
    assert Members(a) == Members(b);
    MembersCount(a);
    MembersCount(b);
  }

  /** `string_sequence` fails on exactly the malformed or repeating inputs, and otherwise returns the
      one strictly sorted arrangement of its entries. */
  lemma StringSequenceIsSortedUnique(items: seq<Json>)
    ensures StringSequence(items).Some? <==>
              && (forall i :: 0 <= i < |items| ==> IsBoundedString(items[i], 128))
              && (forall i, j :: 0 <= i < j < |items| ==> items[i] != items[j])
    ensures StringSequence(items).Some? ==>
              var r := StringSequence(items).value;
              Permuted(r, Texts(items)) && Ascending(StringLess, r) && Distinct(r)
  {
    if forall i :: 0 <= i < |items| ==> IsBoundedString(items[i], 128) {
      var texts := Texts(items);
      var r := SortBy(StringLess, texts);
      MembersCount(r);
      assert Distinct(texts) <==> forall i, j :: 0 <= i < j < |items| ==> items[i] != items[j];
      if Distinct(texts) {
        DistinctFollowsMultiset(texts, r);
        StringOrder();
        DistinctStringsCompare(texts);
        SortAscends(StringLess, texts);
      }
      if Distinct(r) {
        DistinctFollowsMultiset(r, texts);
      }
    }
  }

  function Strings(texts: seq<string>): (r: seq<Json>)
    ensures |r| == |texts| && forall i :: 0 <= i < |r| ==> r[i] == Str(texts[i])
  {
    seq(|texts|, i requires 0 <= i < |texts| => Str(texts[i]))
  }

  /** The result is a fixed point of `string_sequence`. */
  lemma StringSequenceIsIdempotent(items: seq<Json>)
    requires StringSequence(items).Some?
    ensures StringSequence(Strings(StringSequence(items).value)) == StringSequence(items)
  {
    StringSequenceIsSortedUnique(items);
    var r := StringSequence(items).value;
    var texts := Texts(items);
    MembersFollowMultiset(r, texts);
    forall i | 0 <= i < |r| ensures IsBoundedString(Strings(r)[i], 128) {
      assert r[i] in r && r[i] in texts;
    }
    assert Texts(Strings(r)) == r;
    StringOrder();
    SortKeepsAscending(StringLess, r);
    MembersCount(r);
  }

  ghost predicate AllBounded(texts: seq<string>) {
    forall i :: 0 <= i < |texts| ==> IsBoundedString(Str(texts[i]), 128)
  }

  lemma StringsSelected(texts: seq<string>)
    ensures StringSequence(Strings(texts)).Some? <==> AllBounded(texts) && Distinct(texts)
    ensures StringSequence(Strings(texts)).Some? ==>
              var r := StringSequence(Strings(texts)).value; Permuted(r, texts) && Ascending(StringLess, r)
  {
    var items := Strings(texts);
    StringSequenceIsSortedUnique(items);
    assert AllBounded(texts) <==> forall i :: 0 <= i < |items| ==> IsBoundedString(items[i], 128);
    assert Distinct(texts) <==> forall i, j :: 0 <= i < j < |items| ==> items[i] != items[j];
    if StringSequence(items).Some? { assert Texts(items) == texts; }
  }

  lemma AcceptedSequenceForgetsOrder(a: seq<string>, b: seq<string>)
    requires Permuted(a, b) && StringSequence(Strings(a)).Some?
    ensures StringSequence(Strings(b)) == StringSequence(Strings(a))
  {
    StringsSelected(a);
    StringsSelected(b);
    DistinctFollowsMultiset(a, b);
    forall i | 0 <= i < |b| ensures IsBoundedString(Str(b[i]), 128) {
      MemberFollowsMultiset(b, a, b[i]);
    }
    StringOrder();
    AscendingIsUnique(StringLess, StringSequence(Strings(a)).value, StringSequence(Strings(b)).value);
  }

  lemma StringSequenceForgetsOrder(a: seq<string>, b: seq<string>)
    requires Permuted(a, b)
    ensures StringSequence(Strings(a)) == StringSequence(Strings(b))
  {
    if StringSequence(Strings(a)).Some? { AcceptedSequenceForgetsOrder(a, b); }
    if StringSequence(Strings(b)).Some? { AcceptedSequenceForgetsOrder(b, a); }
  }

  function TextOf(v: Json): string {
    if v.Str? then v.s else ""
  }

  /** The order of the array decides neither acceptance nor the result, whatever the array holds. */
  lemma StringArrayForgetsOrder(a: seq<Json>, b: seq<Json>)
    requires Permuted(a, b)
    ensures StringSequence(a) == StringSequence(b)
  {
    if StringSequence(a).Some? { AcceptedArrayForgetsOrder(a, b); }
    if StringSequence(b).Some? { AcceptedArrayForgetsOrder(b, a); }
  }

  lemma AcceptedArrayForgetsOrder(a: seq<Json>, b: seq<Json>)
    requires Permuted(a, b) && StringSequence(a).Some?
    ensures StringSequence(a) == StringSequence(b)
  {
    forall i | 0 <= i < |b| ensures IsBoundedString(b[i], 128) {
      MemberFollowsMultiset(b, a, b[i]);
    }
    var s, t := Map(TextOf, a), Map(TextOf, b);
    assert a == Strings(s) && b == Strings(t);
    MapPermutes(TextOf, a, b);
    StringSequenceForgetsOrder(s, t);
  }

  // ---- Private configuration ----

  const PRIVATE_KEYS: set<string> := {
    "accesskey", "acl", "adapter", "adapterid", "bucket", "cloudcredential", "credential",
    "credentials", "endpoint", "engine", "engineid", "kmskey", "lifecycle", "password",
    "physicalkey", "physicallocator", "region", "repository", "secret", "secretkey",
    "storagebinding"
  }

  function FoldChar(p: Platform, c: char): string {
    if 'A' <= c <= 'Z' then [(c as int + 32) as char]
    else if c as int < 0x80 then [c]
    else p.foldNonAscii(c)
  }

  function KeepFolded(s: string): string {
    if s == "" then ""
    else (if 'a' <= s[0] <= 'z' || '0' <= s[0] <= '9' then [s[0]] else "") + KeepFolded(s[1..])
  }

  /** A key case-folded and stripped of everything but lower-case ASCII letters and digits. */
  function Folded(p: Platform, key: string): string {
    if key == "" then "" else KeepFolded(FoldChar(p, key[0])) + Folded(p, key[1..])
  }

  predicate IsPublicKey(p: Platform, key: Key) {
    key.Name? && Folded(p, key.text) !in PRIVATE_KEYS
  }

  /** `reject_private_configuration` returns normally. */
  predicate AcceptsTree(p: Platform, v: Json) {
    match v
    case Obj(fields) =>
      forall i :: 0 <= i < |fields| ==> IsPublicKey(p, fields[i].0) && AcceptsTree(p, fields[i].1)
    case Arr(items) =>
      forall i :: 0 <= i < |items| ==> AcceptsTree(p, items[i])
    case _ => true
  }

  /** The value reached by following child positions from the root. */
  function Descend(v: Json, path: seq<nat>): Option<Json>
    decreases path
  {
    if path == [] then Some(v)
    else if v.Obj? && path[0] < |v.fields| then Descend(v.fields[path[0]].1, path[1..])
    else if v.Arr? && path[0] < |v.items| then Descend(v.items[path[0]], path[1..])
    else None
  }

  ghost predicate PublicAt(p: Platform, v: Json, path: seq<nat>) {
    var node := Descend(v, path);
    node.Some? && node.value.Obj? ==>
      forall i :: 0 <= i < |node.value.fields| ==> IsPublicKey(p, node.value.fields[i].0)
  }

  lemma {:induction false} AcceptedTreeIsPublic(p: Platform, v: Json, path: seq<nat>)
    requires AcceptsTree(p, v)
    ensures PublicAt(p, v, path)
    decreases path
  {
    if path != [] {
      if v.Obj? && path[0] < |v.fields| {
        AcceptedTreeIsPublic(p, v.fields[path[0]].1, path[1..]);
      } else if v.Arr? && path[0] < |v.items| {
        AcceptedTreeIsPublic(p, v.items[path[0]], path[1..]);
      }
    }
  }

  lemma {:induction false} PublicTreeIsAccepted(p: Platform, v: Json)
    requires forall path :: PublicAt(p, v, path)
    ensures AcceptsTree(p, v)
  {
    match v
    case Obj(fields) =>
      assert PublicAt(p, v, []);
      forall i: nat | i < |fields| ensures AcceptsTree(p, fields[i].1) {
        forall path ensures PublicAt(p, fields[i].1, path) {
          assert PublicAt(p, v, [i] + path);
          assert ([i] + path)[1..] == path;
        }
        PublicTreeIsAccepted(p, fields[i].1);
      }
    case Arr(items) =>
      forall i: nat | i < |items| ensures AcceptsTree(p, items[i]) {
        forall path ensures PublicAt(p, items[i], path) {
          assert PublicAt(p, v, [i] + path);
          assert ([i] + path)[1..] == path;
        }
        PublicTreeIsAccepted(p, items[i]);
      }
    case _ =>
  }

  /** A tree of any depth is accepted exactly when every dictionary key anywhere in it is public. */
  lemma AcceptsExactlyPublicTrees(p: Platform, v: Json)
    ensures AcceptsTree(p, v) <==> forall path :: PublicAt(p, v, path)
  {
    if AcceptsTree(p, v) {
      forall path ensures PublicAt(p, v, path) { AcceptedTreeIsPublic(p, v, path); }
    }
    if forall path :: PublicAt(p, v, path) {
      PublicTreeIsAccepted(p, v);
    }
  }

  lemma Regroup(a: string, b: string, c: string)
    ensures a + (b + c) == (a + b) + c
  {
  }

  lemma {:induction false} FoldedConcat(p: Platform, a: string, b: string)
    ensures Folded(p, a + b) == Folded(p, a) + Folded(p, b)
  {
    if a == "" {
      assert a + b == b;
    } else {
      FoldedConcat(p, a[1..], b);
      assert (a + b)[0] == a[0] && (a + b)[1..] == a[1..] + b;
      Regroup(KeepFolded(FoldChar(p, a[0])), Folded(p, a[1..]), Folded(p, b));
    }
  }

  lemma FoldedSingle(p: Platform, c: char)
    ensures Folded(p, [c]) == KeepFolded(FoldChar(p, c))
  {
    assert [c][1..] == "";
  }

  predicate IsLowerCase(s: string) {
    forall i :: 0 <= i < |s| ==> 'a' <= s[i] <= 'z'
  }

  /** A lower-case name folds to itself. */
  lemma {:induction false} LowerCaseFolds(p: Platform, s: string)
    requires IsLowerCase(s)
    ensures Folded(p, s) == s
  {
    if s != "" {
      var c := s[0];
      assert [c][1..] == "";
      assert KeepFolded(FoldChar(p, c)) == [c];
      LowerCaseFolds(p, s[1..]);
      assert s == [c] + s[1..];
    }
  }

  /** A digit or a lower-case letter survives folding, in its place. */
  lemma KeptCharacterStays(p: Platform, before: string, c: char, after: string)
    requires '0' <= c <= '9' || 'a' <= c <= 'z'
    ensures Folded(p, before + [c] + after) == Folded(p, before) + [c] + Folded(p, after)
  {
    FoldedConcat(p, before + [c], after);
    FoldedConcat(p, before, [c]);
    FoldedSingle(p, c);
    assert [c][1..] == "";
    assert KeepFolded([c]) == [c];
  }

  /** Every one of these names is private, in any tree. */
  lemma PrivateNamesAreRefused(p: Platform, name: string)
    requires IsLowerCase(name)
    requires name in {
               "accesskey", "acl", "adapter", "adapterid", "bucket", "cloudcredential", "credential", "credentials",
               "endpoint", "engine", "engineid", "kmskey", "lifecycle", "password", "physicalkey", "physicallocator",
               "region", "repository", "secret", "secretkey", "storagebinding"
             }
    ensures !IsPublicKey(p, Name(name))
  {
    LowerCaseFolds(p, name);
  }

  /** What is accepted, constructor by constructor: scalars, arrays of accepted items, and dictionaries with
      public string keys and accepted values. */
  lemma AcceptanceIsStructural(p: Platform, v: Json)
    ensures AcceptsTree(p, v) <==>
              match v
              case Arr(items) => forall i :: 0 <= i < |items| ==> AcceptsTree(p, items[i])
              case Obj(fields) =>
                forall i :: 0 <= i < |fields| ==>
                  && AcceptsTree(p, fields[i].1) && fields[i].0.Name?
                  && Folded(p, fields[i].0.text) !in {
                       "accesskey", "acl", "adapter", "adapterid", "bucket", "cloudcredential", "credential",
                       "credentials", "endpoint", "engine", "engineid", "kmskey", "lifecycle", "password",
                       "physicalkey", "physicallocator", "region", "repository", "secret", "secretkey",
                       "storagebinding"
                     }
              case _ => true
  {
  }

  /** Neither ASCII punctuation nor ASCII letter case can hide a private key. */
  lemma SpellingCannotHideAKey(p: Platform, before: string, c: char, after: string)
    requires c as int < 0x80
    ensures !IsAlphanumeric(c) ==>
              (IsPublicKey(p, Name(before + [c] + after)) <==> IsPublicKey(p, Name(before + after)))
    ensures 'A' <= c <= 'Z' ==>
              (IsPublicKey(p, Name(before + [c] + after)) <==>
               IsPublicKey(p, Name(before + [(c as int + 32) as char] + after)))
  {
    FoldedConcat(p, before + [c], after);
    FoldedConcat(p, before, [c]);
    FoldedConcat(p, before, after);
    FoldedSingle(p, c);
    if !IsAlphanumeric(c) {
      assert [c][1..] == "";
      assert KeepFolded([c]) == "";
      assert Folded(p, before) + "" == Folded(p, before);
    }
    if 'A' <= c <= 'Z' {
      var d := (c as int + 32) as char;
      FoldedConcat(p, before + [d], after);
      FoldedConcat(p, before, [d]);
      FoldedSingle(p, d);
    }
  }
}
