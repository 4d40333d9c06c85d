/** Multipart planning and completion. */
module Multipart {
  import opened Basics
  import opened Digest
  import opened Ordering

  /** A part; its number is positive. */
  datatype Part = Part(number: int, identity: ContentIdentity, verificationToken: string)

  datatype MultipartError =
    | PartSizeOutsideLimits
    | NegativeTotal
    | TooManyParts
    | NoParts
    | NotContiguous
    | LengthMismatch

  // ---- Planning ----

  datatype Limits = Limits(minPartBytes: int, maxPartBytes: int, maxParts: int) {
    predicate Valid() {
      0 < minPartBytes <= maxPartBytes && 0 < maxParts
    }

    /** `validate`: the number of parts of a plan, or nothing when the total is unknown. A part size
        that is not positive is outside every valid pair of limits. */
    function Validate(partSize: int, total: Option<int>): Result<Option<int>, MultipartError> {
      if !(0 < partSize && minPartBytes <= partSize <= maxPartBytes) then Failure(PartSizeOutsideLimits)
      else if total.None? then Success(None)
      else if total.value < 0 then Failure(NegativeTotal)
      else
        var covering := (total.value + partSize - 1) / partSize;
        var count := if covering > 1 then covering else 1;
        if count > maxParts then Failure(TooManyParts) else Success(Some(count))
    }
  }

  lemma CeilingBounds(total: nat, size: int)
    requires size > 0
    ensures var c := (total + size - 1) / size; size * c >= total && (c > 0 ==> size * (c - 1) < total) && c >= 0
  {
    var c := (total + size - 1) / size;
    assert total + size - 1 == c * size + (total + size - 1) % size;
    assert size * c == c * size;
    assert size * (c - 1) == size * c - size;
  }

  lemma CapacityGrows(size: int, a: int, b: int)
    requires size > 0 && a <= b
    ensures size * a <= size * b
  {
  }

  /** `count` is the least positive number of parts of `size` bytes whose capacity covers `total`. */
  ghost predicate IsLeastCover(size: int, total: int, count: int) {
    && size > 0 && total >= 0 && count >= 1
    && size * count >= total
    && forall fewer :: 1 <= fewer < count ==> size * fewer < total
  }

  /** A plan is accepted exactly when the part size is within the limits and the total is unknown, or
      known and covered by the largest permitted number of parts; a known total is planned with the least
      covering number. */
  lemma PlanIsMinimal(limits: Limits, size: int, total: Option<int>)
    requires limits.Valid()
    ensures var r := limits.Validate(size, total);
            && (r.Success? <==>
                  && limits.minPartBytes <= size <= limits.maxPartBytes
                  && (total.Some? ==> 0 <= total.value <= size * limits.maxParts))
            && (r.Success? ==> (r.value.Some? <==> total.Some?))
            && (r.Success? && total.Some? ==>
                  r.value.value <= limits.maxParts && IsLeastCover(size, total.value, r.value.value))
            && (r == Failure(PartSizeOutsideLimits) <==> size < limits.minPartBytes || size > limits.maxPartBytes)
            && (r == Failure(NegativeTotal) <==>
                  limits.minPartBytes <= size <= limits.maxPartBytes && total.Some? && total.value < 0)
  {
    if limits.minPartBytes <= size <= limits.maxPartBytes && total.Some? && total.value >= 0 {
      CountIsMinimal(limits, size, total.value);
    }
  }

  lemma CountIsMinimal(limits: Limits, size: int, total: nat)
    requires limits.Valid() && limits.minPartBytes <= size <= limits.maxPartBytes
    ensures limits.Validate(size, Some(total)).Success? <==> size * limits.maxParts >= total
    ensures limits.Validate(size, Some(total)).Success? ==>
              var r := limits.Validate(size, Some(total)).value;
              r.Some? && r.value <= limits.maxParts && IsLeastCover(size, total, r.value)
  {
    CeilingBounds(total, size);
    var c := (total + size - 1) / size;
    if c > limits.maxParts {
      CapacityGrows(size, limits.maxParts, c - 1);
    } else {
      CapacityGrows(size, c, limits.maxParts);
    }
    forall fewer | 1 <= fewer < c ensures size * fewer < total {
      CapacityGrows(size, fewer, c - 1);
    }
  }

  // ---- Completion ----

  predicate ByNumber(a: Part, b: Part) { a.number < b.number }
  predicate IntLess(a: int, b: int) { a < b }
  function NumberOf(p: Part): int { p.number }

  function TotalLength(parts: seq<Part>): int {
    if parts == [] then 0 else parts[0].identity.byteLength + TotalLength(parts[1..])
  }

  function CountTo(n: nat): seq<int> {
    seq(n, i => i + 1)
  }

  /** `MultipartCompletion.__post_init__`: the stored parts, or the failure. */
  function Complete(parts: seq<Part>, identity: ContentIdentity): Result<seq<Part>, MultipartError> {
    var sorted := SortBy(ByNumber, parts);
    if sorted == [] then Failure(NoParts)
    else if Map(NumberOf, sorted) != CountTo(|sorted|) then Failure(NotContiguous)
    else if TotalLength(sorted) != identity.byteLength then Failure(LengthMismatch)
    else Success(sorted)
  }

  /** The numbers are a permutation of 1..n. */
  ghost predicate NumberedFromOne(parts: seq<Part>) {
    Permuted(Map(NumberOf, parts), CountTo(|parts|))
  }

  lemma {:induction false} TotalLengthOfInsert(s: seq<Part>, x: Part)
    ensures TotalLength(Insert(ByNumber, s, x)) == TotalLength(s) + x.identity.byteLength
  {
    if s != [] && !ByNumber(x, s[0]) {
      TotalLengthOfInsert(s[1..], x);
    }
  }

  lemma {:induction false} TotalLengthOfPrefix(s: seq<Part>, n: nat)
    requires n < |s|
    ensures TotalLength(s[..n + 1]) == TotalLength(s[..n]) + s[n].identity.byteLength
  {
    if n > 0 {
      TotalLengthOfPrefix(s[1..], n - 1);
      assert s[..n + 1][1..] == s[1..][..n] && s[..n][1..] == s[1..][..n - 1];
    }
  }

  lemma {:induction false} TotalLengthOfSort(s: seq<Part>)
    ensures TotalLength(SortBy(ByNumber, s)) == TotalLength(s)
  {
    if s != [] {
      var n := |s| - 1;
      TotalLengthOfSort(s[..n]);
      TotalLengthOfInsert(SortBy(ByNumber, s[..n]), s[n]);
      TotalLengthOfPrefix(s, n);
      assert s[..n + 1] == s;
    }
  }

  lemma SortedLength<T>(lt: (T, T) -> bool, s: seq<T>)
    ensures |SortBy(lt, s)| == |s|
  {
    MembersFollowMultiset(SortBy(lt, s), s);
  }

  lemma SortNumbers(numbers: seq<int>)
    requires Permuted(numbers, CountTo(|numbers|))
    ensures Distinct(numbers) && SortBy(IntLess, numbers) == CountTo(|numbers|)
  {
    var upTo := CountTo(|numbers|);
    assert StrictOrder(IntLess) && Ascending(IntLess, upTo);
    CountDistinct(numbers, upTo);
    assert Comparable(IntLess, numbers);
    SortForgetsOrder(IntLess, numbers, upTo);
    SortKeepsAscending(IntLess, upTo);
  }

  lemma CountDistinct(a: seq<int>, b: seq<int>)
    requires Permuted(a, b) && Ascending(IntLess, b)
    ensures Distinct(a)
  {
    forall i, j | 0 <= i < j < |a| ensures a[i] != a[j] {
      if a[i] == a[j] {
        var x := a[i];
        assert a == a[..i] + [x] + a[i + 1..j] + [x] + a[j + 1..];
        assert multiset(a)[x] >= 2;
        AtMostOnce(b, x);
      }
    }
  }

  lemma {:induction false} AtMostOnce(b: seq<int>, x: int)
    requires Ascending(IntLess, b)
    ensures multiset(b)[x] <= 1
  {
    if b != [] {
      AtMostOnce(b[1..], x);
      assert b == [b[0]] + b[1..];
      if b[0] == x {
        assert x !in b[1..];
        assert multiset(b[1..])[x] == 0;
      }
    }
  }

  lemma SortedNumbers(parts: seq<Part>)
    ensures Map(NumberOf, SortBy(ByNumber, parts)) == SortBy(IntLess, Map(NumberOf, parts))
  {
    SortMaps(ByNumber, IntLess, NumberOf, parts);
  }

  lemma ContiguousExactly(parts: seq<Part>)
    ensures |SortBy(ByNumber, parts)| == |parts|
    ensures Map(NumberOf, SortBy(ByNumber, parts)) == CountTo(|parts|) <==> NumberedFromOne(parts)
  {
    SortedLength(ByNumber, parts);
    SortedNumbers(parts);
    if NumberedFromOne(parts) {
      SortNumbers(Map(NumberOf, parts));
    }
  }

  /** A part list is accepted exactly when it is non-empty, numbered by a permutation of 1..n, and as
      long in all as the object; part k of the stored list then carries number k + 1. */
  lemma CompletesExactly(parts: seq<Part>, identity: ContentIdentity)
    ensures Complete(parts, identity).Success? <==>
              parts != [] && NumberedFromOne(parts) && TotalLength(parts) == identity.byteLength
    ensures Complete(parts, identity).Success? ==>
              var stored := Complete(parts, identity).value;
              Permuted(stored, parts) && forall k :: 0 <= k < |stored| ==> stored[k].number == k + 1
    ensures Complete(parts, identity) == Failure(NoParts) <==> parts == []
    ensures Complete(parts, identity) == Failure(NotContiguous) <==> parts != [] && !NumberedFromOne(parts)
  {
    ContiguousExactly(parts);
    TotalLengthOfSort(parts);
    if Complete(parts, identity).Success? {
      var stored := Complete(parts, identity).value;
      forall k | 0 <= k < |stored| ensures stored[k].number == k + 1 {
        assert Map(NumberOf, stored)[k] == CountTo(|stored|)[k];
      }
    }
  }

  lemma DistinctNumbersCompare(parts: seq<Part>)
    requires NumberedFromOne(parts)
    ensures Comparable(ByNumber, parts)
  {
    SortNumbers(Map(NumberOf, parts));
    forall i, j | 0 <= i < j < |parts| ensures ByNumber(parts[i], parts[j]) || ByNumber(parts[j], parts[i]) {
      assert Map(NumberOf, parts)[i] != Map(NumberOf, parts)[j];
    }
  }

  lemma SameNumberedPartsSortAlike(a: seq<Part>, b: seq<Part>)
    requires Permuted(a, b) && NumberedFromOne(a) && NumberedFromOne(b)
    ensures SortBy(ByNumber, a) == SortBy(ByNumber, b)
  {
    DistinctNumbersCompare(a);
    DistinctNumbersCompare(b);
    SortForgetsOrder(ByNumber, a, b);
  }

  lemma NumberingForgetsOrder(a: seq<Part>, b: seq<Part>)
    requires Permuted(a, b) && NumberedFromOne(a)
    ensures NumberedFromOne(b)
  {
    MembersFollowMultiset(a, b);
    MapPermutes(NumberOf, a, b);
  }

  lemma AcceptedInAnyOrder(a: seq<Part>, b: seq<Part>, identity: ContentIdentity)
    requires Permuted(a, b) && Complete(a, identity).Success?
    ensures Complete(b, identity) == Complete(a, identity)
  {
    CompletesExactly(a, identity);
    NumberingForgetsOrder(a, b);
    SameNumberedPartsSortAlike(a, b);
  }

  /** The order the parts arrive in decides neither acceptance nor what is stored. */
  lemma CompletionForgetsOrder(a: seq<Part>, b: seq<Part>, identity: ContentIdentity)
    requires Permuted(a, b)
    ensures Complete(a, identity).Success? <==> Complete(b, identity).Success?
    ensures Complete(a, identity).Success? ==> Complete(a, identity) == Complete(b, identity)
  {
    if Complete(a, identity).Success? { AcceptedInAnyOrder(a, b, identity); }
    if Complete(b, identity).Success? { AcceptedInAnyOrder(b, a, identity); }
  }

  // ---- A plan carried out ----

  /** The bytes [start, end) covered by part `k` (from zero) of a plan. */
  function PartStart(size: int, k: int): int { size * k }
  function PartEnd(size: int, total: int, k: int): int {
    if size * (k + 1) < total then size * (k + 1) else total
  }

  /** The parts of the plan: each covers its slice, in part-number order. */
  ghost predicate FollowsPlan(parts: seq<Part>, size: int, total: int) {
    forall k :: 0 <= k < |parts| ==>
      && parts[k].number == k + 1
      && parts[k].identity.byteLength == PartEnd(size, total, k) - PartStart(size, k)
  }

  lemma PartBounds(size: int, total: int, count: int, k: int)
    requires IsLeastCover(size, total, count) && 0 <= k < count
    ensures 0 <= PartStart(size, k) <= PartEnd(size, total, k) <= total
    ensures k < count - 1 ==> PartEnd(size, total, k) == PartStart(size, k + 1) == PartStart(size, k) + size
    ensures k == count - 1 ==> PartEnd(size, total, k) == total
    ensures total > 0 ==> PartStart(size, k) < PartEnd(size, total, k)
    ensures total == 0 ==> count == 1
  {
    assert size * (k + 1) == size * k + size;
    CapacityGrows(size, 0, k);
    if count > 1 {
      assert size * (count - 1) < total;
      CapacityGrows(size, 0, count - 1);
      if k < count - 1 {
        CapacityGrows(size, k + 1, count - 1);
      }
    }
  }

  lemma {:induction false} PlannedPrefixLength(parts: seq<Part>, size: int, total: int, k: nat)
    requires IsLeastCover(size, total, |parts|) && k <= |parts| && FollowsPlan(parts, size, total)
    ensures TotalLength(parts[..k]) == if k == 0 then 0 else PartEnd(size, total, k - 1)
  {
    if k > 0 {
      PlannedPrefixLength(parts, size, total, k - 1);
      TotalLengthOfPrefix(parts, k - 1);
      PartBounds(size, total, |parts|, k - 1);
      if k > 1 { PartBounds(size, total, |parts|, k - 2); }
    }
  }

  ghost predicate InPart(size: int, total: int, k: int, i: int) {
    PartStart(size, k) <= i < PartEnd(size, total, k)
  }

  ghost predicate Covered(size: int, total: int, count: int, i: int) {
    exists k :: 0 <= k < count && InPart(size, total, k, i)
  }

  /** Cutting [0, total) into the planned number of parts tiles it: every byte lies in exactly one
      part, every part but the last is full, and a part is empty only when the object is. */
  lemma PlanTiles(size: int, total: int, count: int)
    requires IsLeastCover(size, total, count)
    ensures forall k :: 0 <= k < count - 1 ==> PartEnd(size, total, k) - PartStart(size, k) == size
    ensures forall k :: 0 <= k < count && total > 0 ==> PartStart(size, k) < PartEnd(size, total, k)
    ensures total == 0 ==> count == 1
    ensures forall i :: 0 <= i < total ==> Covered(size, total, count, i)
    ensures forall i, j, k :: InPart(size, total, j, i) && InPart(size, total, k, i) ==> j == k
  {
    PartBounds(size, total, count, 0);
    forall k | 0 <= k < count - 1 ensures PartEnd(size, total, k) - PartStart(size, k) == size {
      PartBounds(size, total, count, k);
    }
    forall k | 0 <= k < count && total > 0 ensures PartStart(size, k) < PartEnd(size, total, k) {
      PartBounds(size, total, count, k);
    }
    forall i | 0 <= i < total ensures Covered(size, total, count, i) {
      PartHolding(size, total, count, i);
    }
    forall i, j, k | InPart(size, total, j, i) && InPart(size, total, k, i) ensures j == k {
      PartsAreDisjoint(size, total, j, k, i);
    }
  }

  lemma {:induction false} PartHolding(size: int, total: int, count: int, i: int)
    requires size > 0 && count >= 0 && 0 <= i < total && i < size * count
    ensures Covered(size, total, count, i)
  {
    if i >= size * (count - 1) {
      assert InPart(size, total, count - 1, i);
    } else {
      PartHolding(size, total, count - 1, i);
      var k :| 0 <= k < count - 1 && InPart(size, total, k, i);
      assert 0 <= k < count && InPart(size, total, k, i);
    }
  }

  lemma PartsAreDisjoint(size: int, total: int, j: int, k: int, i: int)
    requires size > 0 && InPart(size, total, j, i) && InPart(size, total, k, i)
    ensures j == k
  {
    if j < k { CapacityGrows(size, j + 1, k); }
    if k < j { CapacityGrows(size, k + 1, j); }
  }

  lemma PlanAddsUp(size: int, total: int, parts: seq<Part>)
    requires IsLeastCover(size, total, |parts|) && FollowsPlan(parts, size, total)
    ensures TotalLength(parts) == total
  {
    PlannedPrefixLength(parts, size, total, |parts|);
    assert parts[..|parts|] == parts;
    PartBounds(size, total, |parts|, |parts| - 1);
  }

  lemma OrderedPartsStay(parts: seq<Part>)
    requires forall k :: 0 <= k < |parts| ==> parts[k].number == k + 1
    ensures SortBy(ByNumber, parts) == parts
  {
    assert StrictOrder(ByNumber);
    assert Ascending(ByNumber, parts) by {
      forall i, j | 0 <= i < j < |parts| ensures ByNumber(parts[i], parts[j]) {
        assert parts[i].number == i + 1 && parts[j].number == j + 1;
      }
    }
    SortKeepsAscending(ByNumber, parts);
  }

  lemma OrderedPartsCount(parts: seq<Part>)
    requires forall k :: 0 <= k < |parts| ==> parts[k].number == k + 1
    ensures Map(NumberOf, parts) == CountTo(|parts|)
  {
  }

  /** Any plan that was carried out, its parts arriving in any order, is accepted and stored in order. */
  lemma CarriedOutPlanCompletes(size: int, total: int, parts: seq<Part>, arrived: seq<Part>, identity: ContentIdentity)
    requires IsLeastCover(size, total, |parts|)
    requires FollowsPlan(parts, size, total) && identity.byteLength == total
    requires Permuted(parts, arrived)
    ensures Complete(arrived, identity) == Success(parts)
  {
    PlanAddsUp(size, total, parts);
    OrderedPartsStay(parts);
    OrderedPartsCount(parts);
    CompletionForgetsOrder(parts, arrived, identity);
  }
}
