/** Inclusive byte ranges and their resolution against an object's length. */
module Ranges {
  import opened Basics
  import opened Core
  import opened Validation

  datatype ByteRange = ByteRange(start: Option<int>, end: Option<int>, suffixLength: Option<int>)

  datatype ResolvedRange = ResolvedRange(start: int, end: int, totalLength: int) {
    function Length(): int { end - start + 1 }
  }

  /** The shapes the constructor accepts. */
  predicate ValidRange(r: ByteRange) {
    if r.suffixLength.Some? then
      r.start.None? && r.end.None? && r.suffixLength.value > 0
    else
      && r.start.Some? && r.start.value >= 0
      && (r.end.Some? ==> r.start.value <= r.end.value)
  }

  function RequestedLength(r: ByteRange): Option<int>
    requires ValidRange(r)
  {
    if r.suffixLength.Some? then r.suffixLength
    else if r.end.None? then None
    else Some(r.end.value - r.start.value + 1)
  }

  datatype RangeError = NotSatisfiable | InvalidLength

  function MakeResolved(start: int, end: int, total: int): Result<ResolvedRange, RangeError> {
    if start < 0 || end < 0 || total < 0 then Failure(InvalidLength)
    else if total == 0 || start > end || end >= total then Failure(NotSatisfiable)
    else Success(ResolvedRange(start, end, total))
  }

  function Min(a: int, b: int): int { if a < b then a else b }

  function Resolve(r: ByteRange, total: int): Result<ResolvedRange, RangeError>
    requires ValidRange(r)
  {
    if total < 0 then Failure(InvalidLength)
    else if total == 0 then Failure(NotSatisfiable)
    else if r.suffixLength.Some? then
      var length := Min(r.suffixLength.value, total);
      MakeResolved(total - length, total - 1, total)
    else if r.start.value >= total then Failure(NotSatisfiable)
    else
      var end := if r.end.None? then total - 1 else Min(r.end.value, total - 1);
      MakeResolved(r.start.value, end, total)
  }

  /** Position `i` of an object of `total` bytes is one the range asks for. */
  predicate Asks(r: ByteRange, total: int, i: int)
    requires ValidRange(r)
  {
    if r.suffixLength.Some? then i >= total - r.suffixLength.value
    else r.start.value <= i && (r.end.Some? ==> i <= r.end.value)
  }

  /** Resolution succeeds exactly when the object holds a requested byte, and then the resolved
      interval is exactly the requested bytes the object holds. */
  lemma ResolveIsIntersection(r: ByteRange, total: int)
    requires ValidRange(r)
    ensures total < 0 <==> Resolve(r, total) == Failure(InvalidLength)
    ensures Resolve(r, total).Success? <==> exists i :: 0 <= i < total && Asks(r, total, i)
    ensures Resolve(r, total).Success? ==>
              var x := Resolve(r, total).value;
              && x.totalLength == total && 1 <= x.Length() <= total
              && (forall i :: x.start <= i <= x.end <==> 0 <= i < total && Asks(r, total, i))
              && (RequestedLength(r).Some? ==> x.Length() <= RequestedLength(r).value)
  {
    if Resolve(r, total).Success? {
      assert Asks(r, total, Resolve(r, total).value.start);
    }
  }

  /** The bytes asked for: the last ones for a suffix, and otherwise those from start to end, or to the last. */
  lemma ResolvedBytes(r: ByteRange, total: int, i: int)
    requires ValidRange(r) && Resolve(r, total).Success?
    ensures Resolve(r, total).value.start <= i <= Resolve(r, total).value.end <==>
              && 0 <= i < total
              && (r.suffixLength.Some? ==> total - i <= r.suffixLength.value)
              && (r.start.Some? ==> r.start.value <= i) && (r.end.Some? ==> i <= r.end.value)
  {
  }

  lemma Unresolved(r: ByteRange, total: int)
    requires ValidRange(r) && total >= 0
    ensures Resolve(r, total) == Failure(NotSatisfiable) <==> total == 0 || (r.start.Some? && r.start.value >= total)
  {
  }

  /** Some object makes the range resolve to this many bytes. */
  ghost predicate Cuts(r: ByteRange, length: int)
    requires ValidRange(r)
  {
    exists total :: Resolve(r, total).Success?
      && Resolve(r, total).value.end - Resolve(r, total).value.start + 1 == length
  }

  lemma CutsAt(r: ByteRange, total: int, length: int)
    requires ValidRange(r) && Resolve(r, total).Success?
    requires Resolve(r, total).value.end - Resolve(r, total).value.start + 1 == length
    ensures Cuts(r, length)
  {
  }

  /** The requested length is the longest slice the range resolves to over all objects; without one, there are
      slices of every length. */
  lemma RequestedLengthIsLongest(r: ByteRange)
    requires ValidRange(r)
    ensures RequestedLength(r).Some? ==> Cuts(r, RequestedLength(r).value)
    ensures RequestedLength(r).Some? ==> forall length :: Cuts(r, length) ==> length <= RequestedLength(r).value
    ensures RequestedLength(r).None? ==> forall length :: length >= 1 ==> Cuts(r, length)
  {
    if r.suffixLength.Some? {
      CutsAt(r, r.suffixLength.value, r.suffixLength.value);
    } else if r.end.Some? {
      CutsAt(r, r.end.value + 1, r.end.value - r.start.value + 1);
    } else {
      forall length | length >= 1 ensures Cuts(r, length) {
        CutsAt(r, r.start.value + length, length);
      }
    }
  }

  // ---- Wire form ----

  function OptionalInt(v: Json): Option<Option<int>> {
    match v
    case Null => Some(None)
    case Int(n) => Some(Some(n))
    case _ => None
  }

  function RangeFromFields(fields: Fields): (r: Option<ByteRange>)
    ensures r.Some? ==> ValidRange(r.value)
  {
    if Find(fields, "suffixLength").Some? then
      if !ExactFields(fields, {"suffixLength"}, {}) then None
      else
        var n := Find(fields, "suffixLength").value;
        if n.Int? && ValidRange(ByteRange(None, None, Some(n.n))) then Some(ByteRange(None, None, Some(n.n)))
        else None
    else if !ExactFields(fields, {"start"}, {"end"}) then None
    else
      var end := OptionalInt(FindOrNull(fields, "end"));
      var start := OptionalInt(FindOrNull(fields, "start"));
      if start.Some? && end.Some? && ValidRange(ByteRange(start.value, end.value, None)) then
        Some(ByteRange(start.value, end.value, None))
      else None
  }

  function RangeToFields(r: ByteRange): Fields
    requires ValidRange(r)
  {
    if r.suffixLength.Some? then [(Name("suffixLength"), Int(r.suffixLength.value))]
    else
      [(Name("start"), Int(r.start.value))]
      + if r.end.Some? then [(Name("end"), Int(r.end.value))] else []
  }

  lemma RangeRoundTrip(r: ByteRange)
    requires ValidRange(r)
    ensures RangeFromFields(RangeToFields(r)) == Some(r)
  {
    var f := RangeToFields(r);
    FindAt(f, 0);
    if r.suffixLength.Some? {
      assert Keys(f) == {Name("suffixLength")};
    } else if r.end.Some? {
      assert f[1].0 == Name("end");
      FindAt(f, 1);
      assert Keys(f) == {Name("start"), Name("end")};
    } else {
      assert Keys(f) == {Name("start")};
    }
  }
}
