/** Shared vocabulary: optional values, results, and bytes. */
module Basics {

  datatype Option<+T> = None | Some(value: T)

  datatype Result<+R, +E> = Success(value: R) | Failure(error: E)

  type byte = x: int | 0 <= x < 256

  /** The elements of `s` rewritten by `f`, in order. */
  function Map<T, U>(f: T -> U, s: seq<T>): (r: seq<U>)
    ensures |r| == |s|
    ensures forall i :: 0 <= i < |s| ==> r[i] == f(s[i])
  {
    seq(|s|, i requires 0 <= i < |s| => f(s[i]))
  }

  ghost predicate Permuted<T>(a: seq<T>, b: seq<T>) {
    multiset(a) == multiset(b)
  }

  lemma MembersFollowMultiset<T>(a: seq<T>, b: seq<T>)
    requires Permuted(a, b)
    ensures |a| == |b|
    ensures forall x :: x in a <==> x in b
  {
    assert |multiset(a)| == |multiset(b)|;
    forall x ensures x in a <==> x in b {
      assert x in a <==> x in multiset(a);
      assert x in b <==> x in multiset(b);
    }
  }

  lemma MemberFollowsMultiset<T>(a: seq<T>, b: seq<T>, x: T)
    requires Permuted(a, b) && x in a
    ensures x in b
  {
    assert x in multiset(a);
  }

  lemma RemoveOne<T>(b: seq<T>, i: nat)
    requires i < |b|
    ensures multiset(b[..i] + b[i + 1..]) == multiset(b) - multiset{b[i]}
  {
    assert b == b[..i] + [b[i]] + b[i + 1..];
  }

  lemma MapSplits<T, U>(f: T -> U, b: seq<T>, i: nat)
    requires i < |b|
    ensures multiset(Map(f, b)) == multiset(Map(f, b[..i] + b[i + 1..])) + multiset{f(b[i])}
  {
    RemoveOne(Map(f, b), i);
    assert Map(f, b)[..i] + Map(f, b)[i + 1..] == Map(f, b[..i] + b[i + 1..]);
    assert Map(f, b)[i] in multiset(Map(f, b));
  }

  lemma MatchFirst<T>(a: seq<T>, b: seq<T>) returns (i: nat)
    requires Permuted(a, b) && a != []
    ensures i < |b| && b[i] == a[0] && Permuted(a[1..], b[..i] + b[i + 1..])
  {
    MemberFollowsMultiset(a, b, a[0]);
    i :| 0 <= i < |b| && b[i] == a[0];
    RemoveOne(b, i);
    assert a == [a[0]] + a[1..];
  }

  lemma MapTail<T, U>(f: T -> U, a: seq<T>)
    requires a != []
    ensures multiset(Map(f, a)) == multiset(Map(f, a[1..])) + multiset{f(a[0])}
  {
    assert Map(f, a) == [f(a[0])] + Map(f, a[1..]);
  }

  lemma MapPermutesStep<T, U>(f: T -> U, a: seq<T>, b: seq<T>, i: nat)
    requires a != [] && i < |b| && b[i] == a[0]
    requires Permuted(Map(f, a[1..]), Map(f, b[..i] + b[i + 1..]))
    ensures Permuted(Map(f, a), Map(f, b))
  {
    MapTail(f, a);
    MapSplits(f, b, i);
  }

  /** Rewriting entry by entry respects rearrangement. */
  lemma {:induction false} MapPermutes<T, U>(f: T -> U, a: seq<T>, b: seq<T>)
    requires Permuted(a, b)
    ensures Permuted(Map(f, a), Map(f, b))
  {
    if a == [] {
      assert |multiset(b)| == 0;
    } else {
      var i := MatchFirst(a, b);
      MapPermutes(f, a[1..], b[..i] + b[i + 1..]);
      MapPermutesStep(f, a, b, i);
    }
  }
}
