/** Stable sorting, and why a strictly sorted arrangement is unique. */
module Ordering {
  import opened Basics

  ghost predicate StrictOrder<T(!new)>(lt: (T, T) -> bool) {
    && (forall x :: !lt(x, x))
    && (forall x, y, z :: lt(x, y) && lt(y, z) ==> lt(x, z))
  }

  ghost predicate Ascending<T>(lt: (T, T) -> bool, s: seq<T>) {
    forall i, j :: 0 <= i < j < |s| ==> lt(s[i], s[j])
  }

  /** Any two entries at different positions are ordered one way or the other. */
  ghost predicate Comparable<T>(lt: (T, T) -> bool, s: seq<T>) {
    forall i, j :: 0 <= i < j < |s| ==> lt(s[i], s[j]) || lt(s[j], s[i])
  }

  function Insert<T>(lt: (T, T) -> bool, s: seq<T>, x: T): (r: seq<T>)
    ensures multiset(r) == multiset(s) + multiset{x}
  {
    if s == [] then [x]
    else if lt(x, s[0]) then
      [x] + s
    else
      assert s == [s[0]] + s[1..];
      [s[0]] + Insert(lt, s[1..], x)
  }

  /** Python's `sorted`: stable, smallest first. */
  function SortBy<T>(lt: (T, T) -> bool, s: seq<T>): (r: seq<T>)
    ensures multiset(r) == multiset(s)
  {
    if s == [] then []
    else
      var n := |s| - 1;
      assert s == s[..n] + [s[n]];
      Insert(lt, SortBy(lt, s[..n]), s[n])
  }

  lemma {:induction false} InsertAscends<T(!new)>(lt: (T, T) -> bool, s: seq<T>, x: T)
    requires StrictOrder(lt) && Ascending(lt, s)
    requires forall y :: y in s ==> lt(x, y) || lt(y, x)
    ensures Ascending(lt, Insert(lt, s, x))
  {
    if s != [] && !lt(x, s[0]) {
      InsertAscends(lt, s[1..], x);
      var t := Insert(lt, s[1..], x);
      forall y | y in t ensures lt(s[0], y) {
        assert y in multiset(t);
        assert y in multiset(s[1..]) || y == x;
        assert s[0] in s;
      }
    }
  }

  /** Sorting pairwise comparable entries gives a strictly ascending arrangement. */
  lemma {:induction false} SortAscends<T(!new)>(lt: (T, T) -> bool, s: seq<T>)
    requires StrictOrder(lt) && Comparable(lt, s)
    ensures Ascending(lt, SortBy(lt, s))
  {
    if s != [] {
      var n := |s| - 1;
      SortAscends(lt, s[..n]);
      forall y | y in SortBy(lt, s[..n]) ensures lt(s[n], y) || lt(y, s[n]) {
        assert y in multiset(SortBy(lt, s[..n]));
        assert y in s[..n];
      }
      InsertAscends(lt, SortBy(lt, s[..n]), s[n]);
    }
  }

  lemma LeastComesFirst<T(!new)>(lt: (T, T) -> bool, a: seq<T>, b: seq<T>)
    requires StrictOrder(lt) && Ascending(lt, a) && Ascending(lt, b)
    requires a != [] && b != [] && a[0] in b && b[0] in a
    ensures a[0] == b[0]
  {
    var i :| 0 <= i < |b| && b[i] == a[0];
    var j :| 0 <= j < |a| && a[j] == b[0];
    assert i == 0 || j == 0;
  }

  lemma TailMultiset<T>(a: seq<T>)
    requires a != []
    ensures multiset(a[1..]) == multiset(a) - multiset{a[0]}
  {
    assert a == [a[0]] + a[1..];
  }

  /** Two strictly ascending arrangements of the same entries are equal. */
  lemma {:induction false} AscendingIsUnique<T(!new)>(lt: (T, T) -> bool, a: seq<T>, b: seq<T>)
    requires StrictOrder(lt) && Ascending(lt, a) && Ascending(lt, b)
    requires Permuted(a, b)
    ensures a == b
  {
    MembersFollowMultiset(a, b);
    if a != [] {
      LeastComesFirst(lt, a, b);
      TailMultiset(a);
      TailMultiset(b);
      AscendingIsUnique(lt, a[1..], b[1..]);
      assert a == [a[0]] + a[1..] && b == [b[0]] + b[1..];
    }
  }

  /** Sorting forgets the order its input came in. */
  lemma SortForgetsOrder<T(!new)>(lt: (T, T) -> bool, a: seq<T>, b: seq<T>)
    requires StrictOrder(lt) && Comparable(lt, a) && Comparable(lt, b)
    requires Permuted(a, b)
    ensures SortBy(lt, a) == SortBy(lt, b)
  {
    SortAscends(lt, a);
    SortAscends(lt, b);
    AscendingIsUnique(lt, SortBy(lt, a), SortBy(lt, b));
  }

  lemma SortKeepsAscending<T(!new)>(lt: (T, T) -> bool, s: seq<T>)
    requires StrictOrder(lt) && Ascending(lt, s)
    ensures SortBy(lt, s) == s
  {
    SortAscends(lt, s);
    AscendingIsUnique(lt, SortBy(lt, s), s);
  }

  lemma MapPrepends<T, U>(key: T -> U, x: T, s: seq<T>)
    ensures Map(key, [x] + s) == [key(x)] + Map(key, s)
  {
  }

  lemma {:induction false} InsertMaps<T(!new), U>(lt: (T, T) -> bool, less: (U, U) -> bool, key: T -> U, s: seq<T>,
                                                  x: T)
    requires forall a, b :: lt(a, b) <==> less(key(a), key(b))
    ensures Map(key, Insert(lt, s, x)) == Insert(less, Map(key, s), key(x))
  {
    if s == [] {
    } else if lt(x, s[0]) {
      MapPrepends(key, x, s);
    } else {
      InsertMaps(lt, less, key, s[1..], x);
      MapPrepends(key, s[0], Insert(lt, s[1..], x));
      assert Map(key, s)[1..] == Map(key, s[1..]);
    }
  }

  /** Sorting entries by a key sorts the keys. */
  lemma {:induction false} SortMaps<T(!new), U>(lt: (T, T) -> bool, less: (U, U) -> bool, key: T -> U, s: seq<T>)
    requires forall a, b :: lt(a, b) <==> less(key(a), key(b))
    ensures Map(key, SortBy(lt, s)) == SortBy(less, Map(key, s))
  {
    if s != [] {
      var n := |s| - 1;
      SortMaps(lt, less, key, s[..n]);
      InsertMaps(lt, less, key, SortBy(lt, s[..n]), s[n]);
      assert Map(key, s)[..n] == Map(key, s[..n]);
    }
  }

  // ---- Code-point order on strings ----

  predicate StringLess(a: string, b: string) {
    if b == "" then false
    else if a == "" then true
    else a[0] < b[0] || (a[0] == b[0] && StringLess(a[1..], b[1..]))
  }

  /** Two strings agree up to some position; there `a` ends first, or has the lower character. */
  ghost predicate PartAt(a: string, b: string, k: nat) {
    k <= |a| && k < |b| && a[..k] == b[..k] && (k == |a| || a[k] < b[k])
  }

  /** Strings are ordered by the first position where they part. */
  lemma {:induction false} StringLessExactly(a: string, b: string)
    ensures StringLess(a, b) <==> exists k: nat :: PartAt(a, b, k)
  {
    if a != "" && b != "" && a[0] == b[0] {
      StringLessExactly(a[1..], b[1..]);
      forall k: nat | PartAt(a[1..], b[1..], k) ensures PartAt(a, b, k + 1) {
        assert a == [a[0]] + a[1..] && b == [b[0]] + b[1..];
        assert a[..k + 1] == [a[0]] + a[1..][..k] && b[..k + 1] == [b[0]] + b[1..][..k];
      }
      forall k: nat | PartAt(a, b, k) ensures k > 0 && PartAt(a[1..], b[1..], k - 1) {
        assert a[1..][..k - 1] == a[..k][1..] && b[1..][..k - 1] == b[..k][1..];
      }
    } else if b != "" {
      assert PartAt(a, b, 0) <==> StringLess(a, b);
      forall k: nat | PartAt(a, b, k) ensures k == 0 {
      }
    }
  }

  lemma {:induction false} StringLessTransitive(a: string, b: string, c: string)
    requires StringLess(a, b) && StringLess(b, c)
    ensures StringLess(a, c)
  {
    if a != "" && a[0] == b[0] == c[0] {
      StringLessTransitive(a[1..], b[1..], c[1..]);
    }
  }

  lemma {:induction false} StringLessIrreflexive(a: string)
    ensures !StringLess(a, a)
  {
    if a != "" {
      StringLessIrreflexive(a[1..]);
    }
  }

  lemma {:induction false} StringLessTotal(a: string, b: string)
    requires a != b
    ensures StringLess(a, b) || StringLess(b, a)
  {
    if a != "" && b != "" && a[0] == b[0] {
      assert a == [a[0]] + a[1..] && b == [b[0]] + b[1..];
      StringLessTotal(a[1..], b[1..]);
    }
  }

  lemma StringOrder()
    ensures StrictOrder(StringLess)
  {
    forall x ensures !StringLess(x, x) { StringLessIrreflexive(x); }
    forall x, y, z | StringLess(x, y) && StringLess(y, z) ensures StringLess(x, z) {
      StringLessTransitive(x, y, z);
    }
  }

  ghost predicate Distinct<T>(s: seq<T>) {
    forall i, j :: 0 <= i < j < |s| ==> s[i] != s[j]
  }

  lemma DistinctStringsCompare(s: seq<string>)
    requires Distinct(s)
    ensures Comparable(StringLess, s)
  {
    forall i, j | 0 <= i < j < |s| ensures StringLess(s[i], s[j]) || StringLess(s[j], s[i]) {
      StringLessTotal(s[i], s[j]);
    }
  }
}
