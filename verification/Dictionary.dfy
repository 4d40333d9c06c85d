/** Insertion-ordered dictionaries and the finite maps they refine. */
module Dictionary {
  import opened Basics

  type Dict<K, V> = seq<(K, V)>

  ghost predicate Unique<K, V>(d: Dict<K, V>) {
    forall i, j :: 0 <= i < j < |d| ==> d[i].0 != d[j].0
  }

  function ToMap<K, V>(d: Dict<K, V>): map<K, V> {
    if d == [] then map[] else ToMap(d[..|d| - 1])[d[|d| - 1].0 := d[|d| - 1].1]
  }

  function Keys<K, V>(d: Dict<K, V>): set<K> {
    set i | 0 <= i < |d| :: d[i].0
  }

  lemma KeysOfTail<K, V>(d: Dict<K, V>, k: K)
    requires d != []
    ensures k in Keys(d) <==> k == d[0].0 || k in Keys(d[1..])
  {
    if k in Keys(d) && k != d[0].0 {
      var i :| 0 <= i < |d| && d[i].0 == k;
      assert d[1..][i - 1].0 == k;
    }
    if k in Keys(d[1..]) {
      var i :| 0 <= i < |d[1..]| && d[1..][i].0 == k;
      assert d[i + 1].0 == k;
    }
  }

  /** `d.get(k)` */
  function Get<K(==), V>(d: Dict<K, V>, k: K): (r: Option<V>)
    ensures r.Some? ==> exists i :: 0 <= i < |d| && d[i] == (k, r.value)
    ensures r.None? ==> forall i :: 0 <= i < |d| ==> d[i].0 != k
  {
    if d == [] then None
    else if d[|d| - 1].0 == k then
      assert d[|d| - 1] == (k, d[|d| - 1].1);
      Some(d[|d| - 1].1)
    else
      var r := Get(d[..|d| - 1], k);
      assert r.Some? ==> exists i :: 0 <= i < |d| && d[i] == (k, r.value) by {
        if r.Some? {
          var i :| 0 <= i < |d| - 1 && d[..|d| - 1][i] == (k, r.value);
          assert d[i] == (k, r.value);
        }
      }
      r
  }

  /** `d[k] = v`: an existing key keeps its place, a new one goes last. */
  function Put<K(==), V>(d: Dict<K, V>, k: K, v: V): (r: Dict<K, V>)
    ensures k in Keys(d) ==> |r| == |d|
    ensures k in Keys(d) && Unique(d) ==>
              forall i :: 0 <= i < |d| ==> r[i] == if d[i].0 == k then (k, v) else d[i]
    ensures k !in Keys(d) ==> r == d + [(k, v)]
  {
    if d == [] then [(k, v)]
    else
      KeysOfTail(d, k);
      if d[0].0 == k then [(k, v)] + d[1..] else [d[0]] + Put(d[1..], k, v)
  }

  /** `del d[k]` */
  function Del<K(==), V>(d: Dict<K, V>, k: K): Dict<K, V> {
    if d == [] then [] else if d[|d| - 1].0 == k then d[..|d| - 1] else Del(d[..|d| - 1], k) + [d[|d| - 1]]
  }

  lemma {:induction false} MapMembers<K, V>(d: Dict<K, V>, k: K)
    ensures k in ToMap(d) <==> exists i :: 0 <= i < |d| && d[i].0 == k
  {
    if d != [] {
      var n := |d| - 1;
      MapMembers(d[..n], k);
      if k in ToMap(d[..n]) {
        var i :| 0 <= i < n && d[..n][i].0 == k;
        assert d[i].0 == k;
      }
      if i :| 0 <= i < |d| && d[i].0 == k {
        assert i < n ==> d[..n][i].0 == k;
      }
    }
  }

  lemma {:induction false} MapAt<K, V>(d: Dict<K, V>, i: nat)
    requires Unique(d) && i < |d|
    ensures d[i].0 in ToMap(d) && ToMap(d)[d[i].0] == d[i].1
  {
    if i < |d| - 1 {
      MapAt(d[..|d| - 1], i);
    }
  }

  lemma {:induction false} GetIsMap<K, V>(d: Dict<K, V>, k: K)
    ensures Get(d, k) == if k in ToMap(d) then Some(ToMap(d)[k]) else None
  {
    if d != [] {
      GetIsMap(d[..|d| - 1], k);
    }
  }

  lemma Extend<K, V>(r: Dict<K, V>, last: (K, V))
    requires Unique(r) && forall i :: 0 <= i < |r| ==> r[i].0 != last.0
    ensures Unique(r + [last]) && ToMap(r + [last]) == ToMap(r)[last.0 := last.1]
  {
    assert (r + [last])[..|r|] == r;
  }

  lemma EarlierDiffers<K, V>(d: Dict<K, V>, e: (K, V))
    requires Unique(d) && d != [] && e in d[..|d| - 1]
    ensures e.0 != d[|d| - 1].0
  {
    var j :| 0 <= j < |d| - 1 && d[..|d| - 1][j] == e;
    assert d[j] == e;
  }

  lemma GetAt<K, V>(d: Dict<K, V>, i: nat)
    requires Unique(d) && i < |d|
    ensures Get(d, d[i].0) == Some(d[i].1)
  {
    var r := Get(d, d[i].0);
    var j :| 0 <= j < |d| && d[j] == (d[i].0, r.value);
    assert j == i;
  }

  lemma PutInPlaceKeepsKeys<K, V>(d: Dict<K, V>, k: K, v: V)
    requires Unique(d) && k in Keys(d)
    ensures Unique(Put(d, k, v))
  {
    var r := Put(d, k, v);
    forall i, j | 0 <= i < j < |r| ensures r[i].0 != r[j].0 {
      assert r[i].0 == d[i].0 && r[j].0 == d[j].0;
    }
  }

  lemma GetPresentAfterPut<K, V>(d: Dict<K, V>, k: K, v: V, i: nat)
    requires Unique(d) && k in Keys(d) && i < |d|
    ensures Get(Put(d, k, v), d[i].0) == if d[i].0 == k then Some(v) else Some(d[i].1)
  {
    PutInPlaceKeepsKeys(d, k, v);
    GetAt(Put(d, k, v), i);
  }

  lemma GetAbsentAfterPut<K, V>(d: Dict<K, V>, k: K, v: V, x: K)
    requires Unique(d) && k in Keys(d) && forall i :: 0 <= i < |d| ==> d[i].0 != x
    ensures Get(Put(d, k, v), x) == None
  {
    var r := Put(d, k, v);
    assert forall i :: 0 <= i < |r| ==> r[i].0 == d[i].0;
  }

  lemma GetAfterPut<K, V>(d: Dict<K, V>, k: K, v: V, x: K)
    requires Unique(d) && k in Keys(d)
    ensures Get(Put(d, k, v), x) == if x == k then Some(v) else Get(d, x)
  {
    if i :| 0 <= i < |d| && d[i].0 == x {
      GetPresentAfterPut(d, k, v, i);
      GetAt(d, i);
    } else {
      GetAbsentAfterPut(d, k, v, x);
    }
  }

  lemma MapsAgree<K, V>(a: map<K, V>, b: map<K, V>)
    requires forall x :: (x in a <==> x in b) && (x in a ==> a[x] == b[x])
    ensures a == b
  {
  }

  lemma PutInPlaceAt<K, V>(d: Dict<K, V>, r: Dict<K, V>, k: K, v: V, x: K)
    requires Unique(d) && k in Keys(d) && r == Put(d, k, v)
    ensures x in ToMap(r) <==> x in ToMap(d)[k := v]
    ensures x in ToMap(r) ==> ToMap(r)[x] == ToMap(d)[k := v][x]
  {
    GetAfterPut(d, k, v, x);
    GetIsMap(r, x);
    GetIsMap(d, x);
  }

  lemma PutInPlaceIsMap<K, V>(d: Dict<K, V>, k: K, v: V)
    requires Unique(d) && k in Keys(d)
    ensures Unique(Put(d, k, v)) && ToMap(Put(d, k, v)) == ToMap(d)[k := v]
  {
    var r := Put(d, k, v);
    PutInPlaceKeepsKeys(d, k, v);
    forall x {
      PutInPlaceAt(d, r, k, v, x);
    }
    MapsAgree(ToMap(r), ToMap(d)[k := v]);
  }

  lemma PutIsMap<K, V>(d: Dict<K, V>, k: K, v: V)
    requires Unique(d)
    ensures Unique(Put(d, k, v)) && ToMap(Put(d, k, v)) == ToMap(d)[k := v]
  {
    if k in Keys(d) {
      PutInPlaceIsMap(d, k, v);
    } else {
      Extend(d, (k, v));
    }
  }

  lemma {:induction false} DelKeys<K, V>(d: Dict<K, V>, k: K, i: nat)
    requires i < |Del(d, k)|
    ensures Del(d, k)[i] in d
  {
    if d != [] {
      var n := |d| - 1;
      if d[n].0 != k && i < |Del(d[..n], k)| {
        DelKeys(d[..n], k, i);
      }
    }
  }

  lemma DelStaysApart<K, V>(d: Dict<K, V>, k: K)
    requires Unique(d) && d != []
    ensures var r := Del(d[..|d| - 1], k); forall i :: 0 <= i < |r| ==> r[i].0 != d[|d| - 1].0
  {
    var r := Del(d[..|d| - 1], k);
    forall i | 0 <= i < |r| ensures r[i].0 != d[|d| - 1].0 {
      DelKeys(d[..|d| - 1], k, i);
      EarlierDiffers(d, r[i]);
    }
  }

  lemma DelLastIsMap<K, V>(d: Dict<K, V>)
    requires Unique(d) && d != []
    ensures ToMap(d[..|d| - 1]) == ToMap(d) - {d[|d| - 1].0}
  {
    var init, k := d[..|d| - 1], d[|d| - 1].0;
    MapMembers(init, k);
    assert forall i :: 0 <= i < |init| ==> init[i] == d[i] && init[i].0 != k;
  }

  lemma RemoveThenAdd<K, V>(m: map<K, V>, k: K, x: K, v: V)
    requires x != k
    ensures (m - {k})[x := v] == m[x := v] - {k}
  {
  }

  lemma DelEarlierIsMap<K, V>(d: Dict<K, V>, k: K)
    requires Unique(d) && d != [] && d[|d| - 1].0 != k
    requires var init := d[..|d| - 1]; Unique(Del(init, k)) && ToMap(Del(init, k)) == ToMap(init) - {k}
    ensures Unique(Del(d, k)) && ToMap(Del(d, k)) == ToMap(d) - {k}
  {
    var init, last := d[..|d| - 1], d[|d| - 1];
    DelStaysApart(d, k);
    Extend(Del(init, k), last);
    RemoveThenAdd(ToMap(init), k, last.0, last.1);
    assert Del(d, k) == Del(init, k) + [last];
  }

  lemma {:induction false} DelIsMap<K, V>(d: Dict<K, V>, k: K)
    requires Unique(d)
    ensures Unique(Del(d, k)) && ToMap(Del(d, k)) == ToMap(d) - {k}
  {
    if d != [] {
      if d[|d| - 1].0 == k {
        DelLastIsMap(d);
      } else {
        DelIsMap(d[..|d| - 1], k);
        DelEarlierIsMap(d, k);
      }
    }
  }
}
