/** Reading a map back as a sequence: `Array.from(map.keys())` and
    `Array.from(map.values()).sort((a, b) => a.zIndex - b.zIndex)`.
    A Dafny map has no insertion order, so a listing is any order of its
    keys, each exactly once. */
module Listing {
  import opened Elements

  /** Every key of `m`, each exactly once, in some order. */
  method KeysOf<V>(m: map<string, V>) returns (ks: seq<string>)
    ensures multiset(ks) == multiset(m.Keys)
  {
    ks := [];
    var rest := m.Keys;
    while rest != {}
      invariant rest <= m.Keys
      invariant multiset(ks) + multiset(rest) == multiset(m.Keys)
      decreases rest
    {
      var k :| k in rest;
      assert multiset(rest) == multiset(rest - {k}) + multiset{k};
      ks := ks + [k];
      rest := rest - {k};
    }
  }

  ghost predicate SortedByZ(s: seq<Element>) {
    forall i, j :: 0 <= i < j < |s| ==> s[i].zIndex <= s[j].zIndex
  }

  /** `ks` lists the keys of `m` once each, and `r[i]` is the value at `ks[i]`. */
  ghost predicate ListedBy<V>(ks: seq<string>, r: seq<V>, m: map<string, V>) {
    && multiset(ks) == multiset(m.Keys)
    && |r| == |ks|
    && forall i :: 0 <= i < |ks| ==> ks[i] in m && r[i] == m[ks[i]]
  }

  /** `r` holds the values of `m`, one per key, in some order. */
  ghost predicate ListsValuesOf<V>(r: seq<V>, m: map<string, V>) {
    exists ks :: ListedBy(ks, r, m)
  }

  ghost predicate AllIn(ks: seq<string>, m: Elements) {
    forall x :: x in ks ==> x in m
  }

  ghost predicate KeysSortedByZ(ks: seq<string>, m: Elements)
    requires AllIn(ks, m)
  {
    forall i, j :: 0 <= i < j < |ks| ==> m[ks[i]].zIndex <= m[ks[j]].zIndex
  }

  /** Inserts `k` before the first key whose element has a z-order not below its own. */
  function InsertByZ(k: string, ks: seq<string>, m: Elements): (r: seq<string>)
    requires k in m && AllIn(ks, m) && KeysSortedByZ(ks, m)
    ensures multiset(r) == multiset(ks) + multiset{k}
    ensures AllIn(r, m) && KeysSortedByZ(r, m)
  {
    if |ks| == 0 then [k]
    else if m[k].zIndex <= m[ks[0]].zIndex then [k] + ks
    else
      var tail := InsertByZ(k, ks[1..], m);
      InsertAfterHead(k, ks, tail, m);
      [ks[0]] + tail
  }

  lemma InsertAfterHead(k: string, ks: seq<string>, tail: seq<string>, m: Elements)
    requires k in m && AllIn(ks, m) && KeysSortedByZ(ks, m) && |ks| > 0
    requires m[ks[0]].zIndex < m[k].zIndex
    requires multiset(tail) == multiset(ks[1..]) + multiset{k}
    requires AllIn(tail, m) && KeysSortedByZ(tail, m)
    ensures multiset([ks[0]] + tail) == multiset(ks) + multiset{k}
    ensures AllIn([ks[0]] + tail, m) && KeysSortedByZ([ks[0]] + tail, m)
  {
    assert ks == [ks[0]] + ks[1..];
    forall j | 0 <= j < |tail|
      ensures m[ks[0]].zIndex <= m[tail[j]].zIndex
    {
      assert tail[j] in multiset(tail);
      if tail[j] != k {
        assert tail[j] in multiset(ks[1..]);
        var i :| 0 <= i < |ks[1..]| && ks[1..][i] == tail[j];
        assert ks[i + 1] == tail[j];
      }
    }
    var r := [ks[0]] + tail;
    forall i, j | 0 <= i < j < |r|
      ensures m[r[i]].zIndex <= m[r[j]].zIndex
    {
      if i > 0 {
        assert r[i] == tail[i - 1] && r[j] == tail[j - 1];
      } else {
        assert r[j] == tail[j - 1];
      }
    }
  }

  /** Insertion sort of keys by the z-order of their elements. */
  function SortByZ(ks: seq<string>, m: Elements): (r: seq<string>)
    requires AllIn(ks, m)
    ensures multiset(r) == multiset(ks)
    ensures AllIn(r, m) && KeysSortedByZ(r, m)
  {
    if |ks| == 0 then []
    else
      assert ks == [ks[0]] + ks[1..];
      InsertByZ(ks[0], SortByZ(ks[1..], m), m)
  }

  /** `Array.from(m.values())`: the values of `m`, one per key. */
  method ValuesOf<V>(m: map<string, V>) returns (r: seq<V>)
    ensures ListsValuesOf(r, m)
  {
    var ks := KeysOf(m);
    assert forall x :: x in ks ==> x in m by {
      forall x | x in ks ensures x in m {
        assert x in multiset(ks);
      }
    }
    r := seq(|ks|, i requires 0 <= i < |ks| => m[ks[i]]);
    assert ListedBy(ks, r, m);
  }

  /** The values of `m` ordered by non-decreasing z-order. */
  method SortedValues(m: Elements) returns (r: seq<Element>)
    ensures SortedByZ(r)
    ensures ListsValuesOf(r, m)
  {
    var ks := KeysOf(m);
    assert forall x :: x in ks ==> x in m by {
      forall x | x in ks ensures x in m {
        assert x in multiset(ks);
      }
    }
    var sorted := SortByZ(ks, m);
    assert forall x :: x in sorted ==> x in m by {
      forall x | x in sorted ensures x in m {
        assert x in multiset(sorted);
      }
    }
    r := seq(|sorted|, i requires 0 <= i < |sorted| => m[sorted[i]]);
    assert ListedBy(sorted, r, m);
  }
}
