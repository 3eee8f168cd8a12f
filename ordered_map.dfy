/** Python's insertion-ordered `dict`, as far as the station uses it:
    assignment `d[k] = v` (a new key goes to the end, an existing key keeps its
    place), `d.pop(k)`, `d.update(other)` and iteration in insertion order. */
module OrderedMap {

  datatype Dict<K(!new), V> = Dict(keys: seq<K>, entries: map<K, V>) {

    /** Keys are distinct and are exactly the keys of `entries`. */
    ghost predicate Valid() {
      && (forall i, j :: 0 <= i < j < |keys| ==> keys[i] != keys[j])
      && (forall k :: k in entries <==> k in keys)
    }

    predicate IsEmpty() {
      keys == []
    }

    /** `d[k] = v`. */
    function Put(k: K, v: V): (r: Dict<K, V>)
      requires Valid()
      ensures r.Valid()
      ensures r.entries == entries[k := v]
      ensures r.keys == if k in entries then keys else keys + [k]
    {
      if k in entries then Dict(keys, entries[k := v]) else Dict(keys + [k], entries[k := v])
    }

    /** `d.pop(k)` for a key that is present. */
    function Pop(k: K): (r: Dict<K, V>)
      requires Valid() && k in entries
      ensures r.Valid()
      ensures r.entries == entries - {k}
      ensures forall x :: x in r.keys <==> x in keys && x != k
      ensures forall i :: 0 <= i < |keys| && keys[i] == k ==> r.keys == keys[..i] + keys[i + 1..]
    {
      WithoutAt(keys, k);
      Dict(Without(keys, k), entries - {k})
    }

    /** `d.update(other)`: every entry of `other` put in `other`'s order, so
        a key already present keeps its place and gets `other`'s value, and
        the new keys follow in `other`'s order. */
    function Update(other: Dict<K, V>): (r: Dict<K, V>)
      requires Valid() && other.Valid()
      ensures r.Valid()
      ensures r.entries == entries + other.entries
      ensures |keys| <= |r.keys| && r.keys[..|keys|] == keys
      ensures forall i :: |keys| <= i < |r.keys| ==> r.keys[i] in other.entries && r.keys[i] !in entries
      ensures r.keys == keys + NotIn(other.keys, entries)
    {
      var added := NotIn(other.keys, entries);
      DistinctAppend(keys, added);
      assert (keys + added)[..|keys|] == keys;
      Dict(keys + added, entries + other.entries)
    }
  }

  /** The elements of `s` that are not keys of `m`, in order. */
  function NotIn<K(!new), V>(s: seq<K>, m: map<K, V>): (r: seq<K>)
    ensures forall x :: x in r <==> x in s && x !in m
    ensures (forall i, j :: 0 <= i < j < |s| ==> s[i] != s[j]) ==>
              (forall i, j :: 0 <= i < j < |r| ==> r[i] != r[j])
    ensures (forall x :: x in s ==> x !in m) ==> r == s
  {
    if s == [] then []
    else
      var rest := NotIn(s[1..], m);
      if s[0] in m then rest
      else
        assert s[0] !in s[1..] ==> s[0] !in rest;
        [s[0]] + rest
  }

  lemma DistinctAppend<K>(a: seq<K>, b: seq<K>)
    requires forall i, j :: 0 <= i < j < |a| ==> a[i] != a[j]
    requires forall i, j :: 0 <= i < j < |b| ==> b[i] != b[j]
    requires forall x :: x in b ==> x !in a
    ensures forall i, j :: 0 <= i < j < |a + b| ==> (a + b)[i] != (a + b)[j]
  {
    forall i, j | 0 <= i < j < |a + b|
      ensures (a + b)[i] != (a + b)[j]
    {
      if j >= |a| && i < |a| {
        assert (a + b)[j] in b;
      }
    }
  }

  function Empty<K(!new), V>(): (r: Dict<K, V>)
    ensures r.Valid() && r.IsEmpty() && r.entries == map[]
  {
    Dict([], map[])
  }

  function Without<K(==,!new)>(s: seq<K>, k: K): (r: seq<K>)
    ensures forall x :: x in r <==> x in s && x != k
    ensures (forall i, j :: 0 <= i < j < |s| ==> s[i] != s[j]) ==>
              (forall i, j :: 0 <= i < j < |r| ==> r[i] != r[j])
  {
    if s == [] then []
    else if s[0] == k then Without(s[1..], k)
    else
      var rest := Without(s[1..], k);
      assert s[0] !in s[1..] ==> s[0] !in rest;
      [s[0]] + rest
  }

  /** In a sequence of distinct elements, removing `k` found at position `i`
      leaves the elements before and after it, in order. */
  lemma {:induction false} WithoutAt<K(!new)>(s: seq<K>, k: K)
    ensures (forall a, b :: 0 <= a < b < |s| ==> s[a] != s[b]) ==>
              forall i :: 0 <= i < |s| && s[i] == k ==> Without(s, k) == s[..i] + s[i + 1..]
    decreases |s|
  {
    if s != [] && (forall a, b :: 0 <= a < b < |s| ==> s[a] != s[b]) {
      WithoutAt(s[1..], k);
      forall i | 0 <= i < |s| && s[i] == k
        ensures Without(s, k) == s[..i] + s[i + 1..]
      {
        if i == 0 {
          assert k !in s[1..];
          WithoutAbsent(s[1..], k);
        } else {
          assert s[1..][i - 1] == k;
          assert s[0] != k;
          assert s[1..][..i - 1] + s[1..][i..] == s[1..i] + s[i + 1..];
          assert [s[0]] + s[1..i] == s[..i];
        }
      }
    }
  }

  /** Removing an element that does not occur changes nothing. */
  lemma {:induction false} WithoutAbsent<K(!new)>(s: seq<K>, k: K)
    requires k !in s
    ensures Without(s, k) == s
    decreases |s|
  {
    if s != [] {
      WithoutAbsent(s[1..], k);
    }
  }
}
