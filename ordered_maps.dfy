/**
 * Python's insertion-ordered `dict`: the keys in insertion order plus the
 * key-to-value map. Every operation the launcher performs on an ordered dict
 * is here, with what it does to the key order and to the values.
 */
module OrderedMaps {

  predicate Distinct<K(==)>(s: seq<K>) {
    forall i, j :: 0 <= i < j < |s| ==> s[i] != s[j]
  }

  /** Putting a new element in front of a duplicate-free sequence keeps it duplicate-free. */
  lemma DistinctCons<K>(x: K, t: seq<K>)
    requires x !in t && Distinct(t)
    ensures Distinct([x] + t)
  {
    var s := [x] + t;
    forall i, j | 0 <= i < j < |s| ensures s[i] != s[j] {
      if i > 0 {
        assert s[i] == t[i - 1] && s[j] == t[j - 1];
      } else {
        assert s[j] == t[j - 1];
      }
    }
  }

  /** Putting a new element after a duplicate-free sequence keeps it duplicate-free. */
  lemma DistinctSnoc<K>(t: seq<K>, x: K)
    requires x !in t && Distinct(t)
    ensures Distinct(t + [x])
  {
    var s := t + [x];
    forall i, j | 0 <= i < j < |s| ensures s[i] != s[j] {
      assert s[i] == t[i];
      if j < |t| {
        assert s[j] == t[j];
      }
    }
  }

  datatype OrderedMap<K(==,!new), V> = OrderedMap(keys: seq<K>, values: map<K, V>) {
    /** Keys are listed once each, and exactly the keys of the map are listed. */
    ghost predicate Valid() {
      Distinct(keys) && (forall k :: k in values <==> k in keys)
    }

    /** `list(d.values())`: the values in key order. */
    function Values(): (r: seq<V>)
      requires Valid()
      ensures |r| == |keys|
      ensures forall i :: 0 <= i < |keys| ==> r[i] == values[keys[i]]
    {
      ValuesOf(keys, values)
    }
  }

  function ValuesOf<K, V>(keys: seq<K>, values: map<K, V>): (r: seq<V>)
    requires forall k :: k in keys ==> k in values
    ensures |r| == |keys|
    ensures forall i :: 0 <= i < |keys| ==> r[i] == values[keys[i]]
  {
    if keys == [] then [] else [values[keys[0]]] + ValuesOf(keys[1..], values)
  }

  function Empty<K(==,!new), V>(): (d: OrderedMap<K, V>)
    ensures d.Valid() && d.keys == [] && d.values == map[]
  {
    OrderedMap([], map[])
  }

  /** `d[k] = v`: a new key goes last; an existing key keeps its place and takes the new value. */
  function Put<K(==,!new), V>(d: OrderedMap<K, V>, k: K, v: V): (r: OrderedMap<K, V>)
    requires d.Valid()
    ensures r.Valid()
    ensures r.values == d.values[k := v]
    ensures k in d.values ==> r.keys == d.keys
    ensures k !in d.values ==> r.keys == d.keys + [k]
  {
    if k in d.values then OrderedMap(d.keys, d.values[k := v])
    else OrderedMap(d.keys + [k], d.values[k := v])
  }

  /** The keys of `s` other than `k`, in order. */
  function Without<K(==,!new)>(s: seq<K>, k: K): (r: seq<K>)
    ensures forall x :: x in r <==> x in s && x != k
    ensures Distinct(s) ==> Distinct(r)
    ensures k !in s ==> r == s
  {
    if s == [] then []
    else if s[0] == k then Without(s[1..], k)
    else
      var rest := Without(s[1..], k);
      if Distinct(s) then
        assert Distinct(s[1..]) by {
          forall i, j | 0 <= i < j < |s[1..]| ensures s[1..][i] != s[1..][j] {
            assert s[1..][i] == s[i + 1] && s[1..][j] == s[j + 1];
          }
        }
        assert s[0] !in s[1..] by {
          forall i | 0 <= i < |s[1..]| ensures s[1..][i] != s[0] {
            assert s[1..][i] == s[i + 1];
          }
        }
        DistinctCons(s[0], rest);
        [s[0]] + rest
      else
        [s[0]] + rest
  }

  /**
   * `u = {k: v}; u.update(d)`: `k` comes first; if `d` already has `k`, its
   * value wins; the other keys follow in `d`'s order.
   */
  function PrependUpdate<K(==,!new), V>(k: K, v: V, d: OrderedMap<K, V>): (r: OrderedMap<K, V>)
    requires d.Valid()
    ensures r.Valid()
    ensures r.keys == [k] + Without(d.keys, k)
    ensures r.values == if k in d.values then d.values else d.values[k := v]
  {
    OrderedMap([k] + Without(d.keys, k), if k in d.values then d.values else d.values[k := v])
  }
}
