/**
 * A JavaScript `Map` with string keys: a finite map that remembers the order in
 * which its keys were first inserted. `set` on a present key keeps its position,
 * `delete` removes the key from the order.
 */
module OrderedMaps {
  import opened Wrappers

  /** No key occurs twice in `s`. */
  predicate Distinct(s: seq<string>) {
    s == [] || (s[0] !in s[1..] && Distinct(s[1..]))
  }

  /** Distinct keys sit at distinct positions. */
  lemma {:induction false} DistinctMeans(s: seq<string>)
    requires Distinct(s)
    ensures forall i, j :: 0 <= i < j < |s| ==> s[i] != s[j]
  {
    if s != [] {
      DistinctMeans(s[1..]);
      forall i, j | 0 <= i < j < |s| ensures s[i] != s[j] {
        if i == 0 {
          assert s[j] == s[1..][j - 1];
        } else {
          assert s[i] == s[1..][i - 1] && s[j] == s[1..][j - 1];
        }
      }
    }
  }

  /** The key at position `n - 1` does not occur before it. */
  lemma DistinctNewAt(s: seq<string>, n: nat)
    requires Distinct(s) && 0 < n <= |s|
    ensures s[n - 1] !in s[..n - 1]
  {
    DistinctMeans(s);
  }

  /** Appending a key not yet present keeps the keys distinct. */
  lemma {:induction false} DistinctAppend(s: seq<string>, k: string)
    requires Distinct(s) && k !in s
    ensures Distinct(s + [k])
  {
    if s != [] {
      assert (s + [k])[1..] == s[1..] + [k];
      DistinctAppend(s[1..], k);
    }
  }

  /** `s` without the occurrences of `k`. */
  function Without(s: seq<string>, k: string): (r: seq<string>)
    ensures forall x :: x in r <==> x in s && x != k
    ensures Distinct(s) ==> Distinct(r)
    ensures k !in s ==> r == s
  {
    if s == [] then []
    else
      var rest := Without(s[1..], k);
      if s[0] == k then rest
      else
        assert ([s[0]] + rest)[1..] == rest;
        [s[0]] + rest
  }

  /** Removing a key that occurs once cuts it out of its position; the other keys keep their order. */
  lemma {:induction false} WithoutAt(s: seq<string>, k: string, p: nat)
    requires Distinct(s) && p < |s| && s[p] == k
    ensures Without(s, k) == s[..p] + s[p + 1..]
  {
    var tail := s[1..];
    if p == 0 {
      assert k !in tail;
      assert Without(s, k) == Without(tail, k) == tail;
    } else {
      assert tail[p - 1] == k;
      assert s[0] != k;
      WithoutAt(tail, k, p - 1);
      assert Without(s, k) == [s[0]] + Without(tail, k);
      assert s[..p] == [s[0]] + tail[..p - 1];
      assert s[p + 1..] == tail[p..];
    }
  }

  datatype OrderedMap<V> = OrderedMap(keys: seq<string>, values: map<string, V>) {

    /** Every key appears once in the order, and the order lists exactly the keys of the map. */
    ghost predicate Valid() {
      Distinct(keys) && forall k :: k in values <==> k in keys
    }

    /** `Map.prototype.size`. */
    function Size(): nat {
      |keys|
    }

    function Get(k: string): (r: Option<V>)
      ensures r.Some? <==> k in values
      ensures r.Some? ==> r.value == values[k]
    {
      if k in values then Some(values[k]) else None
    }

    /** `Map.prototype.set`: a new key goes to the end of the order, a present one keeps its place. */
    function Set(k: string, v: V): (r: OrderedMap<V>)
      ensures r.values == values[k := v]
      ensures r.keys == if k in values then keys else keys + [k]
      ensures Valid() ==> r.Valid()
    {
      if k in values then OrderedMap(keys, values[k := v])
      else
        assert Valid() ==> Distinct(keys + [k]) by {
          if Valid() {
            DistinctAppend(keys, k);
          }
        }
        OrderedMap(keys + [k], values[k := v])
    }

    /** `Map.prototype.delete`. */
    function Delete(k: string): (r: OrderedMap<V>)
      ensures r.values == values - {k}
      ensures r.keys == Without(keys, k)
      ensures Valid() ==> r.Valid()
    {
      OrderedMap(Without(keys, k), values - {k})
    }

    /** `Array.from(map.entries())`. */
    function Entries(): (r: seq<(string, V)>)
      requires Valid()
      ensures |r| == |keys|
      ensures forall i :: 0 <= i < |r| ==> r[i] == (keys[i], values[keys[i]])
    {
      seq(|keys|, i requires 0 <= i < |keys| => (keys[i], values[keys[i]]))
    }
  }

  function Empty<V>(): (r: OrderedMap<V>)
    ensures r.Valid() && r.Size() == 0 && r.values == map[]
  {
    OrderedMap([], map[])
  }

  /** In a valid map the size counts the keys of the map. */
  lemma SizeIsCardinality<V>(m: OrderedMap<V>)
    requires m.Valid()
    ensures m.Size() == |m.values.Keys|
    ensures m.Size() == 0 <==> m.values == map[]
  {
    DistinctCardinality(m.keys);
    assert m.values.Keys == set k | k in m.keys;
  }

  lemma {:induction false} DistinctCardinality(s: seq<string>)
    requires Distinct(s)
    ensures |set k | k in s| == |s|
  {
    if s != [] {
      DistinctCardinality(s[1..]);
      assert (set k | k in s) == (set k | k in s[1..]) + {s[0]};
      assert s[0] !in s[1..];
    }
  }
}
