/**
 * Grouping the admitted elements of a sequence by a key, groups in the order their first
 * element appears: the shape of filling a dictionary in a loop and remembering each new key
 * in a list.
 */
module Grouping {
  import opened Wrappers

  /** The first element of `s` that `keep` admits and whose key is `k`. */
  function FirstWith<T, K(==,!new)>(s: seq<T>, keep: T -> bool, key: T -> K, k: K): Option<T> {
    if s == [] then None
    else
      var prev := FirstWith(s[..|s| - 1], keep, key, k);
      var last := s[|s| - 1];
      if prev.Some? then prev
      else if keep(last) && key(last) == k then Some(last)
      else None
  }

  /** The distinct keys of the admitted elements, in the order of their first element. */
  function KeysOf<T, K(==,!new)>(s: seq<T>, keep: T -> bool, key: T -> K): seq<K> {
    if s == [] then []
    else
      var prev := KeysOf(s[..|s| - 1], keep, key);
      var last := s[|s| - 1];
      if keep(last) && key(last) !in prev then prev + [key(last)] else prev
  }

  /** The keys are distinct, and a key is listed exactly when some admitted element has it. */
  lemma {:induction false} KeysOfMeans<T, K(!new)>(s: seq<T>, keep: T -> bool, key: T -> K)
    ensures var r := KeysOf(s, keep, key);
      && (forall a, b :: 0 <= a < b < |r| ==> r[a] != r[b])
      && (forall k :: k in r <==> FirstWith(s, keep, key, k).Some?)
  {
    if s != [] {
      var init, last := s[..|s| - 1], s[|s| - 1];
      KeysOfMeans(init, keep, key);
      var prev := KeysOf(init, keep, key);
      forall k ensures k in KeysOf(s, keep, key) <==> FirstWith(s, keep, key, k).Some? {
        assert FirstWith(s, keep, key, k).Some?
            <==> FirstWith(init, keep, key, k).Some? || (keep(last) && key(last) == k);
      }
    }
  }

  /** The names of the admitted elements whose key is `k`, in order. */
  function NamesWith<T, K(==,!new), L>(s: seq<T>, keep: T -> bool, key: T -> K, name: T -> L, k: K): seq<L> {
    if s == [] then []
    else
      var last := s[|s| - 1];
      NamesWith(s[..|s| - 1], keep, key, name, k) + (if keep(last) && key(last) == k then [name(last)] else [])
  }

  /** There is a first element with key `k` exactly when some admitted element has that key; it is the earliest such. */
  lemma {:induction false} FirstWithMeans<T, K(!new)>(s: seq<T>, keep: T -> bool, key: T -> K, k: K)
    ensures FirstWith(s, keep, key, k).Some? <==> exists i :: 0 <= i < |s| && keep(s[i]) && key(s[i]) == k
    ensures FirstWith(s, keep, key, k).Some? ==>
      exists i :: 0 <= i < |s| && FirstWith(s, keep, key, k) == Some(s[i]) && keep(s[i]) && key(s[i]) == k
                  && forall j :: 0 <= j < i ==> !(keep(s[j]) && key(s[j]) == k)
  {
    if s != [] {
      var init := s[..|s| - 1];
      FirstWithMeans(init, keep, key, k);
      if exists i :: 0 <= i < |s| && keep(s[i]) && key(s[i]) == k {
        var i :| 0 <= i < |s| && keep(s[i]) && key(s[i]) == k;
        if i < |init| {
          assert init[i] == s[i];
        }
      }
      if FirstWith(init, keep, key, k).Some? {
        var i :| 0 <= i < |init| && FirstWith(init, keep, key, k) == Some(init[i]) && keep(init[i]) && key(init[i]) == k
                 && forall j :: 0 <= j < i ==> !(keep(init[j]) && key(init[j]) == k);
        assert s[i] == init[i];
        forall j | 0 <= j < i ensures !(keep(s[j]) && key(s[j]) == k) {
          assert s[j] == init[j];
        }
      } else if FirstWith(s, keep, key, k).Some? {
        forall j | 0 <= j < |s| - 1 ensures !(keep(s[j]) && key(s[j]) == k) {
          assert s[j] == init[j];
        }
      } else {
        forall i | 0 <= i < |init| ensures !(keep(s[i]) && key(s[i]) == k) {
          assert s[i] == init[i];
        }
      }
    }
  }

  /** A name is listed under `k` exactly when some admitted element with key `k` carries it. */
  lemma {:induction false} NamesWithMeans<T, K(!new), L>(s: seq<T>, keep: T -> bool, key: T -> K, name: T -> L, k: K, x: L)
    ensures x in NamesWith(s, keep, key, name, k)
        <==> exists i :: 0 <= i < |s| && keep(s[i]) && key(s[i]) == k && name(s[i]) == x
  {
    if s != [] {
      var init := s[..|s| - 1];
      NamesWithMeans(init, keep, key, name, k, x);
      if exists i :: 0 <= i < |s| && keep(s[i]) && key(s[i]) == k && name(s[i]) == x {
        var i :| 0 <= i < |s| && keep(s[i]) && key(s[i]) == k && name(s[i]) == x;
        if i < |init| {
          assert init[i] == s[i];
        }
      }
      if x in NamesWith(init, keep, key, name, k) {
        var i :| 0 <= i < |init| && keep(init[i]) && key(init[i]) == k && name(init[i]) == x;
        assert s[i] == init[i];
      }
    }
  }

  /** Every admitted element is named under its own key, and that key is listed exactly once. */
  lemma InOneGroup<T, K(!new), L>(s: seq<T>, keep: T -> bool, key: T -> K, name: T -> L, i: nat)
    requires i < |s| && keep(s[i])
    ensures var keys := KeysOf(s, keep, key);
      && key(s[i]) in keys
      && (forall g, h :: 0 <= g < |keys| && 0 <= h < |keys| && keys[g] == keys[h] ==> g == h)
      && name(s[i]) in NamesWith(s, keep, key, name, key(s[i]))
  {
    KeysOfMeans(s, keep, key);
    FirstWithMeansSome(s, keep, key, i);
    NamesWithMeans(s, keep, key, name, key(s[i]), name(s[i]));
  }

  lemma FirstWithMeansSome<T, K(!new)>(s: seq<T>, keep: T -> bool, key: T -> K, i: nat)
    requires i < |s| && keep(s[i])
    ensures FirstWith(s, keep, key, key(s[i])).Some?
    decreases |s|
  {
    var init := s[..|s| - 1];
    if i < |init| {
      assert init[i] == s[i];
      FirstWithMeansSome(init, keep, key, i);
    }
  }

  /** A dictionary entry: the value taken from the first element of a key, and the names of all of them. */
  datatype Entry<V, L> = Entry(first: V, names: seq<L>)

  /**
   * The dictionary filled by visiting the admitted elements in order: a new key gets an entry
   * holding `val` of its element and no names; then the element's name is appended.
   */
  function Groups<T, K(==,!new), V, L>(s: seq<T>, keep: T -> bool, key: T -> K, val: T -> V, name: T -> L): map<K, Entry<V, L>> {
    if s == [] then map[]
    else
      var m := Groups(s[..|s| - 1], keep, key, val, name);
      var last := s[|s| - 1];
      if !keep(last) then m
      else
        var g := if key(last) in m then m[key(last)] else Entry(val(last), []);
        m[key(last) := g.(names := g.names + [name(last)])]
  }

  /** The entry of key `k` holds `val` of the first element with that key and the names of all of them. */
  lemma {:induction false} GroupsAt<T, K(!new), V, L>(s: seq<T>, keep: T -> bool, key: T -> K, val: T -> V, name: T -> L, k: K)
    ensures k in Groups(s, keep, key, val, name) <==> FirstWith(s, keep, key, k).Some?
    ensures k in Groups(s, keep, key, val, name) ==>
      Groups(s, keep, key, val, name)[k] == Entry(val(FirstWith(s, keep, key, k).value), NamesWith(s, keep, key, name, k))
  {
    if s != [] {
      var init, last := s[..|s| - 1], s[|s| - 1];
      GroupsAt(init, keep, key, val, name, k);
      var m := Groups(init, keep, key, val, name);
      assert NamesWith(s, keep, key, name, k)
          == NamesWith(init, keep, key, name, k) + (if keep(last) && key(last) == k then [name(last)] else []);
      if keep(last) && key(last) == k {
        if k in m {
          assert Groups(s, keep, key, val, name) == m[k := m[k].(names := m[k].names + [name(last)])];
        } else {
          assert NamesWith(init, keep, key, name, k) == [] by {
            NamesWithEmpty(init, keep, key, name, k);
          }
          assert [] + [name(last)] == [name(last)];
          assert Groups(s, keep, key, val, name) == m[k := Entry(val(last), [name(last)])];
        }
      }
    }
  }

  /** No first element with key `k` means no names under `k`. */
  lemma {:induction false} NamesWithEmpty<T, K(!new), L>(s: seq<T>, keep: T -> bool, key: T -> K, name: T -> L, k: K)
    requires FirstWith(s, keep, key, k).None?
    ensures NamesWith(s, keep, key, name, k) == []
  {
    if s != [] {
      NamesWithEmpty(s[..|s| - 1], keep, key, name, k);
    }
  }

  /**
   * One more element: when it is admitted and its key is new, the key is appended to the keys
   * and gets a fresh entry; when admitted and known, its name is appended to the entry; otherwise
   * nothing changes.
   */
  lemma GroupStep<T, K(!new), V, L>(s: seq<T>, keep: T -> bool, key: T -> K, val: T -> V, name: T -> L, i: nat)
    requires i < |s|
    ensures var keys := KeysOf(s[..i], keep, key);
      var m := Groups(s[..i], keep, key, val, name);
      var k := key(s[i]);
      && (!keep(s[i]) ==> KeysOf(s[..i + 1], keep, key) == keys && Groups(s[..i + 1], keep, key, val, name) == m)
      && (keep(s[i]) && k !in m ==>
            KeysOf(s[..i + 1], keep, key) == keys + [k]
            && Groups(s[..i + 1], keep, key, val, name) == m[k := Entry(val(s[i]), [name(s[i])])])
      && (keep(s[i]) && k in m ==>
            KeysOf(s[..i + 1], keep, key) == keys
            && Groups(s[..i + 1], keep, key, val, name) == m[k := m[k].(names := m[k].names + [name(s[i])])])
  {
    assert s[..i + 1][..i] == s[..i];
    assert [] + [name(s[i])] == [name(s[i])];
    KeysOfMeans(s[..i], keep, key);
    GroupsAt(s[..i], keep, key, val, name, key(s[i]));
  }

  /** The keys are exactly the keys of the dictionary. */
  lemma KeysOfGroups<T, K(!new), V, L>(s: seq<T>, keep: T -> bool, key: T -> K, val: T -> V, name: T -> L)
    ensures forall k :: k in KeysOf(s, keep, key) <==> k in Groups(s, keep, key, val, name)
  {
    KeysOfMeans(s, keep, key);
    forall k {
      GroupsAt(s, keep, key, val, name, k);
    }
  }
}
