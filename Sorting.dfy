/**
 * The stable sort of JavaScript's `Array.prototype.sort` (stable since ECMAScript 2019),
 * for a comparator that is a total preorder: `le(a, b)` holds when the comparator
 * does not place `a` after `b`.
 */
module Sorting {
  import opened Sequences

  ghost predicate TotalPreorder<T(!new)>(le: (T, T) -> bool) {
    (forall a, b :: le(a, b) || le(b, a))
    && (forall a, b, c :: le(a, b) && le(b, c) ==> le(a, c))
  }

  predicate SortedBy<T>(s: seq<T>, le: (T, T) -> bool) {
    forall i, j :: 0 <= i < j < |s| ==> le(s[i], s[j])
  }

  /** Two elements the comparator does not tell apart. */
  predicate Equivalent<T>(le: (T, T) -> bool, a: T, b: T) {
    le(a, b) && le(b, a)
  }

  /** The elements of `s` equivalent to `k`, in their order in `s`. */
  function EquivalentTo<T>(s: seq<T>, le: (T, T) -> bool, k: T): (r: seq<T>)
    ensures |r| <= |s|
  {
    if s == [] then []
    else (if Equivalent(le, s[0], k) then [s[0]] else []) + EquivalentTo(s[1..], le, k)
  }

  /** Inserts `x` before the first element it is not after. */
  function Insert<T>(x: T, s: seq<T>, le: (T, T) -> bool): (r: seq<T>)
    ensures multiset(r) == multiset(s) + multiset{x}
    ensures |r| == |s| + 1
  {
    if s == [] || le(x, s[0]) then [x] + s
    else
      assert s == [s[0]] + s[1..];
      [s[0]] + Insert(x, s[1..], le)
  }

  /** The stable insertion sort of `s`. */
  function Sort<T>(s: seq<T>, le: (T, T) -> bool): (r: seq<T>)
    ensures multiset(r) == multiset(s)
    ensures |r| == |s|
  {
    if s == [] then []
    else
      assert s == [s[0]] + s[1..];
      Insert(s[0], Sort(s[1..], le), le)
  }

  /** Two elements are sorted by one comparison: kept in order unless the first is after the second. */
  lemma SortTwo<T>(a: T, b: T, le: (T, T) -> bool)
    ensures Sort([a, b], le) == if le(a, b) then [a, b] else [b, a]
  {
    assert [a, b][1..] == [b];
    assert Sort([b], le) == [b];
  }

  lemma {:induction false} InsertSorted<T(!new)>(x: T, s: seq<T>, le: (T, T) -> bool)
    requires TotalPreorder(le) && SortedBy(s, le)
    ensures SortedBy(Insert(x, s, le), le)
  {
    if s != [] && !le(x, s[0]) {
      InsertSorted(x, s[1..], le);
      var r := Insert(x, s[1..], le);
      forall y | y in r ensures le(s[0], y) {
        assert y in multiset(r);
        if y != x {
          assert y in multiset(s[1..]);
          var k :| 0 <= k < |s[1..]| && s[1..][k] == y;
          assert s[k + 1] == y;
        }
      }
    }
  }

  /** The result is ordered by `le` and holds the same elements. */
  lemma {:induction false} SortSorted<T(!new)>(s: seq<T>, le: (T, T) -> bool)
    requires TotalPreorder(le)
    ensures SortedBy(Sort(s, le), le)
    ensures multiset(Sort(s, le)) == multiset(s)
  {
    if s != [] {
      SortSorted(s[1..], le);
      InsertSorted(s[0], Sort(s[1..], le), le);
    }
  }

  lemma {:induction false} EquivalentToInsert<T(!new)>(x: T, s: seq<T>, le: (T, T) -> bool, k: T)
    requires TotalPreorder(le) && SortedBy(s, le)
    ensures EquivalentTo(Insert(x, s, le), le, k)
      == (if Equivalent(le, x, k) then [x] else []) + EquivalentTo(s, le, k)
  {
    if s == [] || le(x, s[0]) {
      assert Insert(x, s, le)[1..] == s;
    } else {
      EquivalentToInsert(x, s[1..], le, k);
      assert Insert(x, s, le)[1..] == Insert(x, s[1..], le);
      var ex := if Equivalent(le, x, k) then [x] else [];
      var e0 := if Equivalent(le, s[0], k) then [s[0]] else [];
      assert EquivalentTo(Insert(x, s, le), le, k) == e0 + (ex + EquivalentTo(s[1..], le, k));
      assert EquivalentTo(s, le, k) == e0 + EquivalentTo(s[1..], le, k);
      if Equivalent(le, x, k) {
        NotBothEquivalent(x, s[0], le, k);
        assert e0 == [];
      }
    }
  }

  /** Two elements the comparator tells apart are not both equivalent to `k`. */
  lemma NotBothEquivalent<T(!new)>(x: T, y: T, le: (T, T) -> bool, k: T)
    requires TotalPreorder(le) && !le(x, y) && Equivalent(le, x, k)
    ensures !Equivalent(le, y, k)
  {
  }

  /** Stability: elements the comparator does not tell apart keep their relative order. */
  lemma {:induction false} SortStable<T(!new)>(s: seq<T>, le: (T, T) -> bool, k: T)
    requires TotalPreorder(le)
    ensures EquivalentTo(Sort(s, le), le, k) == EquivalentTo(s, le, k)
  {
    if s != [] {
      SortStable(s[1..], le, k);
      SortSorted(s[1..], le);
      EquivalentToInsert(s[0], Sort(s[1..], le), le, k);
    }
  }

  /** A sequence that is already ordered is left as it is. */
  lemma {:induction false} SortOfSorted<T(!new)>(s: seq<T>, le: (T, T) -> bool)
    requires SortedBy(s, le)
    ensures Sort(s, le) == s
  {
    if s != [] {
      assert SortedBy(s[1..], le);
      SortOfSorted(s[1..], le);
    }
  }

  /** The first element of a sorted non-empty result is not after any element of the input. */
  lemma SortFirstIsLeast<T(!new)>(s: seq<T>, le: (T, T) -> bool)
    requires TotalPreorder(le) && s != []
    ensures forall y :: y in s ==> le(Sort(s, le)[0], y)
  {
    SortSorted(s, le);
    var r := Sort(s, le);
    forall y | y in s ensures le(r[0], y) {
      assert y in multiset(s);
      assert y in multiset(r);
      var k :| 0 <= k < |r| && r[k] == y;
      if k > 0 {
        assert le(r[0], r[k]);
      }
    }
  }

  /** Filtering an ordered sequence leaves it ordered. */
  lemma {:induction false} FilterKeepsOrder<T(!new)>(s: seq<T>, le: (T, T) -> bool, keep: T -> bool)
    requires SortedBy(s, le)
    ensures SortedBy(Filter(s, keep), le)
  {
    if s != [] {
      var init := s[..|s| - 1];
      var last := s[|s| - 1];
      assert SortedBy(init, le);
      FilterKeepsOrder(init, le, keep);
      var f := Filter(init, keep);
      forall i | 0 <= i < |f| ensures le(f[i], last) {
        assert f[i] in f;
        assert f[i] in init;
        var j :| 0 <= j < |init| && init[j] == f[i];
        assert s[j] == f[i];
      }
    }
  }

  ghost predicate Antisymmetric<T(!new)>(le: (T, T) -> bool) {
    forall a, b :: le(a, b) && le(b, a) ==> a == b
  }

  lemma SortedTail<T>(a: seq<T>, le: (T, T) -> bool)
    requires SortedBy(a, le) && a != []
    ensures SortedBy(a[1..], le)
  {
    forall p, q | 0 <= p < q < |a| - 1 ensures le(a[1..][p], a[1..][q]) {
      assert le(a[p + 1], a[q + 1]);
    }
  }

  lemma MultisetTail<T>(a: seq<T>)
    requires a != []
    ensures multiset(a[1..]) == multiset(a) - multiset{a[0]}
  {
    assert a == [a[0]] + a[1..];
    assert multiset(a) == multiset{a[0]} + multiset(a[1..]);
  }

  /** The first elements of two ordered sequences with the same elements are equal under an antisymmetric order. */
  lemma SortedHeads<T(!new)>(a: seq<T>, b: seq<T>, le: (T, T) -> bool)
    requires Antisymmetric(le)
    requires SortedBy(a, le) && SortedBy(b, le) && multiset(a) == multiset(b) && a != []
    ensures b != [] && a[0] == b[0]
  {
    assert a[0] in multiset(b);
    var i :| 0 <= i < |b| && b[i] == a[0];
    assert b[0] in multiset(a);
    var j :| 0 <= j < |a| && a[j] == b[0];
    if i > 0 && j > 0 {
      assert le(b[0], b[i]) && le(a[0], a[j]);
    }
  }

  /** Two ordered sequences with the same elements are equal when the order is antisymmetric. */
  lemma {:induction false} SortedUnique<T(!new)>(a: seq<T>, b: seq<T>, le: (T, T) -> bool)
    requires Antisymmetric(le)
    requires SortedBy(a, le) && SortedBy(b, le) && multiset(a) == multiset(b)
    ensures a == b
    decreases |a|
  {
    if a != [] {
      SortedHeadsAndTails(a, b, le);
      SortedUnique(a[1..], b[1..], le);
      assert a == [a[0]] + a[1..] && b == [b[0]] + b[1..];
    }
  }

  /** Two ordered sequences with the same elements start alike and go on with ordered tails holding the same elements. */
  lemma SortedHeadsAndTails<T(!new)>(a: seq<T>, b: seq<T>, le: (T, T) -> bool)
    requires Antisymmetric(le)
    requires SortedBy(a, le) && SortedBy(b, le) && multiset(a) == multiset(b) && a != []
    ensures b != [] && a[0] == b[0]
    ensures SortedBy(a[1..], le) && SortedBy(b[1..], le) && multiset(a[1..]) == multiset(b[1..])
  {
    SortedHeads(a, b, le);
    MultisetTail(a);
    MultisetTail(b);
    SortedTail(a, le);
    SortedTail(b, le);
  }

  /** Under an antisymmetric order, two sequences sort to the same result exactly when they hold the same elements. */
  lemma SortUnique<T(!new)>(a: seq<T>, b: seq<T>, le: (T, T) -> bool)
    requires TotalPreorder(le) && Antisymmetric(le)
    ensures Sort(a, le) == Sort(b, le) <==> multiset(a) == multiset(b)
  {
    SortSorted(a, le);
    SortSorted(b, le);
    if multiset(a) == multiset(b) {
      SortedUnique(Sort(a, le), Sort(b, le), le);
    }
  }

  lemma MapSeqCons<A, B>(f: A -> B, x: A, s: seq<A>)
    ensures MapSeq(f, [x] + s) == [f(x)] + MapSeq(f, s)
  {
  }

  lemma {:induction false} MapInsert<A, B>(f: A -> B, leA: (A, A) -> bool, leB: (B, B) -> bool, x: A, s: seq<A>)
    requires forall a, b :: leA(a, b) == leB(f(a), f(b))
    ensures MapSeq(f, Insert(x, s, leA)) == Insert(f(x), MapSeq(f, s), leB)
  {
    if s == [] || leA(x, s[0]) {
      MapSeqCons(f, x, s);
    } else {
      MapInsert(f, leA, leB, x, s[1..]);
      assert s == [s[0]] + s[1..];
      MapSeqCons(f, s[0], s[1..]);
      MapSeqCons(f, s[0], Insert(x, s[1..], leA));
    }
  }

  /** Sorting commutes with a map the comparator reads through. */
  lemma {:induction false} MapSort<A, B>(f: A -> B, leA: (A, A) -> bool, leB: (B, B) -> bool, s: seq<A>)
    requires forall a, b :: leA(a, b) == leB(f(a), f(b))
    ensures MapSeq(f, Sort(s, leA)) == Sort(MapSeq(f, s), leB)
  {
    if s != [] {
      var m := MapSeq(f, s);
      assert m[1..] == MapSeq(f, s[1..]);
      calc {
        MapSeq(f, Sort(s, leA));
        MapSeq(f, Insert(s[0], Sort(s[1..], leA), leA));
        { MapInsert(f, leA, leB, s[0], Sort(s[1..], leA)); }
        Insert(f(s[0]), MapSeq(f, Sort(s[1..], leA)), leB);
        { MapSort(f, leA, leB, s[1..]); }
        Insert(m[0], Sort(m[1..], leB), leB);
        Sort(m, leB);
      }
    }
  }
}
