/** `Array.prototype.filter` on sequences. */
module Sequences {

  /** The elements of `s` that satisfy `keep`, in their order in `s`. */
  function Filter<T(!new)>(s: seq<T>, keep: T -> bool): (r: seq<T>)
    ensures |r| <= |s|
    ensures forall k :: 0 <= k < |r| ==> keep(r[k])
    ensures forall x {:trigger x in r} :: x in r <==> x in s && keep(x)
  {
    if s == [] then []
    else
      var last := s[|s| - 1];
      assert s == s[..|s| - 1] + [last];
      Filter(s[..|s| - 1], keep) + (if keep(last) then [last] else [])
  }

  /** Filtering removes nothing when every element is kept. */
  lemma {:induction false} FilterAll<T(!new)>(s: seq<T>, keep: T -> bool)
    requires forall k :: 0 <= k < |s| ==> keep(s[k])
    ensures Filter(s, keep) == s
  {
    if s != [] {
      var init := s[..|s| - 1];
      var last := s[|s| - 1];
      assert forall k :: 0 <= k < |init| ==> keep(init[k]) by {
        forall k | 0 <= k < |init| ensures keep(init[k]) {
          assert init[k] == s[k];
        }
      }
      FilterAll(init, keep);
      assert keep(last);
      calc {
        Filter(s, keep);
        Filter(init, keep) + [last];
        init + [last];
        s;
      }
    }
  }

  /** Filtering keeps exactly the elements that pass, counted with multiplicity. */
  lemma {:induction false} FilterCount<T(!new)>(s: seq<T>, keep: T -> bool, x: T)
    ensures multiset(Filter(s, keep))[x] == if keep(x) then multiset(s)[x] else 0
  {
    if s != [] {
      var init := s[..|s| - 1];
      var last := s[|s| - 1];
      FilterCount(init, keep, x);
      assert s == init + [last];
      assert Filter(s, keep) == Filter(init, keep) + (if keep(last) then [last] else []);
      assert multiset(s) == multiset(init) + multiset{last};
    }
  }
  /** Filtering leaves nothing exactly when no element passes. */
  lemma FilterEmpty<T(!new)>(s: seq<T>, keep: T -> bool)
    ensures Filter(s, keep) == [] <==> forall k :: 0 <= k < |s| ==> !keep(s[k])
  {
    var r := Filter(s, keep);
    if r != [] {
      assert r[0] in r;
    }
    if exists k :: 0 <= k < |s| && keep(s[k]) {
      var k :| 0 <= k < |s| && keep(s[k]);
      assert s[k] in s;
      assert s[k] in r;
    }
  }

  /** Filtering distributes over concatenation. */
  lemma {:induction false} FilterConcat<T(!new)>(a: seq<T>, b: seq<T>, keep: T -> bool)
    ensures Filter(a + b, keep) == Filter(a, keep) + Filter(b, keep)
  {
    if b == [] {
      assert a + b == a;
    } else {
      var init := b[..|b| - 1];
      var last := b[|b| - 1];
      FilterConcat(a, init, keep);
      var tail := if keep(last) then [last] else [];
      assert (a + b)[..|a + b| - 1] == a + init;
      assert (a + b)[|a + b| - 1] == last;
      assert b == init + [last];
      calc {
        Filter(a + b, keep);
        Filter(a + init, keep) + tail;
        Filter(a, keep) + Filter(init, keep) + tail;
        Filter(a, keep) + Filter(b, keep);
      }
    }
  }

  /** `Array.prototype.some`, stated from the end. */
  predicate AnySatisfies<T>(s: seq<T>, p: T -> bool) {
    s != [] && (AnySatisfies(s[..|s| - 1], p) || p(s[|s| - 1]))
  }

  lemma {:induction false} AnySatisfiesMeans<T>(s: seq<T>, p: T -> bool)
    ensures AnySatisfies(s, p) <==> exists j :: 0 <= j < |s| && p(s[j])
  {
    if s != [] {
      var init := s[..|s| - 1];
      AnySatisfiesMeans(init, p);
      if exists j :: 0 <= j < |s| && p(s[j]) {
        var j :| 0 <= j < |s| && p(s[j]);
        if j < |init| {
          assert init[j] == s[j];
        }
      }
      if AnySatisfies(init, p) {
        var j :| 0 <= j < |init| && p(init[j]);
        assert s[j] == init[j];
      }
    }
  }

  /** `Array.prototype.map`. */
  function MapSeq<A, B>(f: A -> B, s: seq<A>): (r: seq<B>)
    ensures |r| == |s|
  {
    seq(|s|, i requires 0 <= i < |s| => f(s[i]))
  }
}
