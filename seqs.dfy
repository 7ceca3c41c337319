/**
 * List filtering, mapping and de-duplication as Python and pandas do them
 * (boolean-mask selection, `apply`, `Series.unique`). Every definition is
 * written element by element from the back, the way the loops that
 * compute them append.
 */
module Seqs {

  /** `[x for x in s if p(x)]`, order kept. */
  function Filter<T>(s: seq<T>, p: T -> bool): (r: seq<T>)
    ensures |r| <= |s|
    ensures forall x :: x in r ==> x in s && p(x)
  {
    if s == [] then []
    else Filter(s[..|s| - 1], p) + (if p(s[|s| - 1]) then [s[|s| - 1]] else [])
  }

  /** `[f(x) for x in s]` */
  function Map<T, U>(s: seq<T>, f: T -> U): (r: seq<U>)
    ensures |r| == |s|
    ensures forall i :: 0 <= i < |s| ==> r[i] == f(s[i])
  {
    if s == [] then [] else Map(s[..|s| - 1], f) + [f(s[|s| - 1])]
  }

  /** `[make(i, x) for i, x in enumerate(s) if keep(x)]` */
  function FilterMapIndexed<S, T>(s: seq<S>, keep: S -> bool, make: (nat, S) -> T): (r: seq<T>)
    ensures |r| <= |s|
  {
    if s == [] then []
    else
      var n := |s| - 1;
      FilterMapIndexed(s[..n], keep, make) + (if keep(s[n]) then [make(n, s[n])] else [])
  }

  /** `Series.unique()`: each value once, in order of first appearance
      (`UniqueFirstSeen`). */
  function Unique<T(==, !new)>(s: seq<T>): (r: seq<T>)
    ensures forall x :: x in r <==> x in s
    ensures forall i, j :: 0 <= i < j < |r| ==> r[i] != r[j]
  {
    if s == [] then []
    else
      var u := Unique(s[..|s| - 1]);
      assert forall x :: x in s <==> x in s[..|s| - 1] || x == s[|s| - 1];
      if s[|s| - 1] in u then u else u + [s[|s| - 1]]
  }

  /** The position of the first `x` in `s`. */
  function FirstIndex<T(==)>(s: seq<T>, x: T): (k: nat)
    requires x in s
    ensures k < |s| && s[k] == x && x !in s[..k]
  {
    if s[0] == x then 0
    else
      var k := FirstIndex(s[1..], x);
      assert s[..k + 1] == [s[0]] + s[1..][..k];
      k + 1
  }

  /** A position holding `x` with no `x` before it is the first index. */
  lemma FirstIndexAt<T>(s: seq<T>, x: T, k: nat)
    requires k < |s| && s[k] == x && x !in s[..k]
    ensures FirstIndex(s, x) == k
  {
    var f := FirstIndex(s, x);
    assert forall i :: 0 <= i < k ==> s[..k][i] == s[i];
    assert forall i :: 0 <= i < f ==> s[..f][i] == s[i];
  }

  /** `Unique` lists the values in the order of their first appearance. */
  lemma {:induction false} UniqueFirstSeen<T(!new)>(s: seq<T>)
    ensures forall i, j :: 0 <= i < j < |Unique(s)| ==> FirstIndex(s, Unique(s)[i]) < FirstIndex(s, Unique(s)[j])
  {
    if s != [] {
      var init, last := s[..|s| - 1], s[|s| - 1];
      UniqueFirstSeen(init);
      forall x | x in init
        ensures FirstIndex(s, x) == FirstIndex(init, x)
      {
        var k := FirstIndex(init, x);
        assert s[..k] == init[..k];
        FirstIndexAt(s, x, k);
      }
      if last !in Unique(init) {
        FirstIndexAt(s, last, |s| - 1);
      }
    }
  }

  /** `a` is `b` with some elements left out, order kept. */
  ghost predicate IsSubsequence<T>(a: seq<T>, b: seq<T>) {
    if a == [] then true
    else if b == [] then false
    else (a[|a| - 1] == b[|b| - 1] && IsSubsequence(a[..|a| - 1], b[..|b| - 1]))
         || IsSubsequence(a, b[..|b| - 1])
  }

  lemma {:induction false} SubsequenceSnoc<T>(a: seq<T>, b: seq<T>, x: T)
    requires IsSubsequence(a, b)
    ensures IsSubsequence(a, b + [x]) && IsSubsequence(a + [x], b + [x])
  {
    assert (a + [x])[..|a|] == a;
    assert (b + [x])[..|b|] == b;
  }

  /** Filtering keeps the survivors in their original order. */
  lemma {:induction false} FilterIsSubsequence<T>(s: seq<T>, p: T -> bool)
    ensures IsSubsequence(Filter(s, p), s)
  {
    if s != [] {
      var init, last := s[..|s| - 1], s[|s| - 1];
      var f := Filter(init, p);
      FilterIsSubsequence(init, p);
      SubsequenceSnoc(f, init, last);
      assert init + [last] == s;
      if p(last) {
        assert Filter(s, p) == f + [last];
        assert IsSubsequence(f + [last], init + [last]);
      } else {
        assert Filter(s, p) == f;
        assert IsSubsequence(f, init + [last]);
      }
    }
  }

  /** Filtering drops exactly the elements that fail the test. */
  lemma {:induction false} FilterKeeps<T>(s: seq<T>, p: T -> bool, x: T)
    requires x in s && p(x)
    ensures x in Filter(s, p)
  {
    var init := s[..|s| - 1];
    if x != s[|s| - 1] {
      assert x in init;
      FilterKeeps(init, p, x);
    }
  }

  /** An element is kept exactly when it is in `s` and passes. */
  lemma FilterExact<T>(s: seq<T>, p: T -> bool)
    ensures forall x :: x in Filter(s, p) <==> x in s && p(x)
  {
    forall x | x in s && p(x) ensures x in Filter(s, p) {
      FilterKeeps(s, p, x);
    }
  }

  /** Filtering keeps each passing element as often as it occurs, and no
      failing one. */
  lemma FilterCounts<T>(s: seq<T>, p: T -> bool)
    ensures forall x :: multiset(Filter(s, p))[x] == if p(x) then multiset(s)[x] else 0
  {
    forall x ensures multiset(Filter(s, p))[x] == if p(x) then multiset(s)[x] else 0 {
      FilterCount(s, p, x);
    }
  }

  lemma {:induction false} FilterCount<T>(s: seq<T>, p: T -> bool, x: T)
    ensures multiset(Filter(s, p))[x] == if p(x) then multiset(s)[x] else 0
  {
    if s != [] {
      var init := s[..|s| - 1];
      FilterCount(init, p, x);
      assert s == init + [s[|s| - 1]];
    }
  }

  /** One more element: the step of a filtering loop. */
  lemma FilterStep<T>(s: seq<T>, p: T -> bool, k: nat)
    requires k < |s|
    ensures Filter(s[..k + 1], p) == Filter(s[..k], p) + (if p(s[k]) then [s[k]] else [])
  {
    assert s[..k + 1][..k] == s[..k];
  }

  lemma MapStep<T, U>(s: seq<T>, f: T -> U, k: nat)
    requires k < |s|
    ensures Map(s[..k + 1], f) == Map(s[..k], f) + [f(s[k])]
  {
    assert s[..k + 1][..k] == s[..k];
  }

  /** Equal texts around `x` and `y` force `x == y`. */
  lemma CancelEnds<T>(a: seq<T>, x: seq<T>, y: seq<T>, b: seq<T>)
    requires a + x + b == a + y + b
    ensures x == y
  {
    assert |x| == |y|;
    assert x == (a + x + b)[|a|..|a| + |x|];
    assert y == (a + y + b)[|a|..|a| + |y|];
  }

  lemma AppendAssoc<T>(a: seq<T>, b: seq<T>, x: T)
    ensures a + b + [x] == a + (b + [x])
  {
  }

  /** A filter is empty exactly when no element passes. */
  lemma FilterEmpty<T>(s: seq<T>, p: T -> bool)
    ensures Filter(s, p) == [] <==> forall x :: x in s ==> !p(x)
  {
    forall x | x in s && p(x) ensures x in Filter(s, p) {
      FilterKeeps(s, p, x);
    }
  }

  /** Filtering keeps everything when every element passes. */
  lemma {:induction false} FilterAll<T>(s: seq<T>, p: T -> bool)
    requires forall x :: x in s ==> p(x)
    ensures Filter(s, p) == s
  {
    if s != [] {
      var init, last := s[..|s| - 1], s[|s| - 1];
      assert s == init + [last];
      forall x | x in init ensures p(x) {
        assert x in s;
      }
      FilterAll(init, p);
    }
  }

  lemma {:induction false} FilterAppend<T>(a: seq<T>, b: seq<T>, p: T -> bool)
    ensures Filter(a + b, p) == Filter(a, p) + Filter(b, p)
  {
    if b != [] {
      FilterAppend(a, b[..|b| - 1], p);
      assert (a + b)[..|a + b| - 1] == a + b[..|b| - 1];
    } else {
      assert a + b == a;
    }
  }

  /** Filtering keeps any strict chain order the input had. */
  lemma {:induction false} FilterChain<T>(s: seq<T>, p: T -> bool, lt: (T, T) -> bool)
    requires forall i, j :: 0 <= i < j < |s| ==> lt(s[i], s[j])
    ensures forall i, j :: 0 <= i < j < |Filter(s, p)| ==> lt(Filter(s, p)[i], Filter(s, p)[j])
  {
    if s != [] {
      var init := s[..|s| - 1];
      FilterChain(init, p, lt);
      var f := Filter(init, p);
      var r := Filter(s, p);
      forall i, j | 0 <= i < j < |r| ensures lt(r[i], r[j]) {
        if j >= |f| {
          assert r[i] == f[i] && f[i] in init;
          var k :| 0 <= k < |init| && init[k] == f[i];
          assert r[j] == s[|s| - 1] && s[k] == init[k];
        } else {
          assert r[i] == f[i] && r[j] == f[j];
        }
      }
    }
  }

  /** `y` is an image under `Map` exactly when some element maps to it. */
  lemma MapIn<T, U>(s: seq<T>, f: T -> U, y: U)
    ensures y in Map(s, f) <==> exists x :: x in s && f(x) == y
  {
    var m := Map(s, f);
    if y in m {
      var i :| 0 <= i < |m| && m[i] == y;
      assert s[i] in s;
    }
    if exists x :: x in s && f(x) == y {
      var x :| x in s && f(x) == y;
      var i :| 0 <= i < |s| && s[i] == x;
      assert m[i] == y;
    }
  }

  /** Every kept element contributes its image, made with its own index. */
  lemma {:induction false} FilterMapIndexedComplete<S, T>(s: seq<S>, keep: S -> bool, make: (nat, S) -> T, i: nat)
    requires i < |s| && keep(s[i])
    ensures make(i, s[i]) in FilterMapIndexed(s, keep, make)
  {
    var n := |s| - 1;
    if i < n {
      assert s[i] == s[..n][i];
      FilterMapIndexedComplete(s[..n], keep, make, i);
    }
  }

  /** Every image comes from a kept element and its index. */
  lemma {:induction false} FilterMapIndexedSound<S, T>(s: seq<S>, keep: S -> bool, make: (nat, S) -> T, y: T)
    requires y in FilterMapIndexed(s, keep, make)
    ensures exists i :: 0 <= i < |s| && keep(s[i]) && y == make(i, s[i])
  {
    var n := |s| - 1;
    if y in FilterMapIndexed(s[..n], keep, make) {
      FilterMapIndexedSound(s[..n], keep, make, y);
      var i :| 0 <= i < n && keep(s[..n][i]) && y == make(i, s[..n][i]);
      assert s[i] == s[..n][i];
    }
  }
}
