/**
 * Python's ordering of `str` values (code point by code point, a proper
 * prefix first), `min()` over strings, and the sorted list of distinct keys
 * that `DataFrame.groupby` walks through.
 */
module StrOrder {

  /** Python's `a < b` on strings. */
  predicate Less(a: string, b: string) {
    if a == [] then b != []
    else if b == [] then false
    else if a[0] != b[0] then a[0] < b[0]
    else Less(a[1..], b[1..])
  }

  predicate LessEq(a: string, b: string) {
    a == b || Less(a, b)
  }

  lemma {:induction false} LessIrreflexive(a: string)
    ensures !Less(a, a)
  {
    if a != [] {
      LessIrreflexive(a[1..]);
    }
  }

  lemma {:induction false} LessAsymmetric(a: string, b: string)
    requires Less(a, b)
    ensures !Less(b, a)
  {
    if a != [] && b != [] && a[0] == b[0] {
      LessAsymmetric(a[1..], b[1..]);
    }
  }

  lemma {:induction false} LessTransitive(a: string, b: string, c: string)
    requires Less(a, b) && Less(b, c)
    ensures Less(a, c)
  {
    if a != [] && a[0] == b[0] && b[0] == c[0] {
      LessTransitive(a[1..], b[1..], c[1..]);
    }
  }

  lemma {:induction false} LessTotal(a: string, b: string)
    ensures a == b || Less(a, b) || Less(b, a)
  {
    if a != [] && b != [] && a[0] == b[0] {
      LessTotal(a[1..], b[1..]);
      if a[1..] == b[1..] {
        assert a == [a[0]] + a[1..] && b == [b[0]] + b[1..];
      }
    }
  }

  /** Python's `min(s)`: a member of `s` no other member is below. */
  function Min(s: seq<string>): (m: string)
    requires |s| > 0
    ensures m in s
    ensures forall x :: x in s ==> LessEq(m, x)
  {
    if |s| == 1 then s[0]
    else
      var rest := Min(s[1..]);
      if Less(rest, s[0]) then rest
      else
        LessTotal(rest, s[0]);
        forall x | x in s ensures LessEq(s[0], x) {
          if x != s[0] {
            assert x in s[1..];
            if rest != s[0] && x != rest {
              LessTransitive(s[0], rest, x);
            }
          }
        }
        s[0]
  }

  /** Two strings are the least of a sequence only if they are equal. */
  lemma MinUnique(s: seq<string>, m: string)
    requires m in s && forall x :: x in s ==> LessEq(m, x)
    requires |s| > 0
    ensures m == Min(s)
  {
    var n := Min(s);
    if m != n {
      LessAsymmetric(m, n);
    }
  }

  predicate StrictlySorted(s: seq<string>) {
    forall i, j :: 0 <= i < j < |s| ==> Less(s[i], s[j])
  }

  /** Adds `x` to a strictly sorted list, unless it is there already. */
  function Insert(x: string, s: seq<string>): (r: seq<string>)
    requires StrictlySorted(s)
    ensures StrictlySorted(r)
    ensures forall y :: y in r <==> y == x || y in s
  {
    if s == [] then [x]
    else if x == s[0] then s
    else if Less(x, s[0]) then
      forall j | 0 < j < |s| ensures Less(x, s[j]) {
        LessTransitive(x, s[0], s[j]);
      }
      [x] + s
    else
      LessTotal(x, s[0]);
      var tail := Insert(x, s[1..]);
      assert forall y :: y in tail ==> Less(s[0], y);
      [s[0]] + tail
  }

  /** The distinct values of `keys` in ascending order: the keys that
      `groupby` visits, and the order it visits them in. */
  function SortedDistinct(keys: seq<string>): (r: seq<string>)
    ensures StrictlySorted(r)
    ensures forall y :: y in r <==> y in keys
  {
    if keys == [] then []
    else
      var init := keys[..|keys| - 1];
      var r := Insert(keys[|keys| - 1], SortedDistinct(init));
      assert forall y :: y in keys <==> y in init || y == keys[|keys| - 1];
      r
  }

  lemma HeadIn(s: seq<string>)
    requires s != []
    ensures s[0] in s
  {
  }

  /** A strictly sorted list is determined by its elements. */
  lemma {:induction false} SortedUnique(a: seq<string>, b: seq<string>)
    requires StrictlySorted(a) && StrictlySorted(b)
    requires forall y :: y in a <==> y in b
    ensures a == b
  {
    if a != [] && b != [] {
      if a[0] != b[0] {
        assert a[0] in b && b[0] in a;
        var i :| 0 <= i < |b| && b[i] == a[0];
        var j :| 0 <= j < |a| && a[j] == b[0];
        assert Less(b[0], a[0]) && Less(a[0], b[0]);
        LessAsymmetric(a[0], b[0]);
      }
      assert a == [a[0]] + a[1..] && b == [b[0]] + b[1..];
      forall y ensures y in a[1..] <==> y in b[1..] {
        if y in a[1..] {
          var k :| 1 <= k < |a| && a[k] == y;
          assert Less(a[0], y);
          LessIrreflexive(y);
          assert y in b;
        }
        if y in b[1..] {
          var k :| 1 <= k < |b| && b[k] == y;
          assert Less(b[0], y);
          LessIrreflexive(y);
          assert y in a;
        }
      }
      SortedUnique(a[1..], b[1..]);
    } else if a != [] {
      HeadIn(a);
    } else if b != [] {
      HeadIn(b);
    }
  }
}
