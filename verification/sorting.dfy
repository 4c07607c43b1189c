/** A functional model of `Array.prototype.sort()` on strings: insertion
    sort under the default string order. With a total order the sorted
    permutation is unique, so the model fixes the result the source gets
    whatever algorithm the JavaScript engine uses. */
module Sorting {
  import opened StringOrder

  /** Places `x` into the sorted sequence `s`. */
  function Insert(x: string, s: seq<string>): (r: seq<string>)
    requires Sorted(s)
    ensures Sorted(r)
    ensures multiset(r) == multiset(s) + multiset{x}
  {
    if |s| == 0 then [x]
    else if LessEq(x, s[0]) then
      InsertFront(x, s);
      [x] + s
    else
      Total(x, s[0]);
      var tail := Insert(x, s[1..]);
      assert s == [s[0]] + s[1..];
      InsertBehind(s[0], x, s[1..], tail);
      [s[0]] + tail
  }

  lemma InsertFront(x: string, s: seq<string>)
    requires Sorted(s) && |s| > 0 && LessEq(x, s[0])
    ensures Sorted([x] + s)
  {
    forall j | 0 < j < |s| + 1
      ensures LessEq(x, ([x] + s)[j])
    {
      if j == 1 {
        assert ([x] + s)[j] == s[0];
      } else {
        assert LessEq(s[0], s[j - 1]);
        Transitive(x, s[0], s[j - 1]);
      }
    }
  }

  lemma InsertBehind(h: string, x: string, rest: seq<string>, tail: seq<string>)
    requires Sorted([h] + rest) && Sorted(tail) && LessEq(h, x)
    requires multiset(tail) == multiset(rest) + multiset{x}
    ensures Sorted([h] + tail)
  {
    forall j | 0 <= j < |tail|
      ensures LessEq(h, tail[j])
    {
      assert tail[j] in multiset(tail);
      if tail[j] != x {
        assert tail[j] in multiset(rest);
        var k :| 0 <= k < |rest| && rest[k] == tail[j];
        assert ([h] + rest)[k + 1] == rest[k] && ([h] + rest)[0] == h;
      }
    }
  }

  /** The sorted permutation of `s`. */
  function Sort(s: seq<string>): (r: seq<string>)
    ensures Sorted(r)
    ensures multiset(r) == multiset(s)
  {
    if |s| == 0 then []
    else
      assert s == [s[0]] + s[1..];
      Insert(s[0], Sort(s[1..]))
  }

  /** Two sorted sequences holding the same elements are equal: sorting
      has exactly one possible outcome. */
  lemma {:induction false} SortedPermutationUnique(a: seq<string>, b: seq<string>)
    requires Sorted(a) && Sorted(b)
    requires multiset(a) == multiset(b)
    ensures a == b
  {
    if |a| == 0 {
      assert |multiset(b)| == 0;
    } else {
      SameHead(a, b);
      DropHead(a, b);
      SortedPermutationUnique(a[1..], b[1..]);
      assert a == [a[0]] + a[1..];
      assert b == [b[0]] + b[1..];
    }
  }

  /** Sorted permutations of each other start with the same element. */
  lemma SameHead(a: seq<string>, b: seq<string>)
    requires Sorted(a) && Sorted(b) && |a| > 0
    requires multiset(a) == multiset(b)
    ensures |b| > 0 && a[0] == b[0]
  {
    assert |b| == |multiset(b)| == |multiset(a)| == |a|;
    assert a[0] in multiset(b);
    var j :| 0 <= j < |b| && b[j] == a[0];
    assert b[0] in multiset(a);
    var i :| 0 <= i < |a| && a[i] == b[0];
    if j > 0 { assert LessEq(b[0], a[0]); } else { Reflexive(b[0]); }
    if i > 0 { assert LessEq(a[0], b[0]); } else { Reflexive(a[0]); }
    AntiSymmetric(a[0], b[0]);
  }

  /** Removing a common first element keeps two permutations permutations. */
  lemma DropHead(a: seq<string>, b: seq<string>)
    requires |a| > 0 && |b| > 0 && a[0] == b[0]
    requires multiset(a) == multiset(b)
    ensures multiset(a[1..]) == multiset(b[1..])
  {
    assert a == [a[0]] + a[1..];
    assert b == [b[0]] + b[1..];
    assert multiset(a) == multiset{a[0]} + multiset(a[1..]);
    assert multiset(b) == multiset{a[0]} + multiset(b[1..]);
    forall x ensures multiset(a[1..])[x] == multiset(b[1..])[x] {
      assert multiset(a)[x] == multiset{a[0]}[x] + multiset(a[1..])[x];
      assert multiset(b)[x] == multiset{a[0]}[x] + multiset(b[1..])[x];
    }
  }

  /** Sorting a duplicate-free sequence yields a strictly ascending one. */
  lemma SortedDistinctIsStrict(s: seq<string>, r: seq<string>)
    requires Distinct(s) && multiset(r) == multiset(s)
    ensures Distinct(r)
  {
    forall i, j | 0 <= i < j < |r|
      ensures r[i] != r[j]
    {
      if r[i] == r[j] {
        assert multiset(r[..j]) + multiset(r[j..]) == multiset(r) by { assert r == r[..j] + r[j..]; }
        assert r[i] in multiset(r[..j]);
        assert r[j] in multiset(r[j..]) by { assert r[j..][0] == r[j]; }
        assert multiset(r)[r[i]] >= 2;
        DistinctCountsOne(s, r[i]);
      }
    }
  }

  lemma {:induction false} DistinctCountsOne(s: seq<string>, x: string)
    requires Distinct(s)
    ensures multiset(s)[x] <= 1
  {
    if |s| > 0 {
      assert s == [s[0]] + s[1..];
      DistinctCountsOne(s[1..], x);
      if s[0] == x {
        assert x !in s[1..] by {
          forall k | 0 <= k < |s[1..]| ensures s[1..][k] != x {
            assert s[k + 1] != s[0];
          }
        }
      }
    }
  }
}
