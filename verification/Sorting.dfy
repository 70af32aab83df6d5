/** Orders on byte strings and sorting by a comparison, as `sort.Slice` promises it. */
module Sorting {
  type Bytes = string

  /** The byte order of strings. */
  predicate Less(a: Bytes, b: Bytes) {
    b != [] && (a == [] || a[0] < b[0] || (a[0] == b[0] && Less(a[1..], b[1..])))
  }

  lemma {:induction false} LessTotal(a: Bytes, b: Bytes)
    ensures Less(a, b) || a == b || Less(b, a)
    ensures !(Less(a, b) && Less(b, a)) && !Less(a, a)
  {
    if a != [] && b != [] && a[0] == b[0] {
      LessTotal(a[1..], b[1..]);
    }
    if a != [] {
      LessTotal(a[1..], a[1..]);
    }
  }

  lemma {:induction false} LessTransitive(a: Bytes, b: Bytes, c: Bytes)
    requires Less(a, b) && Less(b, c)
    ensures Less(a, c)
  {
    if a != [] && a[0] == b[0] == c[0] {
      LessTransitive(a[1..], b[1..], c[1..]);
    }
  }

  /** `less` orders without contradiction, leaving some elements tied. */
  ghost predicate WeakOrder<T(!new)>(less: (T, T) -> bool) {
    && (forall a, b :: less(a, b) ==> !less(b, a))
    && (forall a, b, c :: !less(b, a) && !less(c, b) ==> !less(c, a))
  }

  ghost predicate Sorted<T>(s: seq<T>, less: (T, T) -> bool) {
    forall i, j | 0 <= i < j < |s| :: !less(s[j], s[i])
  }

  method Insert<T(!new)>(s: seq<T>, x: T, less: (T, T) -> bool) returns (r: seq<T>)
    requires WeakOrder(less) && Sorted(s, less)
    ensures Sorted(r, less) && multiset(r) == multiset(s) + multiset{x}
  {
    var i := 0;
    while i < |s| && !less(x, s[i])
      invariant i <= |s|
      invariant forall k | 0 <= k < i :: !less(x, s[k])
    {
      i := i + 1;
    }
    r := s[..i] + [x] + s[i..];
    assert s == s[..i] + s[i..];
    forall k | i <= k < |s|
      ensures !less(s[k], x)
    {
      assert !less(s[k], s[i]) || k == i;
    }
  }

  method Sort<T(!new)>(s: seq<T>, less: (T, T) -> bool) returns (r: seq<T>)
    requires WeakOrder(less)
    ensures Sorted(r, less) && multiset(r) == multiset(s)
  {
    r := [];
    for i := 0 to |s|
      invariant Sorted(r, less) && multiset(r) == multiset(s[..i])
    {
      r := Insert(r, s[i], less);
      assert s[..i + 1] == s[..i] + [s[i]];
    }
    assert s[..|s|] == s;
  }

  lemma HasFirst<T>(s: seq<T>)
    requires s != []
    ensures exists x :: x in s
  {
    assert s[0] in s;
  }

  /** A sequence with no ties is determined by its elements. */
  lemma {:induction false} SortedUnique<T>(r: seq<T>, s: seq<T>, less: (T, T) -> bool)
    requires forall i, j | 0 <= i < j < |r| :: less(r[i], r[j]) && !less(r[j], r[i])
    requires forall i, j | 0 <= i < j < |s| :: less(s[i], s[j]) && !less(s[j], s[i])
    requires forall x :: x in r <==> x in s
    ensures r == s
    decreases |r|
  {
    if r == [] {
      if s != [] {
        HasFirst(s);
      }
    } else {
      assert r[0] in s;
      assert s[0] in r;
      var k :| 0 <= k < |s| && s[k] == r[0];
      var l :| 0 <= l < |r| && r[l] == s[0];
      assert r[0] == s[0];
      forall x
        ensures x in r[1..] <==> x in s[1..]
      {
        assert x in r <==> x in s;
        assert x in r[1..] <==> x in r && x != r[0] by {
          if x in r && x != r[0] {
            var i :| 0 <= i < |r| && r[i] == x;
            assert r[1..][i - 1] == x;
          }
          if x in r[1..] {
            var i :| 0 <= i < |r[1..]| && r[1..][i] == x;
            assert less(r[0], r[i + 1]) && !less(r[i + 1], r[0]);
          }
        }
        assert x in s[1..] <==> x in s && x != s[0] by {
          if x in s && x != s[0] {
            var i :| 0 <= i < |s| && s[i] == x;
            assert s[1..][i - 1] == x;
          }
          if x in s[1..] {
            var i :| 0 <= i < |s[1..]| && s[1..][i] == x;
            assert less(s[0], s[i + 1]) && !less(s[i + 1], s[0]);
          }
        }
      }
      SortedUnique(r[1..], s[1..], less);
    }
  }

  /** Rearranging a sequence of elements with distinct keys leaves the keys distinct. */
  lemma DistinctSurvives<T, K>(s: seq<T>, r: seq<T>, key: T -> K)
    requires forall i, j | 0 <= i < j < |s| :: key(s[i]) != key(s[j])
    requires multiset(r) == multiset(s)
    ensures forall i, j | 0 <= i < j < |r| :: key(r[i]) != key(r[j])
  {
    forall i, j | 0 <= i < j < |r|
      ensures key(r[i]) != key(r[j])
    {
      if key(r[i]) == key(r[j]) {
        var x, y := r[i], r[j];
        assert x in multiset(s) && y in multiset(s);
        var a :| 0 <= a < |s| && s[a] == x;
        var b :| 0 <= b < |s| && s[b] == y;
        assert a == b;
        TwiceCounted(r, i, j);
        OnceCounted(s, a);
      }
    }
  }

  lemma TwiceCounted<T>(r: seq<T>, i: nat, j: nat)
    requires i < j < |r| && r[i] == r[j]
    ensures multiset(r)[r[i]] >= 2
  {
    assert r == r[..i] + [r[i]] + r[i + 1..j] + [r[j]] + r[j + 1..];
  }

  lemma OnceCounted<T>(s: seq<T>, a: nat)
    requires a < |s| && forall i | 0 <= i < |s| && i != a :: s[i] != s[a]
    ensures multiset(s)[s[a]] == 1
  {
    assert s == s[..a] + [s[a]] + s[a + 1..];
    assert s[a] !in s[..a] && s[a] !in s[a + 1..];
  }
}
