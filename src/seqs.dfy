/**
  The three JavaScript array operations the front end is built from:
  `filter`, `map` with a conditional replacement, and `find`.
*/
module Seqs {
  import opened Common

  /** `s.filter(p)`: the elements of `s` that satisfy `p`, in their original order. */
  function Filter<T>(s: seq<T>, p: T -> bool): (r: seq<T>)
    ensures |r| <= |s|
    ensures forall i :: 0 <= i < |r| ==> r[i] in s && p(r[i])
    ensures forall i :: 0 <= i < |s| && p(s[i]) ==> s[i] in r
  {
    if s == [] then []
    else (if p(s[0]) then [s[0]] else []) + Filter(s[1..], p)
  }

  /** Filtering a concatenation filters each part: relative order is kept. */
  lemma {:induction false} FilterConcat<T>(a: seq<T>, b: seq<T>, p: T -> bool)
    ensures Filter(a + b, p) == Filter(a, p) + Filter(b, p)
  {
    if a == [] {
      assert a + b == b;
    } else {
      assert (a + b)[1..] == a[1..] + b;
      FilterConcat(a[1..], b, p);
    }
  }

  /** Filtering a list whose keys are pairwise different leaves keys pairwise different. */
  lemma {:induction false} FilterKeepsKeysDistinct<T, K>(s: seq<T>, p: T -> bool, key: T -> K)
    requires forall i, j :: 0 <= i < j < |s| ==> key(s[i]) != key(s[j])
    ensures forall i, j :: 0 <= i < j < |Filter(s, p)| ==> key(Filter(s, p)[i]) != key(Filter(s, p)[j])
  {
    if s != [] {
      var rest := Filter(s[1..], p);
      FilterKeepsKeysDistinct(s[1..], p, key);
      forall j | 0 <= j < |rest| ensures key(rest[j]) != key(s[0]) {
        var k :| 0 <= k < |s[1..]| && s[1..][k] == rest[j];
        assert s[k + 1] == rest[j];
      }
    }
  }

  /** In a list whose keys are pairwise different, no element occurs twice. */
  lemma {:induction false} KeysDistinctOccursOnce<T, K>(s: seq<T>, key: T -> K, x: T)
    requires forall i, j :: 0 <= i < j < |s| ==> key(s[i]) != key(s[j])
    ensures multiset(s)[x] <= 1
  {
    if s != [] {
      KeysDistinctOccursOnce(s[1..], key, x);
      assert s == [s[0]] + s[1..];
      if s[0] == x {
        forall m | 0 <= m < |s[1..]| ensures s[1..][m] != x {
          assert s[m + 1] == s[1..][m];
        }
      }
    }
  }

  /** An element found at two positions occurs at least twice. */
  lemma TwoPositions<T>(r: seq<T>, i: int, j: int)
    requires 0 <= i < j < |r| && r[i] == r[j]
    ensures multiset(r)[r[i]] >= 2
  {
    assert r == r[..j] + r[j..];
    assert r[i] == r[..j][i] && r[j] == r[j..][0];
  }

  /** A permutation of a list whose keys are pairwise different has pairwise different keys. */
  lemma PermutationKeepsKeysDistinct<T, K>(s: seq<T>, r: seq<T>, key: T -> K)
    requires multiset(r) == multiset(s)
    requires forall i, j :: 0 <= i < j < |s| ==> key(s[i]) != key(s[j])
    ensures forall i, j :: 0 <= i < j < |r| ==> key(r[i]) != key(r[j])
  {
    forall i, j | 0 <= i < j < |r| ensures key(r[i]) != key(r[j]) {
      assert r[i] in multiset(s) && r[j] in multiset(s);
      var p :| 0 <= p < |s| && s[p] == r[i];
      var q :| 0 <= q < |s| && s[q] == r[j];
      if r[i] == r[j] {
        KeysDistinctOccursOnce(s, key, r[i]);
        TwoPositions(r, i, j);
        assert false;
      }
    }
  }

  /** A filter that keeps no element gives the empty list. */
  lemma {:induction false} FilterKeepsNone<T>(s: seq<T>, p: T -> bool)
    requires forall i :: 0 <= i < |s| ==> !p(s[i])
    ensures Filter(s, p) == []
  {
    if s != [] {
      FilterKeepsNone(s[1..], p);
    }
  }

  /** A filter that keeps every element is the identity. */
  lemma {:induction false} FilterKeepsAll<T>(s: seq<T>, p: T -> bool)
    requires forall i :: 0 <= i < |s| ==> p(s[i])
    ensures Filter(s, p) == s
  {
    if s != [] {
      FilterKeepsAll(s[1..], p);
    }
  }

  /** Filtering twice by the same predicate is filtering once. */
  lemma FilterIdempotent<T>(s: seq<T>, p: T -> bool)
    ensures Filter(Filter(s, p), p) == Filter(s, p)
  {
    var r := Filter(s, p);
    FilterKeepsAll(r, p);
  }

  /** `s.map(y => p(y) ? x : y)`: every element satisfying `p` is replaced by `x`. */
  function Replace<T>(s: seq<T>, p: T -> bool, x: T): (r: seq<T>)
    ensures |r| == |s|
    ensures forall i :: 0 <= i < |s| ==> r[i] == if p(s[i]) then x else s[i]
  {
    if s == [] then []
    else [if p(s[0]) then x else s[0]] + Replace(s[1..], p, x)
  }

  /** `s.find(p)`: the first element satisfying `p`, or nothing when none does. */
  function FindFirst<T>(s: seq<T>, p: T -> bool): (r: Option<T>)
    ensures r.None? <==> forall i :: 0 <= i < |s| ==> !p(s[i])
    ensures r.Some? ==> exists i :: 0 <= i < |s| && s[i] == r.value && p(s[i]) &&
                                    forall j :: 0 <= j < i ==> !p(s[j])
  {
    if s == [] then None
    else if p(s[0]) then Some(s[0])
    else
      var r := FindFirst(s[1..], p);
      assert r.Some? ==> forall j :: 0 <= j < 1 ==> !p(s[j]);
      r
  }

  /** `s.slice(0, n)` for a non-negative `n`: at most `n` leading elements. */
  function Take<T>(s: seq<T>, n: nat): (r: seq<T>)
    ensures |r| <= n && |r| <= |s|
    ensures r == s[..|r|]
    ensures |r| == n || r == s
  {
    if n < |s| then s[..n] else s
  }

  /** `i` is the index of the first element satisfying `p`. */
  predicate FirstMatch<T>(s: seq<T>, p: T -> bool, i: int) {
    0 <= i < |s| && p(s[i]) && forall k :: 0 <= k < i ==> !p(s[k])
  }

  /** `p` holds of at most one element of `s`: a key that identifies one entry. */
  predicate AtMostOne<T>(s: seq<T>, p: T -> bool) {
    forall i, j :: 0 <= i < |s| && 0 <= j < |s| && p(s[i]) && p(s[j]) ==> i == j
  }

  /**
    `const x = s.find(p); if (!x) return; s.map(y => p(y) ? f(x) : y)`: the
    update the hooks apply to a record picked by id. Nothing changes when no
    element matches; otherwise every matching element becomes `f` of the
    FIRST match.
  */
  function UpdateWhere<T>(s: seq<T>, p: T -> bool, f: T -> T): (r: seq<T>)
    ensures |r| == |s|
    ensures (forall i :: 0 <= i < |s| ==> !p(s[i])) ==> r == s
    ensures forall i :: 0 <= i < |s| && !p(s[i]) ==> r[i] == s[i]
    ensures forall i, j :: FirstMatch(s, p, i) && 0 <= j < |s| && p(s[j]) ==> r[j] == f(s[i])
  {
    match FindFirst(s, p)
    case None => s
    case Some(x) =>
      assert forall i :: FirstMatch(s, p, i) ==> s[i] == x by {
        forall i | FirstMatch(s, p, i) ensures s[i] == x {
          var m :| 0 <= m < |s| && s[m] == x && p(s[m]) && forall k :: 0 <= k < m ==> !p(s[k]);
          assert m == i;
        }
      }
      Replace(s, p, f(x))
  }

  /** When the key picks at most one element, exactly that element is updated and the rest stay. */
  lemma UpdateWhereSingle<T>(s: seq<T>, p: T -> bool, f: T -> T)
    requires AtMostOne(s, p)
    ensures forall i :: 0 <= i < |s| ==> UpdateWhere(s, p, f)[i] == if p(s[i]) then f(s[i]) else s[i]
  {
    forall i | 0 <= i < |s| && p(s[i])
      ensures UpdateWhere(s, p, f)[i] == f(s[i])
    {
      assert FirstMatch(s, p, i);
    }
  }

  /** No element occurs twice. */
  predicate Distinct<T(==)>(s: seq<T>) {
    forall i :: 0 <= i < |s| ==> multiset(s)[s[i]] == 1
  }
}
