/**
 * The list combinators the tables are built from: Kotlin's `filter`, the
 * stable `sortedBy`/`sortedWith`, and `count`. A SQL `WHERE` clause is a
 * filter and an `ORDER BY` clause a sort by a total preorder.
 */
module Seqs {
  import opened Wrappers

  /** `s.filter(p)`: the elements satisfying p, in their original order. */
  function Filter<T(!new)>(s: seq<T>, p: T -> bool): (r: seq<T>)
    ensures |r| <= |s|
    ensures forall x :: x in r <==> x in s && p(x)
    ensures forall i :: 0 <= i < |r| ==> p(r[i])
    ensures multiset(r) <= multiset(s)
  {
    if s == [] then []
    else
      assert s == [s[0]] + s[1..];
      (if p(s[0]) then [s[0]] else []) + Filter(s[1..], p)
  }

  lemma {:induction false} FilterAppend<T(!new)>(s: seq<T>, t: seq<T>, p: T -> bool)
    ensures Filter(s + t, p) == Filter(s, p) + Filter(t, p)
  {
    if s != [] {
      assert (s + t)[1..] == s[1..] + t;
      FilterAppend(s[1..], t, p);
    } else {
      assert s + t == t;
    }
  }

  /** Filtering keeps everything when every element passes. */
  lemma {:induction false} FilterAll<T(!new)>(s: seq<T>, p: T -> bool)
    requires forall i :: 0 <= i < |s| ==> p(s[i])
    ensures Filter(s, p) == s
  {
    if s != [] {
      FilterAll(s[1..], p);
    }
  }

  /** A filter keeps every copy of an element that passes and no copy of one that does not. */
  lemma {:induction false} FilterMultiplicity<T(!new)>(s: seq<T>, p: T -> bool, x: T)
    ensures multiset(Filter(s, p))[x] == if p(x) then multiset(s)[x] else 0
  {
    if s != [] {
      FilterMultiplicity(s[1..], p, x);
      assert s == [s[0]] + s[1..];
    }
  }

  /** A filter and the filter of the complementary predicate split the multiset. */
  lemma FilterSplit<T(!new)>(s: seq<T>, p: T -> bool, q: T -> bool)
    requires forall x :: q(x) == !p(x)
    ensures multiset(Filter(s, p)) + multiset(Filter(s, q)) == multiset(s)
  {
    forall x ensures (multiset(Filter(s, p)) + multiset(Filter(s, q)))[x] == multiset(s)[x] {
      FilterMultiplicity(s, p, x);
      FilterMultiplicity(s, q, x);
    }
  }

  /** Three predicates of which each element satisfies exactly one split the multiset three ways. */
  lemma FilterSplit3<T(!new)>(s: seq<T>, p: T -> bool, q: T -> bool, r: T -> bool)
    requires forall x :: (p(x) || q(x) || r(x)) && !(p(x) && q(x)) && !(p(x) && r(x)) && !(q(x) && r(x))
    ensures multiset(Filter(s, p)) + multiset(Filter(s, q)) + multiset(Filter(s, r)) == multiset(s)
  {
    var a, b, c := multiset(Filter(s, p)), multiset(Filter(s, q)), multiset(Filter(s, r));
    forall x ensures (a + b + c)[x] == multiset(s)[x] {
      Split3At(s, p, q, r, x);
    }
    assert a + b + c == multiset(s);
  }

  lemma Split3At<T(!new)>(s: seq<T>, p: T -> bool, q: T -> bool, r: T -> bool, x: T)
    requires (p(x) || q(x) || r(x)) && !(p(x) && q(x)) && !(p(x) && r(x)) && !(q(x) && r(x))
    ensures multiset(Filter(s, p))[x] + multiset(Filter(s, q))[x] + multiset(Filter(s, r))[x] == multiset(s)[x]
  {
    FilterMultiplicity(s, p, x);
    FilterMultiplicity(s, q, x);
    FilterMultiplicity(s, r, x);
  }

  /** A filter keeps its whole input exactly when every element passes. */
  lemma {:induction false} FilterKeepsAll<T(!new)>(s: seq<T>, p: T -> bool)
    ensures |Filter(s, p)| == |s| <==> forall i :: 0 <= i < |s| ==> p(s[i])
  {
    if s != [] {
      FilterKeepsAll(s[1..], p);
      assert forall i :: 1 <= i < |s| ==> s[i] == s[1..][i - 1];
    }
  }

  /** Two predicates that agree on the elements give the same filter. */
  lemma {:induction false} FilterCongruent<T(!new)>(s: seq<T>, p: T -> bool, q: T -> bool)
    requires forall i :: 0 <= i < |s| ==> p(s[i]) == q(s[i])
    ensures Filter(s, p) == Filter(s, q)
  {
    if s != [] {
      FilterCongruent(s[1..], p, q);
    }
  }

  /** `s.count(p)`. */
  function Count<T(!new)>(s: seq<T>, p: T -> bool): (n: nat)
    ensures n <= |s|
    ensures n == |Filter(s, p)|
  {
    if s == [] then 0
    else (if p(s[0]) then 1 else 0) + Count(s[1..], p)
  }

  /** `le` is total and transitive: the comparators an ORDER BY list defines. */
  ghost predicate TotalPreorder<T(!new)>(le: (T, T) -> bool) {
    && (forall a, b :: le(a, b) || le(b, a))
    && (forall a, b, c :: le(a, b) && le(b, c) ==> le(a, c))
  }

  ghost predicate SortedBy<T(!new)>(s: seq<T>, le: (T, T) -> bool) {
    forall i, j :: 0 <= i < j < |s| ==> le(s[i], s[j])
  }

  /** Inserts x before the first element it is not greater than. */
  function Insert<T(!new)>(x: T, s: seq<T>, le: (T, T) -> bool): (r: seq<T>)
    ensures |r| == |s| + 1
    ensures multiset(r) == multiset(s) + multiset{x}
    ensures TotalPreorder(le) && SortedBy(s, le) ==> SortedBy(r, le)
  {
    if s == [] then [x]
    else if le(x, s[0]) then
      InsertFrontSorted(x, s, le);
      [x] + s
    else
      var t := Insert(x, s[1..], le);
      assert s == [s[0]] + s[1..];
      InsertBehindSorted(x, s, t, le);
      [s[0]] + t
  }

  lemma InsertFrontSorted<T(!new)>(x: T, s: seq<T>, le: (T, T) -> bool)
    requires s != [] && le(x, s[0])
    ensures TotalPreorder(le) && SortedBy(s, le) ==> SortedBy([x] + s, le)
  {
    if TotalPreorder(le) && SortedBy(s, le) {
      var r := [x] + s;
      forall i, j | 0 <= i < j < |r| ensures le(r[i], r[j]) {
        assert r[j] == s[j - 1];
        if i == 0 {
          if j > 1 {
            assert le(s[0], s[j - 1]);
          }
        } else {
          assert r[i] == s[i - 1];
        }
      }
    }
  }

  lemma InsertBehindSorted<T(!new)>(x: T, s: seq<T>, t: seq<T>, le: (T, T) -> bool)
    requires s != [] && !le(x, s[0])
    requires multiset(t) == multiset(s[1..]) + multiset{x}
    requires TotalPreorder(le) && SortedBy(s[1..], le) ==> SortedBy(t, le)
    ensures TotalPreorder(le) && SortedBy(s, le) ==> SortedBy([s[0]] + t, le)
  {
    if TotalPreorder(le) && SortedBy(s, le) {
      var tail := s[1..];
      assert SortedBy(tail, le) by {
        forall i, j | 0 <= i < j < |tail| ensures le(tail[i], tail[j]) {
          assert tail[i] == s[i + 1] && tail[j] == s[j + 1];
        }
      }
      forall k | 0 <= k < |t| ensures le(s[0], t[k]) {
        assert t[k] in multiset(t);
        if t[k] != x {
          assert t[k] in multiset(tail);
          var m :| 0 <= m < |tail| && tail[m] == t[k];
          assert s[m + 1] == t[k];
        }
      }
      var r := [s[0]] + t;
      forall i, j | 0 <= i < j < |r| ensures le(r[i], r[j]) {
        assert r[j] == t[j - 1];
        if i > 0 {
          assert r[i] == t[i - 1];
        }
      }
    }
  }

  /** A stable insertion sort: `sortedWith(le)`. */
  function SortBy<T(!new)>(s: seq<T>, le: (T, T) -> bool): (r: seq<T>)
    ensures |r| == |s|
    ensures multiset(r) == multiset(s)
    ensures TotalPreorder(le) ==> SortedBy(r, le)
  {
    if s == [] then []
    else
      assert s == [s[0]] + s[1..];
      Insert(s[0], SortBy(s[1..], le), le)
  }

  /** Sorting keeps a sequence already in order as it is: ties stay in their given order. */
  lemma {:induction false} SortBySorted<T(!new)>(s: seq<T>, le: (T, T) -> bool)
    requires SortedBy(s, le)
    ensures SortBy(s, le) == s
  {
    if s != [] {
      var tail := s[1..];
      assert SortedBy(tail, le) by {
        forall i, j | 0 <= i < j < |tail| ensures le(tail[i], tail[j]) {
          assert tail[i] == s[i + 1] && tail[j] == s[j + 1];
        }
      }
      SortBySorted(tail, le);
      if tail != [] {
        assert le(s[0], tail[0]) by { assert tail[0] == s[1]; }
      }
      assert s == [s[0]] + tail;
    }
  }

  /** An order that refines another leaves a sequence sorted by the coarser one. */
  lemma SortedByWeaker<T(!new)>(s: seq<T>, fine: (T, T) -> bool, coarse: (T, T) -> bool)
    requires SortedBy(s, fine)
    requires forall a, b :: fine(a, b) ==> coarse(a, b)
    ensures SortedBy(s, coarse)
  {
  }
  /** `s.map(f)`. */
  function Map<T, U>(s: seq<T>, f: T -> U): (r: seq<U>)
    ensures |r| == |s|
    ensures forall i :: 0 <= i < |s| ==> r[i] == f(s[i])
  {
    if s == [] then [] else [f(s[0])] + Map(s[1..], f)
  }

  /** `s.mapNotNull(f)`: the present results of f, in order. */
  function MapNotNull<T, U>(s: seq<T>, f: T -> Option<U>): (r: seq<U>)
    ensures |r| <= |s|
  {
    if s == [] then []
    else
      var rest := MapNotNull(s[1..], f);
      match f(s[0])
      case Some(u) => [u] + rest
      case None => rest
  }

  lemma {:induction false} MapNotNullAppend<T, U>(s: seq<T>, t: seq<T>, f: T -> Option<U>)
    ensures MapNotNull(s + t, f) == MapNotNull(s, f) + MapNotNull(t, f)
  {
    if s != [] {
      assert (s + t)[1..] == s[1..] + t;
      MapNotNullAppend(s[1..], t, f);
    } else {
      assert s + t == t;
    }
  }

  /** A partial inverse f of g recovers every element mapped by g. */
  lemma {:induction false} MapNotNullInverse<T, U>(xs: seq<T>, g: T -> U, f: U -> Option<T>)
    requires forall i :: 0 <= i < |xs| ==> f(g(xs[i])) == Some(xs[i])
    ensures MapNotNull(Map(xs, g), f) == xs
  {
    if xs != [] {
      var ys := Map(xs, g);
      assert ys[1..] == Map(xs[1..], g);
      MapNotNullInverse(xs[1..], g, f);
      assert f(ys[0]) == Some(xs[0]);
      assert xs == [xs[0]] + xs[1..];
    }
  }

  /** R holds between every element and each later one. */
  predicate Pairwise<T>(s: seq<T>, R: (T, T) -> bool) {
    forall i, j :: 0 <= i < j < |s| ==> R(s[i], s[j])
  }

  /** A pairwise relation extends to a new first element related to every later one. */
  lemma PairwiseCons<T>(x: T, s: seq<T>, R: (T, T) -> bool)
    requires Pairwise(s, R)
    requires forall j :: 0 <= j < |s| ==> R(x, s[j])
    ensures Pairwise([x] + s, R)
  {
    var r := [x] + s;
    forall i, j | 0 <= i < j < |r| ensures R(r[i], r[j]) {
      assert r[j] == s[j - 1];
      if i > 0 {
        assert r[i] == s[i - 1];
      }
    }
  }

  /** A filter keeps a subsequence, so a pairwise relation survives it. */
  lemma {:induction false} FilterPairwise<T(!new)>(s: seq<T>, p: T -> bool, R: (T, T) -> bool)
    requires Pairwise(s, R)
    ensures Pairwise(Filter(s, p), R)
  {
    if s != [] {
      var t := s[1..];
      assert Pairwise(t, R) by {
        forall i, j | 0 <= i < j < |t| ensures R(t[i], t[j]) {
          assert t[i] == s[i + 1] && t[j] == s[j + 1];
        }
      }
      FilterPairwise(t, p, R);
      var rest := Filter(t, p);
      if p(s[0]) {
        assert Filter(s, p) == [s[0]] + rest;
        forall j | 0 <= j < |rest| ensures R(s[0], rest[j]) {
          assert rest[j] in t;
          var k :| 0 <= k < |t| && t[k] == rest[j];
          assert s[k + 1] == rest[j];
        }
        PairwiseCons(s[0], rest, R);
      } else {
        assert Filter(s, p) == rest;
      }
    }
  }

  lemma PairwiseSnoc<T>(s: seq<T>, x: T, R: (T, T) -> bool)
    requires Pairwise(s, R)
    requires forall i :: 0 <= i < |s| ==> R(s[i], x)
    ensures Pairwise(s + [x], R)
  {
    var r := s + [x];
    forall i, j | 0 <= i < j < |r| ensures R(r[i], r[j]) {
      if j < |s| {
        assert r[i] == s[i] && r[j] == s[j];
      } else {
        assert r[i] == s[i] && r[j] == x;
      }
    }
  }

  lemma FilterSingleton<T(!new)>(x: T, p: T -> bool)
    ensures Filter([x], p) == if p(x) then [x] else []
  {
    assert [x][1..] == [];
  }

  /** Filtering twice is the second filter when it implies the first. */
  lemma {:induction false} FilterFilterImplied<T(!new)>(s: seq<T>, p: T -> bool, q: T -> bool)
    requires forall i :: 0 <= i < |s| ==> q(s[i]) ==> p(s[i])
    ensures Filter(Filter(s, p), q) == Filter(s, q)
  {
    if s != [] {
      assert forall i :: 0 <= i < |s[1..]| ==> s[1..][i] == s[i + 1];
      FilterFilterImplied(s[1..], p, q);
      var rest := Filter(s[1..], p);
      if p(s[0]) {
        var t := [s[0]] + rest;
        assert t[0] == s[0] && t[1..] == rest;
        assert Filter(t, q) == (if q(s[0]) then [s[0]] else []) + Filter(rest, q);
      } else {
        assert !q(s[0]);
        assert Filter(s, p) == rest;
        assert Filter(s, q) == Filter(s[1..], q);
      }
    }
  }

  /** Filtering twice keeps nothing when the second filter excludes the first. */
  lemma FilterFilterDisjoint<T(!new)>(s: seq<T>, p: T -> bool, q: T -> bool)
    requires forall i :: 0 <= i < |s| ==> q(s[i]) ==> !p(s[i])
    ensures Filter(Filter(s, p), q) == []
  {
    var f := Filter(s, p);
    forall i | 0 <= i < |f| ensures !q(f[i]) {
      assert f[i] in s;
      var k :| 0 <= k < |s| && s[k] == f[i];
    }
    FilterNone(f, q);
  }

  /** Nothing passes a filter that no element satisfies. */
  lemma {:induction false} FilterNone<T(!new)>(s: seq<T>, p: T -> bool)
    requires forall i :: 0 <= i < |s| ==> !p(s[i])
    ensures Filter(s, p) == []
  {
    if s != [] {
      FilterNone(s[1..], p);
    }
  }
  /**
   * `ORDER BY x DESC` on a nullable integer column: larger values first and
   * NULL last, as in SQLite and in Kotlin's `sortedByDescending`.
   */
  predicate DescNullsLast(x: Option<int>, y: Option<int>) {
    match x
    case None => y.None?
    case Some(a) => y.None? || a >= y.value
  }
}
