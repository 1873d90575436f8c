/**
 * The array operations the site's code uses, on `seq`: `filter`, a stable
 * `sort` by a numeric key in descending order (the store's `order by ... desc`
 * and `Array.prototype.sort` with a `b - a` comparator), `slice(0, n)` as a
 * limit, and `Array.from(new Set(...))`, which keeps the first occurrence of
 * each element.
 */
module Seqs {

  function Filter<T(!new)>(s: seq<T>, p: T -> bool): (r: seq<T>)
    ensures |r| <= |s|
    ensures forall i :: 0 <= i < |r| ==> p(r[i])
    ensures forall x :: x in r <==> x in s && p(x)
  {
    if s == [] then []
    else if p(s[0]) then [s[0]] + Filter(s[1..], p)
    else Filter(s[1..], p)
  }

  lemma {:induction false} FilterAppend<T(!new)>(s: seq<T>, y: T, p: T -> bool)
    ensures Filter(s + [y], p) == Filter(s, p) + (if p(y) then [y] else [])
  {
    if s != [] {
      assert (s + [y])[1..] == s[1..] + [y];
      FilterAppend(s[1..], y, p);
    }
  }

  /** Nothing passes the filter when no element satisfies the predicate. */
  lemma {:induction false} FilterNone<T(!new)>(s: seq<T>, p: T -> bool)
    requires forall x :: x in s ==> !p(x)
    ensures Filter(s, p) == []
  {
    if s != [] {
      assert s[0] in s;
      FilterNone(s[1..], p);
    }
  }

  /** A filter every element passes keeps the whole sequence. */
  lemma {:induction false} FilterAll<T(!new)>(s: seq<T>, p: T -> bool)
    requires forall i :: 0 <= i < |s| ==> p(s[i])
    ensures Filter(s, p) == s
  {
    if s != [] {
      FilterAll(s[1..], p);
    }
  }

  /** Filtering distributes over concatenation. */
  lemma {:induction false} FilterConcat<T(!new)>(a: seq<T>, b: seq<T>, p: T -> bool)
    ensures Filter(a + b, p) == Filter(a, p) + Filter(b, p)
  {
    if a == [] {
      assert a + b == b;
    } else {
      assert (a + b)[1..] == a[1..] + b;
      FilterConcat(a[1..], b, p);
      AppendAssoc([a[0]], Filter(a[1..], p), Filter(b, p));
    }
  }

  /** Every element passes exactly one of two complementary filters. */
  lemma {:induction false} FilterComplement<T(!new)>(s: seq<T>, p: T -> bool, q: T -> bool)
    requires forall x :: p(x) <==> !q(x)
    ensures |Filter(s, p)| + |Filter(s, q)| == |s|
  {
    if s != [] {
      FilterComplement(s[1..], p, q);
    }
  }

  predicate SortedDescBy<T>(s: seq<T>, key: T -> int) {
    forall i, j :: 0 <= i < j < |s| ==> key(s[i]) >= key(s[j])
  }

  /** Keeping some elements of a sorted sequence keeps it sorted. */
  lemma {:induction false} FilterSorted<T(!new)>(s: seq<T>, p: T -> bool, key: T -> int)
    requires SortedDescBy(s, key)
    ensures SortedDescBy(Filter(s, p), key)
  {
    if s != [] {
      FilterSorted(s[1..], p, key);
      var rest := Filter(s[1..], p);
      forall y | y in rest ensures key(y) <= key(s[0]) {
        var k :| 0 <= k < |s[1..]| && s[1..][k] == y;
        assert s[k + 1] == y;
      }
    }
  }

  function Insert<T(==)>(x: T, s: seq<T>, key: T -> int): (r: seq<T>)
    requires SortedDescBy(s, key)
    ensures |r| == |s| + 1
    ensures multiset(r) == multiset(s) + multiset{x}
    ensures SortedDescBy(r, key)
    ensures s != [] ==> r[0] == x || r[0] == s[0]
  {
    if s == [] then [x]
    else if key(x) >= key(s[0]) then [x] + s
    else
      var rest := Insert(x, s[1..], key);
      ConsSorted(s[0], rest, key);
      ConsMultiset(s, rest, x);
      [s[0]] + rest
  }

  lemma ConsSorted<T>(y: T, s: seq<T>, key: T -> int)
    requires SortedDescBy(s, key) && (s != [] ==> key(y) >= key(s[0]))
    ensures SortedDescBy([y] + s, key)
  {
    var r := [y] + s;
    forall i, j | 0 <= i < j < |r| ensures key(r[i]) >= key(r[j]) {
      assert r[j] == s[j - 1];
      if i > 0 {
        assert r[i] == s[i - 1];
      }
    }
  }

  lemma ConsMultiset<T>(s: seq<T>, rest: seq<T>, x: T)
    requires s != [] && multiset(rest) == multiset(s[1..]) + multiset{x}
    ensures multiset([s[0]] + rest) == multiset(s) + multiset{x}
  {
    assert s == [s[0]] + s[1..];
  }

  /** Stable sort by `key`, largest key first; equal keys keep their input order. */
  function SortDescBy<T(==)>(s: seq<T>, key: T -> int): (r: seq<T>)
    ensures |r| == |s|
    ensures multiset(r) == multiset(s)
    ensures SortedDescBy(r, key)
  {
    if s == [] then []
    else
      assert s == [s[0]] + s[1..];
      Insert(s[0], SortDescBy(s[1..], key), key)
  }

  /** The elements whose key is `k`. */
  function KeyIs<T>(key: T -> int, k: int): T -> bool {
    (x: T) => key(x) == k
  }

  /**
   * Inserting `x` puts it before every element with the same key, so among
   * the elements with any one key it comes first.
   */
  lemma {:induction false} InsertStable<T(!new)>(x: T, s: seq<T>, key: T -> int, k: int)
    requires SortedDescBy(s, key)
    ensures Filter(Insert(x, s, key), KeyIs(key, k)) == (if key(x) == k then [x] else []) + Filter(s, KeyIs(key, k))
  {
    var p := KeyIs(key, k);
    if s == [] {
    } else if key(x) >= key(s[0]) {
      assert ([x] + s)[1..] == s;
    } else {
      var rest := Insert(x, s[1..], key);
      InsertStable(x, s[1..], key, k);
      assert ([s[0]] + rest)[1..] == rest;
      assert Filter(s, p) == (if p(s[0]) then [s[0]] else []) + Filter(s[1..], p);
    }
  }

  /**
   * The sort is stable: the elements with any one key come out in the order
   * they went in.
   */
  lemma {:induction false} SortStable<T(!new)>(s: seq<T>, key: T -> int, k: int)
    ensures Filter(SortDescBy(s, key), KeyIs(key, k)) == Filter(s, KeyIs(key, k))
  {
    if s != [] {
      SortStable(s[1..], key, k);
      InsertStable(s[0], SortDescBy(s[1..], key), key, k);
    }
  }

  lemma {:induction false} InsertSameKeys<T>(x: T, s: seq<T>, k1: T -> int, k2: T -> int)
    requires SortedDescBy(s, k1) && SortedDescBy(s, k2)
    requires k1(x) == k2(x) && forall y :: y in s ==> k1(y) == k2(y)
    ensures Insert(x, s, k1) == Insert(x, s, k2)
  {
    if s != [] {
      InsertSameKeys(x, s[1..], k1, k2);
    }
  }

  /** The sort depends only on the keys of the elements it sorts. */
  lemma {:induction false} SortSameKeys<T>(s: seq<T>, k1: T -> int, k2: T -> int)
    requires forall y :: y in s ==> k1(y) == k2(y)
    ensures SortDescBy(s, k1) == SortDescBy(s, k2)
  {
    if s != [] {
      SortSameKeys(s[1..], k1, k2);
      var sorted := SortDescBy(s[1..], k1);
      forall y | y in sorted ensures k1(y) == k2(y) {
        assert y in multiset(s[1..]);
      }
      InsertSameKeys(s[0], sorted, k1, k2);
    }
  }

  /** `limit n`, or `slice(0, n)` for a non-negative `n`. */
  function Take<T>(s: seq<T>, limit: nat): (r: seq<T>)
    ensures |r| == if |s| <= limit then |s| else limit
    ensures r == s[..|r|]
    ensures |s| <= limit ==> r == s
  {
    if |s| <= limit then s else s[..limit]
  }

  predicate NoDups<T(==)>(s: seq<T>) {
    forall i, j :: 0 <= i < j < |s| ==> s[i] != s[j]
  }

  /** A sequence has no duplicates exactly when each element occurs at most once in its multiset. */
  lemma {:induction false} NoDupsMultiset<T>(s: seq<T>)
    ensures NoDups(s) <==> forall x :: multiset(s)[x] <= 1
  {
    if s != [] {
      var t := s[1..];
      assert s == [s[0]] + t;
      NoDupsMultiset(t);
      if NoDups(s) {
        assert NoDups(t);
        assert s[0] !in t;
      }
      if forall x :: multiset(s)[x] <= 1 {
        assert forall x :: multiset(t)[x] <= multiset(s)[x];
        assert multiset(s) == multiset{s[0]} + multiset(t);
        assert multiset(t)[s[0]] == 0;
        forall i, j | 0 <= i < j < |s| ensures s[i] != s[j] {
          if i == 0 { assert s[j] in t; } else { assert s[i] == t[i - 1] && s[j] == t[j - 1]; }
        }
      }
    }
  }

  /** A permutation of a duplicate-free sequence is duplicate-free. */
  lemma PermutationNoDups<T>(s: seq<T>, r: seq<T>)
    requires NoDups(s) && multiset(r) == multiset(s)
    ensures NoDups(r)
  {
    NoDupsMultiset(s);
    NoDupsMultiset(r);
  }

  /** `Array.from(new Set(s))`: the elements of `s`, each at its first occurrence. */
  function Distinct<T(==,!new)>(s: seq<T>): (r: seq<T>)
    ensures NoDups(r)
    ensures forall x :: x in r <==> x in s
    ensures |r| <= |s|
  {
    if s == [] then []
    else
      var d := Distinct(s[..|s| - 1]);
      assert forall x :: x in s <==> x in s[..|s| - 1] || x == s[|s| - 1] by {
        assert s == s[..|s| - 1] + [s[|s| - 1]];
      }
      if s[|s| - 1] in d then d else d + [s[|s| - 1]]
  }

  /** The elements not in `a`, as a filter. */
  function NotIn<T(==)>(a: seq<T>): T -> bool {
    (x: T) => x !in a
  }

  /**
   * Deduplicating `a + b`, where `b` has no duplicates, keeps the deduplicated
   * `a` in front and then the elements of `b` not in `a`, in `b`'s order.
   */
  lemma {:induction false} DistinctAppend<T(!new)>(a: seq<T>, b: seq<T>)
    requires NoDups(b)
    ensures Distinct(a + b) == Distinct(a) + Filter(b, NotIn(a))
  {
    if b == [] {
      assert a + b == a;
    } else {
      var b', y := b[..|b| - 1], b[|b| - 1];
      assert b == b' + [y];
      var d, f := Distinct(a), Filter(b', NotIn(a));
      assert Distinct(a + b') == d + f by {
        assert NoDups(b');
        DistinctAppend(a, b');
      }
      assert Distinct(a + b) == if y in d + f then d + f else (d + f) + [y] by {
        assert a + b == (a + b') + [y];
        DistinctSnoc(a + b', y);
      }
      assert Filter(b, NotIn(a)) == f + (if y in a then [] else [y]) by {
        FilterAppend(b', y, NotIn(a));
      }
      assert y in d + f <==> y in a by {
        assert y !in b';
      }
      if y in a {
        assert f + [] == f;
      } else {
        assert (d + f) + [y] == d + (f + [y]);
      }
    }
  }

  /** Deduplicating one more element appends it unless it was already there. */
  lemma DistinctSnoc<T(!new)>(s: seq<T>, y: T)
    ensures Distinct(s + [y]) == if y in Distinct(s) then Distinct(s) else Distinct(s) + [y]
  {
    assert (s + [y])[..|s + [y]| - 1] == s;
  }

  lemma {:induction false} DistinctOfNoDups<T(!new)>(s: seq<T>)
    requires NoDups(s)
    ensures Distinct(s) == s
  {
    if s != [] {
      var init := s[..|s| - 1];
      assert NoDups(init);
      DistinctOfNoDups(init);
      assert s[|s| - 1] !in init;
      assert s == init + [s[|s| - 1]];
    }
  }

  /** `findIndex`: the position of the first element satisfying `p`, or -1. */
  function FindIndex<T>(s: seq<T>, p: T -> bool): (r: int)
    ensures -1 <= r < |s|
    ensures r >= 0 ==> p(s[r]) && forall k :: 0 <= k < r ==> !p(s[k])
    ensures r == -1 ==> forall k :: 0 <= k < |s| ==> !p(s[k])
  {
    if s == [] then -1
    else if p(s[0]) then 0
    else
      var k := FindIndex(s[1..], p);
      if k == -1 then -1 else k + 1
  }

  /** `[f(xs[0], ys[0]), ..., f(xs[n - 1], ys[n - 1])]`, built one element at a time. */
  function MapPairs<A, B, C>(xs: seq<A>, ys: seq<B>, f: (A, B) -> C, n: nat): seq<C>
    requires n <= |xs| == |ys|
  {
    if n == 0 then [] else MapPairs(xs, ys, f, n - 1) + [f(xs[n - 1], ys[n - 1])]
  }

  lemma {:induction false} MapPairsAt<A, B, C>(xs: seq<A>, ys: seq<B>, f: (A, B) -> C, n: nat)
    requires n <= |xs| == |ys|
    ensures |MapPairs(xs, ys, f, n)| == n
    ensures forall k :: 0 <= k < n ==> MapPairs(xs, ys, f, n)[k] == f(xs[k], ys[k])
  {
    if n > 0 {
      MapPairsAt(xs, ys, f, n - 1);
    }
  }

  /** `a + b` is `a` followed by `b`. */
  lemma AppendParts<T>(a: seq<T>, b: seq<T>)
    ensures |a + b| == |a| + |b| && (a + b)[..|a|] == a
    ensures forall i :: 0 <= i < |b| ==> (a + b)[|a| + i] == b[i]
  {
  }

  /** Concatenation regroups; stated once so that long proofs need not rediscover it. */
  lemma AppendAssoc<T>(p: seq<T>, q: seq<T>, r: seq<T>)
    ensures p + (q + r) == p + q + r
  {
  }
}
