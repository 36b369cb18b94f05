/** Sequence helpers: order-preserving filtering and the stable sort that
    Python's `sorted` and `list.sort` perform. */
module Seqs {

  /** The elements of `s` that satisfy `p`, in their original order (a list
      comprehension or an append loop guarded by `p`). */
  function Filter<T>(s: seq<T>, p: T -> bool): (r: seq<T>)
    ensures |r| <= |s|
    ensures forall i :: 0 <= i < |r| ==> p(r[i])
  {
    if s == [] then []
    else Filter(s[..|s| - 1], p) + (if p(s[|s| - 1]) then [s[|s| - 1]] else [])
  }

  /** `f` applied to every element of `s`, in order (a list comprehension
      without a guard). */
  function Map<T, U>(s: seq<T>, f: T -> U): (r: seq<U>)
    ensures |r| == |s|
    ensures forall i :: 0 <= i < |s| ==> r[i] == f(s[i])
  {
    if s == [] then [] else Map(s[..|s| - 1], f) + [f(s[|s| - 1])]
  }

  lemma {:induction false} MapMembers<T, U>(s: seq<T>, f: T -> U, y: U)
    ensures y in Map(s, f) <==> exists x :: x in s && f(x) == y
  {
    if s != [] {
      MapMembers(s[..|s| - 1], f, y);
      assert s == s[..|s| - 1] + [s[|s| - 1]];
    }
  }

  function Not<T>(p: T -> bool): T -> bool {
    x => !p(x)
  }

  /** `a` can be obtained from `b` by deleting elements. */
  predicate Subsequence<T(==)>(a: seq<T>, b: seq<T>)
    decreases |b|
  {
    if a == [] then true
    else if b == [] then false
    else if a[|a| - 1] == b[|b| - 1] then Subsequence(a[..|a| - 1], b[..|b| - 1])
    else Subsequence(a, b[..|b| - 1])
  }

  lemma {:induction false} FilterMembers<T>(s: seq<T>, p: T -> bool, x: T)
    ensures x in Filter(s, p) <==> x in s && p(x)
  {
    if s != [] {
      FilterMembers(s[..|s| - 1], p, x);
      assert s == s[..|s| - 1] + [s[|s| - 1]];
    }
  }

  /** Filtering keeps the input order: the result is a subsequence. */
  lemma {:induction false} FilterIsSubsequence<T>(s: seq<T>, p: T -> bool)
    ensures Subsequence(Filter(s, p), s)
  {
    if s != [] {
      var init, x := s[..|s| - 1], s[|s| - 1];
      FilterIsSubsequence(init, p);
      var f := Filter(init, p);
      assert s[..|s| - 1] == init;
      if p(x) {
        assert Filter(s, p) == f + [x];
        assert (f + [x])[..|f|] == f;
      } else {
        assert Filter(s, p) == f;
        if f != [] {
          assert p(f[|f| - 1]);
        }
      }
    }
  }

  /** A filter and its complement split the input: together they hold every
      element exactly as often as the input does. */
  lemma {:induction false} FilterPartition<T>(s: seq<T>, p: T -> bool)
    ensures multiset(Filter(s, p)) + multiset(Filter(s, Not(p))) == multiset(s)
    ensures |Filter(s, p)| + |Filter(s, Not(p))| == |s|
  {
    if s != [] {
      var init, x := s[..|s| - 1], s[|s| - 1];
      FilterPartition(init, p);
      var kept, dropped := Filter(init, p), Filter(init, Not(p));
      assert multiset(s) == multiset(init) + multiset{x} by {
        assert s == init + [x];
      }
      if p(x) {
        assert Filter(s, p) == kept + [x];
        assert Filter(s, Not(p)) == dropped;
      } else {
        assert Filter(s, p) == kept;
        assert Filter(s, Not(p)) == dropped + [x];
      }
    }
  }

  /** Keys are non-decreasing along `s`. */
  ghost predicate SortedBy<T>(s: seq<T>, key: T -> real) {
    forall i, j :: 0 <= i < j < |s| ==> key(s[i]) <= key(s[j])
  }

  /** Inserts `x` in front of the first element whose key is not smaller, so
      that `x` stays ahead of the elements with an equal key. */
  function InsertBy<T>(x: T, t: seq<T>, key: T -> real): seq<T> {
    if t == [] || key(x) <= key(t[0]) then [x] + t
    else [t[0]] + InsertBy(x, t[1..], key)
  }

  /** Stable ascending sort by `key`: elements with equal keys keep their
      input order, as Python's `sorted` and `list.sort` guarantee. */
  function SortBy<T>(s: seq<T>, key: T -> real): seq<T> {
    if s == [] then [] else InsertBy(s[0], SortBy(s[1..], key), key)
  }

  lemma {:induction false} InsertByPermutes<T>(x: T, t: seq<T>, key: T -> real)
    ensures multiset(InsertBy(x, t, key)) == multiset{x} + multiset(t)
  {
    if !(t == [] || key(x) <= key(t[0])) {
      InsertByPermutes(x, t[1..], key);
      assert t == [t[0]] + t[1..];
    }
  }

  lemma {:induction false} InsertBySorted<T>(x: T, t: seq<T>, key: T -> real)
    requires SortedBy(t, key)
    ensures SortedBy(InsertBy(x, t, key), key)
  {
    if !(t == [] || key(x) <= key(t[0])) {
      var rest := InsertBy(x, t[1..], key);
      InsertBySorted(x, t[1..], key);
      InsertByPermutes(x, t[1..], key);
      forall j | 0 <= j < |rest| ensures key(t[0]) <= key(rest[j]) {
        assert rest[j] in multiset(rest);
        assert rest[j] == x || rest[j] in t[1..];
      }
    }
  }

  lemma {:induction false} SortByPermutes<T>(s: seq<T>, key: T -> real)
    ensures multiset(SortBy(s, key)) == multiset(s)
  {
    if s != [] {
      SortByPermutes(s[1..], key);
      InsertByPermutes(s[0], SortBy(s[1..], key), key);
      assert s == [s[0]] + s[1..];
    }
  }

  lemma {:induction false} SortBySorted<T>(s: seq<T>, key: T -> real)
    ensures SortedBy(SortBy(s, key), key)
  {
    if s != [] {
      SortBySorted(s[1..], key);
      InsertBySorted(s[0], SortBy(s[1..], key), key);
    }
  }

  lemma SortByLength<T>(s: seq<T>, key: T -> real)
    ensures |SortBy(s, key)| == |s|
  {
    SortByPermutes(s, key);
    assert |multiset(SortBy(s, key))| == |multiset(s)|;
  }

  /** The head of the stable sort is the first element of least key: no
      element has a smaller key, and every element before it in the input
      has a larger one. */
  lemma {:induction false} SortByHead<T>(s: seq<T>, key: T -> real)
    requires s != []
    ensures SortBy(s, key) != []
    ensures exists i :: 0 <= i < |s| && SortBy(s, key)[0] == s[i] &&
              (forall j :: 0 <= j < |s| ==> key(s[i]) <= key(s[j])) &&
              (forall j :: 0 <= j < i ==> key(s[j]) > key(s[i]))
  {
    if |s| == 1 {
      assert SortBy(s, key)[0] == s[0];
    } else {
      var tail := s[1..];
      var rest := SortBy(tail, key);
      SortByHead(tail, key);
      var i' :| 0 <= i' < |tail| && rest[0] == tail[i'] &&
                (forall j :: 0 <= j < |tail| ==> key(tail[i']) <= key(tail[j])) &&
                (forall j :: 0 <= j < i' ==> key(tail[j]) > key(tail[i']));
      if key(s[0]) <= key(rest[0]) {
        assert SortBy(s, key)[0] == s[0];
        forall j | 0 <= j < |s| ensures key(s[0]) <= key(s[j]) {
          if j > 0 {
            assert s[j] == tail[j - 1];
          }
        }
      } else {
        assert SortBy(s, key)[0] == s[1 + i'];
        forall j | 0 <= j < |s| ensures key(s[1 + i']) <= key(s[j]) {
          if j > 0 {
            assert s[j] == tail[j - 1];
          }
        }
        forall j | 0 <= j < 1 + i' ensures key(s[j]) > key(s[1 + i']) {
          if j > 0 {
            assert s[j] == tail[j - 1];
          }
        }
      }
    }
  }

  /** The first `k` elements of the stable sort are `k` elements of `s`
      whose keys are no larger than that of any element left out. */
  lemma SortByPrefixLeast<T>(s: seq<T>, key: T -> real, k: nat)
    requires k <= |s|
    ensures |SortBy(s, key)| == |s|
    ensures multiset(SortBy(s, key)[..k]) <= multiset(s)
    ensures forall x, y :: x in SortBy(s, key)[..k] && y in multiset(s) - multiset(SortBy(s, key)[..k]) ==>
              key(x) <= key(y)
  {
    var sorted := SortBy(s, key);
    SortByLength(s, key);
    SortByPermutes(s, key);
    SortBySorted(s, key);
    var top, rest := sorted[..k], sorted[k..];
    assert sorted == top + rest;
    assert multiset(top) + multiset(rest) == multiset(s);
    forall x, y | x in top && y in multiset(s) - multiset(top) ensures key(x) <= key(y) {
      assert y in multiset(rest);
      var i :| 0 <= i < k && sorted[i] == x;
      var j :| 0 <= j < |rest| && rest[j] == y;
      assert sorted[k + j] == y;
    }
  }

  /** No element occurs twice in `s`. */
  predicate Distinct<T(==)>(s: seq<T>) {
    forall i, j :: 0 <= i < j < |s| ==> s[i] != s[j]
  }

  lemma {:induction false} DistinctOnce<T>(s: seq<T>, x: T)
    requires Distinct(s)
    ensures multiset(s)[x] <= 1
  {
    if s != [] {
      var init := s[..|s| - 1];
      assert Distinct(init) by {
        forall i, j | 0 <= i < j < |init| ensures init[i] != init[j] {
          assert init[i] == s[i] && init[j] == s[j];
        }
      }
      DistinctOnce(init, x);
      assert s == init + [s[|s| - 1]];
      if x == s[|s| - 1] {
        forall i | 0 <= i < |init| ensures init[i] != x {
          assert init[i] == s[i];
        }
      }
    }
  }

  /** Filtering a duplicate-free `s` down to the members of `r`, a part of
      `s`, keeps exactly |r| elements. */
  lemma DistinctFilterSize<T>(s: seq<T>, p: T -> bool, r: seq<T>)
    requires Distinct(s)
    requires multiset(r) <= multiset(s)
    requires forall x :: x in s ==> (p(x) <==> x in r)
    ensures |Filter(s, p)| == |r|
  {
    var f := Filter(s, p);
    FilterPartition(s, p);
    forall x ensures multiset(f)[x] == multiset(r)[x] {
      DistinctOnce(s, x);
      FilterMembers(s, p, x);
      assert x in multiset(f) <==> x in multiset(r);
    }
    assert multiset(f) == multiset(r);
    assert |multiset(f)| == |multiset(r)|;
  }
}
