/** Python's stable `sorted(xs, key=...)` and `sorted(..., reverse=True)`,
    written as an insertion sort over an arbitrary key order. */
module Sorting {

  /** A total preorder: what Python's sort needs of the key comparison. */
  ghost predicate TotalPreorder<K(!new)>(le: (K, K) -> bool) {
    && (forall a, b :: le(a, b) || le(b, a))
    && (forall a, b, c :: le(a, b) && le(b, c) ==> le(a, c))
  }

  predicate SortedBy<T, K>(s: seq<T>, key: T -> K, le: (K, K) -> bool) {
    forall i, j :: 0 <= i < j < |s| ==> le(key(s[i]), key(s[j]))
  }

  /** Inserts `x` after every element whose key is not greater than its own:
      a later element never overtakes an earlier one with an equal key. */
  function InsertBy<T, K>(s: seq<T>, x: T, key: T -> K, le: (K, K) -> bool): (r: seq<T>)
    ensures |r| == |s| + 1
    ensures multiset(r) == multiset(s) + multiset{x}
    decreases |s|
  {
    if |s| == 0 then [x]
    else if le(key(s[0]), key(x)) then
      assert s == [s[0]] + s[1..];
      [s[0]] + InsertBy(s[1..], x, key, le)
    else [x] + s
  }

  /** Stable ascending sort by `key`. */
  function SortBy<T, K>(s: seq<T>, key: T -> K, le: (K, K) -> bool): (r: seq<T>)
    ensures |r| == |s|
    ensures multiset(r) == multiset(s)
    decreases |s|
  {
    if |s| == 0 then []
    else
      assert s == s[..|s| - 1] + [s[|s| - 1]];
      InsertBy(SortBy(s[..|s| - 1], key, le), s[|s| - 1], key, le)
  }

  /** Sorting keeps exactly the elements it was given. */
  lemma SortByMembers<T, K>(s: seq<T>, key: T -> K, le: (K, K) -> bool)
    ensures forall x :: x in SortBy(s, key, le) <==> x in s
  {
    var r := SortBy(s, key, le);
    forall x ensures x in r <==> x in s {
      assert x in r <==> x in multiset(r);
      assert x in s <==> x in multiset(s);
    }
  }

  function Reverse<T>(s: seq<T>): (r: seq<T>)
    ensures |r| == |s|
    ensures forall k :: 0 <= k < |s| ==> r[k] == s[|s| - 1 - k]
  {
    seq(|s|, k requires 0 <= k < |s| => s[|s| - 1 - k])
  }

  lemma ReverseMultiset<T>(s: seq<T>)
    ensures multiset(Reverse(s)) == multiset(s)
    decreases |s|
  {
    if |s| > 0 {
      ReverseMultiset(s[1..]);
      assert Reverse(s) == Reverse(s[1..]) + [s[0]];
      assert s == [s[0]] + s[1..];
    }
  }

  /** Python's `sorted(s, key=key, reverse=True)`: CPython reverses, sorts
      stably, and reverses again, so equal keys keep their original order. */
  function SortDescBy<T, K>(s: seq<T>, key: T -> K, le: (K, K) -> bool): (r: seq<T>)
    ensures |r| == |s|
    ensures multiset(r) == multiset(s)
  {
    var r := Reverse(SortBy(Reverse(s), key, le));
    ReverseMultiset(s);
    ReverseMultiset(SortBy(Reverse(s), key, le));
    r
  }

  lemma {:induction false} InsertSorted<T, K(!new)>(s: seq<T>, x: T, key: T -> K, le: (K, K) -> bool)
    requires TotalPreorder(le)
    requires SortedBy(s, key, le)
    ensures SortedBy(InsertBy(s, x, key, le), key, le)
    decreases |s|
  {
    if |s| > 0 {
      var r := InsertBy(s, x, key, le);
      if le(key(s[0]), key(x)) {
        InsertSorted(s[1..], x, key, le);
        var t := InsertBy(s[1..], x, key, le);
        assert r == [s[0]] + t;
        forall j | 0 < j < |r| ensures le(key(r[0]), key(r[j])) {
          assert r[j] in multiset(t);
          assert r[j] in multiset(s[1..]) + multiset{x};
          if r[j] == x {
          } else {
            assert r[j] in s[1..];
            var k :| 0 <= k < |s[1..]| && s[1..][k] == r[j];
            assert s[k + 1] == r[j];
          }
        }
      } else {
        assert r == [x] + s;
        assert le(key(x), key(s[0]));
      }
    }
  }

  /** `SortBy` does sort: every earlier key is at most every later key. */
  lemma {:induction false} SortBySorted<T, K(!new)>(s: seq<T>, key: T -> K, le: (K, K) -> bool)
    requires TotalPreorder(le)
    ensures SortedBy(SortBy(s, key, le), key, le)
    decreases |s|
  {
    if |s| > 0 {
      SortBySorted(s[..|s| - 1], key, le);
      InsertSorted(SortBy(s[..|s| - 1], key, le), s[|s| - 1], key, le);
    }
  }

  /** `SortDescBy` sorts in descending key order. */
  lemma SortDescBySorted<T, K(!new)>(s: seq<T>, key: T -> K, le: (K, K) -> bool)
    requires TotalPreorder(le)
    ensures var r := SortDescBy(s, key, le);
            forall i, j :: 0 <= i < j < |r| ==> le(key(r[j]), key(r[i]))
  {
    var u := SortBy(Reverse(s), key, le);
    SortBySorted(Reverse(s), key, le);
    var r := SortDescBy(s, key, le);
    forall i, j | 0 <= i < j < |r| ensures le(key(r[j]), key(r[i])) {
      assert r[j] == u[|u| - 1 - j] && r[i] == u[|u| - 1 - i];
    }
  }

  /** Every two elements at distinct positions satisfy `ok`, in both orders. */
  predicate Pairwise<T>(s: seq<T>, ok: (T, T) -> bool) {
    forall i, j :: 0 <= i < j < |s| ==> ok(s[i], s[j]) && ok(s[j], s[i])
  }

  lemma {:induction false} InsertPairwise<T, K>(s: seq<T>, x: T, key: T -> K, le: (K, K) -> bool, ok: (T, T) -> bool)
    requires Pairwise(s, ok)
    requires forall y :: y in s ==> ok(x, y) && ok(y, x)
    ensures Pairwise(InsertBy(s, x, key, le), ok)
    decreases |s|
  {
    if |s| == 0 {
      assert InsertBy(s, x, key, le) == [x];
    } else if le(key(s[0]), key(x)) {
      var t := InsertBy(s[1..], x, key, le);
      assert s == [s[0]] + s[1..];
      PairwiseTail(s[0], s[1..], ok);
      InsertPairwise(s[1..], x, key, le, ok);
      assert forall y :: y in t ==> ok(s[0], y) && ok(y, s[0]) by {
        forall y | y in t ensures ok(s[0], y) && ok(y, s[0]) {
          assert y in multiset(t);
          assert y == x || y in s[1..];
          if y != x {
            var k :| 0 <= k < |s[1..]| && s[1..][k] == y;
            assert s[k + 1] == y;
          }
        }
      }
      PairwiseCons(s[0], t, ok);
    } else {
      PairwiseCons(x, s, ok);
    }
  }

  lemma PairwiseCons<T>(y: T, t: seq<T>, ok: (T, T) -> bool)
    requires Pairwise(t, ok)
    requires forall z :: z in t ==> ok(y, z) && ok(z, y)
    ensures Pairwise([y] + t, ok)
  {
    var r := [y] + t;
    forall i, j | 0 <= i < j < |r| ensures ok(r[i], r[j]) && ok(r[j], r[i]) {
      assert r[j] == t[j - 1];
      if i > 0 {
        assert r[i] == t[i - 1];
      }
    }
  }

  lemma PairwiseTail<T>(y: T, t: seq<T>, ok: (T, T) -> bool)
    requires Pairwise([y] + t, ok)
    ensures Pairwise(t, ok) && forall z :: z in t ==> ok(y, z) && ok(z, y)
  {
    var r := [y] + t;
    forall i, j | 0 <= i < j < |t| ensures ok(t[i], t[j]) && ok(t[j], t[i]) {
      assert t[i] == r[i + 1] && t[j] == r[j + 1];
    }
    forall z | z in t ensures ok(y, z) && ok(z, y) {
      var k :| 0 <= k < |t| && t[k] == z;
      assert r[0] == y && r[k + 1] == z;
    }
  }

  /** Sorting keeps any pairwise property: it only reorders the elements. */
  lemma {:induction false} SortByPairwise<T, K>(s: seq<T>, key: T -> K, le: (K, K) -> bool, ok: (T, T) -> bool)
    requires Pairwise(s, ok)
    ensures Pairwise(SortBy(s, key, le), ok)
    decreases |s|
  {
    if |s| > 0 {
      var p := s[..|s| - 1];
      var x := s[|s| - 1];
      assert Pairwise(p, ok);
      SortByPairwise(p, key, le, ok);
      forall y | y in SortBy(p, key, le) ensures ok(x, y) && ok(y, x) {
        assert y in multiset(p);
        var k :| 0 <= k < |p| && p[k] == y;
      }
      InsertPairwise(SortBy(p, key, le), x, key, le, ok);
    }
  }

  /** `[x for x in s if p(x)]`. */
  function Filter<T(!new)>(s: seq<T>, p: T -> bool): (r: seq<T>)
    ensures |r| <= |s|
    ensures forall x :: x in r <==> x in s && p(x)
    ensures forall k :: 0 <= k < |r| ==> p(r[k])
    decreases |s|
  {
    if |s| == 0 then []
    else
      assert s == [s[0]] + s[1..];
      (if p(s[0]) then [s[0]] else []) + Filter(s[1..], p)
  }

  /** Filtering keeps a relation that holds between every two elements. */
  lemma {:induction false} FilterPairwise<T(!new)>(s: seq<T>, p: T -> bool, ok: (T, T) -> bool)
    requires Pairwise(s, ok)
    ensures Pairwise(Filter(s, p), ok)
    decreases |s|
  {
    if |s| > 0 {
      assert s == [s[0]] + s[1..];
      PairwiseTail(s[0], s[1..], ok);
      FilterPairwise(s[1..], p, ok);
      if p(s[0]) {
        PairwiseCons(s[0], Filter(s[1..], p), ok);
      }
    }
  }

  /** Filtering a sorted sequence leaves it sorted. */
  lemma {:induction false} FilterSorted<T(!new), K>(s: seq<T>, p: T -> bool, key: T -> K, le: (K, K) -> bool)
    requires SortedBy(s, key, le)
    ensures SortedBy(Filter(s, p), key, le)
    decreases |s|
  {
    if |s| > 0 {
      assert SortedBy(s[1..], key, le) by {
        forall i, j | 0 <= i < j < |s[1..]| ensures le(key(s[1..][i]), key(s[1..][j])) {
          assert s[1..][i] == s[i + 1] && s[1..][j] == s[j + 1];
        }
      }
      FilterSorted(s[1..], p, key, le);
      if p(s[0]) {
        var t := Filter(s[1..], p);
        var r := [s[0]] + t;
        forall i, j | 0 <= i < j < |r| ensures le(key(r[i]), key(r[j])) {
          if i == 0 {
            assert r[j] in t;
            var k :| 0 <= k < |s[1..]| && s[1..][k] == r[j];
            assert s[k + 1] == r[j];
          } else {
            assert r[i] == t[i - 1] && r[j] == t[j - 1];
          }
        }
      }
    }
  }

  /** Cutting a sorted sequence after `n` elements: what is kept stays
      sorted, and no element left behind sorts before a kept one. */
  lemma PrefixBound<T, K>(f: seq<T>, n: nat, key: T -> K, le: (K, K) -> bool)
    requires n <= |f| && SortedBy(f, key, le)
    ensures SortedBy(f[..n], key, le)
    ensures forall p, q :: p in f && p !in f[..n] && q in f[..n] ==> le(key(q), key(p))
  {
    forall p, q | p in f && p !in f[..n] && q in f[..n] ensures le(key(q), key(p)) {
      assert f == f[..n] + f[n..];
      assert p in f[n..];
      var j :| 0 <= j < |f[n..]| && f[n..][j] == p;
      var i :| 0 <= i < n && f[..n][i] == q;
      assert f[i] == q && f[n + j] == p;
    }
  }

  lemma IntLeIsTotalPreorder()
    ensures TotalPreorder((a: int, b: int) => a <= b)
  {
  }
}
