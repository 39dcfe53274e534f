/**
  The JavaScript array operations the dashboard is built from, as functions on
  sequences: `Array.prototype.filter`, `Array.prototype.map`, and the stable
  `Array.prototype.sort` under a comparator of the form `rank(a) - rank(b)`.
 */
module Seqs {

  /** `s.filter(p)`: the elements of `s` that satisfy `p`, in their original order. */
  function Filter<T>(s: seq<T>, p: T -> bool): (r: seq<T>)
    ensures |r| <= |s|
    ensures forall i :: 0 <= i < |r| ==> p(r[i])
    decreases |s|
  {
    if s == [] then []
    else if p(s[0]) then [s[0]] + Filter(s[1..], p)
    else Filter(s[1..], p)
  }

  /** An element is kept by `Filter` exactly when it occurs in the input and satisfies `p`. */
  lemma {:induction false} FilterMembership<T>(s: seq<T>, p: T -> bool)
    ensures forall x :: x in Filter(s, p) <==> x in s && p(x)
    ensures forall i :: 0 <= i < |Filter(s, p)| ==> Filter(s, p)[i] in s
    decreases |s|
  {
    if s != [] {
      FilterMembership(s[1..], p);
      assert s == [s[0]] + s[1..];
    }
  }

  /** `Filter` keeps every copy of a satisfying element and no copy of any other. */
  lemma {:induction false} FilterMultiplicity<T>(s: seq<T>, p: T -> bool)
    ensures forall x :: multiset(Filter(s, p))[x] == if p(x) then multiset(s)[x] else 0
    decreases |s|
  {
    if s != [] {
      FilterMultiplicity(s[1..], p);
      assert s == [s[0]] + s[1..];
    }
  }

  /** `a` can be obtained from `b` by deleting elements: `a` keeps `b`'s order. */
  predicate IsSubsequence<T(==)>(a: seq<T>, b: seq<T>)
    decreases |b|
  {
    a == [] || (b != [] && ((a[0] == b[0] && IsSubsequence(a[1..], b[1..])) || IsSubsequence(a, b[1..])))
  }

  /** Every sequence is a subsequence of itself. */
  lemma {:induction false} IsSubsequenceRefl<T>(s: seq<T>)
    ensures IsSubsequence(s, s)
    decreases |s|
  {
    if s != [] {
      IsSubsequenceRefl(s[1..]);
    }
  }

  lemma {:induction false} FilterIsSubsequence<T>(s: seq<T>, p: T -> bool)
    ensures IsSubsequence(Filter(s, p), s)
    decreases |s|
  {
    if s != [] {
      FilterIsSubsequence(s[1..], p);
      var r := Filter(s, p);
      if p(s[0]) {
        assert r[0] == s[0] && r[1..] == Filter(s[1..], p);
      }
    }
  }

  /** Filtering twice with the same predicate is filtering once. */
  lemma {:induction false} FilterIdempotent<T>(s: seq<T>, p: T -> bool)
    ensures Filter(Filter(s, p), p) == Filter(s, p)
    decreases |s|
  {
    if s != [] {
      FilterIdempotent(s[1..], p);
      if p(s[0]) {
        var r := Filter(s, p);
        assert r[0] == s[0] && r[1..] == Filter(s[1..], p);
      }
    }
  }

  /** Two predicates that agree on every element of `s` filter it alike. */
  lemma {:induction false} FilterAgreeing<T>(s: seq<T>, p: T -> bool, q: T -> bool)
    requires forall i :: 0 <= i < |s| ==> p(s[i]) == q(s[i])
    ensures Filter(s, p) == Filter(s, q)
    decreases |s|
  {
    if s != [] {
      FilterAgreeing(s[1..], p, q);
    }
  }

  /** A predicate that holds of every element keeps the whole sequence. */
  lemma {:induction false} FilterAll<T>(s: seq<T>, p: T -> bool)
    requires forall i :: 0 <= i < |s| ==> p(s[i])
    ensures Filter(s, p) == s
    decreases |s|
  {
    if s != [] {
      FilterAll(s[1..], p);
      assert s == [s[0]] + s[1..];
    }
  }

  /** A predicate that holds of no element keeps nothing. */
  lemma {:induction false} FilterNone<T>(s: seq<T>, p: T -> bool)
    requires forall i :: 0 <= i < |s| ==> !p(s[i])
    ensures Filter(s, p) == []
    decreases |s|
  {
    if s != [] {
      FilterNone(s[1..], p);
    }
  }

  lemma {:induction false} FilterAppend<T>(a: seq<T>, b: seq<T>, p: T -> bool)
    ensures Filter(a + b, p) == Filter(a, p) + Filter(b, p)
    decreases |a|
  {
    if a != [] {
      FilterAppend(a[1..], b, p);
      assert (a + b)[0] == a[0] && (a + b)[1..] == a[1..] + b;
      var head := if p(a[0]) then [a[0]] else [];
      assert Filter(a + b, p) == head + Filter(a[1..] + b, p);
      assert Filter(a, p) == head + Filter(a[1..], p);
    } else {
      assert a + b == b;
    }
  }

  /** The number of elements of `s` satisfying `p`, counted one by one. */
  function Count<T>(s: seq<T>, p: T -> bool): nat
    decreases |s|
  {
    if s == [] then 0 else (if p(s[0]) then 1 else 0) + Count(s[1..], p)
  }

  /** `s.filter(p).length` is the number of elements satisfying `p`. */
  lemma {:induction false} FilterLengthIsCount<T>(s: seq<T>, p: T -> bool)
    ensures |Filter(s, p)| == Count(s, p)
    decreases |s|
  {
    if s != [] {
      FilterLengthIsCount(s[1..], p);
    }
  }

  /** `s.map(f)`. */
  function Map<T, U>(s: seq<T>, f: T -> U): (r: seq<U>)
    ensures |r| == |s|
    ensures forall i :: 0 <= i < |s| ==> r[i] == f(s[i])
    decreases |s|
  {
    if s == [] then [] else [f(s[0])] + Map(s[1..], f)
  }

  // ---------------------------------------------------------------------------
  // Stable sorting by an integer rank

  /** Non-decreasing in `key`. */
  predicate SortedBy<T>(s: seq<T>, key: T -> int)
  {
    forall i, j :: 0 <= i < j < |s| ==> key(s[i]) <= key(s[j])
  }

  /** The predicate "has rank `k`", used to state stability. */
  function HasKey<T>(key: T -> int, k: int): T -> bool
  {
    x => key(x) == k
  }

  /** Stability with respect to `s`: the elements of each rank appear in the same order as in `s`. */
  ghost predicate KeepsTiesOf<T>(r: seq<T>, s: seq<T>, key: T -> int)
  {
    forall k :: Filter(r, HasKey(key, k)) == Filter(s, HasKey(key, k))
  }

  /** Places `x` before the first element of `r` whose rank is not smaller than its own. */
  function Insert<T>(x: T, r: seq<T>, key: T -> int): (r': seq<T>)
    ensures |r'| == |r| + 1
    ensures r'[0] == x || (r != [] && r'[0] == r[0])
    ensures multiset(r') == multiset{x} + multiset(r)
    decreases |r|
  {
    if r == [] || key(x) <= key(r[0]) then [x] + r
    else
      assert r == [r[0]] + r[1..];
      [r[0]] + Insert(x, r[1..], key)
  }

  lemma {:induction false} InsertSorted<T>(x: T, r: seq<T>, key: T -> int)
    requires SortedBy(r, key)
    ensures SortedBy(Insert(x, r, key), key)
    decreases |r|
  {
    var u := Insert(x, r, key);
    if r != [] && key(r[0]) < key(x) {
      var t := Insert(x, r[1..], key);
      InsertSorted(x, r[1..], key);
      assert u == [r[0]] + t;
      assert key(r[0]) <= key(t[0]);
      forall i, j | 0 <= i < j < |u|
        ensures key(u[i]) <= key(u[j])
      {
        assert u[j] == t[j - 1];
        if i > 0 {
          assert u[i] == t[i - 1];
        } else if j > 1 {
          assert key(t[0]) <= key(t[j - 1]);
        }
      }
    } else {
      assert u == [x] + r;
      forall i, j | 0 <= i < j < |u|
        ensures key(u[i]) <= key(u[j])
      {
        assert u[j] == r[j - 1];
        if i > 0 {
          assert u[i] == r[i - 1];
        } else if j > 1 {
          assert key(r[0]) <= key(r[j - 1]);
        }
      }
    }
  }

  /**
    The result of sorting `s` with a comparator `(a, b) => key(a) - key(b)`
    under a stable sort: insertion of each element in front of the sorted rest.
   */
  function SortBy<T>(s: seq<T>, key: T -> int): (r: seq<T>)
    ensures |r| == |s|
    ensures multiset(r) == multiset(s)
    ensures SortedBy(r, key)
    decreases |s|
  {
    if s == [] then []
    else
      var rest := SortBy(s[1..], key);
      InsertSorted(s[0], rest, key);
      assert multiset(s) == multiset{s[0]} + multiset(s[1..]) by {
        assert s == [s[0]] + s[1..];
      }
      Insert(s[0], rest, key)
  }

  lemma {:induction false} InsertTies<T>(x: T, r: seq<T>, key: T -> int, k: int)
    ensures Filter(Insert(x, r, key), HasKey(key, k))
         == (if key(x) == k then [x] else []) + Filter(r, HasKey(key, k))
    decreases |r|
  {
    var p := HasKey(key, k);
    if r == [] || key(x) <= key(r[0]) {
      assert ([x] + r)[1..] == r;
    } else {
      InsertTies(x, r[1..], key, k);
      assert ([r[0]] + Insert(x, r[1..], key))[1..] == Insert(x, r[1..], key);
      assert r == [r[0]] + r[1..];
    }
  }

  /** Elements of equal rank keep their input order: `SortBy` is stable. */
  lemma {:induction false} SortByKeepsTies<T>(s: seq<T>, key: T -> int)
    ensures KeepsTiesOf(SortBy(s, key), s, key)
    decreases |s|
  {
    if s != [] {
      SortByKeepsTies(s[1..], key);
      forall k
        ensures Filter(SortBy(s, key), HasKey(key, k)) == Filter(s, HasKey(key, k))
      {
        InsertTies(s[0], SortBy(s[1..], key), key, k);
      }
    }
  }

  lemma {:induction false} TiesEmpty<T>(r: seq<T>, s: seq<T>, key: T -> int)
    requires KeepsTiesOf(r, s, key) && s == []
    ensures r == []
  {
    if r != [] {
      FilterMembership(r, HasKey(key, key(r[0])));
    }
  }

  /**
    A sorted sequence that keeps the ties of `s` is determined by `s`:
    every stable sort by `key` produces exactly `SortBy(s, key)`.
   */
  lemma {:induction false} StableSortUnique<T>(r: seq<T>, s: seq<T>, key: T -> int)
    requires SortedBy(r, key) && KeepsTiesOf(r, s, key)
    ensures r == SortBy(s, key)
  {
    SortByKeepsTies(s, key);
    SortedTiesUnique(r, SortBy(s, key), key);
  }

  lemma {:induction false} SortedTiesUnique<T>(a: seq<T>, b: seq<T>, key: T -> int)
    requires SortedBy(a, key) && SortedBy(b, key)
    requires forall k :: Filter(a, HasKey(key, k)) == Filter(b, HasKey(key, k))
    ensures a == b
    decreases |a| + |b|
  {
    if a == [] {
      TiesEmpty(b, a, key);
    } else if b == [] {
      TiesEmpty(a, b, key);
    } else {
      var ma, mb := key(a[0]), key(b[0]);
      // the least rank of each side occurs on the other side
      FilterMembership(a, HasKey(key, mb));
      FilterMembership(b, HasKey(key, mb));
      FilterMembership(a, HasKey(key, ma));
      FilterMembership(b, HasKey(key, ma));
      assert b[0] in Filter(b, HasKey(key, mb));
      assert a[0] in Filter(a, HasKey(key, ma));
      MinimalRank(a, key, mb);
      MinimalRank(b, key, ma);
      assert ma == mb;
      var m := ma;
      assert Filter(a, HasKey(key, m)) == [a[0]] + Filter(a[1..], HasKey(key, m));
      assert Filter(b, HasKey(key, m)) == [b[0]] + Filter(b[1..], HasKey(key, m));
      assert a[0] == b[0];
      forall k
        ensures Filter(a[1..], HasKey(key, k)) == Filter(b[1..], HasKey(key, k))
      {
        if k == m {
          assert Filter(a[1..], HasKey(key, m)) == Filter(a, HasKey(key, m))[1..];
          assert Filter(b[1..], HasKey(key, m)) == Filter(b, HasKey(key, m))[1..];
        } else {
          assert Filter(a, HasKey(key, k)) == Filter(a[1..], HasKey(key, k));
          assert Filter(b, HasKey(key, k)) == Filter(b[1..], HasKey(key, k));
        }
      }
      SortedTiesUnique(a[1..], b[1..], key);
      assert a == [a[0]] + a[1..] && b == [b[0]] + b[1..];
    }
  }

  /** In a sorted sequence, no element has a rank below that of the first. */
  lemma MinimalRank<T>(s: seq<T>, key: T -> int, k: int)
    requires SortedBy(s, key) && s != []
    requires exists x :: x in s && key(x) == k
    ensures key(s[0]) <= k
  {
    var x :| x in s && key(x) == k;
    var i :| 0 <= i < |s| && s[i] == x;
    assert i == 0 || key(s[0]) <= key(s[i]);
  }

  // ---------------------------------------------------------------------------
  // Opposite ranks

  function Reverse<T>(s: seq<T>): (r: seq<T>)
    ensures |r| == |s|
    ensures forall i :: 0 <= i < |s| ==> r[i] == s[|s| - 1 - i]
    decreases |s|
  {
    if s == [] then [] else Reverse(s[1..]) + [s[0]]
  }

  lemma {:induction false} FilterReverse<T>(s: seq<T>, p: T -> bool)
    ensures Filter(Reverse(s), p) == Reverse(Filter(s, p))
    decreases |s|
  {
    if s != [] {
      FilterReverse(s[1..], p);
      FilterAppend(Reverse(s[1..]), [s[0]], p);
      var f := Filter(s[1..], p);
      if p(s[0]) {
        assert Filter([s[0]], p) == [s[0]];
        assert Filter(s, p) == [s[0]] + f;
        assert ([s[0]] + f)[1..] == f;
      } else {
        assert Filter([s[0]], p) == [];
        assert Filter(s, p) == f;
        assert Reverse(f) + [] == Reverse(f);
      }
    }
  }

  /** No two elements of `s` share a rank. */
  predicate DistinctKeys<T>(s: seq<T>, key: T -> int)
  {
    forall i, j :: 0 <= i < j < |s| ==> key(s[i]) != key(s[j])
  }

  lemma {:induction false} DistinctKeysSingleTie<T>(s: seq<T>, key: T -> int, k: int)
    requires DistinctKeys(s, key)
    ensures |Filter(s, HasKey(key, k))| <= 1
    decreases |s|
  {
    if s != [] {
      DistinctKeysSingleTie(s[1..], key, k);
      if key(s[0]) == k {
        // no later element has rank k, so nothing follows s[0] in the filter
        FilterMembership(s[1..], HasKey(key, k));
        var f := Filter(s[1..], HasKey(key, k));
        if f != [] {
          DistinctKeysTail(s, key, f[0]);
          assert false;
        }
      }
    }
  }

  lemma DistinctKeysTail<T>(s: seq<T>, key: T -> int, x: T)
    requires DistinctKeys(s, key) && s != [] && x in s[1..]
    ensures key(x) != key(s[0])
  {
    var j :| 0 <= j < |s| - 1 && s[1..][j] == x;
    assert s[j + 1] == x;
  }

  /**
    When no two elements share a rank, sorting by the opposite rank yields the
    reverse of sorting by the rank.
   */
  lemma {:induction false} OppositeRankReverses<T>(s: seq<T>, key: T -> int, opposite: T -> int)
    requires forall x :: opposite(x) == -key(x)
    requires DistinctKeys(s, key)
    ensures SortBy(s, opposite) == Reverse(SortBy(s, key))
  {
    var r := Reverse(SortBy(s, key));
    ReverseOpposite(SortBy(s, key), key, opposite);
    forall k
      ensures Filter(r, HasKey(opposite, k)) == Filter(s, HasKey(opposite, k))
    {
      ReversedTie(s, key, opposite, k);
    }
    StableSortUnique(r, s, opposite);
  }

  lemma ReverseOpposite<T>(s: seq<T>, key: T -> int, opposite: T -> int)
    requires forall x :: opposite(x) == -key(x)
    requires SortedBy(s, key)
    ensures SortedBy(Reverse(s), opposite)
  {
    var r := Reverse(s);
    forall i, j | 0 <= i < j < |r|
      ensures opposite(r[i]) <= opposite(r[j])
    {
      assert key(s[|s| - 1 - j]) <= key(s[|s| - 1 - i]);
    }
  }

  lemma ReversedTie<T>(s: seq<T>, key: T -> int, opposite: T -> int, k: int)
    requires forall x :: opposite(x) == -key(x)
    requires DistinctKeys(s, key)
    ensures Filter(Reverse(SortBy(s, key)), HasKey(opposite, k)) == Filter(s, HasKey(opposite, k))
  {
    var sorted := SortBy(s, key);
    var p, q := HasKey(opposite, k), HasKey(key, -k);
    var f := Filter(s, q);
    calc {
      Filter(Reverse(sorted), p);
    == { FilterReverse(sorted, p); }
      Reverse(Filter(sorted, p));
    == { FilterAgreeing(sorted, p, q); }
      Reverse(Filter(sorted, q));
    == { SortByKeepsTies(s, key); }
      Reverse(f);
    == { DistinctKeysSingleTie(s, key, -k); }
      f;
    == { FilterAgreeing(s, p, q); }
      Filter(s, p);
    }
  }
}
