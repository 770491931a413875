/** Sequence facts shared by the ticket engine: sums, permutations, and the stable
    descending sort that `Array.prototype.sort` performs with a numeric comparator. */
module Seqs {

  function Sum(s: seq<int>): int
  {
    if s == [] then 0 else Sum(s[..|s| - 1]) + s[|s| - 1]
  }

  lemma {:induction false} SumConcat(a: seq<int>, b: seq<int>)
    ensures Sum(a + b) == Sum(a) + Sum(b)
    decreases |b|
  {
    if b == [] {
      assert a + b == a;
    } else {
      var b' := b[..|b| - 1];
      assert (a + b)[..|a + b| - 1] == a + b';
      SumConcat(a, b');
    }
  }

  /** With no negative term, a prefix sums to at most the whole. */
  lemma {:induction false} SumPrefixAtMost(s: seq<int>, n: int)
    requires 0 <= n <= |s| && forall i :: 0 <= i < |s| ==> s[i] >= 0
    ensures Sum(s[..n]) <= Sum(s)
    decreases |s|
  {
    if n < |s| {
      var s' := s[..|s| - 1];
      assert s'[..n] == s[..n];
      SumPrefixAtMost(s', n);
    } else {
      assert s[..n] == s;
    }
  }

  /** Termwise smaller sequences have smaller sums. */
  lemma {:induction false} SumAtMost(a: seq<int>, b: seq<int>)
    requires |a| == |b| && forall i :: 0 <= i < |a| ==> a[i] <= b[i]
    ensures Sum(a) <= Sum(b)
    decreases |a|
  {
    if a != [] {
      SumAtMost(a[..|a| - 1], b[..|b| - 1]);
    }
  }

  /** A sum depends only on the multiset of the summands. */
  lemma {:induction false} SumPermutation(a: seq<int>, b: seq<int>)
    requires multiset(a) == multiset(b)
    ensures Sum(a) == Sum(b)
    decreases |a|
  {
    if a == [] {
      assert |b| == |multiset(b)| == 0;
    } else {
      var x := a[|a| - 1];
      var a' := a[..|a| - 1];
      assert a == a' + [x];
      assert x in multiset(b);
      var i :| 0 <= i < |b| && b[i] == x;
      var b' := b[..i] + b[i + 1..];
      assert b == b[..i] + [x] + b[i + 1..];
      assert multiset(b') == multiset(b) - multiset{x};
      assert multiset(a') == multiset(a) - multiset{x};
      SumPermutation(a', b');
      SumConcat(a', [x]);
      SumWithout(b, i);
    }
  }

  /** Taking one term out of a sum. */
  lemma SumWithout(b: seq<int>, i: int)
    requires 0 <= i < |b|
    ensures Sum(b) == Sum(b[..i] + b[i + 1..]) + b[i]
  {
    var pre, x, post := b[..i], b[i], b[i + 1..];
    assert b == (pre + [x]) + post;
    assert Sum([x]) == x by { assert [x][..0] == []; }
    calc {
      Sum(b);
      { SumConcat(pre + [x], post); }
      Sum(pre + [x]) + Sum(post);
      { SumConcat(pre, [x]); }
      Sum(pre) + x + Sum(post);
      { SumConcat(pre, post); }
      Sum(pre + post) + x;
    }
  }

  /** Applies `f` to every element. */
  function MapSeq<A, B>(s: seq<A>, f: A -> B): (r: seq<B>)
    ensures |r| == |s|
    ensures forall i :: 0 <= i < |s| ==> r[i] == f(s[i])
  {
    seq(|s|, i requires 0 <= i < |s| => f(s[i]))
  }

  lemma MapConcat<A, B>(a: seq<A>, b: seq<A>, f: A -> B)
    ensures MapSeq(a + b, f) == MapSeq(a, f) + MapSeq(b, f)
  {
  }

  /** Mapping a permutation gives a permutation of the image. */
  lemma {:induction false} MapPermutation<A, B>(a: seq<A>, b: seq<A>, f: A -> B)
    requires multiset(a) == multiset(b)
    ensures multiset(MapSeq(a, f)) == multiset(MapSeq(b, f))
    decreases |a|
  {
    if a == [] {
      assert |b| == |multiset(b)| == 0;
      assert MapSeq(b, f) == [];
    } else {
      var x := a[|a| - 1];
      var a' := a[..|a| - 1];
      assert a == a' + [x];
      assert x in multiset(b);
      var i :| 0 <= i < |b| && b[i] == x;
      var lo, hi := b[..i], b[i + 1..];
      assert b == lo + [x] + hi;
      assert multiset(lo + hi) == multiset(b) - multiset{x};
      assert multiset(a') == multiset(a) - multiset{x};
      MapPermutation(a', lo + hi, f);
      MapPermutationStep(a', lo, hi, x, f);
    }
  }

  lemma MapPermutationStep<A, B>(a': seq<A>, lo: seq<A>, hi: seq<A>, x: A, f: A -> B)
    requires multiset(MapSeq(a', f)) == multiset(MapSeq(lo + hi, f))
    ensures multiset(MapSeq(a' + [x], f)) == multiset(MapSeq(lo + [x] + hi, f))
  {
    MapConcat(a', [x], f);
    MapConcat(lo + [x], hi, f);
    MapConcat(lo, [x], f);
    MapConcat(lo, hi, f);
    assert MapSeq([x], f) == [f(x)];
  }

  /** An element counted at least twice sits at two different indices. */
  lemma {:induction false} TwoOccurrences<T>(s: seq<T>, x: T)
    requires multiset(s)[x] >= 2
    ensures exists i, j :: 0 <= i < j < |s| && s[i] == x && s[j] == x
    decreases |s|
  {
    var s' := s[..|s| - 1];
    assert s == s' + [s[|s| - 1]];
    if s[|s| - 1] == x {
      assert multiset(s')[x] >= 1;
      assert x in s';
      var i :| 0 <= i < |s'| && s'[i] == x;
      assert s[i] == x && s[|s| - 1] == x;
    } else {
      TwoOccurrences(s', x);
      var i, j :| 0 <= i < j < |s'| && s'[i] == x && s'[j] == x;
      assert s[i] == x && s[j] == x;
    }
  }

  /** Elements of `s` ordered by non-increasing `key`. */
  ghost predicate SortedDesc<T>(s: seq<T>, key: T -> int)
  {
    forall i, j :: 0 <= i < j < |s| ==> key(s[i]) >= key(s[j])
  }

  /** Inserts `x` after the last element whose key is at least `key(x)`: equal keys keep
      their input order, so repeated insertion is a stable sort. */
  function InsertDesc<T>(s: seq<T>, x: T, key: T -> int): (r: seq<T>)
    requires SortedDesc(s, key)
    ensures multiset(r) == multiset(s) + multiset{x}
    ensures |r| == |s| + 1
    ensures SortedDesc(r, key)
    decreases |s|
  {
    if s == [] || key(s[|s| - 1]) >= key(x) then
      s + [x]
    else
      var s' := s[..|s| - 1];
      assert s == s' + [s[|s| - 1]];
      var r' := InsertDesc(s', x, key);
      KeysAtLeast(r', s', x, s[|s| - 1], key);
      r' + [s[|s| - 1]]
  }

  /** Rearranging `s'` with `x` added keeps every key at least the key of `y`, when `y`
      closes the sorted `s' + [y]` and `x` has the larger key. */
  lemma KeysAtLeast<T>(r': seq<T>, s': seq<T>, x: T, y: T, key: T -> int)
    requires SortedDesc(s' + [y], key) && key(y) < key(x)
    requires multiset(r') == multiset(s') + multiset{x}
    ensures forall k :: 0 <= k < |r'| ==> key(r'[k]) >= key(y)
  {
    forall k | 0 <= k < |r'| ensures key(r'[k]) >= key(y) {
      assert r'[k] in multiset(r');
      if r'[k] != x {
        assert r'[k] in multiset(s');
        var m :| 0 <= m < |s'| && s'[m] == r'[k];
        assert (s' + [y])[m] == s'[m] && (s' + [y])[|s'|] == y;
      }
    }
  }

  /** Stable sort by non-increasing key; the result is a sorted permutation. */
  function SortDesc<T>(s: seq<T>, key: T -> int): (r: seq<T>)
    ensures multiset(r) == multiset(s)
    ensures |r| == |s|
    ensures SortedDesc(r, key)
    decreases |s|
  {
    if s == [] then []
    else
      assert s == s[..|s| - 1] + [s[|s| - 1]];
      InsertDesc(SortDesc(s[..|s| - 1], key), s[|s| - 1], key)
  }

  /** The elements of `s` satisfying `p`, in order (`Array.prototype.filter`). */
  function Filter<T(!new)>(s: seq<T>, p: T -> bool): (r: seq<T>)
    ensures |r| <= |s|
    ensures forall x :: x in r <==> x in s && p(x)
  {
    if s == [] then []
    else
      assert s == s[..|s| - 1] + [s[|s| - 1]];
      Filter(s[..|s| - 1], p) + (if p(s[|s| - 1]) then [s[|s| - 1]] else [])
  }

  /** Filtering commutes with concatenation, so it keeps the input order. */
  lemma {:induction false} FilterConcat<T(!new)>(a: seq<T>, b: seq<T>, p: T -> bool)
    ensures Filter(a + b, p) == Filter(a, p) + Filter(b, p)
    decreases |b|
  {
    if b == [] {
      assert a + b == a;
    } else {
      var b' := b[..|b| - 1];
      assert (a + b)[..|a + b| - 1] == a + b';
      FilterConcat(a, b', p);
    }
  }

  /** Filtering a sequence cut in two filters each part, in order. */
  lemma FilterSplit<T(!new)>(s: seq<T>, p: T -> bool, k: int)
    requires 0 <= k <= |s|
    ensures Filter(s, p) == Filter(s[..k], p) + Filter(s[k..], p)
  {
    assert s == s[..k] + s[k..];
    FilterConcat(s[..k], s[k..], p);
  }

  /** Filtering keeps every element satisfying `p` as many times as it occurs. */
  lemma {:induction false} FilterCount<T(!new)>(s: seq<T>, p: T -> bool, x: T)
    ensures multiset(Filter(s, p))[x] == if p(x) then multiset(s)[x] else 0
    decreases |s|
  {
    if s != [] {
      var s' := s[..|s| - 1];
      assert s == s' + [s[|s| - 1]];
      FilterCount(s', p, x);
    }
  }

  /** No value occurs twice. */
  ghost predicate Distinct<T>(s: seq<T>)
  {
    forall i, j :: 0 <= i < j < |s| ==> s[i] != s[j]
  }

  /** Filtering a sequence without repeats gives one without repeats. */
  lemma {:induction false} FilterDistinct<T(!new)>(s: seq<T>, p: T -> bool)
    requires Distinct(s)
    ensures Distinct(Filter(s, p))
    decreases |s|
  {
    if s != [] {
      var s' := s[..|s| - 1];
      var x := s[|s| - 1];
      FilterDistinct(s', p);
      var f := Filter(s', p);
      forall y | y in f ensures y != x {
        var k :| 0 <= k < |s'| && s'[k] == y;
        assert s[k] == y;
      }
    }
  }

  /** A subset is no larger than its superset. */
  lemma {:induction false} SubsetCard<T>(a: set<T>, b: set<T>)
    requires a <= b
    ensures |a| <= |b|
    decreases |b|
  {
    if a != {} {
      var x :| x in a;
      SubsetCard(a - {x}, b - {x});
    }
  }

  function Min(a: int, b: int): int
  {
    if a <= b then a else b
  }
}
