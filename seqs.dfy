/**
 * List comprehensions with a condition (`[x for x in s if keep(x)]`),
 * subsequences, and Python's stable `sorted(s, key=...)`.
 */
module Seqs {

  /** `[x for x in s if keep(x)]`. */
  function Filter<T(==,!new)>(s: seq<T>, keep: T -> bool): (r: seq<T>)
    ensures |r| <= |s|
    decreases |s|
  {
    if s == [] then [] else (if keep(s[0]) then [s[0]] else []) + Filter(s[1..], keep)
  }

  /**
   * What a filter keeps: every element that meets the condition, as often
   * as it occurs in the input, and nothing else.
   */
  lemma {:induction false} FilterContents<T(!new)>(s: seq<T>, keep: T -> bool)
    ensures forall x :: multiset(Filter(s, keep))[x] == if keep(x) then multiset(s)[x] else 0
    ensures forall x :: x in Filter(s, keep) <==> x in s && keep(x)
    decreases |s|
  {
    if s != [] {
      FilterContents(s[1..], keep);
      assert s == [s[0]] + s[1..];
      var r := Filter(s, keep);
      assert r == (if keep(s[0]) then [s[0]] else []) + Filter(s[1..], keep);
      forall x ensures x in r <==> x in s && keep(x) {
        assert x in r <==> multiset(r)[x] > 0;
        assert x in s <==> multiset(s)[x] > 0;
      }
    }
  }

  /** `r` can be obtained from `s` by deleting elements, keeping the order of the rest. */
  predicate IsSubsequence<T(==)>(r: seq<T>, s: seq<T>)
    decreases |s|
  {
    r == [] || (s != [] && ((r[0] == s[0] && IsSubsequence(r[1..], s[1..])) || IsSubsequence(r, s[1..])))
  }

  /** Filtering keeps the order of what it keeps. */
  lemma {:induction false} FilterIsSubsequence<T(!new)>(s: seq<T>, keep: T -> bool)
    ensures IsSubsequence(Filter(s, keep), s)
    decreases |s|
  {
    if s != [] {
      FilterIsSubsequence(s[1..], keep);
      var r := Filter(s, keep);
      if keep(s[0]) {
        assert r[0] == s[0] && r[1..] == Filter(s[1..], keep);
      } else {
        assert r == Filter(s[1..], keep);
      }
    }
  }

  /** Every list is a subsequence of itself. */
  lemma {:induction false} SubsequenceReflexive<T>(s: seq<T>)
    ensures IsSubsequence(s, s)
    decreases |s|
  {
    if s != [] {
      SubsequenceReflexive(s[1..]);
    }
  }

  lemma {:induction false} SubsequenceTransitive<T(!new)>(a: seq<T>, b: seq<T>, c: seq<T>)
    requires IsSubsequence(a, b) && IsSubsequence(b, c)
    ensures IsSubsequence(a, c)
    decreases |c|
  {
    if a != [] {
      assert b != [] && c != [];
      if b[0] == c[0] && IsSubsequence(b[1..], c[1..]) {
        if a[0] == b[0] && IsSubsequence(a[1..], b[1..]) {
          SubsequenceTransitive(a[1..], b[1..], c[1..]);
        } else {
          SubsequenceTransitive(a, b[1..], c[1..]);
        }
      } else {
        SubsequenceTransitive(a, b, c[1..]);
      }
    }
  }

  /** Filtering a concatenation filters each part. */
  lemma {:induction false} FilterAppend<T(!new)>(a: seq<T>, b: seq<T>, keep: T -> bool)
    ensures Filter(a + b, keep) == Filter(a, keep) + Filter(b, keep)
    decreases |a|
  {
    if a != [] {
      FilterAppend(a[1..], b, keep);
      assert (a + b)[0] == a[0] && (a + b)[1..] == a[1..] + b;
      calc {
        Filter(a + b, keep);
        (if keep(a[0]) then [a[0]] else []) + Filter(a[1..] + b, keep);
        (if keep(a[0]) then [a[0]] else []) + (Filter(a[1..], keep) + Filter(b, keep));
        ((if keep(a[0]) then [a[0]] else []) + Filter(a[1..], keep)) + Filter(b, keep);
      }
    } else {
      assert a + b == b;
    }
  }

  /** A condition that no element meets keeps nothing. */
  lemma {:induction false} FilterKeepsNone<T(!new)>(s: seq<T>, keep: T -> bool)
    requires forall x :: x in s ==> !keep(x)
    ensures Filter(s, keep) == []
    decreases |s|
  {
    if s != [] {
      FilterKeepsNone(s[1..], keep);
    }
  }

  /** Filtering twice is filtering once by both conditions. */
  lemma {:induction false} FilterFilter<T(!new)>(s: seq<T>, first: T -> bool, second: T -> bool)
    ensures Filter(Filter(s, first), second) == Filter(s, x => first(x) && second(x))
    decreases |s|
  {
    if s != [] {
      FilterFilter(s[1..], first, second);
      var tail := Filter(s[1..], first);
      if first(s[0]) {
        assert Filter(s, first) == [s[0]] + tail;
        FilterAppend([s[0]], tail, second);
        assert Filter([s[0]], second) == if second(s[0]) then [s[0]] else [];
      } else {
        assert Filter(s, first) == tail;
      }
    }
  }

  /** Two conditions that agree on every element of `s` select the same list. */
  lemma {:induction false} FilterAgree<T(!new)>(s: seq<T>, a: T -> bool, b: T -> bool)
    requires forall x :: x in s ==> a(x) == b(x)
    ensures Filter(s, a) == Filter(s, b)
    decreases |s|
  {
    if s != [] {
      FilterAgree(s[1..], a, b);
    }
  }

  /** A condition that every element meets keeps the whole list. */
  lemma {:induction false} FilterKeepsAll<T(!new)>(s: seq<T>, keep: T -> bool)
    requires forall x :: x in s ==> keep(x)
    ensures Filter(s, keep) == s
    decreases |s|
  {
    if s != [] {
      FilterKeepsAll(s[1..], keep);
    }
  }

  /** Every element lands on exactly one side of a condition. */
  lemma {:induction false} FilterSplit<T(!new)>(s: seq<T>, keep: T -> bool)
    ensures |Filter(s, keep)| + |Filter(s, x => !keep(x))| == |s|
    decreases |s|
  {
    if s != [] {
      FilterSplit(s[1..], keep);
    }
  }

  /** `s[:n]`: at most the first `n` elements. */
  function Take<T>(s: seq<T>, n: nat): (r: seq<T>)
    ensures |r| == if n < |s| then n else |s|
    ensures r == s[..|r|]
  {
    if n < |s| then s[..n] else s
  }

  // ---- Stable sorting, as Python's `sorted(s, key=key)` ----

  /** `lt` is a strict total order on keys. */
  ghost predicate StrictTotalOrder<K(!new)>(lt: (K, K) -> bool) {
    && (forall a :: !lt(a, a))
    && (forall a, b, c :: lt(a, b) && lt(b, c) ==> lt(a, c))
    && (forall a, b :: a == b || lt(a, b) || lt(b, a))
  }

  /** No element is followed by one with a strictly smaller key. */
  ghost predicate SortedBy<T, K>(s: seq<T>, key: T -> K, lt: (K, K) -> bool) {
    forall i, j :: 0 <= i < j < |s| ==> !lt(key(s[j]), key(s[i]))
  }

  /** Inserts `x` after every element whose key is not greater than its own. */
  function Insert<T, K>(x: T, s: seq<T>, key: T -> K, lt: (K, K) -> bool): (r: seq<T>)
    ensures |r| == |s| + 1
    decreases |s|
  {
    if s == [] then [x]
    else if lt(key(x), key(s[0])) then [x] + s
    else [s[0]] + Insert(x, s[1..], key, lt)
  }

  /** Python's `sorted(s, key=key)`, by insertion of each element in input order. */
  function SortBy<T, K>(s: seq<T>, key: T -> K, lt: (K, K) -> bool): (r: seq<T>)
    ensures |r| == |s|
    decreases |s|
  {
    if s == [] then [] else Insert(s[|s| - 1], SortBy(s[..|s| - 1], key, lt), key, lt)
  }

  lemma SortedTail<T, K>(s: seq<T>, key: T -> K, lt: (K, K) -> bool)
    requires s != [] && SortedBy(s, key, lt)
    ensures SortedBy(s[1..], key, lt)
  {
    forall i, j | 0 <= i < j < |s| - 1
      ensures !lt(key(s[1..][j]), key(s[1..][i]))
    {
      assert s[1..][j] == s[j + 1] && s[1..][i] == s[i + 1];
    }
  }

  /** Insertion adds exactly one element. */
  lemma {:induction false} InsertContents<T, K>(x: T, s: seq<T>, key: T -> K, lt: (K, K) -> bool)
    ensures multiset(Insert(x, s, key, lt)) == multiset(s) + multiset{x}
    decreases |s|
  {
    if s != [] && !lt(key(x), key(s[0])) {
      InsertContents(x, s[1..], key, lt);
      assert s == [s[0]] + s[1..];
    }
  }

  /** An element placed in front of a sorted list whose head has a greater key keeps it sorted. */
  lemma PrependSorted<T(!new), K(!new)>(x: T, s: seq<T>, key: T -> K, lt: (K, K) -> bool)
    requires StrictTotalOrder(lt) && SortedBy(s, key, lt)
    requires s == [] || lt(key(x), key(s[0]))
    ensures SortedBy([x] + s, key, lt)
  {
    var r := [x] + s;
    forall i, j | 0 <= i < j < |r|
      ensures !lt(key(r[j]), key(r[i]))
    {
      if i == 0 {
        var e, h := s[j - 1], s[0];
        assert r[j] == e && r[0] == x;
        assert !lt(key(e), key(h)) by {
          if j - 1 > 0 {
            assert 0 < j - 1 < |s|;
          }
        }
      } else {
        assert r[i] == s[i - 1] && r[j] == s[j - 1];
      }
    }
  }

  /** The head of a sorted list stays in front of a sorted list made of its other elements and `x`. */
  lemma ConsSorted<T(!new), K(!new)>(h: T, x: T, tail: seq<T>, t: seq<T>, key: T -> K, lt: (K, K) -> bool)
    requires SortedBy([h] + tail, key, lt) && SortedBy(t, key, lt)
    requires multiset(t) == multiset(tail) + multiset{x} && !lt(key(x), key(h))
    ensures SortedBy([h] + t, key, lt)
  {
    var s := [h] + tail;
    forall j | 0 <= j < |t|
      ensures !lt(key(t[j]), key(h))
    {
      assert t[j] in multiset(t);
      if t[j] != x {
        assert t[j] in multiset(tail);
        var k :| 0 <= k < |tail| && tail[k] == t[j];
        assert s[k + 1] == t[j] && s[0] == h;
      }
    }
    var r := [h] + t;
    forall i, j | 0 <= i < j < |r|
      ensures !lt(key(r[j]), key(r[i]))
    {
      if i == 0 {
        assert r[j] == t[j - 1];
      } else {
        assert r[i] == t[i - 1] && r[j] == t[j - 1];
      }
    }
  }

  lemma {:induction false} InsertSorted<T(!new), K(!new)>(x: T, s: seq<T>, key: T -> K, lt: (K, K) -> bool)
    requires StrictTotalOrder(lt) && SortedBy(s, key, lt)
    ensures SortedBy(Insert(x, s, key, lt), key, lt)
    decreases |s|
  {
    if s == [] || lt(key(x), key(s[0])) {
      PrependSorted(x, s, key, lt);
    } else {
      SortedTail(s, key, lt);
      InsertSorted(x, s[1..], key, lt);
      InsertContents(x, s[1..], key, lt);
      assert s == [s[0]] + s[1..];
      ConsSorted(s[0], x, s[1..], Insert(x, s[1..], key, lt), key, lt);
    }
  }

  /** The result of `sorted` is ordered by key and a permutation of the input. */
  lemma {:induction false} SortBySorted<T(!new), K(!new)>(s: seq<T>, key: T -> K, lt: (K, K) -> bool)
    requires StrictTotalOrder(lt)
    ensures SortedBy(SortBy(s, key, lt), key, lt)
    ensures multiset(SortBy(s, key, lt)) == multiset(s)
    decreases |s|
  {
    if s != [] {
      var init := s[..|s| - 1];
      SortBySorted(init, key, lt);
      InsertSorted(s[|s| - 1], SortBy(init, key, lt), key, lt);
      InsertContents(s[|s| - 1], SortBy(init, key, lt), key, lt);
      assert s == init + [s[|s| - 1]];
    }
  }

  /** Whether an element has key `k`. */
  ghost function KeyIs<T, K>(key: T -> K, k: K): T -> bool {
    (e: T) => key(e) == k
  }

  /** Inserting `x` appends it to the elements that share its key. */
  lemma {:induction false} InsertStable<T(!new), K(!new)>(x: T, s: seq<T>, key: T -> K, lt: (K, K) -> bool, k: K)
    requires StrictTotalOrder(lt) && SortedBy(s, key, lt)
    ensures Filter(Insert(x, s, key, lt), KeyIs(key, k))
         == Filter(s, KeyIs(key, k)) + (if key(x) == k then [x] else [])
    decreases |s|
  {
    var same := KeyIs(key, k);
    if s == [] {
    } else if lt(key(x), key(s[0])) {
      if key(x) == k {
        forall e | e in s ensures !same(e) {
          var j :| 0 <= j < |s| && s[j] == e;
          if j > 0 {
            assert !lt(key(s[j]), key(s[0]));
            assert key(s[j]) == key(s[0]) || lt(key(s[0]), key(s[j]));
          }
        }
        FilterKeepsNone(s, same);
      }
    } else {
      SortedTail(s, key, lt);
      InsertStable(x, s[1..], key, lt, k);
    }
  }

  /** `sorted` is stable: elements with equal keys keep their input order. */
  lemma {:induction false} SortByStable<T(!new), K(!new)>(s: seq<T>, key: T -> K, lt: (K, K) -> bool, k: K)
    requires StrictTotalOrder(lt)
    ensures Filter(SortBy(s, key, lt), KeyIs(key, k)) == Filter(s, KeyIs(key, k))
    decreases |s|
  {
    if s != [] {
      var init := s[..|s| - 1];
      SortByStable(init, key, lt, k);
      SortBySorted(init, key, lt);
      InsertStable(s[|s| - 1], SortBy(init, key, lt), key, lt, k);
      assert s == init + [s[|s| - 1]];
      FilterAppend(init, [s[|s| - 1]], KeyIs(key, k));
    }
  }
}
