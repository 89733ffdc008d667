/**
 * Python's ordering of strings (code point by code point, a proper prefix
 * first) and `sorted(...)` applied to a set of strings.
 */
module Ordering {

  /** `a < b` on Python strings. */
  predicate StrLt(a: string, b: string)
    decreases |a|
  {
    if a == [] then b != []
    else if b == [] then false
    else if a[0] != b[0] then a[0] < b[0]
    else StrLt(a[1..], b[1..])
  }

  predicate StrLe(a: string, b: string) {
    a == b || StrLt(a, b)
  }

  lemma {:induction false} StrLtIrreflexive(a: string)
    ensures !StrLt(a, a)
    decreases |a|
  {
    if a != [] {
      StrLtIrreflexive(a[1..]);
    }
  }

  lemma {:induction false} StrLtTransitive(a: string, b: string, c: string)
    requires StrLt(a, b) && StrLt(b, c)
    ensures StrLt(a, c)
    decreases |a|
  {
    if a != [] && a[0] == b[0] == c[0] {
      StrLtTransitive(a[1..], b[1..], c[1..]);
    }
  }

  lemma {:induction false} StrLtTotal(a: string, b: string)
    ensures a == b || StrLt(a, b) || StrLt(b, a)
    decreases |a|
  {
    if a != [] && b != [] && a[0] == b[0] {
      StrLtTotal(a[1..], b[1..]);
      if a[1..] == b[1..] {
        assert a == [a[0]] + a[1..] && b == [b[0]] + b[1..];
      }
    }
  }

  lemma StrLtAsymmetric(a: string, b: string)
    requires StrLt(a, b)
    ensures !StrLt(b, a)
  {
    if StrLt(b, a) {
      StrLtTransitive(a, b, a);
      StrLtIrreflexive(a);
    }
  }

  /** Strictly ascending: sorted and free of duplicates. */
  predicate StrictlySorted(s: seq<string>) {
    forall i, j :: 0 <= i < j < |s| ==> StrLt(s[i], s[j])
  }

  function Elems<T>(s: seq<T>): set<T> {
    set x | x in s
  }

  predicate IsLeast(m: string, s: set<string>) {
    m in s && forall y :: y in s ==> StrLe(m, y)
  }

  /** A finite non-empty set of strings has a least element. */
  lemma {:induction false} LeastExists(s: set<string>)
    requires s != {}
    ensures exists m :: IsLeast(m, s)
    decreases |s|
  {
    var x :| x in s;
    if s == {x} {
      assert IsLeast(x, s);
    } else {
      LeastExists(s - {x});
      var m :| IsLeast(m, s - {x});
      StrLtTotal(m, x);
      if StrLt(m, x) {
        assert IsLeast(m, s);
      } else {
        forall y | y in s
          ensures StrLe(x, y)
        {
          if y != x {
            assert StrLe(m, y);
            if StrLt(m, y) {
              StrLtTransitive(x, m, y);
            }
          }
        }
        assert IsLeast(x, s);
      }
    }
  }

  /** Putting the least element in front of the sorted rest keeps the list strictly ascending. */
  lemma PrependLeast(m: string, s: set<string>, rest: seq<string>)
    requires IsLeast(m, s) && StrictlySorted(rest) && Elems(rest) == s - {m}
    ensures StrictlySorted([m] + rest) && Elems([m] + rest) == s
  {
    var r := [m] + rest;
    forall i, j | 0 <= i < j < |r|
      ensures StrLt(r[i], r[j])
    {
      if i == 0 {
        assert r[j] == rest[j - 1] && rest[j - 1] in Elems(rest);
      } else {
        assert r[i] == rest[i - 1] && r[j] == rest[j - 1];
      }
    }
    assert forall x :: x in r <==> x == m || x in rest;
    assert Elems(r) == {m} + Elems(rest);
  }

  /** `sorted(s)` for a set `s` of strings. */
  ghost function SortedSet(s: set<string>): (r: seq<string>)
    ensures StrictlySorted(r) && Elems(r) == s
    decreases |s|
  {
    if s == {} then []
    else
      LeastExists(s);
      var m :| IsLeast(m, s);
      var rest := SortedSet(s - {m});
      PrependLeast(m, s, rest);
      [m] + rest
  }

  /** A strictly ascending list is determined by its elements. */
  lemma {:induction false} SortedUnique(a: seq<string>, b: seq<string>)
    requires StrictlySorted(a) && StrictlySorted(b) && Elems(a) == Elems(b)
    ensures a == b
    decreases |a|
  {
    assert a != [] ==> a[0] in Elems(b);
    assert b != [] ==> b[0] in Elems(a);
    if a != [] && b != [] {
      assert a[0] == b[0] by {
        assert a[0] in Elems(b) && b[0] in Elems(a);
        if a[0] != b[0] {
          var i :| 0 <= i < |a| && a[i] == b[0];
          var j :| 0 <= j < |b| && b[j] == a[0];
          assert StrLt(b[0], a[0]) by { if j > 0 { assert StrLt(b[0], b[j]); } }
          assert StrLt(a[0], b[0]) by { if i > 0 { assert StrLt(a[0], a[i]); } }
          StrLtAsymmetric(a[0], b[0]);
        }
      }
      forall x | x in a[1..] ensures x != a[0] {
        var i :| 1 <= i < |a| && a[i] == x;
        assert StrLt(a[0], a[i]);
        StrLtIrreflexive(a[0]);
      }
      forall x | x in b[1..] ensures x != b[0] {
        var i :| 1 <= i < |b| && b[i] == x;
        assert StrLt(b[0], b[i]);
        StrLtIrreflexive(b[0]);
      }
      assert Elems(a[1..]) == Elems(a) - {a[0]} by {
        assert forall x :: x in a <==> x == a[0] || x in a[1..];
      }
      assert Elems(b[1..]) == Elems(b) - {b[0]} by {
        assert forall x :: x in b <==> x == b[0] || x in b[1..];
      }
      SortedUnique(a[1..], b[1..]);
      assert a == [a[0]] + a[1..] && b == [b[0]] + b[1..];
    }
  }

  /** Appending the least remaining element keeps the loop invariant of `SortStrings`. */
  lemma SortStep(r: seq<string>, rest: set<string>, m: string)
    requires Elems(r) !! rest && StrictlySorted(r) && IsLeast(m, rest)
    requires forall i, y :: 0 <= i < |r| && y in rest ==> StrLt(r[i], y)
    ensures Elems(r + [m]) == Elems(r) + {m} && Elems(r + [m]) !! rest - {m}
    ensures StrictlySorted(r + [m])
    ensures forall i, y :: 0 <= i < |r + [m]| && y in rest - {m} ==> StrLt((r + [m])[i], y)
  {
    forall i | 0 <= i < |r| ensures StrLt(r[i], m) { }
    forall y | y in rest - {m} ensures StrLt(m, y) { }
  }

  /** `sorted(s)` computed by repeatedly taking the least remaining element. */
  method SortStrings(s: set<string>) returns (r: seq<string>)
    ensures r == SortedSet(s)
  {
    r := [];
    var rest := s;
    while rest != {}
      invariant Elems(r) + rest == s && Elems(r) !! rest
      invariant StrictlySorted(r)
      invariant forall i, y :: 0 <= i < |r| && y in rest ==> StrLt(r[i], y)
      decreases |rest|
    {
      LeastExists(rest);
      var m :| IsLeast(m, rest);
      SortStep(r, rest, m);
      r := r + [m];
      rest := rest - {m};
    }
    SortedUnique(r, SortedSet(s));
  }
}
