/** Python's ordering of `str` values (code point by code point) and the
    sort `sorted()` performs on a list of distinct strings. */
module Ordering {

  /** `a < b` on Python strings. */
  predicate StrLess(a: string, b: string) {
    if a == [] then b != []
    else if b == [] then false
    else if a[0] != b[0] then a[0] < b[0]
    else StrLess(a[1..], b[1..])
  }

  lemma {:induction false} StrLessIrreflexive(a: string)
    ensures !StrLess(a, a)
  {
    if a != [] {
      StrLessIrreflexive(a[1..]);
    }
  }

  lemma {:induction false} StrLessTransitive(a: string, b: string, c: string)
    requires StrLess(a, b) && StrLess(b, c)
    ensures StrLess(a, c)
  {
    if a != [] && b != [] && c != [] && a[0] == b[0] && b[0] == c[0] {
      StrLessTransitive(a[1..], b[1..], c[1..]);
    }
  }

  /** Two different strings are ordered one way or the other. */
  lemma {:induction false} StrLessTotal(a: string, b: string)
    requires a != b
    ensures StrLess(a, b) || StrLess(b, a)
  {
    if a != [] && b != [] && a[0] == b[0] {
      assert a == [a[0]] + a[1..] && b == [b[0]] + b[1..];
      StrLessTotal(a[1..], b[1..]);
    }
  }

  lemma {:induction false} StrLessAsymmetric(a: string, b: string)
    requires StrLess(a, b)
    ensures !StrLess(b, a)
  {
    if a != [] && b != [] && a[0] == b[0] {
      StrLessAsymmetric(a[1..], b[1..]);
    }
  }

  predicate StrictlySorted(s: seq<string>) {
    forall i, j :: 0 <= i < j < |s| ==> StrLess(s[i], s[j])
  }

  predicate Distinct(s: seq<string>) {
    forall i, j :: 0 <= i < j < |s| ==> s[i] != s[j]
  }

  /** Places `x` before the first element not smaller than it. */
  function InsertStr(x: string, t: seq<string>): (r: seq<string>)
    ensures multiset(r) == multiset(t) + multiset{x}
  {
    if t == [] || !StrLess(t[0], x) then [x] + t
    else
      assert t == [t[0]] + t[1..];
      [t[0]] + InsertStr(x, t[1..])
  }

  /** `sorted(s)`, by insertion. */
  function SortStrings(s: seq<string>): (r: seq<string>)
    ensures multiset(r) == multiset(s)
  {
    if s == [] then []
    else
      assert s == [s[0]] + s[1..];
      InsertStr(s[0], SortStrings(s[1..]))
  }

  lemma {:induction false} InsertStrSorted(x: string, t: seq<string>)
    requires StrictlySorted(t) && x !in t
    ensures StrictlySorted(InsertStr(x, t))
  {
    if t == [] {
    } else if !StrLess(t[0], x) {
      StrLessTotal(x, t[0]);
      forall j | 0 < j < |t| ensures StrLess(x, t[j]) {
        StrLessTransitive(x, t[0], t[j]);
      }
    } else {
      InsertStrSorted(x, t[1..]);
      var r := InsertStr(x, t[1..]);
      forall j | 0 <= j < |r| ensures StrLess(t[0], r[j]) {
        assert r[j] in multiset(r);
        assert r[j] == x || r[j] in t[1..];
      }
    }
  }

  /** Sorting distinct strings gives them in strictly increasing order. */
  lemma {:induction false} SortStringsSorted(s: seq<string>)
    requires Distinct(s)
    ensures StrictlySorted(SortStrings(s))
  {
    if s != [] {
      assert Distinct(s[1..]);
      SortStringsSorted(s[1..]);
      var t := SortStrings(s[1..]);
      forall j | 0 <= j < |s[1..]| ensures s[1..][j] != s[0] {
        assert s[1..][j] == s[j + 1];
      }
      assert s[0] !in multiset(s[1..]);
      assert s[0] !in t;
      InsertStrSorted(s[0], t);
    }
  }

  /** Strictly increasing strings are pairwise different. */
  lemma SortedDistinct(s: seq<string>)
    requires StrictlySorted(s)
    ensures Distinct(s)
  {
    forall i, j | 0 <= i < j < |s| ensures s[i] != s[j] {
      if s[i] == s[j] {
        StrLessIrreflexive(s[i]);
      }
    }
  }
}
