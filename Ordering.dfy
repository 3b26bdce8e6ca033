/** The two orders the dashboard sorts by: Python's order on strings (for the
    country list, `sorted`) and pandas' descending order on a nullable number
    (for `sort_values(..., ascending=False)` and `value_counts`), where
    missing values go last. */
module Ordering {
  import opened Wrappers

  /** Python's `<` on str: lexicographic by code point, a proper prefix first. */
  predicate StrLess(a: string, b: string)
    decreases |a|
  {
    if a == [] then b != []
    else if b == [] then false
    else if a[0] != b[0] then a[0] < b[0]
    else StrLess(a[1..], b[1..])
  }

  lemma {:induction false} StrLessIrreflexive(a: string)
    ensures !StrLess(a, a)
    decreases |a|
  {
    if a != [] {
      StrLessIrreflexive(a[1..]);
    }
  }

  lemma {:induction false} StrLessTransitive(a: string, b: string, c: string)
    requires StrLess(a, b) && StrLess(b, c)
    ensures StrLess(a, c)
    decreases |a|
  {
    if a != [] && b != [] && c != [] && a[0] == b[0] && b[0] == c[0] {
      StrLessTransitive(a[1..], b[1..], c[1..]);
    }
  }

  /** Any two different strings are ordered one way or the other. */
  lemma {:induction false} StrLessTotal(a: string, b: string)
    requires a != b
    ensures StrLess(a, b) || StrLess(b, a)
    decreases |a|
  {
    if a != [] && b != [] && a[0] == b[0] {
      assert a == [a[0]] + a[1..] && b == [b[0]] + b[1..];
      StrLessTotal(a[1..], b[1..]);
    }
  }

  predicate StrictlyAscending(s: seq<string>)
  {
    forall i, j :: 0 <= i < j < |s| ==> StrLess(s[i], s[j])
  }

  /** Adds `x` to a strictly ascending list unless it is already there. */
  function InsertUnique(x: string, s: seq<string>): (r: seq<string>)
    requires StrictlyAscending(s)
    ensures StrictlyAscending(r)
    ensures forall y :: y in r <==> y == x || y in s
  {
    if s == [] then [x]
    else if x == s[0] then s
    else if StrLess(x, s[0]) then
      var r := [x] + s;
      assert StrictlyAscending(r) by {
        forall i, j | 0 <= i < j < |r| ensures StrLess(r[i], r[j]) {
          if i == 0 && j > 1 {
            StrLessTransitive(x, s[0], s[j - 1]);
          }
        }
      }
      r
    else
      var rest := InsertUnique(x, s[1..]);
      var r := [s[0]] + rest;
      StrLessTotal(x, s[0]);
      assert StrictlyAscending(r) by {
        forall i, j | 0 <= i < j < |r| ensures StrLess(r[i], r[j]) {
          if i == 0 {
            assert r[j] in rest;
            if r[j] != x {
              var k :| 0 <= k < |s[1..]| && s[1..][k] == r[j];
              assert s[k + 1] == r[j];
            }
          }
        }
      }
      r
  }

  /** `sorted(set(xs))`: the distinct values of `xs`, strictly ascending. */
  function SortedUnique(xs: seq<string>): (r: seq<string>)
    ensures StrictlyAscending(r)
    ensures forall y :: y in r <==> y in xs
  {
    if xs == [] then [] else InsertUnique(xs[0], SortedUnique(xs[1..]))
  }

  /** A strictly ascending list holds no value twice. */
  lemma {:induction false} StrictlyAscendingDistinct(s: seq<string>)
    requires StrictlyAscending(s)
    ensures forall i, j :: 0 <= i < j < |s| ==> s[i] != s[j]
  {
    forall i, j | 0 <= i < j < |s| ensures s[i] != s[j] {
      StrLessIrreflexive(s[i]);
    }
  }

  /** `a` may come before `b` when sorting in descending order with missing
      values last (pandas' `na_position='last'`). */
  predicate RankAtLeast(a: Option<int>, b: Option<int>)
  {
    b.None? || (a.Some? && a.value >= b.value)
  }

  /** Sorted in descending order of `key`, missing keys last. */
  predicate Descending<T>(s: seq<T>, key: T -> Option<int>)
  {
    forall i, j :: 0 <= i < j < |s| ==> RankAtLeast(key(s[i]), key(s[j]))
  }

  /** Inserts `x` into a descending list before the first element it ranks at
      least as high as. */
  function InsertRanked<T>(x: T, s: seq<T>, key: T -> Option<int>): (r: seq<T>)
    requires Descending(s, key)
    ensures Descending(r, key)
    ensures multiset(r) == multiset(s) + multiset{x}
  {
    if s == [] || RankAtLeast(key(x), key(s[0])) then
      assert s != [] ==> s == [s[0]] + s[1..];
      [x] + s
    else
      var rest := InsertRanked(x, s[1..], key);
      var r := [s[0]] + rest;
      assert s == [s[0]] + s[1..];
      assert Descending(r, key) by {
        forall i, j | 0 <= i < j < |r| ensures RankAtLeast(key(r[i]), key(r[j])) {
          if i == 0 {
            assert r[j] in multiset(rest);
            if r[j] != x {
              assert r[j] in multiset(s[1..]);
              var k :| 0 <= k < |s[1..]| && s[1..][k] == r[j];
              assert s[k + 1] == r[j];
            }
          }
        }
      }
      r
  }

  /** A descending sort of `s` by `key`: a permutation of `s`, missing keys last.
      Which of several equal-key elements comes first is not specified. */
  function SortDescending<T>(s: seq<T>, key: T -> Option<int>): (r: seq<T>)
    ensures Descending(r, key)
    ensures multiset(r) == multiset(s)
  {
    if s == [] then []
    else
      assert s == [s[0]] + s[1..];
      InsertRanked(s[0], SortDescending(s[1..], key), key)
  }
}
