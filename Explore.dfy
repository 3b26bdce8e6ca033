/** Filtering and summaries over the clean table (volcano_app.py lines 53-78
    and 113-115): the list of countries offered, the rows matching the chosen
    country and elevation range, their lowest and highest elevation, and the
    tallest volcanoes. */
module Explore {
  import opened Wrappers
  import opened Sequences
  import opened Table
  import opened Ordering

  /** The slider's initial selection (line 58). */
  const DefaultRange: (int, int) := (0, 5000)

  /** The default `n` of `get_top_volcanoes` (line 114). */
  const DefaultTop: int := 5

  /** The Country column of rows that all have a country. */
  function CountryColumn(rows: seq<Record>): (r: seq<string>)
    requires forall i :: 0 <= i < |rows| ==> rows[i].country.Some?
    ensures |r| == |rows|
    ensures forall i :: 0 <= i < |rows| ==> rows[i].country == Some(r[i])
  {
    seq(|rows|, i requires 0 <= i < |rows| => rows[i].country.value)
  }

  /** Line 53, `sorted(df['Country'].unique())`: strictly ascending, so with no
      repeats, and holding exactly the countries that occur. */
  function CountryOptions(clean: seq<Record>): (r: seq<string>)
    requires forall i :: 0 <= i < |clean| ==> clean[i].country.Some?
    ensures StrictlyAscending(r)
    ensures forall c :: c in r <==> exists i :: 0 <= i < |clean| && clean[i].country == Some(c)
  {
    var column := CountryColumn(clean);
    assert forall c :: c in column <==> exists i :: 0 <= i < |clean| && column[i] == c;
    SortedUnique(column)
  }

  /** The row mask of lines 62-66. A missing elevation compares false, as NaN does. */
  predicate Matches(r: Record, country: string, lo: int, hi: int)
    ensures r.elevation.None? || r.country != Some(country) ==> !Matches(r, country, lo, hi)
    ensures r.country == Some(country) && lo <= hi && (r.elevation == Some(lo) || r.elevation == Some(hi)) ==>
      Matches(r, country, lo, hi)
  {
    r.country == Some(country) && r.elevation.Some? && lo <= r.elevation.value <= hi
  }

  /** The mask as a predicate on rows. */
  function Mask(country: string, lo: int, hi: int): Record -> bool
  {
    x => Matches(x, country, lo, hi)
  }

  /** Lines 62-66: the rows of the chosen country whose elevation lies in
      [lo, hi], both ends included, in their original order. */
  function Select(clean: seq<Record>, country: string, lo: int, hi: int): (r: seq<Record>)
    ensures IsSubseq(r, clean)
    ensures forall i :: 0 <= i < |r| ==> Matches(r[i], country, lo, hi)
    ensures forall x :: x in r <==> x in clean && Matches(x, country, lo, hi)
    ensures forall x :: multiset(r)[x] == if Matches(x, country, lo, hi) then multiset(clean)[x] else 0
  {
    var r := Filter(clean, Mask(country, lo, hi));
    assert forall x :: x in r <==> multiset(r)[x] > 0;
    r
  }

  /** The filtered view is determined by its specification: any subsequence of
      the clean rows that keeps every matching row and no other is the view. */
  lemma {:induction false} SelectIsExactly(v: seq<Record>, clean: seq<Record>, country: string, lo: int, hi: int)
    requires IsSubseq(v, clean)
    requires forall x :: multiset(v)[x] == if Matches(x, country, lo, hi) then multiset(clean)[x] else 0
    ensures v == Select(clean, country, lo, hi)
  {
    FilterUnique(v, clean, Mask(country, lo, hi));
  }

  /** Every row of the view is one of the clean rows, so it is complete. */
  lemma {:induction false} SelectKeepsComplete(clean: seq<Record>, country: string, lo: int, hi: int)
    requires forall i :: 0 <= i < |clean| ==> Complete(clean[i])
    ensures forall i :: 0 <= i < |Select(clean, country, lo, hi)| ==>
      Complete(Select(clean, country, lo, hi)[i])
  {
    var v := Select(clean, country, lo, hi);
    forall i | 0 <= i < |v| ensures Complete(v[i]) {
      assert v[i] in v;
      var k :| 0 <= k < |clean| && clean[k] == v[i];
    }
  }

  /** Widening the elevation range only adds rows: the narrower view is a
      subsequence of the wider one, so it is no longer. */
  lemma {:induction false} WiderRangeKeepsRows(clean: seq<Record>, country: string, lo: int, hi: int, lo': int, hi': int)
    requires lo' <= lo && hi <= hi'
    ensures IsSubseq(Select(clean, country, lo, hi), Select(clean, country, lo', hi'))
    ensures |Select(clean, country, lo, hi)| <= |Select(clean, country, lo', hi')|
  {
    FilterNarrower(clean, Mask(country, lo', hi'), Mask(country, lo, hi));
    SubseqLength(Select(clean, country, lo, hi), Select(clean, country, lo', hi'));
  }

  /** An empty range selects nothing. */
  lemma {:induction false} EmptyRangeSelectsNothing(clean: seq<Record>, country: string, lo: int, hi: int)
    requires hi < lo
    ensures Select(clean, country, lo, hi) == []
  {
    var v := Select(clean, country, lo, hi);
    if v != [] {
      assert false;
    }
  }

  /** Lines 72-75, `get_min_max_elevation`: pandas' `min` and `max` skip
      missing values and give NaN (here `None`) when none is left. Otherwise
      the pair is (lowest, highest) elevation: every elevation lies between
      them and both occur. */
  function MinMaxElevation(rows: seq<Record>): (r: Option<(int, int)>)
    ensures r.None? <==> forall i :: 0 <= i < |rows| ==> rows[i].elevation.None?
    ensures r.Some? ==> r.value.0 <= r.value.1
    ensures r.Some? ==> forall i :: 0 <= i < |rows| && rows[i].elevation.Some? ==>
      r.value.0 <= rows[i].elevation.value <= r.value.1
    ensures r.Some? ==> exists i :: 0 <= i < |rows| && rows[i].elevation == Some(r.value.0)
    ensures r.Some? ==> exists i :: 0 <= i < |rows| && rows[i].elevation == Some(r.value.1)
  {
    if rows == [] then None
    else
      var rest := MinMaxElevation(rows[1..]);
      assert forall i :: 1 <= i < |rows| ==> rows[i] == rows[1..][i - 1];
      match rows[0].elevation
      case None =>
        if rest.Some? then
          var i :| 0 <= i < |rows[1..]| && rows[1..][i].elevation == Some(rest.value.0);
          var j :| 0 <= j < |rows[1..]| && rows[1..][j].elevation == Some(rest.value.1);
          assert rows[i + 1].elevation == Some(rest.value.0);
          assert rows[j + 1].elevation == Some(rest.value.1);
          rest
        else
          rest
      case Some(e) =>
        if rest.None? then Some((e, e))
        else
          var (lo, hi) := rest.value;
          var i :| 0 <= i < |rows[1..]| && rows[1..][i].elevation == Some(lo);
          var j :| 0 <= j < |rows[1..]| && rows[1..][j].elevation == Some(hi);
          assert rows[i + 1].elevation == Some(lo);
          assert rows[j + 1].elevation == Some(hi);
          Some((if e < lo then e else lo, if e > hi then e else hi))
  }

  /** The extremes of the filtered view lie inside the selected range; an
      empty view has none (the dashboard prints NaN for both). */
  lemma {:induction false} ViewExtremesWithinRange(clean: seq<Record>, country: string, lo: int, hi: int)
    ensures var v := Select(clean, country, lo, hi);
      (MinMaxElevation(v).None? <==> v == []) &&
      (MinMaxElevation(v).Some? ==> lo <= MinMaxElevation(v).value.0 <= MinMaxElevation(v).value.1 <= hi)
  {
    var v := Select(clean, country, lo, hi);
    var m := MinMaxElevation(v);
    if v != [] {
      assert v[0] in v;
    }
    if m.Some? {
      var i :| 0 <= i < |v| && v[i].elevation == Some(m.value.0);
      var j :| 0 <= j < |v| && v[j].elevation == Some(m.value.1);
      assert v[i] in v && v[j] in v;
    }
  }

  /** Choosing a listed country with the slider spanning the clean table's
      whole elevation range always shows at least one volcano. */
  lemma {:induction false} FullRangeShowsEveryCountry(clean: seq<Record>, country: string)
    requires forall i :: 0 <= i < |clean| ==> clean[i].country.Some? && clean[i].elevation.Some?
    requires country in CountryOptions(clean)
    ensures MinMaxElevation(clean).Some?
    ensures Select(clean, country, MinMaxElevation(clean).value.0, MinMaxElevation(clean).value.1) != []
  {
    var i :| 0 <= i < |clean| && clean[i].country == Some(country);
    var m := MinMaxElevation(clean);
    assert clean[i].elevation.Some?;
    assert Matches(clean[i], country, m.value.0, m.value.1);
    assert clean[i] in clean;
  }

  /** How many rows `head(n)` keeps from `len`: pandas counts a negative `n`
      from the end, keeping all but the last |n| rows. */
  function HeadLength(len: nat, n: int): nat
  {
    if n >= 0 then (if n < len then n else len)
    else if len + n > 0 then len + n else 0
  }

  /** pandas `head(n)`: a prefix of HeadLength(|s|, n) rows; all of `s`
      when n is at least its length, nothing when n is 0 or at most minus
      its length. */
  function Head<T>(s: seq<T>, n: int): (r: seq<T>)
    ensures |r| == HeadLength(|s|, n) && r == s[..|r|]
    ensures 0 <= n <= |s| ==> |r| == n
    ensures n < 0 && -n <= |s| ==> |r| == |s| + n
    ensures n >= |s| ==> r == s
    ensures n == 0 || n <= -|s| ==> r == []
  {
    s[..HeadLength(|s|, n)]
  }

  function ElevationOf(r: Record): Option<int>
  {
    r.elevation
  }

  /** The first `k` rows of a descending list: drawn from it, descending, and
      ranked at or above every row left out. */
  lemma {:induction false} RankedPrefix(sorted: seq<Record>, k: nat)
    requires Descending(sorted, ElevationOf) && k <= |sorted|
    ensures multiset(sorted[..k]) <= multiset(sorted)
    ensures Descending(sorted[..k], ElevationOf)
    ensures forall i, x :: 0 <= i < k && x in multiset(sorted) - multiset(sorted[..k]) ==>
      RankAtLeast(sorted[i].elevation, x.elevation)
  {
    assert sorted == sorted[..k] + sorted[k..];
    assert multiset(sorted) - multiset(sorted[..k]) == multiset(sorted[k..]);
    forall i, x | 0 <= i < k && x in multiset(sorted[k..])
      ensures RankAtLeast(sorted[i].elevation, x.elevation)
    {
      var m :| 0 <= m < |sorted[k..]| && sorted[k..][m] == x;
      assert sorted[k + m] == x;
    }
  }

  /** Lines 114-115, `get_top_volcanoes`: sort by elevation, highest first and
      missing last, then keep the first `n` rows. The result is drawn from
      `data`, has the length `head` gives, is in non-increasing order of
      elevation, and no row left out ranks above any row kept. The order of
      rows of equal elevation is not specified. */
  function TopVolcanoes(data: seq<Record>, n: int): (r: seq<Record>)
    ensures |r| == HeadLength(|data|, n)
    ensures multiset(r) <= multiset(data)
    ensures Descending(r, ElevationOf)
    ensures forall i, x :: 0 <= i < |r| && x in multiset(data) - multiset(r) ==>
      RankAtLeast(r[i].elevation, x.elevation)
  {
    var sorted := SortDescending(data, ElevationOf);
    RankedPrefix(sorted, HeadLength(|data|, n));
    Head(sorted, n)
  }

}
