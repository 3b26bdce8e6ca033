/** The volcano-type breakdown behind the pie chart (volcano_app.py lines
    89-98): `value_counts` of the type column, types seen more than five
    times get a slice each, largest first, and all other types share one
    "Other" slice, drawn only when it is not empty. */
module Pie {
  import opened Wrappers
  import opened Sequences
  import opened Table
  import opened Ordering

  /** A type needs more than this many rows for a slice of its own (line 92). */
  const MajorThreshold: nat := 5
  const OtherLabel: string := "Other"

  datatype Slice = Slice(name: string, size: nat)

  /** The slices of the named types, then the size of the "Other" bucket. */
  datatype Chart = Chart(major: seq<Slice>, other: int)

  predicate HasKind(r: Record) { r.kind.Some? }

  /** The non-missing values of the type column, in row order: what
      `value_counts` counts, since it skips NaN. Position by position they
      are the types of the rows that have one. */
  function PresentTypes(view: seq<Record>): (r: seq<string>)
    ensures |r| == |Filter(view, HasKind)|
    ensures forall i :: 0 <= i < |r| ==> Filter(view, HasKind)[i].kind == Some(r[i])
    ensures forall t :: t in r <==> exists i :: 0 <= i < |view| && view[i].kind == Some(t)
  {
    var typed := Filter(view, HasKind);
    var r := seq(|typed|, j requires 0 <= j < |typed| => typed[j].kind.value);
    TypeOccurs(view, r);
    r
  }

  /** A type is listed exactly when some row has it. */
  lemma {:induction false} TypeOccurs(view: seq<Record>, r: seq<string>)
    requires |r| == |Filter(view, HasKind)|
    requires forall j :: 0 <= j < |r| ==> Filter(view, HasKind)[j].kind == Some(r[j])
    ensures forall t :: t in r <==> exists i :: 0 <= i < |view| && view[i].kind == Some(t)
  {
    var typed := Filter(view, HasKind);
    FilterMembers(view, HasKind);
    forall t ensures t in r <==> exists i :: 0 <= i < |view| && view[i].kind == Some(t) {
      if t in r {
        var j :| 0 <= j < |r| && r[j] == t;
        assert typed[j] in typed;
        var i :| 0 <= i < |view| && view[i] == typed[j];
      }
      if exists i :: 0 <= i < |view| && view[i].kind == Some(t) {
        var i :| 0 <= i < |view| && view[i].kind == Some(t);
        assert view[i] in typed;
        var j :| 0 <= j < |typed| && typed[j] == view[i];
        assert r[j] == t;
      }
    }
  }

  /** How many rows of the view have type `t`. */
  function Count(view: seq<Record>, t: string): nat
  {
    multiset(PresentTypes(view))[t]
  }

  predicate NoRepeats<T(==)>(s: seq<T>)
  {
    forall i, j :: 0 <= i < j < |s| ==> s[i] != s[j]
  }

  /** The distinct values of `s`. */
  function Distinct(s: seq<string>): (r: seq<string>)
    ensures NoRepeats(r)
    ensures forall x :: x in r <==> x in s
  {
    if s == [] then []
    else if s[0] in s[1..] then Distinct(s[1..])
    else
      var rest := Distinct(s[1..]);
      assert forall j :: 0 <= j < |rest| ==> rest[j] in rest;
      [s[0]] + rest
  }

  /** One slice per value of `labels`, sized by its multiplicity in `m`. */
  function Tally(labels: seq<string>, m: multiset<string>): (r: seq<Slice>)
    ensures |r| == |labels|
    ensures forall i :: 0 <= i < |r| ==> r[i] == Slice(labels[i], m[labels[i]])
  {
    if labels == [] then [] else [Slice(labels[0], m[labels[0]])] + Tally(labels[1..], m)
  }

  function SizeKey(s: Slice): Option<int> { Some(s.size) }
  function SizeOf(s: Slice): int { s.size }
  predicate IsMajor(s: Slice) { s.size > MajorThreshold }
  predicate IsMinor(s: Slice) { s.size <= MajorThreshold }

  /** One slice per distinct present type, sized by its count, in order of
      first appearance. */
  function Tallied(view: seq<Record>): seq<Slice>
  {
    var types := PresentTypes(view);
    Tally(Distinct(types), multiset(types))
  }

  /** Line 89, `value_counts()`: the tallied types in non-increasing order of
      count, ties in no promised order. */
  function ValueCounts(view: seq<Record>): (r: seq<Slice>)
    ensures Descending(r, SizeKey)
    ensures multiset(r) == multiset(Tallied(view))
  {
    SortDescending(Tallied(view), SizeKey)
  }

  /** Every slice of value_counts is a present type with its count. */
  lemma {:induction false} ValueCountsSizes(view: seq<Record>)
    ensures var r := ValueCounts(view);
      forall i :: 0 <= i < |r| ==> r[i].size == Count(view, r[i].name) > 0
  {
    var types := PresentTypes(view);
    var labels := Distinct(types);
    var tally := Tallied(view);
    var r := ValueCounts(view);
    forall i | 0 <= i < |r| ensures r[i].size == Count(view, r[i].name) > 0 {
      assert r[i] in multiset(tally);
      var k :| 0 <= k < |tally| && tally[k] == r[i];
      assert labels[k] in types;
    }
  }

  /** value_counts has a slice for a type exactly when some row has that type. */
  lemma {:induction false} ValueCountsCover(view: seq<Record>)
    ensures var r := ValueCounts(view);
      forall t :: t in PresentTypes(view) <==> exists i :: 0 <= i < |r| && r[i].name == t
  {
    var types := PresentTypes(view);
    var labels := Distinct(types);
    var tally := Tallied(view);
    var r := ValueCounts(view);
    ValueCountsSizes(view);
    forall t | t in types ensures exists i :: 0 <= i < |r| && r[i].name == t {
      var k :| 0 <= k < |labels| && labels[k] == t;
      assert tally[k] in multiset(r);
      var i :| 0 <= i < |r| && r[i] == tally[k];
    }
    forall i | 0 <= i < |r| ensures r[i].name in types {
      assert multiset(types)[r[i].name] > 0;
    }
  }

  /** value_counts names each type once. */
  lemma {:induction false} ValueCountsDistinct(view: seq<Record>)
    ensures var r := ValueCounts(view);
      forall i, j :: 0 <= i < j < |r| ==> r[i].name != r[j].name
  {
    var labels := Distinct(PresentTypes(view));
    var tally := Tallied(view);
    var r := ValueCounts(view);
    ValueCountsSizes(view);
    assert NoRepeats(tally) by {
      forall i, j | 0 <= i < j < |tally| ensures tally[i] != tally[j] {
        assert labels[i] != labels[j];
      }
    }
    forall i, j | 0 <= i < j < |r| ensures r[i].name != r[j].name {
      if r[i].name == r[j].name {
        assert r[i] == r[j];
        RepeatCounted(r, i, j);
        DistinctCounted(tally, r[i]);
        assert false;
      }
    }
  }

  /** The types whose rows go to "Other": each present row whose type occurs
      at most MajorThreshold times. */
  function MinorTypes(view: seq<Record>): (r: seq<string>)
    ensures forall t :: multiset(r)[t] == if Count(view, t) <= MajorThreshold then Count(view, t) else 0
  {
    Filter(PresentTypes(view), t => Count(view, t) <= MajorThreshold)
  }

  /** Each present row whose type occurs more than MajorThreshold times. */
  function MajorTypes(view: seq<Record>): (r: seq<string>)
    ensures forall t :: multiset(r)[t] == if Count(view, t) > MajorThreshold then Count(view, t) else 0
  {
    Filter(PresentTypes(view), t => Count(view, t) > MajorThreshold)
  }

  /** The sum over `labels` of their multiplicities in `m`. */
  function SumCounts(labels: seq<string>, m: multiset<string>): int
  {
    if labels == [] then 0 else m[labels[0]] + SumCounts(labels[1..], m)
  }

  lemma {:induction false} SumCountsAdd(labels: seq<string>, a: multiset<string>, b: multiset<string>)
    ensures SumCounts(labels, a + b) == SumCounts(labels, a) + SumCounts(labels, b)
  {
    if labels != [] {
      SumCountsAdd(labels[1..], a, b);
    }
  }

  lemma {:induction false} SumCountsSingle(labels: seq<string>, x: string)
    requires NoRepeats(labels)
    ensures SumCounts(labels, multiset{x}) == if x in labels then 1 else 0
  {
    if labels != [] {
      assert NoRepeats(labels[1..]) by {
        forall i, j | 0 <= i < j < |labels[1..]| ensures labels[1..][i] != labels[1..][j] {
          assert labels[1..][i] == labels[i + 1] && labels[1..][j] == labels[j + 1];
        }
      }
      SumCountsSingle(labels[1..], x);
      if labels[0] == x {
        assert x !in labels[1..] by {
          forall j | 0 <= j < |labels[1..]| ensures labels[1..][j] != x {
            assert labels[1..][j] == labels[j + 1];
          }
        }
      }
      assert labels == [labels[0]] + labels[1..];
    }
  }

  /** Summing the counts of every distinct value gives the length. */
  lemma {:induction false} SumCountsCover(labels: seq<string>, s: seq<string>)
    requires NoRepeats(labels)
    requires forall x :: x in s ==> x in labels
    ensures SumCounts(labels, multiset(s)) == |s|
  {
    if s == [] {
      assert forall labs: seq<string> :: SumCounts(labs, multiset{}) == 0 by {
        forall labs: seq<string> ensures SumCounts(labs, multiset{}) == 0 {
          SumCountsEmpty(labs);
        }
      }
    } else {
      assert s == [s[0]] + s[1..];
      assert multiset(s) == multiset{s[0]} + multiset(s[1..]);
      SumCountsAdd(labels, multiset{s[0]}, multiset(s[1..]));
      SumCountsSingle(labels, s[0]);
      SumCountsCover(labels, s[1..]);
    }
  }

  lemma {:induction false} SumCountsEmpty(labels: seq<string>)
    ensures SumCounts(labels, multiset{}) == 0
  {
    if labels != [] {
      SumCountsEmpty(labels[1..]);
    }
  }

  /** The sizes of the tally slices that `keep` selects add up to the
      multiplicities, over `labels`, of the multiset `kept` that holds
      exactly those values. */
  lemma {:induction false} TallySum(labels: seq<string>, m: multiset<string>, kept: multiset<string>, keep: Slice -> bool)
    requires forall t :: kept[t] == if keep(Slice(t, m[t])) then m[t] else 0
    ensures SumOf(Filter(Tally(labels, m), keep), SizeOf) == SumCounts(labels, kept)
  {
    if labels != [] {
      var tally := Tally(labels, m);
      assert tally == [Slice(labels[0], m[labels[0]])] + Tally(labels[1..], m);
      assert tally[1..] == Tally(labels[1..], m);
      TallySum(labels[1..], m, kept, keep);
    }
  }

  /** Lines 92-98: the counts above MajorThreshold keep their own slices, in
      the order value_counts gives; the others are summed into "Other". */
  function Buckets(view: seq<Record>): (c: Chart)
    ensures IsSubseq(c.major, ValueCounts(view))
    ensures forall i :: 0 <= i < |c.major| ==> c.major[i].size > MajorThreshold
  {
    var counts := ValueCounts(view);
    Chart(Filter(counts, IsMajor), SumOf(Filter(counts, IsMinor), SizeOf))
  }

  /** The named slices are largest first. */
  lemma {:induction false} BucketsOrdered(view: seq<Record>)
    ensures Descending(Buckets(view).major, SizeKey)
  {
    SubseqPairs(Buckets(view).major, ValueCounts(view),
      (a: Slice, b: Slice) => RankAtLeast(SizeKey(a), SizeKey(b)));
  }

  /** Each named slice is a type counted more than MajorThreshold times, sized
      by its count. */
  lemma {:induction false} BucketsCounted(view: seq<Record>)
    ensures var top := Buckets(view).major;
      forall i :: 0 <= i < |top| ==> top[i].size == Count(view, top[i].name) > MajorThreshold
  {
    var counts := ValueCounts(view);
    var top := Buckets(view).major;
    ValueCountsSizes(view);
    assert top == Filter(counts, IsMajor);
    forall i | 0 <= i < |top| ensures top[i].size == Count(view, top[i].name) {
      assert multiset(top)[top[i]] > 0;
      assert top[i] in multiset(counts);
    }
  }

  /** No type has two named slices. */
  lemma {:induction false} BucketsNamesDistinct(view: seq<Record>)
    ensures var top := Buckets(view).major;
      forall i, j :: 0 <= i < j < |top| ==> top[i].name != top[j].name
  {
    ValueCountsDistinct(view);
    SubseqPairs(Buckets(view).major, ValueCounts(view), (a: Slice, b: Slice) => a.name != b.name);
  }

  /** A type counted more than MajorThreshold times has a named slice. */
  lemma {:induction false} CommonTypeHasSlice(view: seq<Record>, t: string)
    requires Count(view, t) > MajorThreshold
    ensures exists i :: 0 <= i < |Buckets(view).major| && Buckets(view).major[i].name == t
  {
    var counts := ValueCounts(view);
    var top := Buckets(view).major;
    assert t in PresentTypes(view) by {
      assert t in multiset(PresentTypes(view));
    }
    ValueCountsCover(view);
    var k :| 0 <= k < |counts| && counts[k].name == t;
    ValueCountsSizes(view);
    assert IsMajor(counts[k]);
    assert multiset(top)[counts[k]] == multiset(counts)[counts[k]];
    assert counts[k] in multiset(top);
    var i :| 0 <= i < |top| && top[i] == counts[k];
  }

  /** A type gets a slice of its own exactly when it is counted more than
      MajorThreshold times. */
  lemma {:induction false} BucketsMajorCover(view: seq<Record>)
    ensures var c := Buckets(view);
      forall t :: Count(view, t) > MajorThreshold <==>
        exists i :: 0 <= i < |c.major| && c.major[i].name == t
  {
    BucketsCounted(view);
    forall t | Count(view, t) > MajorThreshold
      ensures exists i :: 0 <= i < |Buckets(view).major| && Buckets(view).major[i].name == t
    {
      CommonTypeHasSlice(view, t);
    }
  }

  /** The slices of value_counts that `keep` selects together count the rows
      of `kept`, the present types whose slice `keep` selects. */
  lemma {:induction false} SelectedSlicesSum(view: seq<Record>, keep: Slice -> bool, kept: seq<string>)
    requires forall t :: multiset(kept)[t] == (if keep(Slice(t, Count(view, t))) then Count(view, t) else 0)
    ensures SumOf(Filter(ValueCounts(view), keep), SizeOf) == |kept|
  {
    var types := PresentTypes(view);
    var labels := Distinct(types);
    var tally := Tallied(view);
    var chosen := Filter(ValueCounts(view), keep);
    assert multiset(chosen) == multiset(Filter(tally, keep)) by {
      forall x ensures multiset(chosen)[x] == multiset(Filter(tally, keep))[x] {}
    }
    SumOfPermutation(chosen, Filter(tally, keep), SizeOf);
    TallySum(labels, multiset(types), multiset(kept), keep);
    forall x | x in kept ensures x in labels {
      assert multiset(kept)[x] > 0;
      assert x in multiset(types);
    }
    SumCountsCover(labels, kept);
  }

  /** The named slices together count the rows of the common types, and
      "Other" counts the rows of all the rarer types: rows, not types. */
  lemma {:induction false} BucketsSizes(view: seq<Record>)
    ensures var c := Buckets(view);
      SumOf(c.major, SizeOf) == |MajorTypes(view)| && c.other == |MinorTypes(view)|
  {
    SelectedSlicesSum(view, IsMajor, MajorTypes(view));
    SelectedSlicesSum(view, IsMinor, MinorTypes(view));
  }

  /** A row whose type has at most MajorThreshold rows puts that row in "Other". */
  lemma {:induction false} RareRowInOther(view: seq<Record>, i: nat)
    requires i < |view| && view[i].kind.Some?
    requires Count(view, view[i].kind.value) <= MajorThreshold
    ensures |MinorTypes(view)| > 0
  {
    var t := view[i].kind.value;
    assert t in PresentTypes(view);
    assert multiset(MinorTypes(view))[t] > 0;
  }

  /** Anything in "Other" comes from a row whose type is rare. */
  lemma {:induction false} OtherHasRareRow(view: seq<Record>)
    requires |MinorTypes(view)| > 0
    ensures exists i ::
      0 <= i < |view| && view[i].kind.Some? && Count(view, view[i].kind.value) <= MajorThreshold
  {
    var rare := MinorTypes(view);
    assert multiset(rare)[rare[0]] > 0;
    assert rare[0] in PresentTypes(view);
    var i :| 0 <= i < |view| && view[i].kind == Some(rare[0]);
  }

  /** Line 96: "Other" is drawn exactly when some row has a type counted at
      most MajorThreshold times. */
  lemma {:induction false} OtherDrawnWhenRare(view: seq<Record>)
    ensures Buckets(view).other > 0 <==>
      exists i :: 0 <= i < |view| && view[i].kind.Some? &&
        Count(view, view[i].kind.value) <= MajorThreshold
  {
    BucketsSizes(view);
    if |MinorTypes(view)| > 0 {
      OtherHasRareRow(view);
    }
    forall i | 0 <= i < |view| && view[i].kind.Some? && Count(view, view[i].kind.value) <= MajorThreshold
      ensures |MinorTypes(view)| > 0
    {
      RareRowInOther(view, i);
    }
  }

  /** A value repeated in a sequence is counted at least twice. */
  lemma {:induction false} RepeatCounted<T>(s: seq<T>, i: nat, j: nat)
    requires i < j < |s| && s[i] == s[j]
    ensures multiset(s)[s[i]] >= 2
  {
    assert s == s[..j] + s[j..];
    assert s[i] in s[..j] && s[j..][0] == s[j];
    assert multiset(s) == multiset(s[..j]) + multiset(s[j..]);
  }

  /** A sequence without repeats counts every value at most once. */
  lemma {:induction false} DistinctCounted<T>(s: seq<T>, x: T)
    requires NoRepeats(s)
    ensures multiset(s)[x] <= 1
  {
    if s != [] {
      assert s == [s[0]] + s[1..];
      assert NoRepeats(s[1..]) by {
        forall i, j | 0 <= i < j < |s[1..]| ensures s[1..][i] != s[1..][j] {
          assert s[1..][i] == s[i + 1] && s[1..][j] == s[j + 1];
        }
      }
      DistinctCounted(s[1..], x);
      if s[0] == x {
        assert x !in s[1..] by {
          forall j | 0 <= j < |s[1..]| ensures s[1..][j] != x {
            assert s[1..][j] == s[j + 1];
          }
        }
      }
    }
  }

  /** The labels of the chart, "Other" appended when its bucket is not empty
      (lines 94 and 96-97). */
  function Labels(c: Chart): (r: seq<string>)
    ensures |r| == |c.major| + (if c.other > 0 then 1 else 0)
    ensures forall i :: 0 <= i < |c.major| ==> r[i] == c.major[i].name
    ensures c.other > 0 ==> r[|r| - 1] == OtherLabel
  {
    seq(|c.major|, i requires 0 <= i < |c.major| => c.major[i].name) +
    (if c.other > 0 then [OtherLabel] else [])
  }

  /** The sizes of the chart, the "Other" sum appended when positive (lines
      95-98). */
  function Sizes(c: Chart): (r: seq<int>)
    ensures |r| == |c.major| + (if c.other > 0 then 1 else 0)
    ensures forall i :: 0 <= i < |c.major| ==> r[i] == c.major[i].size
    ensures c.other > 0 ==> r[|r| - 1] == c.other
  {
    SliceSizes(c.major) + (if c.other > 0 then [c.other] else [])
  }

  function SliceSizes(major: seq<Slice>): (r: seq<int>)
    ensures |r| == |major|
    ensures forall i :: 0 <= i < |major| ==> r[i] == major[i].size
  {
    seq(|major|, i requires 0 <= i < |major| => major[i].size as int)
  }

  function Id(n: int): int { n }

  lemma {:induction false} SliceSizesSum(major: seq<Slice>)
    ensures SumOf(SliceSizes(major), Id) == SumOf(major, SizeOf)
  {
    if major != [] {
      assert SliceSizes(major)[1..] == SliceSizes(major[1..]);
      SliceSizesSum(major[1..]);
    }
  }

  /** Lines 94-98 as the dashboard runs them: the lists start as the named
      slices' labels and sizes, and "Other" with its sum is appended to both
      when that sum is positive. */
  method ChartSeries(c: Chart) returns (labels: seq<string>, sizes: seq<int>)
    ensures labels == Labels(c) && sizes == Sizes(c)
    ensures |labels| == |sizes|
  {
    labels := seq(|c.major|, i requires 0 <= i < |c.major| => c.major[i].name);
    sizes := SliceSizes(c.major);
    if c.other > 0 {
      labels := labels + [OtherLabel];
      sizes := sizes + [c.other];
    }
  }

  /** Every present type is either common or rare. */
  lemma {:induction false} TypesSplit(view: seq<Record>)
    ensures |MajorTypes(view)| + |MinorTypes(view)| == |PresentTypes(view)|
  {
    var types := PresentTypes(view);
    assert multiset(MajorTypes(view)) + multiset(MinorTypes(view)) == multiset(types) by {
      forall t ensures multiset(MajorTypes(view))[t] + multiset(MinorTypes(view))[t] == multiset(types)[t] {}
    }
    assert |multiset(MajorTypes(view)) + multiset(MinorTypes(view))| == |multiset(types)|;
  }

  /** The pie's sizes add up to the number of rows whose type is present:
      every such row lands in exactly one slice, and rows without a type in
      none. Labels and sizes pair up. */
  lemma {:induction false} PieCoversTypedRows(view: seq<Record>)
    ensures SumOf(Sizes(Buckets(view)), Id) == |Filter(view, HasKind)|
    ensures |Labels(Buckets(view))| == |Sizes(Buckets(view))|
  {
    var c := Buckets(view);
    var tail: seq<int> := if c.other > 0 then [c.other] else [];
    assert Sizes(c) == SliceSizes(c.major) + tail;
    SumOfConcat(SliceSizes(c.major), tail, Id);
    SliceSizesSum(c.major);
    BucketsSizes(view);
    TypesSplit(view);
  }
}
