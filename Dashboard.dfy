/** One pass of the dashboard (volcano_app.py lines 17-171) with the widgets
    and charts taken away: the parsed upload is cleaned, the chosen country
    and elevation range select the view, and the view is summarised for the
    callouts, the name listing, the pie, the bar chart and the closing
    message. */
module Dashboard {
  import opened Wrappers
  import opened Sequences
  import opened Table
  import opened Ordering
  import opened Explore
  import Pie

  /** The message shown at the end (lines 165-171). */
  datatype Feedback =
    | Celebrate(found: nat)    // st.success with the count, and balloons
    | NothingFound             // st.warning, and snow
    | NoMessage                // neither

  /** From this many rows on the dashboard celebrates (line 166). */
  const CelebrateAt: nat := 10

  /** Lines 165-171: ten rows or more celebrate with the count, no rows warn,
      anything in between says nothing. */
  function FeedbackFor(total: nat): (r: Feedback)
    ensures r.Celebrate? <==> total >= CelebrateAt
    ensures r.Celebrate? ==> r.found == total
    ensures r.NothingFound? <==> total == 0
    ensures r.NoMessage? <==> 0 < total < CelebrateAt
  {
    if total >= CelebrateAt then Celebrate(total)
    else if total == 0 then NothingFound
    else NoMessage
  }

  /** Widening the elevation range never takes a celebration away, and a
      warning for the wider range means the narrower one warns too. */
  lemma {:induction false} WiderRangeFeedback(clean: seq<Record>, country: string, lo: int, hi: int, lo': int, hi': int)
    requires lo' <= lo && hi <= hi'
    ensures FeedbackFor(|Select(clean, country, lo, hi)|).Celebrate? ==>
      FeedbackFor(|Select(clean, country, lo', hi')|).Celebrate?
    ensures FeedbackFor(|Select(clean, country, lo', hi')|).NothingFound? ==>
      FeedbackFor(|Select(clean, country, lo, hi)|).NothingFound?
  {
    WiderRangeKeepsRows(clean, country, lo, hi, lo', hi');
  }

  /** The separator of the name listing (line 84). */
  const Separator: string := ", "

  /** `s` occurs in `t` starting at position `o`. */
  ghost predicate OccursAt(s: string, t: string, o: int)
  {
    0 <= o <= |t| - |s| && t[o..o + |s|] == s
  }

  /** `s` occurs in `t` as a contiguous piece. */
  ghost predicate Occurs(s: string, t: string)
  {
    exists o :: OccursAt(s, t, o)
  }

  function Length(s: string): int { |s| }

  /** Where part `k` starts in `sep.join(parts)`: after the first `k` parts
      and `k` separators. */
  function Offset(parts: seq<string>, sep: string, k: nat): int
    requires k <= |parts|
  {
    SumOf(parts[..k], Length) + k * |sep|
  }

  /** `r` holds each part at its offset, and a separator right after every
      part but the last. */
  ghost predicate LaidOut(parts: seq<string>, sep: string, r: string)
  {
    && (forall k :: 0 <= k < |parts| ==> OccursAt(parts[k], r, Offset(parts, sep, k)))
    && (forall k :: 0 <= k < |parts| - 1 ==> OccursAt(sep, r, Offset(parts, sep, k) + |parts[k]|))
  }

  /** Python's `sep.join(parts)`: the parts in order with one separator
      between each neighbouring pair, and nothing else, since its length is
      the parts' lengths plus one separator fewer than there are parts. */
  function Join(parts: seq<string>, sep: string): (r: string)
    ensures parts == [] ==> r == []
    ensures |parts| == 1 ==> r == parts[0]
    ensures parts != [] ==> |r| == SumOf(parts, Length) + (|parts| - 1) * |sep|
    ensures parts != [] ==> |parts[0]| <= |r| && r[..|parts[0]|] == parts[0]
    ensures LaidOut(parts, sep, r)
  {
    if parts == [] then []
    else if |parts| == 1 then
      assert OccursAt(parts[0], parts[0], Offset(parts, sep, 0));
      parts[0]
    else
      var rest := Join(parts[1..], sep);
      JoinStep(parts, sep, rest);
      parts[0] + sep + rest
  }

  /** The offsets of `parts` past its first part are those of `parts[1..]`,
      shifted by the first part and one separator. */
  lemma {:induction false} OffsetStep(parts: seq<string>, sep: string, k: nat)
    requires 1 <= k <= |parts|
    ensures Offset(parts, sep, k) == |parts[0]| + |sep| + Offset(parts[1..], sep, k - 1)
  {
    assert parts[..k][1..] == parts[1..][..k - 1];
    assert k * |sep| == |sep| + (k - 1) * |sep|;
  }

  /** An occurrence stays one after a prefix, shifted by its length. */
  lemma ShiftOccurs(s: string, t: string, head: string, o: int)
    requires OccursAt(s, t, o)
    ensures OccursAt(s, head + t, |head| + o)
  {
    assert (head + t)[|head| + o..|head| + o + |s|] == t[o..o + |s|];
  }

  /** Prefixing the first part and a separator to the joined rest lays out
      the whole list. */
  lemma {:induction false} JoinStep(parts: seq<string>, sep: string, rest: string)
    requires |parts| >= 2 && LaidOut(parts[1..], sep, rest)
    ensures LaidOut(parts, sep, parts[0] + sep + rest)
  {
    var head := parts[0] + sep;
    var r := head + rest;
    assert r == parts[0] + sep + rest;
    assert Offset(parts, sep, 0) == 0 by {
      assert parts[..0] == [];
    }
    assert OccursAt(parts[0], r, 0) by {
      assert r[..|parts[0]|] == parts[0];
    }
    assert OccursAt(sep, r, |parts[0]|) by {
      assert r[|parts[0]|..|parts[0]| + |sep|] == sep;
    }
    forall k | 1 <= k < |parts|
      ensures OccursAt(parts[k], r, Offset(parts, sep, k))
    {
      OffsetStep(parts, sep, k);
      assert parts[k] == parts[1..][k - 1];
      ShiftOccurs(parts[k], rest, head, Offset(parts[1..], sep, k - 1));
    }
    forall k | 1 <= k < |parts| - 1
      ensures OccursAt(sep, r, Offset(parts, sep, k) + |parts[k]|)
    {
      OffsetStep(parts, sep, k);
      assert parts[k] == parts[1..][k - 1];
      ShiftOccurs(sep, rest, head, Offset(parts[1..], sep, k - 1) + |parts[1..][k - 1]|);
    }
  }

  /** Every part can be found in the joined string. */
  lemma {:induction false} JoinContainsParts(parts: seq<string>, sep: string)
    ensures forall k :: 0 <= k < |parts| ==> Occurs(parts[k], Join(parts, sep))
  {
    var r := Join(parts, sep);
    forall k | 0 <= k < |parts| ensures Occurs(parts[k], r) {
      assert OccursAt(parts[k], r, Offset(parts, sep, k));
    }
  }

  /** Some row of the view has no name. */
  predicate SomeNameMissing(view: seq<Record>)
  {
    exists i :: 0 <= i < |view| && view[i].name.None?
  }

  /** The position of the first row without a name. */
  function FirstMissingName(view: seq<Record>): (k: nat)
    requires SomeNameMissing(view)
    ensures k < |view| && view[k].name.None?
    ensures forall i :: 0 <= i < k ==> view[i].name.Some?
  {
    if view[0].name.None? then 0
    else
      assert SomeNameMissing(view[1..]) by {
        var i :| 0 <= i < |view| && view[i].name.None?;
        assert view[1..][i - 1] == view[i];
      }
      var k := FirstMissingName(view[1..]);
      assert forall i :: 1 <= i < k + 1 ==> view[i] == view[1..][i - 1];
      k + 1
  }

  /** The names of the view, in row order, skipping rows without one. */
  function PresentNames(view: seq<Record>): (r: seq<string>)
    ensures |r| == |Filter(view, HasName)| <= |view|
    ensures forall i :: 0 <= i < |r| ==> Filter(view, HasName)[i].name == Some(r[i])
    ensures forall n :: n in r <==> exists i :: 0 <= i < |view| && view[i].name == Some(n)
    ensures !SomeNameMissing(view) ==> (|r| == |view| &&
      forall i :: 0 <= i < |view| ==> view[i].name == Some(r[i]))
  {
    var named := Filter(view, HasName);
    var r := seq(|named|, j requires 0 <= j < |named| => named[j].name.value);
    SubseqLength(named, view);
    NameOccurs(view, r);
    if SomeNameMissing(view) then r
    else
      FilterAll(view, HasName);
      r
  }

  predicate HasName(r: Record) { r.name.Some? }

  /** A name is listed exactly when some row has it. */
  lemma {:induction false} NameOccurs(view: seq<Record>, r: seq<string>)
    requires |r| == |Filter(view, HasName)|
    requires forall j :: 0 <= j < |r| ==> Filter(view, HasName)[j].name == Some(r[j])
    ensures forall n :: n in r <==> exists i :: 0 <= i < |view| && view[i].name == Some(n)
  {
    var named := Filter(view, HasName);
    FilterMembers(view, HasName);
    forall n ensures n in r <==> exists i :: 0 <= i < |view| && view[i].name == Some(n) {
      if n in r {
        var j :| 0 <= j < |r| && r[j] == n;
        assert named[j] in named;
        var i :| 0 <= i < |view| && view[i] == named[j];
      }
      if exists i :: 0 <= i < |view| && view[i].name == Some(n) {
        var i :| 0 <= i < |view| && view[i].name == Some(n);
        assert view[i] in named;
        var j :| 0 <= j < |named| && named[j] == view[i];
        assert r[j] == n;
      }
    }
  }

  /** Lines 83-84 as written: the list comprehension copies the Volcano Name
      column, NaN included, and `', '.join` raises TypeError at the first
      value that is not a string. Cleaning does not drop rows without a name
      (lines 44-49), so a missing name reaches the join. */
  function JoinNamesAsWritten(view: seq<Record>): (r: Result<string, Error>)
    ensures r.Failure? <==> SomeNameMissing(view)
    ensures r.Failure? ==> (r.error.JoinTypeError? && r.error.position < |view| &&
      view[r.error.position].name.None? &&
      forall i :: 0 <= i < r.error.position ==> view[i].name.Some?)
    ensures r.Success? ==> r.value == Join(PresentNames(view), Separator)
    ensures r.Success? ==> forall i :: 0 <= i < |view| ==>
      Occurs(view[i].name.value, r.value)
  {
    if SomeNameMissing(view) then Failure(JoinTypeError(FirstMissingName(view)))
    else
      var names := PresentNames(view);
      JoinContainsParts(names, Separator);
      assert forall i :: 0 <= i < |view| ==> view[i].name.value == names[i];
      Success(Join(names, Separator))
  }

  /** The listing as evidently intended: the names of the matching volcanoes
      that have one, joined by ", ". It never fails, shows every present
      name, and is what the written code shows whenever that code does not
      fail. With the contracts of Join and PresentNames it is exactly the
      present names in row order with ", " between neighbours. */
  function JoinNames(view: seq<Record>): (r: string)
    ensures r == Join(PresentNames(view), Separator)
    ensures forall i :: 0 <= i < |view| && view[i].name.Some? ==> Occurs(view[i].name.value, r)
    ensures !SomeNameMissing(view) ==> JoinNamesAsWritten(view) == Success(r)
  {
    var names := PresentNames(view);
    JoinContainsParts(names, Separator);
    assert forall i :: 0 <= i < |view| && view[i].name.Some? ==> view[i].name.value in names;
    Join(names, Separator)
  }

  /** A row with coordinates, a country and an elevation but no name passes
      cleaning and the filter, and then breaks the written name listing. */
  lemma {:induction false} MissingNameBreaksListing()
    ensures var row := Record(None, Some("X"), Some("Stratovolcano"), Some(1.5), Some(2.5), Some(1000));
      && DropMissing([row]) == [row]
      && Select([row], "X", 0, 5000) == [row]
      && JoinNamesAsWritten(Select([row], "X", 0, 5000)).Failure?
      && JoinNames(Select([row], "X", 0, 5000)) == []
  {
    var row := Record(None, Some("X"), Some("Stratovolcano"), Some(1.5), Some(2.5), Some(1000));
    assert DropMissing([row]) == [row] by {
      assert [row][1..] == [];
    }
    var view := Select([row], "X", 0, 5000);
    assert view == [row] by {
      assert [row][1..] == [];
    }
    assert SomeNameMissing(view) by {
      assert view[0].name.None?;
    }
    assert PresentNames(view) == [] by {
      assert view[1..] == [];
    }
  }

  /** A clean row with the given name, country and elevation. */
  function Volcano(name: string, country: string, elevation: int): (r: Record)
    ensures Complete(r)
  {
    Record(Some(name), Some(country), Some("Stratovolcano"), Some(0.0), Some(0.0), Some(elevation))
  }

  /** Three volcanoes A (X, 1000 m), B (X, 3000 m) and C (Y, 2000 m):
      choosing X with the default range shows A and B, in table order. */
  lemma {:induction false} ThreeVolcanoesView()
    ensures var a, b, c := Volcano("A", "X", 1000), Volcano("B", "X", 3000), Volcano("C", "Y", 2000);
      Select([a, b, c], "X", DefaultRange.0, DefaultRange.1) == [a, b]
  {
    var a, b, c := Volcano("A", "X", 1000), Volcano("B", "X", 3000), Volcano("C", "Y", 2000);
    var m := Mask("X", DefaultRange.0, DefaultRange.1);
    assert m(a) && m(b) && !m(c);
    assert [a, b, c][1..] == [b, c] && [b, c][1..] == [c] && [c][1..] == [];
    assert Filter([c], m) == [];
    assert Filter([b, c], m) == [b];
  }

  /** For that view of A and B the callouts read 1000 and 3000, and the
      single tallest is B. */
  lemma {:induction false} ThreeVolcanoesSummary()
    ensures var a, b := Volcano("A", "X", 1000), Volcano("B", "X", 3000);
      MinMaxElevation([a, b]) == Some((1000, 3000)) && TopVolcanoes([a, b], 1) == [b]
  {
    var a, b := Volcano("A", "X", 1000), Volcano("B", "X", 3000);
    assert [a, b][1..] == [b] && [b][1..] == [];
    var top := TopVolcanoes([a, b], 1);
    assert |top| == 1;
    assert top[0] in multiset([a, b]);
    assert top == [b];
  }

  /** The whole summary for A, B and C with X chosen over the default range:
      the view is A then B, the callouts read
      1000 and 3000, the listing reads "A, B", the bars are B then A, and
      with two rows no message is shown. */
  lemma {:induction false} ThreeVolcanoesDashboard()
    ensures var a, b, c := Volcano("A", "X", 1000), Volcano("B", "X", 3000), Volcano("C", "Y", 2000);
      var rep := Summarise([a, b, c], (1000, 3000), "X", DefaultRange.0, DefaultRange.1);
      && rep.view == [a, b]
      && rep.extremes == Some((1000, 3000))
      && rep.names == "A, B"
      && rep.top == [b, a]
      && rep.feedback == NoMessage
  {
    var a, b, c := Volcano("A", "X", 1000), Volcano("B", "X", 3000), Volcano("C", "Y", 2000);
    var rep := Summarise([a, b, c], (1000, 3000), "X", DefaultRange.0, DefaultRange.1);
    ThreeVolcanoesView();
    assert rep.view == [a, b];
    ThreeVolcanoesSummary();
    assert rep.extremes == Some((1000, 3000));
    NamesAB(a, b);
    assert rep.names == "A, B";
    TallestFirst(a, b);
    assert rep.top == [b, a];
  }

  /** The listing of two named rows is their names with one separator. */
  lemma {:induction false} NamesAB(a: Record, b: Record)
    requires a.name == Some("A") && b.name == Some("B")
    ensures JoinNames([a, b]) == "A, B"
  {
    NamedPair(a, b);
    JoinTwo("A", "B", Separator);
    assert JoinNames([a, b]) == Join(["A", "B"], Separator);
    assert "A" + Separator + "B" == "A, B";
  }

  /** Two named rows list both names, in row order. */
  lemma {:induction false} NamedPair(a: Record, b: Record)
    requires a.name.Some? && b.name.Some?
    ensures PresentNames([a, b]) == [a.name.value, b.name.value]
  {
    FilterAll([a, b], HasName);
    var names := PresentNames([a, b]);
    assert |names| == 2 && Some(names[0]) == a.name && Some(names[1]) == b.name;
  }

  /** Two parts joined are the first, the separator and the second. */
  lemma JoinTwo(x: string, y: string, sep: string)
    ensures Join([x, y], sep) == x + sep + y
  {
    assert [x, y][1..] == [y];
  }

  /** The bars for A and B put the taller B first. */
  lemma {:induction false} TallestFirst(a: Record, b: Record)
    requires a == Volcano("A", "X", 1000) && b == Volcano("B", "X", 3000)
    ensures TopVolcanoes([a, b], DefaultTop) == [b, a]
  {
    var top := TopVolcanoes([a, b], DefaultTop);
    assert |top| == 2;
    assert multiset(top) == multiset([a, b]) by {
      assert multiset(top) <= multiset([a, b]);
      assert |multiset(top)| == 2;
    }
    assert top[0] in multiset([a, b]) && top[1] in multiset([a, b]);
    assert RankAtLeast(top[0].elevation, top[1].elevation);
  }

  /** Lines 54-57: the slider's bounds are the clean table's lowest and
      highest elevation cast with `int`. With no elevation at all they are
      NaN and the cast raises. */
  function SliderBounds(clean: seq<Record>): (r: Result<(int, int), Error>)
    ensures r.Failure? <==> forall i :: 0 <= i < |clean| ==> clean[i].elevation.None?
    ensures r.Failure? ==> r.error == NoElevation
    ensures r.Success? ==> (r.value.0 <= r.value.1 &&
      forall i :: 0 <= i < |clean| && clean[i].elevation.Some? ==>
        r.value.0 <= clean[i].elevation.value <= r.value.1)
    ensures r.Success? ==> exists i :: 0 <= i < |clean| && clean[i].elevation == Some(r.value.0)
    ensures r.Success? ==> exists i :: 0 <= i < |clean| && clean[i].elevation == Some(r.value.1)
  {
    match MinMaxElevation(clean)
    case None => Failure(NoElevation)
    case Some(bounds) => Success(bounds)
  }

  /** What one pass of the dashboard shows, apart from the drawing. */
  datatype Report = Report(
    countries: seq<string>,          // the country selector's options (line 53)
    bounds: (int, int),              // the slider's bounds (lines 54-57)
    view: seq<Record>,               // the filtered table (lines 62-69)
    extremes: Option<(int, int)>,    // the two callouts, None for NaN (lines 72-80)
    names: string,                   // the name listing (lines 83-84)
    pie: Option<Pie.Chart>,          // the pie, drawn only for a non-empty view (lines 87-98)
    top: seq<Record>,                // the bars (lines 114-127)
    feedback: Feedback)              // the closing message (lines 165-171)

  /** Lines 53-171 once the clean table and the slider's bounds are known:
      the selector lists the clean countries in ascending order, the view is
      the mask's selection, and the callouts, listing, pie, bars and message
      are computed from the view. SummaryShows states what follows. */
  function Summarise(clean: seq<Record>, bounds: (int, int), country: string, lo: int, hi: int): (rep: Report)
    requires forall i :: 0 <= i < |clean| ==> Complete(clean[i])
    requires bounds.0 <= bounds.1
    ensures StrictlyAscending(rep.countries)
    ensures forall c :: c in rep.countries <==> exists i :: 0 <= i < |clean| && clean[i].country == Some(c)
    ensures rep.bounds == bounds
    ensures rep.view == Select(clean, country, lo, hi)
    ensures rep.extremes == MinMaxElevation(rep.view)
    ensures rep.names == JoinNames(rep.view)
    ensures rep.pie == if rep.view == [] then None else Some(Pie.Buckets(rep.view))
    ensures rep.top == TopVolcanoes(rep.view, DefaultTop)
    ensures rep.feedback == FeedbackFor(|rep.view|)
  {
    assert forall i :: 0 <= i < |clean| ==> clean[i].country.Some? by {
      forall i | 0 <= i < |clean| ensures clean[i].country.Some? {
        assert Complete(clean[i]);
      }
    }
    var view := Select(clean, country, lo, hi);
    Report(
      CountryOptions(clean),
      bounds,
      view,
      MinMaxElevation(view),
      JoinNames(view),
      if view == [] then None else Some(Pie.Buckets(view)),
      TopVolcanoes(view, DefaultTop),
      FeedbackFor(|view|))
  }

  /** What the dashboard shows for a clean table: every shown row is clean
      and matches the choice, the callouts are NaN exactly for an empty view
      and otherwise lie in the chosen range, the pie is drawn exactly for a
      non-empty view, and the bars hold at most DefaultTop rows of the view,
      tallest first, none outranked by a row left out. */
  lemma {:induction false} SummaryShows(clean: seq<Record>, bounds: (int, int), country: string, lo: int, hi: int)
    requires forall i :: 0 <= i < |clean| ==> Complete(clean[i])
    requires bounds.0 <= bounds.1
    ensures var rep := Summarise(clean, bounds, country, lo, hi);
      && (forall i :: 0 <= i < |rep.view| ==>
            Complete(rep.view[i]) && Matches(rep.view[i], country, lo, hi))
      && (rep.extremes.None? <==> rep.view == [])
      && (rep.extremes.Some? ==> lo <= rep.extremes.value.0 <= rep.extremes.value.1 <= hi)
      && (rep.pie.Some? <==> rep.view != [])
      && |rep.top| == HeadLength(|rep.view|, DefaultTop)
      && multiset(rep.top) <= multiset(rep.view)
      && Descending(rep.top, ElevationOf)
  {
    ViewExtremesWithinRange(clean, country, lo, hi);
    SelectKeepsComplete(clean, country, lo, hi);
  }

  /** Lines 53-171 for a clean table: with no row left the slider's `int`
      of NaN raises, otherwise the summary between the slider's bounds. */
  function ShowClean(clean: seq<Record>, country: string, lo: int, hi: int): (r: Result<Report, Error>)
    requires forall i :: 0 <= i < |clean| ==> Complete(clean[i])
    ensures r.Failure? <==> clean == []
    ensures r.Failure? ==> r.error == NoElevation
    ensures r.Success? ==> (SliderBounds(clean).Success? &&
      r.value == Summarise(clean, SliderBounds(clean).value, country, lo, hi))
  {
    var bounds := SliderBounds(clean);
    assert bounds.Failure? <==> clean == [] by {
      if clean != [] {
        assert Complete(clean[0]);
      }
    }
    match bounds
    case Failure(e) => Failure(e)
    case Success(b) => Success(Summarise(clean, b, country, lo, hi))
  }

  /** One pass, for the upload (None when it cannot be read as CSV, lines
      19-23) and the user's choice of country and elevation range. It fails
      exactly when the upload is unreadable, cleaning fails (with cleaning's
      error), or nothing is left after cleaning; otherwise it shows the
      summary of the clean table between the slider's bounds. */
  function Run(parsed: Option<Frame>, country: string, lo: int, hi: int): (r: Result<Report, Error>)
    requires parsed.Some? ==> Rectangular(parsed.value)
    ensures parsed.None? ==> r == Failure(ParseError)
    ensures parsed.Some? ==> (r.Failure? <==>
      Clean(parsed.value).Failure? || Clean(parsed.value).value == [])
    ensures parsed.Some? && Clean(parsed.value).Failure? ==> r == Failure(Clean(parsed.value).error)
    ensures parsed.Some? && Clean(parsed.value).Success? ==>
      r == ShowClean(Clean(parsed.value).value, country, lo, hi)
  {
    match parsed
    case None => Failure(ParseError)
    case Some(f) =>
      match Clean(f)
      case Failure(e) => Failure(e)
      case Success(clean) => ShowClean(clean, country, lo, hi)
  }

  /** Whatever a successful pass shows is clean and matches the choice. */
  lemma {:induction false} RunShowsMatchingRows(parsed: Option<Frame>, country: string, lo: int, hi: int)
    requires parsed.Some? ==> Rectangular(parsed.value)
    ensures var r := Run(parsed, country, lo, hi);
      r.Success? ==> forall i :: 0 <= i < |r.value.view| ==>
        Complete(r.value.view[i]) && Matches(r.value.view[i], country, lo, hi)
  {
    var r := Run(parsed, country, lo, hi);
    if r.Success? {
      var clean := Clean(parsed.value).value;
      SummaryShows(clean, SliderBounds(clean).value, country, lo, hi);
    }
  }
}
