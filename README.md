# Volcano Explorer: the table pipeline, in Dafny

Volcano Explorer is a Streamlit dashboard, `volcano_app.py`. A user uploads a
CSV file of volcanoes, chooses a country and an elevation range, and gets:

- a filtered table;
- the lowest and highest elevation shown;
- the names of the matching volcanoes;
- a pie chart of volcano types;
- a bar chart of the five tallest volcanoes;
- a closing message.

Under the widgets is a small table pipeline. This project models that
pipeline as pure functions over sequences of rows and proves what each step
promises.

The modules, in pipeline order:

- `Headers`: header normalisation (lines 26-27). Every label is stripped of
  the whitespace Python's `str.isspace` recognises. Then the legacy label
  "Elevation (m)" becomes "Elevation (Meters)".
- `Table`: the parsed table. A `Frame` holds header labels and rows of
  `Cell`s; a missing value is `NA`. The module covers:
  - selecting the six kept columns (`df[keep_cols]`, lines 33-41), which
    fails with `KeyError` naming the absent columns;
  - reading each row as a `Record` whose fields are `Option`s;
  - `dropna` on Latitude, Longitude, Country and Elevation (lines 44-49);
  - `Clean`, the whole cleaning stage.
- `Ordering`: the two sort orders the dashboard uses:
  - Python's order on `str`, for the country list;
  - pandas' descending order on a nullable number, missing values last, for
    `sort_values` and `value_counts`.
- `Explore`:
  - the country options (line 53);
  - the filter mask (lines 62-66);
  - `get_min_max_elevation` (lines 72-75);
  - `get_top_volcanoes` with pandas' `head` (lines 114-115).
- `Pie`: `value_counts` of the type column and the bucketing of the pie
  (lines 89-98). Types seen more than five times get their own slice. The
  rest add up to an "Other" slice, which is drawn only when that sum is
  positive.
- `Dashboard`:
  - the name listing (lines 83-84);
  - the slider's bounds (lines 54-57);
  - the closing message (lines 165-171);
  - one whole pass, `Run`, from the parsed upload to everything shown.
- `Sequences`, `Wrappers`: generic support.
  - `Filter` is order-preserving selection with its subsequence and
    multiset characterisation.
  - `SumOf` is a sum with its permutation lemma.
  - `Option` and `Result` are the usual wrapper types.

Behaviour of the code worth knowing:

- **Tie order of the sort.** `sort_values` is called with its default,
  non-stable algorithm, so the model promises no order among volcanoes of
  equal elevation.
- **Extremes of an empty view.** `get_min_max_elevation` on an empty view
  gives NaN (here `None`), and both callouts are still written.
- **Missing columns.** A missing required column raises `KeyError` at
  line 41, and the model reports it as `Failure(KeyError(..))`.
- **Empty clean table.** When no row survives cleaning, `int(NaN)` at
  lines 56-57 raises. The cleaned column list (line 30) and the empty
  country selector (line 53) are already on screen, but the slider, the
  filtered view and every summary are not. The model reports
  `Failure(NoElevation)`.

## Model

| member | source | states |
|---|---|---|
| `Headers.Strip` | volcano_app.py:26 | the result has no whitespace at either end |
| `Headers.StripIsPadded` | volcano_app.py:26 | the result is a slice of the input with nothing but whitespace removed on each side |
| `Headers.StripPadded` | volcano_app.py:26 | stripping whitespace-padded text returns exactly the unpadded text, so `Strip` is determined by what it keeps |
| `Headers.StripIdempotent` | volcano_app.py:26 | stripping twice is stripping once |
| `Headers.NormaliseLabel` | volcano_app.py:26-27 | a label that strips to "Elevation (m)" becomes "Elevation (Meters)"; any other label is only stripped; the result is never the legacy label |
| `Headers.NormaliseHeaders` | volcano_app.py:26-27 | labels keep their number and order, each is its own normalised label, and none has surrounding whitespace or is the legacy label |
| `Headers.NormaliseHeadersIdempotent` | volcano_app.py:26-27 | normalising already-normalised headers changes nothing |
| `Table.ElevationHeaderFound` | volcano_app.py:26-27 | the elevation column exists after normalising iff some raw header strips to either elevation label |
| `Table.MissingColumns` | volcano_app.py:33-41 | exactly the kept columns absent from the headers, in keep order; empty iff all six are present |
| `Table.Project` | volcano_app.py:33-41 | fails with KeyError naming the missing columns iff one is absent; otherwise the six columns in the listed order, the same rows, each cell taken from the column with that label |
| `Table.ToRecords` | volcano_app.py:20 | succeeds iff every row's values have their columns' kinds, then one Record per row with a field missing exactly where the cell is NaN; otherwise names the first offending row |
| `Table.DropMissing` | volcano_app.py:44-49 | an order-preserving subsequence keeping, with its multiplicity, exactly each row that has latitude, longitude, country and elevation; rows missing only name or type survive |
| `Table.DropnaSubset` | volcano_app.py:44-49 | a missing name or type never decides whether a row is dropped; a missing latitude, longitude, country or elevation always drops it |
| `Table.Clean` | volcano_app.py:25-49 | fails with KeyError iff a kept column is absent after normalising, and otherwise with BadCell or not at all; succeeds iff the kept columns are present and every row reads; on success exactly `dropna` of the records read from the kept columns, at most one row per parsed row, each with coordinates, country and elevation |
| `Ordering.SortedUnique` | volcano_app.py:53 | strictly ascending in Python's string order, with exactly the values of the input |
| `Ordering.StrictlyAscendingDistinct` | volcano_app.py:53 | a strictly ascending list repeats no value |
| `Ordering.SortDescending` | volcano_app.py:115 | a permutation of the input in descending order of the key, missing keys last |
| `Explore.CountryOptions` | volcano_app.py:53 | strictly ascending (so without repeats) and holding exactly the countries of the clean rows |
| `Explore.Matches` | volcano_app.py:62-66 | a row with a NaN elevation or another (or no) country never matches, as NaN comparisons are false; a row of the country at either end of a non-empty range matches |
| `Explore.Select` | volcano_app.py:62-66 | an order-preserving subsequence of the clean rows holding, with multiplicity, exactly the rows of the chosen country with elevation in [lo, hi], both ends included |
| `Explore.SelectIsExactly` | volcano_app.py:62-66 | any subsequence that keeps exactly the matching rows with their multiplicity is the filtered view |
| `Explore.SelectKeepsComplete` | volcano_app.py:44-66 | every row of the view is a clean row |
| `Explore.WiderRangeKeepsRows` | volcano_app.py:62-66 | widening the range yields a view of which the narrower view is a subsequence, so it has no fewer rows |
| `Explore.EmptyRangeSelectsNothing` | volcano_app.py:62-66 | a range with hi < lo shows no row |
| `Explore.MinMaxElevation` | volcano_app.py:72-75 | NaN (None) iff no row has an elevation; otherwise lo <= hi, every elevation lies in [lo, hi], and both occur |
| `Explore.ViewExtremesWithinRange` | volcano_app.py:72-78 | the callouts for the view are NaN iff the view is empty, and otherwise lie inside the chosen range |
| `Explore.FullRangeShowsEveryCountry` | volcano_app.py:53-66 | a listed country with the slider spanning the whole clean range shows at least one volcano |
| `Explore.Head` | volcano_app.py:115 | pandas `head(n)`: the prefix of `HeadLength` rows, which is n for 0 <= n <= length, all but the last -n for a negative n, everything when n reaches the length and nothing for 0 or n at most minus the length |
| `Explore.TopVolcanoes` | volcano_app.py:114-115 | `head(n)` many rows drawn from the data, in non-increasing elevation, and no row left out ranks above a row kept |
| `Pie.PresentTypes` | volcano_app.py:89 | position by position the types of the rows that have one, so each type occurs as often as rows have it; exactly the types that occur |
| `Pie.ValueCounts` | volcano_app.py:89 | non-increasing in count, and a permutation of one slice per distinct type sized by its count |
| `Pie.ValueCountsSizes` | volcano_app.py:89 | each slice of value_counts is a type that occurs, sized by its number of rows |
| `Pie.ValueCountsCover` | volcano_app.py:89 | value_counts has a slice for a type iff some row has that type |
| `Pie.ValueCountsDistinct` | volcano_app.py:89 | value_counts names each type once |
| `Pie.Buckets` | volcano_app.py:92-93 | the named slices are a subsequence of value_counts, each with more than five rows |
| `Pie.BucketsOrdered` | volcano_app.py:92-95 | the named slices are in non-increasing order of size |
| `Pie.BucketsCounted` | volcano_app.py:92 | every named slice is a type with more than five rows, sized by its row count |
| `Pie.BucketsNamesDistinct` | volcano_app.py:92-94 | no type has two named slices |
| `Pie.CommonTypeHasSlice` | volcano_app.py:92 | a type with more than five rows has a named slice |
| `Pie.BucketsMajorCover` | volcano_app.py:92 | a type has a named slice iff it has more than five rows |
| `Pie.SelectedSlicesSum` | volcano_app.py:92-93 | the slices a condition selects add up to the rows of the types it selects |
| `Pie.BucketsSizes` | volcano_app.py:92-93 | the named slices add up to the rows of the common types, and "Other" to the rows of all the rare types |
| `Pie.RareRowInOther` | volcano_app.py:93 | a row whose type has at most five rows puts at least one row into the rows summed as "Other" |
| `Pie.OtherHasRareRow` | volcano_app.py:93 | when some row is summed as "Other", some row of the view has a type with at most five rows |
| `Pie.OtherDrawnWhenRare` | volcano_app.py:93-98 | "Other" is appended iff some row has a type with at most five rows |
| `Pie.Labels` | volcano_app.py:94-98 | one label per named slice, in order, then "Other" exactly when its sum is positive |
| `Pie.Sizes` | volcano_app.py:94-98 | one size per named slice, in order, then the "Other" sum exactly when it is positive |
| `Pie.ChartSeries` | volcano_app.py:94-98 | the label and size lists built by appending "Other" when its sum is positive are the chart's labels and sizes, of equal length |
| `Pie.PieCoversTypedRows` | volcano_app.py:89-98 | the pie's sizes add up to the number of rows that have a type, and labels pair with sizes |
| `Dashboard.Join` | volcano_app.py:84 | each part sits at its offset (the earlier parts plus one separator each), a separator follows every part but the last, and the length is the parts plus one separator fewer than there are parts, so the string is the parts in order with the separator between neighbours and nothing else |
| `Dashboard.JoinContainsParts` | volcano_app.py:84 | every joined part occurs in the joined string |
| `Dashboard.PresentNames` | volcano_app.py:83 | position by position the names of the rows that have one, in row order; exactly the names that occur; one per row when no name is missing |
| `Dashboard.JoinNamesAsWritten` | volcano_app.py:83-84 | fails with TypeError iff some row of the view has no name, at the first such row; otherwise the names in row order joined by ", " |
| `Dashboard.MissingNameBreaksListing` | volcano_app.py:44-84 | a row without a name survives dropna and the filter and makes the written join fail |
| `Dashboard.JoinNames` | volcano_app.py:83-84 | the present names in row order joined by ", ", so it never fails, shows every present name and only those, and equals the written listing whenever that does not fail |
| `Dashboard.SliderBounds` | volcano_app.py:54-57 | fails with NoElevation iff no clean row has an elevation; otherwise lo <= hi, every elevation lies between them, and both are elevations of some row, so they are the lowest and the highest |
| `Dashboard.FeedbackFor` | volcano_app.py:165-171 | success with the count iff at least ten rows, warning iff none, no message iff one to nine |
| `Dashboard.WiderRangeFeedback` | volcano_app.py:62-171 | widening the range never takes a success message away, and a warning for the wider range implies one for the narrower |
| `Dashboard.Summarise` | volcano_app.py:53-171 | the selector lists exactly the clean countries in ascending order; the view is the mask's selection of the clean rows; the callouts are the view's extremes, the listing its names, the pie its buckets (only for a non-empty view), the bars its `head(5)` tallest rows, and the message follows its size |
| `Dashboard.SummaryShows` | volcano_app.py:53-171 | every row shown is clean and matches the choice; callouts NaN iff the view is empty and otherwise inside the range; pie iff the view is non-empty; at most five bars drawn from the view, tallest first |
| `Dashboard.ShowClean` | volcano_app.py:53-171 | for a clean table: fails with NoElevation iff no row is left, since `int` of NaN raises at lines 56-57; otherwise the summary between the slider's bounds |
| `Dashboard.Run` | volcano_app.py:17-171 | fails with ParseError for an unreadable upload and with cleaning's own error when cleaning fails; otherwise fails iff no row is left, and shows the summary of the clean table between the slider's bounds |
| `Dashboard.RunShowsMatchingRows` | volcano_app.py:44-66 | every row a successful pass shows is clean and matches the chosen country and range |
| `Dashboard.ThreeVolcanoesView` | volcano_app.py:62-66 | with A (X, 1000 m), B (X, 3000 m), C (Y, 2000 m), choosing X and the default range (0, 5000) shows exactly A then B |
| `Dashboard.ThreeVolcanoesSummary` | volcano_app.py:72-120 | for A and B the callouts are 1000 and 3000, and the single tallest volcano is B |
| `Dashboard.ThreeVolcanoesDashboard` | volcano_app.py:62-171 | for A, B and C with X chosen over the default range, the summary shows the view A then B, callouts 1000 and 3000, the listing "A, B", bars B then A, and no closing message |

## Left out

- Reading the upload (lines 15-23) is left out: file upload, latin1 decoding and `pd.read_csv` are I/O and a foreign library. `Run` takes the parsed table, or `None` when parsing failed.
- `Table.ToRecords`: `read_csv` infers each column's type, and the model does not. Each cell arrives as text, a whole number, a decimal or NaN, and a value of the wrong kind for its column is reported as `BadCell`. In particular a fractional elevation is refused, since elevations are modelled as integers.
- Latitude and longitude are reals; floating-point rounding is not modelled.
- `Table.Project`: when two headers normalise to the same kept label, pandas returns both columns. The model takes the first.
- The Streamlit widgets (lines 7-12, 30, 52-59, 68-69, 79-80, 167-171) are UI. The chosen country and range are parameters of `Run`. The slider's own check that its default `(0, 5000)` lies within its bounds belongs to Streamlit and is not modelled.
- Matplotlib drawing is left out: pie percentages, legend and bar rendering (lines 90, 100-111, 119-127).
- The pydeck map (lines 138-156) is left out: it averages latitudes and longitudes in floating point and renders through a foreign library.
- The tooltip column (lines 132-136) and the per-row display loop (lines 159-162) are left out. Both only format output, and both depend on float-to-string conversion.
- `Explore.TopVolcanoes`: the order among volcanoes of equal elevation is left open, because `sort_values` with its default algorithm is not stable.
- `Pie.ValueCounts`: the order among types of equal count is left open, for the same reason.
- `Dashboard.Run`: the name listing in the report uses the corrected `JoinNames`. The written code fails instead; see Findings.

## Findings

| source | as written | input that shows it | evidently intended | confidence | as-written member | corrected member |
|---|---|---|---|---|---|---|
| volcano_app.py:83-84 | the view's Volcano Name column, NaN included, is passed to `', '.join`; `dropna` (lines 44-49) does not cover Volcano Name, so a nameless row gets there and `join` raises TypeError | one row with an empty Volcano Name, country X, coordinates and elevation 1000, viewed with country X and range (0, 5000) | list the names of the matching volcanoes that have one | not executed | `Dashboard.JoinNamesAsWritten`, `Dashboard.MissingNameBreaksListing` | `Dashboard.JoinNames` |
