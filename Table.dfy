/** The cleaning stage of volcano_app.py (lines 25-49): a parsed table gets
    its headers normalised, is cut down to the six columns the dashboard uses,
    and loses every row that lacks a coordinate, the country or the elevation. */
module Table {
  import opened Wrappers
  import opened Sequences
  import Headers

  const VolcanoName: string := "Volcano Name"
  const Country: string := "Country"
  const PrimaryType: string := "Primary Volcano Type"
  const Latitude: string := "Latitude"
  const Longitude: string := "Longitude"

  /** The columns the dashboard keeps, in this order (lines 33-40). */
  const KeepCols: seq<string> :=
    [VolcanoName, Country, PrimaryType, Latitude, Longitude, Headers.Elevation]

  /** One cell of the parsed table; `NA` is a missing value (NaN). */
  datatype Cell = NA | Text(text: string) | Whole(whole: int) | Decimal(decimal: real)

  /** A parsed table: header labels and rows of cells, position by position. */
  datatype Frame = Frame(columns: seq<string>, rows: seq<seq<Cell>>)

  predicate Rectangular(f: Frame)
  {
    forall i :: 0 <= i < |f.rows| ==> |f.rows[i]| == |f.columns|
  }

  /** One volcano: a row of the six kept columns, each value possibly missing. */
  datatype Record = Record(
    name: Option<string>,
    country: Option<string>,
    kind: Option<string>,
    latitude: Option<real>,
    longitude: Option<real>,
    elevation: Option<int>)

  datatype Error =
    | ParseError                              // the upload could not be read as CSV
    | KeyError(missing: seq<string>)          // required columns absent after normalising
    | BadCell(row: nat, column: string)       // a present value of the wrong kind
    | NoElevation                             // int(NaN) of an empty column's minimum
    | JoinTypeError(position: nat)            // str.join met a missing (NaN) name here

  /** The first position of `x` in `s`: the column pandas selects for a label. */
  function IndexOf(s: seq<string>, x: string): (k: nat)
    requires x in s
    ensures k < |s| && s[k] == x && x !in s[..k]
  {
    if s[0] == x then 0
    else
      assert s == [s[0]] + s[1..];
      var k := 1 + IndexOf(s[1..], x);
      assert s[..k] == [s[0]] + s[1..][..k - 1];
      k
  }

  /** Every required column is present. */
  predicate HasKeepCols(columns: seq<string>)
  {
    forall j :: 0 <= j < |KeepCols| ==> KeepCols[j] in columns
  }

  /** The labels that `columns` lacks. */
  function Absent(columns: seq<string>): string -> bool
  {
    c => c !in columns
  }

  /** The required columns that `columns` lacks, in the order of KeepCols. */
  function MissingColumns(columns: seq<string>): (r: seq<string>)
    ensures forall c :: c in r <==> c in KeepCols && c !in columns
    ensures IsSubseq(r, KeepCols)
    ensures r == [] <==> HasKeepCols(columns)
  {
    FilterMembers(KeepCols, Absent(columns));
    FilterEmpty(KeepCols, Absent(columns));
    Filter(KeepCols, Absent(columns))
  }

  /** The six kept cells of one row, each taken from the first column with its label. */
  function ProjectRow(columns: seq<string>, row: seq<Cell>): (r: seq<Cell>)
    requires |row| == |columns|
    requires HasKeepCols(columns)
    ensures |r| == |KeepCols|
    ensures forall j :: 0 <= j < |KeepCols| ==> r[j] == row[IndexOf(columns, KeepCols[j])]
  {
    seq(|KeepCols|, j requires 0 <= j < |KeepCols| => row[IndexOf(columns, KeepCols[j])])
  }

  /** Every row cut down to the six kept columns. */
  function ProjectRows(columns: seq<string>, rows: seq<seq<Cell>>): (r: seq<seq<Cell>>)
    requires forall i :: 0 <= i < |rows| ==> |rows[i]| == |columns|
    requires HasKeepCols(columns)
    ensures |r| == |rows|
    ensures forall i :: 0 <= i < |r| ==> |r[i]| == |KeepCols|
    ensures forall i, j :: 0 <= i < |r| && 0 <= j < |KeepCols| ==>
      r[i][j] == rows[i][IndexOf(columns, KeepCols[j])]
  {
    seq(|rows|, i requires 0 <= i < |rows| => ProjectRow(columns, rows[i]))
  }

  /** Line 41, `df[keep_cols]`: raises KeyError naming the absent columns if any
      required column is missing; otherwise exactly the six columns, in the
      listed order, for the same rows. */
  function Project(f: Frame): (r: Result<Frame, Error>)
    requires Rectangular(f)
    ensures r.Failure? <==> !HasKeepCols(f.columns)
    ensures r.Failure? ==> r.error == KeyError(MissingColumns(f.columns))
    ensures r.Success? ==> (r.value.columns == KeepCols && Rectangular(r.value) &&
      |r.value.rows| == |f.rows|)
    ensures r.Success? ==> forall i, j :: 0 <= i < |f.rows| && 0 <= j < |KeepCols| ==>
      r.value.rows[i][j] == f.rows[i][IndexOf(f.columns, KeepCols[j])]
  {
    var missing := MissingColumns(f.columns);
    if missing != [] then
      Failure(KeyError(missing))
    else
      Success(Frame(KeepCols, ProjectRows(f.columns, f.rows)))
  }

  predicate IsTextCell(c: Cell) { c.NA? || c.Text? }
  predicate IsNumberCell(c: Cell) { c.NA? || c.Whole? || c.Decimal? }
  predicate IsWholeCell(c: Cell) { c.NA? || c.Whole? }

  function TextOf(c: Cell): (r: Option<string>)
    requires IsTextCell(c)
    ensures r.None? <==> c.NA?
  {
    if c.Text? then Some(c.text) else None
  }

  function NumberOf(c: Cell): (r: Option<real>)
    requires IsNumberCell(c)
    ensures r.None? <==> c.NA?
  {
    match c
    case Whole(n) => Some(n as real)
    case Decimal(x) => Some(x)
    case NA => None
  }

  function WholeOf(c: Cell): (r: Option<int>)
    requires IsWholeCell(c)
    ensures r.None? <==> c.NA?
  {
    if c.Whole? then Some(c.whole) else None
  }

  /** A projected row whose values have the kinds of their columns. */
  predicate WellTyped(row: seq<Cell>)
    requires |row| == |KeepCols|
  {
    IsTextCell(row[0]) && IsTextCell(row[1]) && IsTextCell(row[2]) &&
    IsNumberCell(row[3]) && IsNumberCell(row[4]) && IsWholeCell(row[5])
  }

  /** Reads one projected row as a Record; a field is missing exactly where
      the cell is NA. */
  function ToRecord(row: seq<Cell>): (r: Record)
    requires |row| == |KeepCols| && WellTyped(row)
    ensures r.name.None? <==> row[0].NA?
    ensures r.country.None? <==> row[1].NA?
    ensures r.kind.None? <==> row[2].NA?
    ensures r.latitude.None? <==> row[3].NA?
    ensures r.longitude.None? <==> row[4].NA?
    ensures r.elevation.None? <==> row[5].NA?
  {
    Record(TextOf(row[0]), TextOf(row[1]), TextOf(row[2]),
           NumberOf(row[3]), NumberOf(row[4]), WholeOf(row[5]))
  }

  /** Reads projected rows as Records; fails at the first row (counted from
      `first`) holding a value of the wrong kind. */
  function ToRecords(rows: seq<seq<Cell>>, first: nat): (r: Result<seq<Record>, Error>)
    requires forall i :: 0 <= i < |rows| ==> |rows[i]| == |KeepCols|
    ensures r.Success? <==> forall i :: 0 <= i < |rows| ==> WellTyped(rows[i])
    ensures r.Success? ==> (|r.value| == |rows| &&
      forall i :: 0 <= i < |rows| ==> r.value[i] == ToRecord(rows[i]))
    ensures r.Failure? ==> (r.error.BadCell? && first <= r.error.row < first + |rows| &&
      !WellTyped(rows[r.error.row - first]) &&
      forall i :: 0 <= i < r.error.row - first ==> WellTyped(rows[i]))
  {
    if rows == [] then Success([])
    else if !WellTyped(rows[0]) then
      var row := rows[0];
      var column :=
        if !IsTextCell(row[0]) then VolcanoName
        else if !IsTextCell(row[1]) then Country
        else if !IsTextCell(row[2]) then PrimaryType
        else if !IsNumberCell(row[3]) then Latitude
        else if !IsNumberCell(row[4]) then Longitude
        else Headers.Elevation;
      Failure(BadCell(first, column))
    else
      match ToRecords(rows[1..], first + 1)
      case Failure(e) =>
        assert rows[1..][e.row - first - 1] == rows[e.row - first];
        Failure(e)
      case Success(rest) => Success([ToRecord(rows[0])] + rest)
  }

  /** A row that survives `dropna` on the four listed columns (lines 44-49):
      name and type may be missing. */
  predicate Complete(r: Record)
  {
    r.latitude.Some? && r.longitude.Some? && r.country.Some? && r.elevation.Some?
  }

  /** The `dropna` subset of lines 44-49: a missing name or type never drops
      a row, a missing coordinate, country or elevation always does. */
  lemma DropnaSubset(r: Record)
    ensures Complete(r) <==> Complete(r.(name := None, kind := None))
    ensures !Complete(r.(latitude := None)) && !Complete(r.(longitude := None))
    ensures !Complete(r.(country := None)) && !Complete(r.(elevation := None))
  {
  }

  /** Lines 44-49: every row missing latitude, longitude, country or elevation
      is dropped and every other row is kept, in order and with its multiplicity. */
  function DropMissing(rows: seq<Record>): (r: seq<Record>)
    ensures IsSubseq(r, rows)
    ensures forall i :: 0 <= i < |r| ==> Complete(r[i])
    ensures forall x :: x in r <==> x in rows && Complete(x)
    ensures forall x :: multiset(r)[x] == if Complete(x) then multiset(rows)[x] else 0
  {
    var r := Filter(rows, Complete);
    assert forall x :: x in r <==> multiset(r)[x] > 0;
    r
  }

  /** Lines 26-27 applied to a parsed table: the same rows under the
      normalised headers. */
  function Normalised(f: Frame): (g: Frame)
    requires Rectangular(f)
    ensures Rectangular(g) && g.rows == f.rows
    ensures |g.columns| == |f.columns|
  {
    Frame(Headers.NormaliseHeaders(f.columns), f.rows)
  }

  /** The whole cleaning stage, lines 25-49: normalise the headers, keep the
      six columns (KeyError when one is absent), read the rows (BadCell at
      the first value of the wrong kind), then drop every row missing a
      coordinate, the country or the elevation. On success the rows are,
      in order and with their multiplicity, exactly the complete records
      read from the kept columns, one per parsed row at most. */
  function Clean(f: Frame): (r: Result<seq<Record>, Error>)
    requires Rectangular(f)
    ensures (r.Failure? && r.error.KeyError?) <==>
      exists c :: c in KeepCols && c !in Headers.NormaliseHeaders(f.columns)
    ensures r.Failure? ==> r.error.KeyError? || r.error.BadCell?
    ensures var p := Project(Normalised(f));
      r.Success? <==> p.Success? && ToRecords(p.value.rows, 0).Success?
    ensures var p := Project(Normalised(f));
      r.Success? ==> r.value == DropMissing(ToRecords(p.value.rows, 0).value)
    ensures r.Success? ==> |r.value| <= |f.rows|
    ensures r.Success? ==> forall i :: 0 <= i < |r.value| ==> Complete(r.value[i])
  {
    match Project(Normalised(f))
    case Failure(e) => Failure(e)
    case Success(p) =>
      match ToRecords(p.rows, 0)
      case Failure(e) => Failure(e)
      case Success(records) =>
        var r := DropMissing(records);
        SubseqLength(r, records);
        Success(r)
  }

  /** The elevation column is found exactly when some raw header, once its
      surrounding whitespace is stripped, reads either "Elevation (Meters)" or
      the legacy "Elevation (m)". */
  lemma {:induction false} ElevationHeaderFound(columns: seq<string>)
    ensures Headers.Elevation in Headers.NormaliseHeaders(columns) <==>
      exists i :: 0 <= i < |columns| &&
        (Headers.Strip(columns[i]) == Headers.Elevation ||
         Headers.Strip(columns[i]) == Headers.LegacyElevation)
  {
    var norm := Headers.NormaliseHeaders(columns);
    if Headers.Elevation in norm {
      var i :| 0 <= i < |norm| && norm[i] == Headers.Elevation;
      assert Headers.NormaliseLabel(columns[i]) == Headers.Elevation;
    }
    if exists i :: 0 <= i < |columns| &&
        (Headers.Strip(columns[i]) == Headers.Elevation ||
         Headers.Strip(columns[i]) == Headers.LegacyElevation) {
      var i :| 0 <= i < |columns| &&
        (Headers.Strip(columns[i]) == Headers.Elevation ||
         Headers.Strip(columns[i]) == Headers.LegacyElevation);
      assert norm[i] == Headers.Elevation;
    }
  }
}
