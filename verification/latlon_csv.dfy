/**
  Normalisation of an uploaded coordinate table: the column-selection policy,
  the numeric coercion and the drop of incomplete rows of `read_latlon_csv`.

  The CSV tokeniser and `to_numeric` are not modelled; their combined result is
  a `RawTable` whose cells are already coerced: `Some(x)` for a value that
  coerces to the number `x`, `None` for one that becomes NaN.
*/
module LatLonCsv {
  import opened Wrappers

  /** One cell after numeric coercion. */
  type Cell = Option<real>

  /**
    One parse of the upload: the number of columns the parser found, the
    column labels (empty when parsed without a header row) and the data rows
    (the header row, when there is one, is not among them). The labels are the
    parser's, after it has made repeated header texts unique (a second
    `latitude` becomes `latitude.1`), so no label occurs twice.
  */
  datatype RawTable = RawTable(columns: nat, names: seq<string>, rows: seq<seq<Cell>>)

  /** A row of the normalised table: latitude, then longitude. */
  datatype Point = Point(latitude: real, longitude: real)

  datatype CsvError =
    | TooFewColumns       // "CSV must have at least two columns for latitude and longitude."
    | ClashingColumnName  // a label after the second column is already latitude or longitude

  const MinColumns: nat := 2

  /** The cell in column `j`; a short row reads as NaN past its end, as the parser pads it. */
  function CellAt(row: seq<Cell>, j: nat): Cell
  {
    if j < |row| then row[j] else None
  }

  /** Both coordinate cells (columns 0 and 1) are numbers. */
  predicate Complete(row: seq<Cell>)
  {
    CellAt(row, 0).Some? && CellAt(row, 1).Some?
  }

  /** The two coordinate columns of a complete row; every other column is discarded. */
  function PointOf(row: seq<Cell>): (p: Point)
    requires Complete(row)
    ensures Some(p.latitude) == CellAt(row, 0) && Some(p.longitude) == CellAt(row, 1)
  {
    Point(CellAt(row, 0).value, CellAt(row, 1).value)
  }

  /**
    `dropna` over the two coordinate columns followed by the projection onto
    them: the complete rows, in their original order.
  */
  function DropInvalid(rows: seq<seq<Cell>>): (points: seq<Point>)
    ensures |points| <= |rows|
    ensures |points| == |rows| <==> forall i | 0 <= i < |rows| :: Complete(rows[i])
  {
    if |rows| == 0 then []
    else if Complete(rows[0]) then [PointOf(rows[0])] + DropInvalid(rows[1..])
    else DropInvalid(rows[1..])
  }

  /** Point `k` is the projection of row `idx[k]`, which is complete. */
  ghost predicate DrawnFrom(rows: seq<seq<Cell>>, points: seq<Point>, idx: seq<nat>)
  {
    && |idx| == |points|
    && forall k | 0 <= k < |idx| ::
         idx[k] < |rows| && Complete(rows[idx[k]]) && points[k] == PointOf(rows[idx[k]])
  }

  ghost predicate StrictlyIncreasing(idx: seq<nat>)
  {
    forall k, k' | 0 <= k < k' < |idx| :: idx[k] < idx[k']
  }

  /** No complete row is left out. */
  ghost predicate CoversComplete(rows: seq<seq<Cell>>, idx: seq<nat>)
  {
    forall i | 0 <= i < |rows| && Complete(rows[i]) :: i in idx
  }

  /**
    `points` is the order-preserving selection of the complete rows of `rows`:
    `idx` lists, strictly increasing, the row each point was taken from, every
    listed row is complete, and no complete row is left out.
  */
  ghost predicate SelectsCompleteRows(rows: seq<seq<Cell>>, points: seq<Point>, idx: seq<nat>)
  {
    DrawnFrom(rows, points, idx) && StrictlyIncreasing(idx) && CoversComplete(rows, idx)
  }

  /** Every index moved one row down. */
  ghost function Shift(idx: seq<nat>): (r: seq<nat>)
    ensures |r| == |idx|
    ensures forall k | 0 <= k < |idx| :: r[k] == idx[k] + 1
  {
    if |idx| == 0 then [] else [idx[0] + 1] + Shift(idx[1..])
  }

  /** The indices of the complete rows, in increasing order. */
  ghost function CompleteIndices(rows: seq<seq<Cell>>): seq<nat>
  {
    if |rows| == 0 then []
    else if Complete(rows[0]) then [0] + Shift(CompleteIndices(rows[1..]))
    else Shift(CompleteIndices(rows[1..]))
  }

  lemma ShiftDrawn(rows: seq<seq<Cell>>, points: seq<Point>, idx: seq<nat>)
    requires |rows| > 0
    requires DrawnFrom(rows[1..], points, idx)
    ensures DrawnFrom(rows, points, Shift(idx))
    ensures Complete(rows[0]) ==> DrawnFrom(rows, [PointOf(rows[0])] + points, [0] + Shift(idx))
  {
    var s := Shift(idx);
    forall k | 0 <= k < |s|
      ensures s[k] < |rows| && rows[s[k]] == rows[1..][idx[k]]
    {
    }
    if Complete(rows[0]) {
      var s' := [0] + s;
      var ps := [PointOf(rows[0])] + points;
      forall k | 0 < k < |s'|
        ensures s'[k] < |rows| && Complete(rows[s'[k]]) && ps[k] == PointOf(rows[s'[k]])
      {
        assert s'[k] == s[k - 1] && ps[k] == points[k - 1];
      }
    }
  }

  lemma ShiftIncreasing(idx: seq<nat>)
    requires StrictlyIncreasing(idx)
    ensures StrictlyIncreasing(Shift(idx))
    ensures StrictlyIncreasing([0] + Shift(idx))
  {
    var s := [0] + Shift(idx);
    forall k, k' | 0 <= k < k' < |s|
      ensures s[k] < s[k']
    {
      if k > 0 {
        assert s[k] == idx[k - 1] + 1 && s[k'] == idx[k' - 1] + 1;
      }
    }
  }

  lemma ShiftCovers(rows: seq<seq<Cell>>, idx: seq<nat>)
    requires |rows| > 0
    requires CoversComplete(rows[1..], idx)
    ensures !Complete(rows[0]) ==> CoversComplete(rows, Shift(idx))
    ensures CoversComplete(rows, [0] + Shift(idx))
  {
    var s := Shift(idx);
    forall i | 0 < i < |rows| && Complete(rows[i])
      ensures i in s
    {
      assert rows[1..][i - 1] == rows[i];
      var k :| 0 <= k < |idx| && idx[k] == i - 1;
      assert s[k] == i;
    }
    assert forall i | 0 < i < |rows| && Complete(rows[i]) :: i in [0] + s;
  }

  /** The filter keeps exactly the complete rows, in order, and nothing else. */
  lemma {:induction false} DropInvalidSelects(rows: seq<seq<Cell>>)
    ensures SelectsCompleteRows(rows, DropInvalid(rows), CompleteIndices(rows))
  {
    if |rows| > 0 {
      var idx := CompleteIndices(rows[1..]);
      DropInvalidSelects(rows[1..]);
      ShiftDrawn(rows, DropInvalid(rows[1..]), idx);
      ShiftIncreasing(idx);
      ShiftCovers(rows, idx);
    }
  }

  /** A column label after the second equals one of the names the first two are renamed to. */
  predicate ClashingNames(names: seq<string>)
  {
    exists j | 2 <= j < |names| :: names[j] == "latitude" || names[j] == "longitude"
  }

  /**
    `read_latlon_csv`: parse without a header first and use columns 0 and 1 if
    there are at least two; otherwise parse with a header row and use its first
    two columns by position; with fewer than two columns in both, fail.
    In the header parse the first two columns are renamed to `latitude` and
    `longitude`; a later column already called so makes the coercion fail.
  */
  function ReadLatLon(headerless: RawTable, headed: RawTable): (r: Result<seq<Point>, CsvError>)
    ensures r == Failure(TooFewColumns) <==> headerless.columns < MinColumns && headed.columns < MinColumns
    ensures r == Failure(ClashingColumnName) <==>
              headerless.columns < MinColumns && headed.columns >= MinColumns && ClashingNames(headed.names)
    ensures headerless.columns >= MinColumns ==>
              r.Success? && SelectsCompleteRows(headerless.rows, r.value, CompleteIndices(headerless.rows))
    ensures headerless.columns < MinColumns && r.Success? ==>
              SelectsCompleteRows(headed.rows, r.value, CompleteIndices(headed.rows))
  {
    DropInvalidSelects(headerless.rows);
    DropInvalidSelects(headed.rows);
    if headerless.columns >= MinColumns then Success(DropInvalid(headerless.rows))
    else if headed.columns < MinColumns then Failure(TooFewColumns)
    else if ClashingNames(headed.names) then Failure(ClashingColumnName)
    else Success(DropInvalid(headed.rows))
  }
}
