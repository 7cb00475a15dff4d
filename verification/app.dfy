/**
  The step of the app between the normalised table and the view: one palette
  colour per row is attached as the `fill_rgba` column and the initial view is
  taken from the resulting frame.
*/
module App {
  import opened Wrappers
  import opened LatLonCsv
  import opened Palette
  import opened Viewport

  /** The alpha the app requests for every point. */
  const PointAlpha: int := 220

  /** A row of the frame handed to the map layer. */
  datatype MapRow = MapRow(coords: FrameRow, fill: Rgba)

  datatype AppError = LengthMismatch  // the colour list and the frame disagree in length

  function Coords(rows: seq<MapRow>): seq<FrameRow>
  {
    seq(|rows|, k requires 0 <= k < |rows| => rows[k].coords)
  }

  /**
    `df["fill_rgba"] = colours` on a frame of coordinates. A list as long as
    the frame becomes the new column. An empty frame given a non-empty list is
    first grown to the list's length, every coordinate NaN. Any other length
    is refused.
  */
  function AssignFill(points: seq<Point>, colours: seq<Rgba>): (r: Result<seq<MapRow>, AppError>)
    ensures |points| == |colours| ==>
              r.Success? && Coords(r.value) == FrameOf(points)
              && forall k | 0 <= k < |points| :: r.value[k].fill == colours[k]
    ensures |points| == 0 < |colours| ==>
              r.Success? && |r.value| == |colours|
              && forall k | 0 <= k < |colours| :: r.value[k] == MapRow(FrameRow(None, None), colours[k])
    ensures 0 < |points| != |colours| <==> r == Failure(LengthMismatch)
  {
    if |points| == |colours| then
      Success(seq(|points|, k requires 0 <= k < |points| =>
        MapRow(FrameRow(Some(points[k].latitude), Some(points[k].longitude)), colours[k])))
    else if |points| == 0 then
      Success(seq(|colours|, k requires 0 <= k < |colours| => MapRow(FrameRow(None, None), colours[k])))
    else Failure(LengthMismatch)
  }

  /** Lines 101-103 and 132-137 as written: a palette of `max(n, 1)` colours for `n` rows. */
  function ShowAsWritten(points: seq<Point>): Result<View, AppError>
  {
    match AssignFill(points, DistinctPalette(|points|, PointAlpha))
    case Success(rows) => Success(InitialView(Coords(rows)))
    case Failure(e) => Failure(e)
  }

  /** The same with exactly one colour per row, so an empty table stays empty. */
  function ShowCorrected(points: seq<Point>): Result<View, AppError>
  {
    match AssignFill(points, DistinctPalette(|points|, PointAlpha)[..|points|])
    case Success(rows) => Success(InitialView(Coords(rows)))
    case Failure(e) => Failure(e)
  }

  /**
    As written, a table with no valid rows is grown to one row of NaN
    coordinates by the one-colour palette: the view is centred on NaN at the
    single-point zoom instead of the continental default.
  */
  lemma EmptyTableAsWritten()
    ensures ShowAsWritten([]) == Success(View(None, None, SinglePointZoom))
    ensures ShowAsWritten([]) != Success(DefaultView)
  {
    var palette := DistinctPalette(0, PointAlpha);
    var rows := AssignFill([], palette).value;
    assert |rows| == 1;
    NumbersOfAbsent(LatitudeColumn(Coords(rows)));
    NumbersOfAbsent(LongitudeColumn(Coords(rows)));
  }

  /** With one colour per row the view is always the rule applied to the normalised table. */
  lemma CorrectedShowsViewOfTable(points: seq<Point>)
    ensures ShowCorrected(points) == Success(InitialView(FrameOf(points)))
    ensures points == [] ==> ShowCorrected(points) == Success(DefaultView)
  {
    var palette := DistinctPalette(|points|, PointAlpha)[..|points|];
    assert |palette| == |points|;
  }

  /** The two agree on every non-empty table. */
  lemma AsWrittenAgreesWhenNonEmpty(points: seq<Point>)
    requires |points| > 0
    ensures ShowAsWritten(points) == ShowCorrected(points)
  {
    assert DistinctPalette(|points|, PointAlpha)[..|points|] == DistinctPalette(|points|, PointAlpha);
  }
}
