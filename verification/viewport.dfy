/**
  The initial map view: centred on the mean of the coordinates, zoomed by how
  many rows there are, with a fixed continental default for an empty table.
*/
module Viewport {
  import opened Wrappers
  import opened RealArith
  import opened LatLonCsv

  /** The coordinate columns of one row of the frame the map is drawn from; `None` is NaN. */
  datatype FrameRow = FrameRow(latitude: Option<real>, longitude: Option<real>)

  /** The view state; a NaN centre coordinate is `None`. */
  datatype View = View(latitude: Option<real>, longitude: Option<real>, zoom: int)

  const DefaultView: View := View(Some(39.5), Some(-98.35), 3)
  const SinglePointZoom: int := 8
  const ManyPointsZoom: int := 4

  function Sum(xs: seq<real>): real
  {
    if |xs| == 0 then 0.0 else xs[0] + Sum(xs[1..])
  }

  function Mean(xs: seq<real>): real
    requires |xs| > 0
  {
    Sum(xs) / |xs| as real
  }

  /** The numbers of a column, NaNs skipped, in order. */
  function Numbers(xs: seq<Option<real>>): (ys: seq<real>)
    ensures |ys| <= |xs|
    ensures forall y | y in ys :: Some(y) in xs
  {
    if |xs| == 0 then []
    else if xs[0].Some? then [xs[0].value] + Numbers(xs[1..])
    else Numbers(xs[1..])
  }

  /** `Series.mean()`: the mean of the numbers present, NaN when there are none. */
  function ColumnMean(xs: seq<Option<real>>): Option<real>
  {
    var ys := Numbers(xs);
    if |ys| == 0 then None else Some(Mean(ys))
  }

  function LatitudeColumn(frame: seq<FrameRow>): seq<Option<real>>
  {
    seq(|frame|, k requires 0 <= k < |frame| => frame[k].latitude)
  }

  function LongitudeColumn(frame: seq<FrameRow>): seq<Option<real>>
  {
    seq(|frame|, k requires 0 <= k < |frame| => frame[k].longitude)
  }

  /** The initial view of a frame: the column means and a zoom chosen by the row count. */
  function InitialView(frame: seq<FrameRow>): (v: View)
    ensures |frame| == 0 <==> v == DefaultView
    ensures |frame| == 1 ==> v.zoom == SinglePointZoom
    ensures |frame| > 1 ==> v.zoom == ManyPointsZoom
  {
    if |frame| > 0 then
      View(ColumnMean(LatitudeColumn(frame)), ColumnMean(LongitudeColumn(frame)),
           if |frame| > 1 then ManyPointsZoom else SinglePointZoom)
    else DefaultView
  }

  /** The frame of a normalised table: every coordinate present. */
  function FrameOf(points: seq<Point>): seq<FrameRow>
  {
    seq(|points|, k requires 0 <= k < |points| =>
      FrameRow(Some(points[k].latitude), Some(points[k].longitude)))
  }

  /** A column with no NaN keeps every entry as a number, in order. */
  lemma {:induction false} NumbersOfPresent(col: seq<Option<real>>)
    requires forall k | 0 <= k < |col| :: col[k].Some?
    ensures |Numbers(col)| == |col|
    ensures forall k | 0 <= k < |col| :: Some(Numbers(col)[k]) == col[k]
  {
    if |col| > 0 {
      NumbersOfPresent(col[1..]);
      assert forall k | 0 < k < |col| :: col[1..][k - 1] == col[k];
    }
  }

  /** The latitude column of a normalised table, as numbers. */
  function Latitudes(points: seq<Point>): (lats: seq<real>)
    ensures |lats| == |points| && forall k | 0 <= k < |points| :: lats[k] == points[k].latitude
  {
    var col := LatitudeColumn(FrameOf(points));
    NumbersOfPresent(col);
    Numbers(col)
  }

  /** The longitude column of a normalised table, as numbers. */
  function Longitudes(points: seq<Point>): (lons: seq<real>)
    ensures |lons| == |points| && forall k | 0 <= k < |points| :: lons[k] == points[k].longitude
  {
    var col := LongitudeColumn(FrameOf(points));
    NumbersOfPresent(col);
    Numbers(col)
  }

  /** A column that is NaN throughout has no numbers. */
  lemma {:induction false} NumbersOfAbsent(col: seq<Option<real>>)
    requires forall k | 0 <= k < |col| :: col[k] == None
    ensures Numbers(col) == []
  {
    if |col| > 0 {
      NumbersOfAbsent(col[1..]);
    }
  }

  /** A sum of `n` values in [lo, hi] lies in [n * lo, n * hi]. */
  lemma {:induction false} SumBounds(xs: seq<real>, lo: real, hi: real)
    requires forall k | 0 <= k < |xs| :: lo <= xs[k] <= hi
    ensures |xs| as real * lo <= Sum(xs) <= |xs| as real * hi
  {
    if |xs| > 0 {
      SumBounds(xs[1..], lo, hi);
      var n := |xs| as real;
      assert (n - 1.0) * lo + lo == n * lo;
      assert (n - 1.0) * hi + hi == n * hi;
    }
  }

  /** The mean of values in [lo, hi] lies in [lo, hi]. */
  lemma MeanBounds(xs: seq<real>, lo: real, hi: real)
    requires |xs| > 0
    requires forall k | 0 <= k < |xs| :: lo <= xs[k] <= hi
    ensures lo <= Mean(xs) <= hi
  {
    SumBounds(xs, lo, hi);
    var n := |xs| as real;
    var m := Mean(xs);
    assert m * n == Sum(xs);
    if m < lo {
      ProductPositive(lo - m, n);
      assert false;
    }
    if m > hi {
      ProductPositive(m - hi, n);
      assert false;
    }
  }

  /** An empty table opens on the continental default. */
  lemma EmptyTableView()
    ensures InitialView(FrameOf([])) == View(Some(39.5), Some(-98.35), 3)
  {
  }

  /** A single point is the centre, at zoom 8. */
  lemma SinglePointView(p: Point)
    ensures InitialView(FrameOf([p])) == View(Some(p.latitude), Some(p.longitude), 8)
  {
    var lats, lons := Latitudes([p]), Longitudes([p]);
    assert Sum(lats) == p.latitude + Sum([]);
    assert Sum(lons) == p.longitude + Sum([]);
  }

  /** Several points: zoom 4, centred on the mean latitude and the mean longitude. */
  lemma ManyPointsView(points: seq<Point>)
    requires |points| > 1
    ensures InitialView(FrameOf(points)) ==
              View(Some(Mean(Latitudes(points))), Some(Mean(Longitudes(points))), 4)
  {
  }

  /** The centre of a non-empty table lies inside any box that holds every point. */
  lemma CentreInsideBox(points: seq<Point>, south: real, north: real, west: real, east: real)
    requires |points| > 0
    requires forall k | 0 <= k < |points| ::
               south <= points[k].latitude <= north && west <= points[k].longitude <= east
    ensures south <= Mean(Latitudes(points)) <= north
    ensures west <= Mean(Longitudes(points)) <= east
  {
    MeanBounds(Latitudes(points), south, north);
    MeanBounds(Longitudes(points), west, east);
  }
}
