/**
 * Region selection. The flattened latitude, longitude and bathymetry grids
 * are zipped point by point; the flat index of every point inside the box
 * and shallower than the depth ceiling is kept, and each kept index is
 * converted to its (eta, xi) cell using the column count of the longitude
 * grid.
 */
module Region {
  import opened Base
  import opened Grids

  /** The region list `[min_lon, max_lon, min_lat, max_lat]`. */
  datatype Box = Box(minLon: real, maxLon: real, minLat: real, maxLat: real)

  /** The depth ceiling used when the caller gives none (metres, "arbitrarily large"). */
  const DefaultDepthMax: real := 10000000000.0

  /** The static coordinate grids `lat_rho`, `lon_rho` and `h`. */
  datatype Coords = Coords(lat: Grid<real>, lon: Grid<real>, bath: Grid<real>)

  /** The inclusion test of one point (latitude, longitude, bathymetry). */
  predicate InRegion(lat: real, lon: real, depth: real, box: Box, depthMax: real) {
    && box.minLat <= lat <= box.maxLat
    && box.minLon <= lon <= box.maxLon
    && depth < depthMax
  }

  /** How many points the zip of the three flattened grids yields: the shortest of the three. */
  function PointCount(c: Coords): (n: nat)
    ensures n <= |c.lat.data| && n <= |c.lon.data| && n <= |c.bath.data|
    ensures n == |c.lat.data| || n == |c.lon.data| || n == |c.bath.data|
  {
    var a := |c.lat.data|;
    var b := |c.lon.data|;
    var d := |c.bath.data|;
    if a <= b && a <= d then a else if b <= d then b else d
  }

  /** Flat index `j` is one of the zipped points and passes the inclusion test. */
  predicate Selected(c: Coords, box: Box, depthMax: real, j: int) {
    && 0 <= j < PointCount(c)
    && InRegion(c.lat.data[j], c.lon.data[j], c.bath.data[j], box, depthMax)
  }

  /** The loop over the first `n` zipped points, appending the index of each selected one. */
  function ScanPoints(c: Coords, box: Box, depthMax: real, n: nat): (r: seq<nat>)
    requires n <= PointCount(c)
    ensures StrictlyAscending(r)
    ensures forall k :: 0 <= k < |r| ==> r[k] < n
    ensures forall j :: j in r <==> 0 <= j < n && Selected(c, box, depthMax, j)
    decreases n
  {
    if n == 0 then []
    else
      var init := ScanPoints(c, box, depthMax, n - 1);
      var last: seq<nat> := if Selected(c, box, depthMax, n - 1) then [n - 1] else [];
      assert forall j :: j in init + last <==> j in init || j in last;
      init + last
  }

  /**
   * `point_list`: strictly ascending, so free of duplicates, and holding
   * exactly the flat indices that pass the inclusion test.
   */
  function PointList(c: Coords, box: Box, depthMax: real): (r: seq<nat>)
    ensures StrictlyAscending(r)
    ensures forall j :: j in r <==> Selected(c, box, depthMax, j)
  {
    ScanPoints(c, box, depthMax, PointCount(c))
  }

  /**
   * `eta_rho` and `xi_rho` as one list of cells: `int(i / ncols)` and
   * `i % ncols` for every index, with `ncols` the longitude grid's column count.
   * Each cell lies inside the longitude grid and flattens back to its index.
   */
  function EtaXi(points: seq<nat>, lon: Grid<real>): (cells: seq<Cell>)
    requires forall k :: 0 <= k < |points| ==> points[k] < |lon.data|
    ensures |cells| == |points|
    ensures forall k :: 0 <= k < |cells| ==> cells[k].xi < lon.cols
    ensures forall k :: 0 <= k < |cells| ==> cells[k].eta < lon.rows
    ensures forall k :: 0 <= k < |cells| ==> Flat(cells[k], lon.cols) == points[k]
  {
    if |points| == 0 then []
    else
      NonEmptyHasColumns(lon, points[0]);
      CellOfInside(points[0], lon.rows, lon.cols);
      [CellOf(points[0], lon.cols)] + EtaXi(points[1..], lon)
  }

  /** Every selected index is a position in the longitude grid. */
  lemma SelectedInsideLon(c: Coords, box: Box, depthMax: real)
    ensures forall k :: 0 <= k < |PointList(c, box, depthMax)| ==> PointList(c, box, depthMax)[k] < |c.lon.data|
  {
    var r := PointList(c, box, depthMax);
    forall k | 0 <= k < |r|
      ensures r[k] < |c.lon.data|
    {
      assert r[k] in r;
    }
  }

  /** The cells of the selected points, in ascending flat-index order. */
  function SelectedCells(c: Coords, box: Box, depthMax: real): seq<Cell> {
    SelectedInsideLon(c, box, depthMax);
    EtaXi(PointList(c, box, depthMax), c.lon)
  }

  /**
   * The selected cells are exactly the cells of the longitude grid whose flat
   * index passes the inclusion test, each once, in ascending flat order.
   */
  lemma SelectedCellsExact(c: Coords, box: Box, depthMax: real)
    ensures forall k :: 0 <= k < |SelectedCells(c, box, depthMax)| ==>
      Selected(c, box, depthMax, Flat(SelectedCells(c, box, depthMax)[k], c.lon.cols))
    ensures forall e: Cell ::
              (e.eta < c.lon.rows && e.xi < c.lon.cols && Selected(c, box, depthMax, Flat(e, c.lon.cols)))
              ==> e in SelectedCells(c, box, depthMax)
    ensures StrictlyAscending(Map(FlatKey(c.lon.cols), SelectedCells(c, box, depthMax)))
  {
    var points := PointList(c, box, depthMax);
    var cells := SelectedCells(c, box, depthMax);
    forall k | 0 <= k < |cells|
      ensures Selected(c, box, depthMax, Flat(cells[k], c.lon.cols))
    {
      assert points[k] in points;
    }
    forall e: Cell | e.eta < c.lon.rows && e.xi < c.lon.cols && Selected(c, box, depthMax, Flat(e, c.lon.cols))
      ensures e in cells
    {
      var i := Flat(e, c.lon.cols);
      assert i in points;
      var k :| 0 <= k < |points| && points[k] == i;
      FlatInjective(cells[k], e, c.lon.cols);
    }
  }
}
