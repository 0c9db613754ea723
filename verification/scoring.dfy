/**
 * Scoring of one timestep of one snapshot. The level-29 temperature and
 * salinity are read at the selected cells, scaled with the bundle's scalers
 * and given the day feature of the timestep; rows with a missing value are
 * dropped; the classifier's first-class probability is attached to each
 * surviving row, and then the longitude and latitude of the row's cell.
 */
module Scoring {
  import opened Base
  import opened Grids
  import opened Snapshots
  import opened Classifier
  import opened Region

  /** A row of the frame before `dropna`: any of its four value columns may be missing. */
  datatype RawRow = RawRow(temp: Option<real>, salt: Option<real>, scaledTemp: Option<real>,
                           scaledSalt: Option<real>, day: int, dt: DateTime, cell: Cell)

  /** A row of the frame `current_probs` returns. */
  datatype FrameRow = FrameRow(temp: real, salt: real, scaledTemp: real, scaledSalt: real,
                               day: int, dt: DateTime, cell: Cell, prob: real)

  /**
   * A row of the output table, with the columns in the written order:
   * lon, lat, eta, xi, dt, temp, scaler_temp, salt, scaler_salt, CCprob.
   */
  datatype OutputRow = OutputRow(lon: real, lat: real, eta: nat, xi: nat, dt: DateTime,
                                 temp: real, scaledTemp: real, salt: real, scaledSalt: real, prob: real)

  /** A scaler's `transform` on one value: a missing value stays missing. */
  function Transform(scale: real -> real, v: Option<real>): Option<real> {
    match v
    case None => None
    case Some(x) => Some(scale(x))
  }

  /** The row has no missing value, so `dropna` keeps it. */
  predicate Complete(r: RawRow) {
    r.temp.Some? && r.salt.Some? && r.scaledTemp.Some? && r.scaledSalt.Some?
  }

  function RawCell(r: RawRow): Cell {
    r.cell
  }

  function RowCell(r: FrameRow): Cell {
    r.cell
  }

  /** The feature vector the classifier is given for a scored row. */
  function RowFeatures(r: FrameRow): Features {
    Features(r.scaledTemp, r.scaledSalt, r.day)
  }

  /** The frame built from the values read at `cells`: one row per cell, in order. */
  function RawRows(b: Bundle, temps: seq<Option<real>>, salts: seq<Option<real>>, t: DateTime,
                   cells: seq<Cell>): seq<RawRow>
    requires |temps| == |cells| && |salts| == |cells|
  {
    seq(|cells|, k requires 0 <= k < |cells| =>
      RawRow(temps[k], salts[k], Transform(b.scaleTemp, temps[k]), Transform(b.scaleSalt, salts[k]),
             DayFeature(t), t, cells[k]))
  }

  /** One complete row with the first column of its `predict_proba` row as `CCprob`. */
  function Score(b: Bundle, r: RawRow): FrameRow
    requires Complete(r)
  {
    var f := Features(r.scaledTemp.value, r.scaledSalt.value, r.day);
    FrameRow(r.temp.value, r.salt.value, r.scaledTemp.value, r.scaledSalt.value, r.day, r.dt, r.cell,
             b.predictProba(f).first)
  }

  function ScoreRows(b: Bundle, rows: seq<RawRow>): (r: seq<FrameRow>)
    requires forall k :: 0 <= k < |rows| ==> Complete(rows[k])
    ensures |r| == |rows|
    ensures forall k :: 0 <= k < |rows| ==> r[k] == Score(b, rows[k])
  {
    if |rows| == 0 then [] else [Score(b, rows[0])] + ScoreRows(b, rows[1..])
  }

  /** The masked-or-not value of a field at a cell inside the grid, if there is one. */
  predicate HasValue(g: Grid<Option<real>>, c: Cell) {
    Get(g, c).Some? && Get(g, c).value.Some?
  }

  /** Both fields hold a value at the cell: the cell's row survives `dropna`. */
  function PresentTest(tempGrid: Grid<Option<real>>, saltGrid: Grid<Option<real>>): Cell -> bool {
    c => HasValue(tempGrid, c) && HasValue(saltGrid, c)
  }

  /** The level-29 temperature grid of a timestep (an empty grid where there is none). */
  function TempLevel(snap: Snapshot, step: nat): Grid<Option<real>> {
    match LevelField(snap.temp, step)
    case Some(g) => g
    case None => Array2(0, 0, [])
  }

  /** The level-29 salinity grid of a timestep (an empty grid where there is none). */
  function SaltLevel(snap: Snapshot, step: nat): Grid<Option<real>> {
    match LevelField(snap.salt, step)
    case Some(g) => g
    case None => Array2(0, 0, [])
  }

  /** The level-29 temperature and salinity of the timestep exist and cover every cell. */
  predicate Readable(snap: Snapshot, step: nat, cells: seq<Cell>) {
    && LevelField(snap.temp, step).Some?
    && LevelField(snap.salt, step).Some?
    && Gather(TempLevel(snap, step), cells).Some?
    && Gather(SaltLevel(snap, step), cells).Some?
  }

  /** The cells of a timestep whose row survives `dropna`. */
  function Present(snap: Snapshot, step: nat): Cell -> bool {
    PresentTest(TempLevel(snap, step), SaltLevel(snap, step))
  }

  /**
   * A scored row agrees with the fields it was read from and with the
   * bundle: its temperature and salinity are the field values at its cell,
   * its scaled values are the scalers' outputs, its day and timestamp are the
   * timestep's, and its probability is the first component of the
   * classifier's output for its feature vector.
   */
  predicate FrameRowFaithful(b: Bundle, tempGrid: Grid<Option<real>>, saltGrid: Grid<Option<real>>,
                             t: DateTime, r: FrameRow) {
    && Get(tempGrid, r.cell) == Some(Some(r.temp))
    && Get(saltGrid, r.cell) == Some(Some(r.salt))
    && r.scaledTemp == b.scaleTemp(r.temp)
    && r.scaledSalt == b.scaleSalt(r.salt)
    && r.day == DayFeature(t)
    && r.dt == t
    && RowFeatures(r) == FeatureRow(b.scaleTemp, b.scaleSalt, r.temp, r.salt, t)
    && r.prob == b.predictProba(RowFeatures(r)).first
  }

  /**
   * Training and scoring derive the features the same way: a scored row with
   * the raw values and the timestamp of a training sample is given exactly
   * that sample's design row, day of the month included.
   */
  lemma ScoringMatchesTraining(data: seq<Sample>, fitScaler: seq<real> -> (real -> real),
                               fitClassifier: (seq<Features>, seq<int>) -> (Features -> Prob), k: nat,
                               tempGrid: Grid<Option<real>>, saltGrid: Grid<Option<real>>, t: DateTime, r: FrameRow)
    requires k < |data|
    requires FrameRowFaithful(CurrentModel(data, fitScaler, fitClassifier), tempGrid, saltGrid, t, r)
    requires r.temp == data[k].temp && r.salt == data[k].salt && t == data[k].datetime
    ensures r.day == data[k].datetime.day
    ensures RowFeatures(r) == TrainingDesign(data, CurrentModel(data, fitScaler, fitClassifier).scaleTemp,
                                             CurrentModel(data, fitScaler, fitClassifier).scaleSalt)[k]
  {
  }

  /** Read, scale, `dropna` and score the values of two grids at `cells`. */
  function Survivors(b: Bundle, tempGrid: Grid<Option<real>>, saltGrid: Grid<Option<real>>, t: DateTime,
                     cells: seq<Cell>): seq<FrameRow>
    requires Gather(tempGrid, cells).Some? && Gather(saltGrid, cells).Some?
  {
    var raw := RawRows(b, Gather(tempGrid, cells).value, Gather(saltGrid, cells).value, t, cells);
    var kept := Filter(Complete, raw);
    assert forall x :: x in kept ==> Complete(x);
    ScoreRows(b, kept)
  }

  /** The survivors are the rows of the cells where both grids hold a value, in cell order. */
  lemma SurvivorCells(b: Bundle, tempGrid: Grid<Option<real>>, saltGrid: Grid<Option<real>>, t: DateTime,
                      cells: seq<Cell>)
    requires Gather(tempGrid, cells).Some? && Gather(saltGrid, cells).Some?
    ensures Map(RowCell, Survivors(b, tempGrid, saltGrid, t, cells)) == Filter(PresentTest(tempGrid, saltGrid), cells)
  {
    var temps := Gather(tempGrid, cells).value;
    var salts := Gather(saltGrid, cells).value;
    var raw := RawRows(b, temps, salts, t, cells);
    var kept := Filter(Complete, raw);
    assert forall k :: 0 <= k < |raw| ==> Complete(raw[k]) == PresentTest(tempGrid, saltGrid)(RawCell(raw[k])) by {
      forall k | 0 <= k < |raw|
        ensures Complete(raw[k]) == PresentTest(tempGrid, saltGrid)(RawCell(raw[k]))
      {
        assert Get(tempGrid, cells[k]) == Some(temps[k]);
        assert Get(saltGrid, cells[k]) == Some(salts[k]);
      }
    }
    MapFilter(RawCell, Complete, PresentTest(tempGrid, saltGrid), raw);
    assert Map(RawCell, raw) == cells;
    assert forall x :: x in kept ==> Complete(x);
    var rows := ScoreRows(b, kept);
    assert Map(RowCell, rows) == Map(RawCell, kept);
  }

  /** Every survivor agrees with the grids it was read from and with the bundle. */
  lemma SurvivorsFaithful(b: Bundle, tempGrid: Grid<Option<real>>, saltGrid: Grid<Option<real>>, t: DateTime,
                          cells: seq<Cell>)
    requires Gather(tempGrid, cells).Some? && Gather(saltGrid, cells).Some?
    ensures forall r :: r in Survivors(b, tempGrid, saltGrid, t, cells) ==> FrameRowFaithful(b, tempGrid, saltGrid, t, r)
  {
    var temps := Gather(tempGrid, cells).value;
    var salts := Gather(saltGrid, cells).value;
    var raw := RawRows(b, temps, salts, t, cells);
    var kept := Filter(Complete, raw);
    assert forall x :: x in kept ==> Complete(x);
    var rows := ScoreRows(b, kept);
    forall r | r in rows
      ensures FrameRowFaithful(b, tempGrid, saltGrid, t, r)
    {
      var k :| 0 <= k < |rows| && rows[k] == r;
      assert kept[k] in raw;
      var m :| 0 <= m < |raw| && raw[m] == kept[k];
      assert Get(tempGrid, cells[m]) == Some(temps[m]);
      assert Get(saltGrid, cells[m]) == Some(salts[m]);
    }
  }

  /**
   * `current_probs`: the rows of one timestep. The rows are those of the
   * cells where both fields hold a value, in the order of `cells`; reading a
   * field outside its array fails, and a timestep where no row survives fails
   * because an empty frame reaches the scaler (no selected cell) or the
   * classifier (every row dropped).
   */
  function CurrentProbs(b: Bundle, snap: Snapshot, file: string, step: nat, t: DateTime,
                        cells: seq<Cell>): (r: Result<seq<FrameRow>>)
    ensures r == Err(FieldIndexError(file, step)) <==> !Readable(snap, step, cells)
    ensures r == Err(EmptyFrame(file, step)) <==>
              Readable(snap, step, cells) && |Filter(Present(snap, step), cells)| == 0
    ensures r.Err? ==> r.error == FieldIndexError(file, step) || r.error == EmptyFrame(file, step)
    ensures r.Ok? ==> Readable(snap, step, cells) && |r.value| > 0
    ensures r.Ok? ==> Map(RowCell, r.value) == Filter(Present(snap, step), cells)
    ensures r.Ok? ==> forall x :: x in r.value ==> FrameRowFaithful(b, TempLevel(snap, step), SaltLevel(snap, step), t, x)
  {
    if !Readable(snap, step, cells) then Err(FieldIndexError(file, step))
    else
      var rows := Survivors(b, TempLevel(snap, step), SaltLevel(snap, step), t, cells);
      SurvivorCells(b, TempLevel(snap, step), SaltLevel(snap, step), t, cells);
      SurvivorsFaithful(b, TempLevel(snap, step), SaltLevel(snap, step), t, cells);
      assert |Map(RowCell, rows)| == |rows|;
      if |rows| == 0 then Err(EmptyFrame(file, step)) else Ok(rows)
  }

  /**
   * The surviving rows and the dropped cells together account for every
   * selected cell: the frame has as many rows as cells minus those with a
   * missing temperature or salinity.
   */
  lemma RowCount(b: Bundle, snap: Snapshot, file: string, step: nat, t: DateTime, cells: seq<Cell>)
    requires CurrentProbs(b, snap, file, step, t, cells).Ok?
    ensures |CurrentProbs(b, snap, file, step, t, cells).value| + |Filter(Not(Present(snap, step)), cells)| == |cells|
  {
    var rows := CurrentProbs(b, snap, file, step, t, cells).value;
    assert |Map(RowCell, rows)| == |rows|;
    FilterSplitsLength(Present(snap, step), cells);
  }

  /**
   * When the cells come in ascending flat order, so do the rows: dropping
   * rows never reorders the survivors.
   */
  lemma FrameKeepsCellOrder(b: Bundle, snap: Snapshot, file: string, step: nat, t: DateTime,
                            cells: seq<Cell>, cols: nat)
    requires CurrentProbs(b, snap, file, step, t, cells).Ok?
    requires StrictlyAscending(Map(FlatKey(cols), cells))
    ensures StrictlyAscending(Map(FlatKey(cols), Map(RowCell, CurrentProbs(b, snap, file, step, t, cells).value)))
  {
    FilterKeepsAscending(FlatKey(cols), Present(snap, step), cells);
  }

  /** An output row built from a frame row and the coordinates at its cell. */
  function Output(r: FrameRow, lon: real, lat: real): OutputRow {
    OutputRow(lon, lat, r.cell.eta, r.cell.xi, r.dt, r.temp, r.scaledTemp, r.salt, r.scaledSalt, r.prob)
  }

  /** The output row keeps every column of the frame row it comes from. */
  predicate Carries(o: OutputRow, r: FrameRow) {
    && o.eta == r.cell.eta && o.xi == r.cell.xi && o.dt == r.dt
    && o.temp == r.temp && o.scaledTemp == r.scaledTemp
    && o.salt == r.salt && o.scaledSalt == r.scaledSalt && o.prob == r.prob
  }

  /**
   * `df['lon'] = lons[df.eta, df.xi]` and `df['lat'] = lats[df.eta, df.xi]`,
   * then the column selection: each row gains the grid values at its cell,
   * and the step fails when a cell lies outside either grid.
   */
  function AttachCoords(rows: seq<FrameRow>, coords: Coords, file: string, step: nat): (r: Result<seq<OutputRow>>)
    ensures r.Ok? <==> forall k :: 0 <= k < |rows| ==>
                         Get(coords.lon, rows[k].cell).Some? && Get(coords.lat, rows[k].cell).Some?
    ensures r.Err? ==> r.error == CoordinateIndexError(file, step)
    ensures r.Ok? ==> |r.value| == |rows|
    ensures r.Ok? ==> forall k :: 0 <= k < |rows| ==>
                         && Get(coords.lon, rows[k].cell) == Some(r.value[k].lon)
                         && Get(coords.lat, rows[k].cell) == Some(r.value[k].lat)
                         && Carries(r.value[k], rows[k])
  {
    if |rows| == 0 then Ok([])
    else
      var c := rows[0].cell;
      if Get(coords.lon, c).None? || Get(coords.lat, c).None? then Err(CoordinateIndexError(file, step))
      else
        match AttachCoords(rows[1..], coords, file, step)
        case Err(e) => Err(e)
        case Ok(rest) =>
          assert forall k :: 1 <= k < |rows| ==> rows[1..][k - 1] == rows[k];
          Ok([Output(rows[0], Get(coords.lon, c).value, Get(coords.lat, c).value)] + rest)
  }
}
