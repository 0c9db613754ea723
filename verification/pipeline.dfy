/**
 * `CC_probs`, the batch run: list and filter the snapshot files, take the
 * coordinate grids from the first listed file, keep the files in the year
 * range, select the region's cells once, score every timestep of every kept
 * file in file order and then timestep order, and join the frames into one
 * table. Opening a file and decoding its time axis are given functions.
 */
module Pipeline {
  import opened Base
  import opened Grids
  import opened Snapshots
  import opened FileNames
  import opened YearFilter
  import opened Region
  import opened Classifier
  import opened Scoring

  function OutCell(o: OutputRow): Cell {
    Cell(o.eta, o.xi)
  }

  /**
   * An output row that is one of the selected cells, carries the coordinate
   * grids' values at its cell, and whose scaled values and probability are
   * what the bundle gives for its raw values and timestamp.
   */
  predicate OutputFaithful(b: Bundle, coords: Coords, cells: seq<Cell>, o: OutputRow) {
    && OutCell(o) in cells
    && Get(coords.lon, OutCell(o)) == Some(o.lon)
    && Get(coords.lat, OutCell(o)) == Some(o.lat)
    && o.scaledTemp == b.scaleTemp(o.temp)
    && o.scaledSalt == b.scaleSalt(o.salt)
    && o.prob == b.predictProba(FeatureRow(b.scaleTemp, b.scaleSalt, o.temp, o.salt, o.dt)).first
  }

  /** An output row whose raw values are the timestep's level-29 values at its cell. */
  predicate ReadFrom(snap: Snapshot, step: nat, t: DateTime, o: OutputRow) {
    && o.dt == t
    && Get(TempLevel(snap, step), OutCell(o)) == Some(Some(o.temp))
    && Get(SaltLevel(snap, step), OutCell(o)) == Some(Some(o.salt))
  }

  /** The failures of scoring one timestep. */
  predicate StepError(e: Error) {
    e.FieldIndexError? || e.EmptyFrame? || e.CoordinateIndexError?
  }

  /**
   * `frame` is what timestep `step` of `snap` should yield: not empty, one
   * row per selected cell holding both values, in the order of `cells`, each
   * row read from this timestep and scored by the bundle.
   */
  predicate StepFrame(b: Bundle, snap: Snapshot, step: nat, decode: real -> DateTime,
                      cells: seq<Cell>, coords: Coords, frame: seq<OutputRow>) {
    && step < |snap.oceanTime|
    && |frame| > 0
    && Map(OutCell, frame) == Filter(Present(snap, step), cells)
    && forall o :: o in frame ==>
         OutputFaithful(b, coords, cells, o) && ReadFrom(snap, step, decode(snap.oceanTime[step]), o)
  }

  /** Every one of the given cells lies inside both coordinate grids. */
  predicate CoordsCover(coords: Coords, cs: seq<Cell>) {
    forall c :: c in cs ==> Get(coords.lon, c).Some? && Get(coords.lat, c).Some?
  }

  /**
   * Timestep `step` of `snap` can be scored: its level-29 slices and the
   * selected cells in them exist, some cell holds both values, and every such
   * cell has a longitude and a latitude.
   */
  predicate StepSucceeds(snap: Snapshot, step: nat, cells: seq<Cell>, coords: Coords) {
    && Readable(snap, step, cells)
    && |Filter(Present(snap, step), cells)| > 0
    && CoordsCover(coords, Filter(Present(snap, step), cells))
  }

  /**
   * The failure of a timestep that cannot be scored, by the first stage that
   * rejects it: reading the fields, then scaling or classifying an empty
   * frame, then indexing the coordinate grids.
   */
  function StepFailure(snap: Snapshot, file: string, step: nat, cells: seq<Cell>): (e: Error)
    ensures StepError(e)
  {
    if !Readable(snap, step, cells) then FieldIndexError(file, step)
    else if |Filter(Present(snap, step), cells)| == 0 then EmptyFrame(file, step)
    else CoordinateIndexError(file, step)
  }

  /** Rows whose cells are `cs` all have coordinates iff the cells `cs` do. */
  lemma RowsCoveredIff(rows: seq<FrameRow>, coords: Coords, cs: seq<Cell>)
    requires Map(RowCell, rows) == cs
    ensures CoordsCover(coords, cs) <==>
              forall k :: 0 <= k < |rows| ==> Get(coords.lon, rows[k].cell).Some? && Get(coords.lat, rows[k].cell).Some?
  {
  }

  /**
   * One frame of the store: decode the timestep's time, run `current_probs`
   * and attach longitude and latitude. It succeeds exactly when the timestep
   * can be scored, and otherwise reports the first stage that rejects it. Its
   * rows are the cells holding both values, in the order of `cells`, each
   * read from this timestep.
   */
  function ScoreStep(b: Bundle, snap: Snapshot, file: string, step: nat, decode: real -> DateTime,
                     cells: seq<Cell>, coords: Coords): (r: Result<seq<OutputRow>>)
    requires step < |snap.oceanTime|
    ensures r.Ok? <==> StepSucceeds(snap, step, cells, coords)
    ensures r.Err? ==> r.error == StepFailure(snap, file, step, cells)
    ensures r.Ok? ==> StepFrame(b, snap, step, decode, cells, coords, r.value)
  {
    var t := decode(snap.oceanTime[step]);
    var probs := CurrentProbs(b, snap, file, step, t, cells);
    if probs.Err? then Err(probs.error)
    else
      var rows := probs.value;
      var r := AttachCoords(rows, coords, file, step);
      RowsCoveredIff(rows, coords, Filter(Present(snap, step), cells));
      if r.Ok? then
        var out := r.value;
        assert Map(OutCell, out) == Map(RowCell, rows);
        assert forall o :: o in out ==> OutputFaithful(b, coords, cells, o) && ReadFrom(snap, step, t, o) by {
          forall o | o in out
            ensures OutputFaithful(b, coords, cells, o) && ReadFrom(snap, step, t, o)
          {
            var k :| 0 <= k < |out| && out[k] == o;
            assert rows[k] in rows;
            assert OutCell(o) == rows[k].cell;
            assert rows[k].cell in Map(RowCell, rows);
          }
        }
        r
      else r
  }

  /** Every timestep from `from` on can be scored. */
  predicate StepsSucceed(snap: Snapshot, cells: seq<Cell>, coords: Coords, from: nat) {
    forall k :: from <= k < |snap.oceanTime| ==> StepSucceeds(snap, k, cells, coords)
  }

  /**
   * `e` is the failure of the first timestep from `from` on that cannot be
   * scored, every earlier one from `from` on being scorable.
   */
  predicate FirstFailure(snap: Snapshot, file: string, cells: seq<Cell>, coords: Coords, from: nat, e: Error) {
    exists k :: && from <= k < |snap.oceanTime|
                && (forall m :: from <= m < k ==> StepSucceeds(snap, m, cells, coords))
                && !StepSucceeds(snap, k, cells, coords)
                && e == StepFailure(snap, file, k, cells)
  }

  /** The timesteps from `from` on can be scored iff timestep `from` and those after it can. */
  lemma StepsSucceedCons(snap: Snapshot, cells: seq<Cell>, coords: Coords, from: nat)
    requires from < |snap.oceanTime|
    ensures StepsSucceed(snap, cells, coords, from) <==>
              StepSucceeds(snap, from, cells, coords) && StepsSucceed(snap, cells, coords, from + 1)
  {
  }

  /** A timestep that cannot be scored is the first failure from itself on. */
  lemma FirstFailureHere(snap: Snapshot, file: string, cells: seq<Cell>, coords: Coords, from: nat)
    requires from < |snap.oceanTime| && !StepSucceeds(snap, from, cells, coords)
    ensures FirstFailure(snap, file, cells, coords, from, StepFailure(snap, file, from, cells))
  {
  }

  /** The first failure after a scorable timestep is the first failure from that timestep on. */
  lemma FirstFailureAfter(snap: Snapshot, file: string, cells: seq<Cell>, coords: Coords, from: nat, e: Error)
    requires from < |snap.oceanTime| && StepSucceeds(snap, from, cells, coords)
    requires FirstFailure(snap, file, cells, coords, from + 1, e)
    ensures FirstFailure(snap, file, cells, coords, from, e)
  {
  }

  /**
   * The frames of the timesteps `step..` of one file, in timestep order. It
   * succeeds exactly when every one of those timesteps can be scored, and
   * otherwise reports the first that cannot.
   */
  function ScoreSteps(b: Bundle, snap: Snapshot, file: string, decode: real -> DateTime,
                      cells: seq<Cell>, coords: Coords, step: nat): (r: Result<seq<seq<OutputRow>>>)
    requires step <= |snap.oceanTime|
    ensures r.Ok? <==> StepsSucceed(snap, cells, coords, step)
    ensures r.Err? ==> FirstFailure(snap, file, cells, coords, step, r.error)
    ensures r.Err? ==> StepError(r.error)
    ensures r.Ok? ==> |r.value| == |snap.oceanTime| - step
    ensures r.Ok? ==> forall k :: 0 <= k < |r.value| ==>
              StepFrame(b, snap, step + k, decode, cells, coords, r.value[k])
    decreases |snap.oceanTime| - step
  {
    if step == |snap.oceanTime| then Ok([])
    else
      var head := ScoreStep(b, snap, file, step, decode, cells, coords);
      StepsSucceedCons(snap, cells, coords, step);
      if head.Err? then
        FirstFailureHere(snap, file, cells, coords, step);
        Err(head.error)
      else
        var tail := ScoreSteps(b, snap, file, decode, cells, coords, step + 1);
        if tail.Err? then
          FirstFailureAfter(snap, file, cells, coords, step, tail.error);
          Err(tail.error)
        else
          StepFramesCons(b, snap, decode, cells, coords, step, head.value, tail.value);
          Ok([head.value] + tail.value)
  }

  /** A frame for timestep `step` followed by frames for `step + 1..` gives frames for `step..`. */
  lemma StepFramesCons(b: Bundle, snap: Snapshot, decode: real -> DateTime, cells: seq<Cell>, coords: Coords,
                       step: nat, frame: seq<OutputRow>, rest: seq<seq<OutputRow>>)
    requires StepFrame(b, snap, step, decode, cells, coords, frame)
    requires forall k :: 0 <= k < |rest| ==> StepFrame(b, snap, step + 1 + k, decode, cells, coords, rest[k])
    ensures forall k :: 0 <= k < |[frame] + rest| ==>
              StepFrame(b, snap, step + k, decode, cells, coords, ([frame] + rest)[k])
  {
    var all := [frame] + rest;
    forall k | 0 <= k < |all|
      ensures StepFrame(b, snap, step + k, decode, cells, coords, all[k])
    {
      if k > 0 {
        assert all[k] == rest[k - 1];
        assert step + k == step + 1 + (k - 1);
      }
    }
  }

  /** The number of timesteps of the given files. */
  function TotalSteps(files: seq<string>, open: string -> Snapshot): nat {
    if |files| == 0 then 0 else |open(files[0]).oceanTime| + TotalSteps(files[1..], open)
  }

  /** Every frame is non-empty and every row of every frame is faithful. */
  predicate FramesFaithful(b: Bundle, coords: Coords, cells: seq<Cell>, frames: seq<seq<OutputRow>>) {
    forall k :: 0 <= k < |frames| ==>
      |frames[k]| > 0 && forall o :: o in frames[k] ==> OutputFaithful(b, coords, cells, o)
  }

  /** Every timestep of every one of the files can be scored. */
  predicate FilesSucceed(files: seq<string>, open: string -> Snapshot, cells: seq<Cell>, coords: Coords) {
    forall i :: 0 <= i < |files| ==> StepsSucceed(open(files[i]), cells, coords, 0)
  }

  /**
   * `e` is the first failure of the first file that has a timestep that
   * cannot be scored, every earlier file being scorable throughout.
   */
  predicate FirstFileFailure(files: seq<string>, open: string -> Snapshot, cells: seq<Cell>, coords: Coords, e: Error) {
    exists i :: && 0 <= i < |files|
                && (forall j :: 0 <= j < i ==> StepsSucceed(open(files[j]), cells, coords, 0))
                && FirstFailure(open(files[i]), files[i], cells, coords, 0, e)
  }

  /** A non-empty file list can be scored iff its first file and the rest can. */
  lemma FilesSucceedCons(files: seq<string>, open: string -> Snapshot, cells: seq<Cell>, coords: Coords)
    requires |files| > 0
    ensures FilesSucceed(files, open, cells, coords) <==>
              StepsSucceed(open(files[0]), cells, coords, 0) && FilesSucceed(files[1..], open, cells, coords)
  {
  }

  /** A failure in the first file is the first failure of the list. */
  lemma FirstFileFailureHere(files: seq<string>, open: string -> Snapshot, cells: seq<Cell>, coords: Coords, e: Error)
    requires |files| > 0 && FirstFailure(open(files[0]), files[0], cells, coords, 0, e)
    ensures FirstFileFailure(files, open, cells, coords, e)
  {
  }

  /** After a scorable first file, the first failure of the rest is the first failure of the list. */
  lemma FirstFileFailureAfter(files: seq<string>, open: string -> Snapshot, cells: seq<Cell>, coords: Coords, e: Error)
    requires |files| > 0 && StepsSucceed(open(files[0]), cells, coords, 0)
    requires FirstFileFailure(files[1..], open, cells, coords, e)
    ensures FirstFileFailure(files, open, cells, coords, e)
  {
  }

  /**
   * The frames of all timesteps of all files, file by file. It succeeds
   * exactly when every timestep of every file can be scored, and otherwise
   * reports the first failure of the first file that has one.
   */
  function ScoreFiles(files: seq<string>, open: string -> Snapshot, b: Bundle, decode: real -> DateTime,
                      cells: seq<Cell>, coords: Coords): (r: Result<seq<seq<OutputRow>>>)
    ensures r.Ok? <==> FilesSucceed(files, open, cells, coords)
    ensures r.Err? ==> FirstFileFailure(files, open, cells, coords, r.error)
    ensures r.Err? ==> StepError(r.error)
    ensures r.Ok? ==> |r.value| == TotalSteps(files, open)
    ensures r.Ok? ==> FramesFaithful(b, coords, cells, r.value)
  {
    if |files| == 0 then Ok([])
    else
      var snap := open(files[0]);
      var head := ScoreSteps(b, snap, files[0], decode, cells, coords, 0);
      FilesSucceedCons(files, open, cells, coords);
      if head.Err? then
        FirstFileFailureHere(files, open, cells, coords, head.error);
        Err(head.error)
      else
        var tail := ScoreFiles(files[1..], open, b, decode, cells, coords);
        if tail.Err? then
          FirstFileFailureAfter(files, open, cells, coords, tail.error);
          Err(tail.error)
        else
          FramesCons(b, snap, decode, cells, coords, head.value, tail.value);
          Ok(head.value + tail.value)
  }

  /** The frames of one file followed by faithful frames are faithful. */
  lemma FramesCons(b: Bundle, snap: Snapshot, decode: real -> DateTime, cells: seq<Cell>, coords: Coords,
                   fs: seq<seq<OutputRow>>, rest: seq<seq<OutputRow>>)
    requires forall k :: 0 <= k < |fs| ==> StepFrame(b, snap, 0 + k, decode, cells, coords, fs[k])
    requires FramesFaithful(b, coords, cells, rest)
    ensures FramesFaithful(b, coords, cells, fs + rest)
  {
    forall k | 0 <= k < |fs + rest|
      ensures |(fs + rest)[k]| > 0 && forall o :: o in (fs + rest)[k] ==> OutputFaithful(b, coords, cells, o)
    {
      if k < |fs| {
        assert StepFrame(b, snap, 0 + k, decode, cells, coords, fs[k]);
        assert (fs + rest)[k] == fs[k];
      } else {
        assert (fs + rest)[k] == rest[k - |fs|];
      }
    }
  }

  /** The frames of a non-empty file list: those of its first file, then those of the rest. */
  lemma ScoreFilesUnfold(files: seq<string>, open: string -> Snapshot, b: Bundle, decode: real -> DateTime,
                         cells: seq<Cell>, coords: Coords)
    requires |files| > 0
    ensures ScoreFiles(files, open, b, decode, cells, coords)
         == AppendResults(ScoreSteps(b, open(files[0]), files[0], decode, cells, coords, 0),
                          ScoreFiles(files[1..], open, b, decode, cells, coords))
  {
  }

  /**
   * The frames of a list of files followed by another are the frames of the
   * first list followed by those of the second, and a failure in the first
   * list is the one reported: files are processed strictly in list order.
   */
  lemma {:induction false} ScoreFilesAppend(f1: seq<string>, f2: seq<string>, open: string -> Snapshot, b: Bundle,
                                            decode: real -> DateTime, cells: seq<Cell>, coords: Coords)
    ensures ScoreFiles(f1 + f2, open, b, decode, cells, coords)
         == AppendResults(ScoreFiles(f1, open, b, decode, cells, coords), ScoreFiles(f2, open, b, decode, cells, coords))
    decreases |f1|
  {
    var xs := f1 + f2;
    if |f1| == 0 {
      assert xs == f2;
      assert ScoreFiles(f1, open, b, decode, cells, coords) == Ok([]);
      var second := ScoreFiles(f2, open, b, decode, cells, coords);
      if second.Ok? {
        assert [] + second.value == second.value;
      }
    } else {
      assert xs[0] == f1[0];
      assert xs[1..] == f1[1..] + f2;
      var head := ScoreSteps(b, open(f1[0]), f1[0], decode, cells, coords, 0);
      var rest1 := ScoreFiles(f1[1..], open, b, decode, cells, coords);
      var second := ScoreFiles(f2, open, b, decode, cells, coords);
      calc {
        ScoreFiles(xs, open, b, decode, cells, coords);
        == { ScoreFilesUnfold(xs, open, b, decode, cells, coords); }
        AppendResults(head, ScoreFiles(xs[1..], open, b, decode, cells, coords));
        == { ScoreFilesAppend(f1[1..], f2, open, b, decode, cells, coords); }
        AppendResults(head, AppendResults(rest1, second));
        == { AppendResultsAssoc(head, rest1, second); }
        AppendResults(AppendResults(head, rest1), second);
        == { ScoreFilesUnfold(f1, open, b, decode, cells, coords); }
        AppendResults(ScoreFiles(f1, open, b, decode, cells, coords), second);
      }
    }
  }

  /** The coordinate grids of the first file of the list. */
  function FirstCoords(files: seq<string>, open: string -> Snapshot): Coords
    requires |files| > 0
  {
    var s := open(files[0]);
    Coords(s.lat, s.lon, s.bath)
  }

  /** The number of slots of the frame store. */
  const StoreSlots: nat := 10000000

  /**
   * The end of the run: frame `k` is written to slot `k` of the store, which
   * fails once the slots run out; the empty slots are then dropped and the
   * frames concatenated. Joining no frames at all fails.
   */
  function Join(frames: seq<seq<OutputRow>>): (r: Result<seq<OutputRow>>)
    ensures r == Err(StoreOverflow) <==> |frames| > StoreSlots
    ensures r == Err(NothingToConcatenate) <==> |frames| == 0
    ensures r.Ok? <==> 0 < |frames| <= StoreSlots
    ensures r.Ok? ==> r.value == Concat(frames) && |r.value| == SumLengths(frames)
  {
    if |frames| > StoreSlots then Err(StoreOverflow)
    else
      var padding := StoreSlots - |frames|;
      var store := Filled(frames) + seq(padding, _ => None);
      CompactFilledPrefix(frames, padding);
      ConcatLength(frames);
      var kept := Compact(store);
      if |kept| == 0 then Err(NothingToConcatenate) else Ok(Concat(kept))
  }

  /**
   * A run over a non-empty file list succeeds: every file has a time axis,
   * every timestep of every kept file can be scored with the first file's
   * coordinates and selection, and the kept files have between one and
   * `StoreSlots` timesteps in all.
   */
  predicate RunSucceeds(files: seq<string>, open: string -> Snapshot, decode: real -> DateTime,
                        region: Box, years: YearRange, depthMax: real)
    requires |files| > 0
  {
    var kept := RetainInYears(files, open, decode, years);
    && kept.Ok?
    && var coords := FirstCoords(files, open);
       && FilesSucceed(kept.value, open, SelectedCells(coords, region, depthMax), coords)
       && 0 < TotalSteps(kept.value, open) <= StoreSlots
  }

  /**
   * `e` is the failure of a run over a non-empty file list, by the first
   * stage that rejects it: a file without a time axis, then the first
   * timestep that cannot be scored, then the store running out of slots, and
   * last nothing to concatenate.
   */
  predicate RunFails(files: seq<string>, open: string -> Snapshot, decode: real -> DateTime,
                     region: Box, years: YearRange, depthMax: real, e: Error)
    requires |files| > 0
  {
    var kept := RetainInYears(files, open, decode, years);
    if kept.Err? then e == kept.error
    else
      var coords := FirstCoords(files, open);
      var cells := SelectedCells(coords, region, depthMax);
      if !FilesSucceed(kept.value, open, cells, coords) then FirstFileFailure(kept.value, open, cells, coords, e)
      else if TotalSteps(kept.value, open) > StoreSlots then e == StoreOverflow
      else e == NothingToConcatenate
  }

  /**
   * `CC_probs` up to the written table. The coordinates come from the first
   * listed file whether or not it is in the year range; the store receives one
   * frame per timestep and is compacted and joined at the end.
   */
  function CCProbs(listing: seq<string>, open: string -> Snapshot, decode: real -> DateTime, b: Bundle,
                   region: Box, years: YearRange, depthMax: real): (r: Result<seq<OutputRow>>)
    ensures r == Err(NoSnapshotFiles) <==> |SnapshotFiles(listing)| == 0
    ensures r.Ok? <==> |SnapshotFiles(listing)| > 0 && RunSucceeds(SnapshotFiles(listing), open, decode, region, years, depthMax)
    ensures r.Err? && |SnapshotFiles(listing)| > 0 ==>
              RunFails(SnapshotFiles(listing), open, decode, region, years, depthMax, r.error)
    ensures r.Ok? ==> |r.value| > 0
  {
    var files := SnapshotFiles(listing);
    if |files| == 0 then Err(NoSnapshotFiles)
    else ClassifyFiles(files, open, decode, b, region, years, depthMax)
  }

  /**
   * The run once the file list is known to be non-empty: it succeeds exactly
   * when `RunSucceeds` holds, and otherwise fails as `RunFails` says.
   */
  function ClassifyFiles(files: seq<string>, open: string -> Snapshot, decode: real -> DateTime, b: Bundle,
                         region: Box, years: YearRange, depthMax: real): (r: Result<seq<OutputRow>>)
    requires |files| > 0
    ensures r.Ok? <==> RunSucceeds(files, open, decode, region, years, depthMax)
    ensures r.Err? ==> RunFails(files, open, decode, region, years, depthMax, r.error)
    ensures r.Err? ==> r.error != NoSnapshotFiles
    ensures r.Ok? ==> |r.value| > 0
  {
    var coords := FirstCoords(files, open);
    var kept := RetainInYears(files, open, decode, years);
    if kept.Err? then Err(kept.error)
    else
      var cells := SelectedCells(coords, region, depthMax);
      var frames := ScoreFiles(kept.value, open, b, decode, cells, coords);
      if frames.Err? then Err(frames.error) else Join(frames.value)
  }

  /**
   * A successful run's table is the join of the frames of the kept files in
   * file-then-timestep order: one frame per timestep of each kept file, and as
   * many rows as the frames hold together.
   */
  lemma TableIsJoinOfFrames(listing: seq<string>, open: string -> Snapshot, decode: real -> DateTime, b: Bundle,
                            region: Box, years: YearRange, depthMax: real)
    requires CCProbs(listing, open, decode, b, region, years, depthMax).Ok?
    ensures var files := SnapshotFiles(listing);
            && |files| > 0
            && RetainInYears(files, open, decode, years).Ok?
            && var kept := RetainInYears(files, open, decode, years).value;
               var coords := FirstCoords(files, open);
               var frames := ScoreFiles(kept, open, b, decode, SelectedCells(coords, region, depthMax), coords);
               && frames.Ok?
               && |frames.value| == TotalSteps(kept, open)
               && CCProbs(listing, open, decode, b, region, years, depthMax).value == Concat(frames.value)
               && |CCProbs(listing, open, decode, b, region, years, depthMax).value| == SumLengths(frames.value)
  {
  }

  /**
   * Every row of a successful run's table is one of the selected points of
   * the first listed file's grids, inside the region and above the depth
   * ceiling there; its longitude and latitude are that file's grid values at
   * the row's cell; and its scaled values and probability are the bundle's.
   */
  lemma TableRowsFaithful(listing: seq<string>, open: string -> Snapshot, decode: real -> DateTime, b: Bundle,
                          region: Box, years: YearRange, depthMax: real, o: OutputRow)
    requires CCProbs(listing, open, decode, b, region, years, depthMax).Ok?
    requires o in CCProbs(listing, open, decode, b, region, years, depthMax).value
    ensures var coords := FirstCoords(SnapshotFiles(listing), open);
            && OutputFaithful(b, coords, SelectedCells(coords, region, depthMax), o)
            && o.eta < coords.lon.rows && o.xi < coords.lon.cols
            && Selected(coords, region, depthMax, Flat(OutCell(o), coords.lon.cols))
  {
    TableIsJoinOfFrames(listing, open, decode, b, region, years, depthMax);
    var files := SnapshotFiles(listing);
    var kept := RetainInYears(files, open, decode, years).value;
    var coords := FirstCoords(files, open);
    var cells := SelectedCells(coords, region, depthMax);
    var frames := ScoreFiles(kept, open, b, decode, cells, coords).value;
    JoinedRowFaithful(b, coords, cells, frames, o);
    SelectedCellInside(coords, region, depthMax, OutCell(o));
  }

  /** A row of the joined table comes from some frame, so it is faithful. */
  lemma JoinedRowFaithful(b: Bundle, coords: Coords, cells: seq<Cell>, frames: seq<seq<OutputRow>>, o: OutputRow)
    requires FramesFaithful(b, coords, cells, frames)
    requires o in Concat(frames)
    ensures OutputFaithful(b, coords, cells, o)
  {
    ConcatMembers(frames, o);
    var k :| 0 <= k < |frames| && o in frames[k];
  }

  /** A selected cell lies inside the longitude grid and its flat index passes the test. */
  lemma SelectedCellInside(c: Coords, box: Box, depthMax: real, e: Cell)
    requires e in SelectedCells(c, box, depthMax)
    ensures e.eta < c.lon.rows && e.xi < c.lon.cols
    ensures Selected(c, box, depthMax, Flat(e, c.lon.cols))
  {
    var cells := SelectedCells(c, box, depthMax);
    SelectedCellsExact(c, box, depthMax);
    var m :| 0 <= m < |cells| && cells[m] == e;
  }

  /**
   * No successful run yields an empty table. In particular an empty region
   * selection is not reported by a check of its own: the run fails, either
   * because no file is kept or because the first timestep's frame is empty.
   */
  lemma EmptySelectionFails(listing: seq<string>, open: string -> Snapshot, decode: real -> DateTime, b: Bundle,
                            region: Box, years: YearRange, depthMax: real)
    requires |SnapshotFiles(listing)| > 0
    requires |SelectedCells(FirstCoords(SnapshotFiles(listing), open), region, depthMax)| == 0
    ensures CCProbs(listing, open, decode, b, region, years, depthMax).Err?
  {
    if CCProbs(listing, open, decode, b, region, years, depthMax).Ok? {
      var o := CCProbs(listing, open, decode, b, region, years, depthMax).value[0];
      TableRowsFaithful(listing, open, decode, b, region, years, depthMax, o);
      assert false;
    }
  }

  /** A run whose year range keeps no file fails at the final concatenation. */
  lemma NoKeptFileFails(listing: seq<string>, open: string -> Snapshot, decode: real -> DateTime, b: Bundle,
                        region: Box, years: YearRange, depthMax: real)
    requires |SnapshotFiles(listing)| > 0
    requires RetainInYears(SnapshotFiles(listing), open, decode, years) == Ok([])
    ensures CCProbs(listing, open, decode, b, region, years, depthMax) == Err(NothingToConcatenate)
  {
  }

  /**
   * `CC_probs` with its default arguments: the years 2012 to 2014 and a depth
   * ceiling of 10^10 m. A successful run's rows all lie inside the region,
   * at points shallower than that ceiling.
   */
  function CCProbsDefaults(listing: seq<string>, open: string -> Snapshot, decode: real -> DateTime, b: Bundle,
                           region: Box): (r: Result<seq<OutputRow>>)
    ensures r == Err(NoSnapshotFiles) <==> |SnapshotFiles(listing)| == 0
    ensures r.Ok? <==> |SnapshotFiles(listing)| > 0 &&
                       RunSucceeds(SnapshotFiles(listing), open, decode, region, DefaultYears, DefaultDepthMax)
    ensures r.Ok? ==> forall o :: o in r.value ==>
              var coords := FirstCoords(SnapshotFiles(listing), open);
              Selected(coords, region, DefaultDepthMax, Flat(OutCell(o), coords.lon.cols))
  {
    var r := CCProbs(listing, open, decode, b, region, DefaultYears, DefaultDepthMax);
    if r.Ok? then
      assert forall o :: o in r.value ==>
               var coords := FirstCoords(SnapshotFiles(listing), open);
               Selected(coords, region, DefaultDepthMax, Flat(OutCell(o), coords.lon.cols)) by {
        forall o | o in r.value
          ensures var coords := FirstCoords(SnapshotFiles(listing), open);
                  Selected(coords, region, DefaultDepthMax, Flat(OutCell(o), coords.lon.cols))
        {
          TableRowsFaithful(listing, open, decode, b, region, DefaultYears, DefaultDepthMax, o);
        }
      }
      r
    else r
  }
}
