# Ocean current classification pipeline — a Dafny model

This project models `classify.py`, the batch pipeline that takes a directory of
ocean-model snapshot files (netCDF archives with `lat_rho`, `lon_rho`, `h`,
`ocean_time`, `temp` and `salt`), keeps those in a year range, selects the grid
points inside a longitude/latitude box and shallower than a depth ceiling, and,
for every timestep of every kept snapshot, scores the level-29 temperature and
salinity at those points with a logistic-regression classifier. The result is
one table of (lon, lat, eta, xi, dt, temp, scaler_temp, salt, scaler_salt,
CCprob) rows.

The model is written as pure functions over immutable data:

- `Base` holds `Option`, the `Result`/`Error` pair for the exceptions the Python
  code raises, and sequence helpers. The helpers are `Filter`, `Map`, `Concat`,
  and `Compact`, which is the `[x for x in store if x is not None]`
  comprehension.
- `Grids` holds row-major 2-D arrays, numpy element and fancy indexing, and the
  flat-index/cell conversion.
- `Snapshots` holds the contents of one snapshot file and the level-29 slice.
- `FileNames` holds the directory-listing filter: substring `.nc`, Python's
  string `sorted`, and the `._` prefix test.
- `YearFilter` holds the retention loop that collects `drop_idx` and the
  reverse-order `del` loop.
- `Region` holds the zip of the three flattened grids, the inclusion test, and
  the conversion to `(eta, xi)`.
- `Classifier` holds `current_model`: which columns each scaler and the
  classifier are fitted on, and the day feature.
- `Scoring` holds `current_probs`: reading, scaling, `dropna`, the first
  probability column, and attaching lon/lat.
- `Pipeline` holds `CC_probs`: one frame per timestep, in file-then-timestep
  order, written to the store, compacted and concatenated.

Several operations depend on code this project does not contain, so they enter
the model as function parameters:

- opening a snapshot file is a parameter `open: string -> Snapshot`;
- `oceantime_2_dt` is a parameter `decode: real -> DateTime`;
- the fitted scalers and the classifier are functions in a `Bundle`;
- fitting them is done by the parameters `fitScaler` and `fitClassifier` of
  `CurrentModel`.

A masked or NaN field value is `None`. The failures listed here are `Error`
values, not preconditions; failures inside the fitting and scoring library
other than the empty-frame one are not modelled (see "Left out"). The errors
are:

- no `.nc` file left (`file_ls[0]`);
- a snapshot with an empty time axis (`ocean_time[0]`);
- a timestep or level-29 slice that does not exist, or a selected cell outside
  a later file's field grid;
- a timestep with no row to score: with no selected cell the scaler's
  `transform` gets an empty frame, and otherwise `dropna` removes every row and
  `predict_proba` gets the empty frame;
- a cell outside the latitude grid;
- more frames than the 10,000,000 store slots;
- nothing to concatenate.

The model keeps several behaviours of the code that a reader might not expect:

- The coordinate grids, and therefore the point selection, come from the first
  listed file, before the year filter, whether or not that file is kept.
  `TableRowsFaithful` states this coordinate source.
- There is no empty-selection check and no grid-shape check.
  - An empty selection is not an error in itself. `EmptySelectionFails` shows
    that such a run still fails, with no table, because every frame it could
    produce would be empty.
  - Grids of different lengths are zipped, which truncates to the shortest
    (`PointCount`).
  - A later snapshot whose field grid is smaller than the selected cells fails
    with an index error. A larger one is read without complaint.
- There are no training-data checks (too few samples, a single class, a
  non-binary label) in this code; any such failure happens inside the library
  fit.

## Model

| member | source | states |
|---|---|---|
| `FileNames.SnapshotFiles` | classify.py:100-104 | the file list is sorted in Python string order and holds exactly the listed names that contain `.nc` and do not start with `._`, each as often as listed |
| `FileNames.SortNames` | classify.py:102 | `sorted` yields an ascending permutation of its input |
| `FileNames.SortedUnique` | classify.py:102 | two ascending arrangements of the same names are equal, so any correct `sorted` gives the same list |
| `FileNames.SnapshotFilesIsTheSortedOrder` | classify.py:100-104 | any ascending list of exactly the visible `.nc` names is the file list |
| `YearFilter.DropScan` | classify.py:121-133 | `drop_idx` is strictly ascending and holds exactly the indices of files whose first and last timestep both fall outside the year range; an empty time axis fails at the first such file |
| `YearFilter.ReverseDescends` | classify.py:140 | `sorted(drop_idx, reverse=True)` of the ascending list is strictly descending with the same members |
| `YearFilter.DeleteAllRemovesListed` | classify.py:140-141 | deleting positions largest first removes exactly those positions and keeps the others in order |
| `YearFilter.WithoutIsFilter` | classify.py:139-141 | removing the positions of the failing elements is the same as filtering by the test |
| `YearFilter.RetainInYears` | classify.py:121-141 | retention succeeds iff every file has a time axis; the retained list is the original list filtered by the overlap test, in order |
| `YearFilter.RetainedIffOverlaps` | classify.py:131-132 | a file is retained iff it is listed and its first or last timestep's year lies in the inclusive range |
| `Region.PointCount` | classify.py:144 | the zip of the three flattened grids has as many points as the shortest grid |
| `Region.ScanPoints` | classify.py:146-151 | the loop appends, in ascending order and without duplicates, exactly the indices of points inside the box and shallower than the ceiling |
| `Region.PointList` | classify.py:144-151 | `point_list` holds each selected flat index exactly once, ascending, and no other index |
| `Region.EtaXi` | classify.py:153-158 | each index becomes a cell inside the longitude grid whose row-major flat index is the original index |
| `Region.SelectedCellsExact` | classify.py:144-158 | the selected cells are exactly the cells of the longitude grid whose flat index passes the test, in ascending flat order |
| `Grids.CellOf` | classify.py:157-158 | `(int(i/ncols), i%ncols)` has a column below `ncols` and flattens back to `i` |
| `Grids.CellOfInside` | classify.py:157 | an index inside a `rows` x `ncols` grid yields a row below `rows` |
| `Grids.FlatInjective` | classify.py:157-158 | distinct cells of the same width have distinct flat indices |
| `Grids.CellFlatRoundTrip` | classify.py:157-158 | flattening a cell and converting back gives the same cell |
| `Grids.Gather` | classify.py:64-65 | fancy indexing at the cells succeeds iff every cell is inside the grid and then yields the value at each cell, in order |
| `Snapshots.LevelField` | classify.py:64-65 | `field[step, 29, :, :]` exists iff the timestep and level 29 exist, and is then that timestep's level-29 grid |
| `Classifier.CurrentModelFits` | classify.py:29-44 | each scaler is fitted on its own raw column, and the classifier on the design built with those same scalers, one row per sample (row `k`: sample `k`'s scaled temperature, scaled salinity and day of the month) against one label per sample in table order |
| `Classifier.ScalersSeeOneColumn` | classify.py:34-35 | the temperature scaler depends on the temperature column alone, the salinity scaler on the salinity column alone |
| `Scoring.ScoringMatchesTraining` | classify.py:72 | a scored row with a training sample's raw values and timestamp gets exactly that sample's design row, day feature included |
| `Scoring.ScoreRows` | classify.py:81-83 | every kept row gets the first column of its own `predict_proba` row as `CCprob` |
| `Scoring.SurvivorCells` | classify.py:67-78 | after `dropna` the rows are those of the cells where both temperature and salinity are present, in cell order |
| `Scoring.SurvivorsFaithful` | classify.py:64-83 | every surviving row carries the field values at its cell, their scaled values, the timestep's day and timestamp, and the classifier's first probability for those features |
| `Scoring.CurrentProbs` | classify.py:62-88 | `current_probs` fails with an index error iff the level-29 slices or a cell are missing, fails iff no row survives, and otherwise returns the present cells' rows in order, each faithful to the fields and the bundle |
| `Scoring.RowCount` | classify.py:78 | the frame has as many rows as selected cells minus those with a missing value |
| `Scoring.FrameKeepsCellOrder` | classify.py:74-78 | dropping rows keeps the survivors in ascending flat order |
| `Scoring.AttachCoords` | classify.py:182-185 | attaching lon/lat succeeds iff every cell is inside both grids; each row gets the grid values at its cell and keeps all its other columns |
| `Pipeline.ScoreStep` | classify.py:176-185 | a timestep is scored iff its slices and cells exist, some cell holds both values and each such cell has coordinates; otherwise it fails at the first of those stages; a frame holds one row per present selected cell in selection order, each read from that timestep and scored by the bundle |
| `Pipeline.ScoreSteps` | classify.py:176-186 | a file succeeds iff every timestep can be scored, and otherwise reports its first failing timestep; it yields one frame per timestep, frame `k` being timestep `k`'s |
| `Pipeline.ScoreFiles` | classify.py:169-186 | the kept files succeed iff every timestep of every file can be scored, and otherwise report the first failure of the first failing file; they yield one frame per timestep in all, each non-empty and faithful |
| `Pipeline.ScoreFilesAppend` | classify.py:169-186 | the frames of two file lists in sequence are those of the first followed by those of the second, and the first list's failure is reported first |
| `Pipeline.Join` | classify.py:185-195 | writing frame `k` to slot `k` fails iff there are more frames than slots; compaction then returns the frames in order, and the concatenation fails iff there are none; so the join succeeds iff there are between one and 10,000,000 frames |
| `Pipeline.CCProbs` | classify.py:100-195 | the run fails with "no snapshot files" iff the name filter leaves nothing; otherwise it succeeds iff every file has a time axis, every timestep of every kept file can be scored and the kept files have between one and 10,000,000 timesteps, and it fails at the first stage that rejects it; a successful run yields a non-empty table |
| `Pipeline.ClassifyFiles` | classify.py:107-195 | once a file exists, the run succeeds iff every file has a time axis, every timestep of every kept file can be scored and the kept timesteps fit the store and are not none; a failure is, in this order, the first empty time axis, the first failing timestep, the store overflow, or nothing to concatenate |
| `Pipeline.CCProbsDefaults` | classify.py:93 | with the default years 2012-2014 and depth ceiling 10^10, the run succeeds under the same conditions, and every row lies inside the region and shallower than the ceiling |
| `Pipeline.TableIsJoinOfFrames` | classify.py:169-195 | a successful table is the concatenation of the kept files' frames in file-then-timestep order, one frame per timestep, as long as the frames together |
| `Pipeline.TableRowsFaithful` | classify.py:107-183 | every table row is a selected cell of the first listed file's grids, inside the box and shallower than the ceiling there, carries that file's lon/lat at its cell, and is scored by the bundle |
| `Pipeline.EmptySelectionFails` | classify.py:146-158 | with no selected point the run never succeeds |
| `Pipeline.NoKeptFileFails` | classify.py:194-195 | when no file is in the year range the run fails at the concatenation |
| `Base.CompactFilledPrefix` | classify.py:164-194 | a store whose first slots hold the frames and whose remaining slots are empty compacts to exactly the frames, in order |

## Left out

- Reading files: directory listing (`listdir`/`isfile`), opening netCDF archives and closing them. The listing is a sequence of names and opening a file is the function `open`. A file that cannot be opened, or that lacks a variable, is not modelled.
- `oceantime_2_dt` (another module, not part of this model) is the parameter `decode`.
- Fitting and applying `StandardScaler` and `LogisticRegressionCV` (the library's statistics, including its cross-validation and its own input checks) are given functions. So is reading the training CSV.
- The coefficient and standard-deviation printout, all other `print` calls, the progress bar and writing the output CSV are left out: they do not change the table.
- `Classifier.CurrentModel` has no postcondition of its own. What it computes is stated by `CurrentModelFits`, and further by `ScalersSeeOneColumn` and `ScoringMatchesTraining`.
- The classifier is fitted on columns named `temp`, `salt`, `DoY` (classify.py:44) and scored on columns named `scaler_temp`, `scaler_salt`, `DoY` (classify.py:81). The model assumes a library that matches feature columns by position. A scikit-learn that checks feature names (version 1.2 and later) rejects this mismatch in `predict_proba`, so every non-empty frame would fail; that failure is not modelled.
- The classifier is assumed to have exactly two classes (`Prob` has two components). With more classes the unpacking `prob_A, prob_B = zip(*probs)` would fail, and that is not modelled.
- `Grids.CellOf`: Python's `int(i/ncols)` goes through floating point; it is modelled as exact integer division, which differs only for flat indices above 2^53.
- Real numbers stand in for floating-point coordinates, depths and field values. NaN comparisons in the inclusion test are not modelled.
- The region and year arguments are records with four and two fields, so a region list with fewer than four entries, which would fail in Python, is not modelled.
- A store overflow (`Pipeline.Join`) is reported after all frames are scored, whereas the source fails at the write of frame 10,000,001. When a later timestep would also fail, the model reports that later failure instead.
- `Pipeline.ScoreFiles` states that each frame is non-empty and faithful, and that it has one frame per timestep. The per-timestep identity of each frame (`StepFrame`) is stated by `Pipeline.ScoreSteps` per file and assembled through `Pipeline.ScoreFilesAppend`; it is not restated for the whole list.
- The two driver scripts (`PROGRAM_boxCheck.py`, `EAC_probs.py`) are not part of this model.
