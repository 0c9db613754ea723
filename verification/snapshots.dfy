/**
 * One ROMS output archive as the pipeline reads it: the raw `ocean_time`
 * axis, the static `lat_rho`, `lon_rho` and `h` grids, and the 4-D `temp`
 * and `salt` fields indexed [time][level][eta, xi], whose masked cells are
 * missing values.
 */
module Snapshots {
  import opened Base
  import opened Grids

  type Month = m: int | 1 <= m <= 12 witness 1
  type DayOfMonth = d: int | 1 <= d <= 31 witness 1
  type SecondOfDay = s: int | 0 <= s < 86400 witness 0

  /** A calendar timestamp, as the time-axis decoder returns it. */
  datatype DateTime = DateTime(year: int, month: Month, day: DayOfMonth, second: SecondOfDay)

  /** One timestep of a field: a grid per vertical level, masked cells `None`. */
  type Levels = seq<Grid<Option<real>>>

  datatype Snapshot = Snapshot(
    oceanTime: seq<real>,
    lat: Grid<real>,
    lon: Grid<real>,
    bath: Grid<real>,
    temp: seq<Levels>,
    salt: seq<Levels>)

  /** The vertical level the pipeline classifies at. */
  const Level: nat := 29

  /**
   * `field[step, 29, :, :]`, or `None` where the timestep or the level does
   * not exist and numpy raises an IndexError.
   */
  function LevelField(field: seq<Levels>, step: nat): (r: Option<Grid<Option<real>>>)
    ensures r.Some? <==> step < |field| && Level < |field[step]|
    ensures r.Some? ==> r.value == field[step][Level]
  {
    if step < |field| && Level < |field[step]| then Some(field[step][Level]) else None
  }
}
