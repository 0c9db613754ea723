/**
 * Two-dimensional numpy arrays as the pipeline uses them: a shape and the
 * row-major flattening (`ravel`), indexing by (eta, xi) with numpy's
 * out-of-range failure, fancy indexing at a list of cells, and the
 * conversion between a flat index and its (eta, xi) cell.
 */
module Grids {
  import opened Base

  /** A `rows` x `cols` array stored row-major; `data` is its `ravel()`. */
  datatype Array2<T> = Array2(rows: nat, cols: nat, data: seq<T>)

  /** An array whose flattening has exactly one entry per cell. */
  type Grid<T> = g: Array2<T> | |g.data| == g.rows * g.cols witness Array2(0, 0, [])

  /** A grid position: `eta` the row index, `xi` the column index. */
  datatype Cell = Cell(eta: nat, xi: nat)

  /** The row-major flat index of a cell in an array with `cols` columns. */
  function Flat(c: Cell, cols: nat): nat {
    c.eta * cols + c.xi
  }

  /** `Flat` as a sort key over cells. */
  function FlatKey(cols: nat): Cell -> int {
    c => Flat(c, cols)
  }

  lemma CellBelowSize(rows: nat, cols: nat, c: Cell)
    requires c.eta < rows && c.xi < cols
    ensures Flat(c, cols) < rows * cols
  {
    assert c.eta * cols + c.xi < c.eta * cols + cols == (c.eta + 1) * cols;
    assert (c.eta + 1) * cols <= rows * cols by {
      MulMonotone(c.eta + 1, rows, cols);
    }
  }

  lemma MulMonotone(a: nat, b: nat, c: nat)
    requires a <= b
    ensures a * c <= b * c
  {
  }

  /** `g[c.eta, c.xi]`, or `None` where numpy raises an IndexError. */
  function Get<T>(g: Grid<T>, c: Cell): Option<T> {
    if c.eta < g.rows && c.xi < g.cols then
      CellBelowSize(g.rows, g.cols, c);
      Some(g.data[Flat(c, g.cols)])
    else None
  }

  /**
   * Fancy indexing `g[etas, xis]` at the cells in order: the values at every
   * cell, or `None` when some cell lies outside the array.
   */
  function Gather<T>(g: Grid<T>, cells: seq<Cell>): (r: Option<seq<T>>)
    ensures r.Some? <==> forall k :: 0 <= k < |cells| ==> Get(g, cells[k]).Some?
    ensures r.Some? ==> |r.value| == |cells|
    ensures r.Some? ==> forall k :: 0 <= k < |cells| ==> Get(g, cells[k]) == Some(r.value[k])
  {
    if |cells| == 0 then Some([])
    else
      match Get(g, cells[0])
      case None => None
      case Some(v) =>
        match Gather(g, cells[1..])
        case None => None
        case Some(rest) => Some([v] + rest)
  }

  /**
   * The cell of flat index `i` in an array with `cols` columns:
   * `eta = int(i / cols)`, `xi = i % cols`.
   */
  function CellOf(i: nat, cols: nat): (c: Cell)
    requires cols > 0
    ensures c.xi < cols
    ensures Flat(c, cols) == i
  {
    Cell(i / cols, i % cols)
  }

  /** A flat index inside a `rows` x `cols` array names a row inside it. */
  lemma CellOfInside(i: nat, rows: nat, cols: nat)
    requires cols > 0 && i < rows * cols
    ensures CellOf(i, cols).eta < rows
  {
    var c := CellOf(i, cols);
    if c.eta >= rows {
      MulMonotone(rows, c.eta, cols);
      assert false;
    }
  }

  /** Two cells of the same width with the same flat index are the same cell. */
  lemma FlatInjective(c: Cell, d: Cell, cols: nat)
    requires c.xi < cols && d.xi < cols
    requires Flat(c, cols) == Flat(d, cols)
    ensures c == d
  {
    if c.eta < d.eta {
      MulMonotone(c.eta + 1, d.eta, cols);
      assert false;
    } else if d.eta < c.eta {
      MulMonotone(d.eta + 1, c.eta, cols);
      assert false;
    }
  }

  /** Cell to flat index and back gives the cell again. */
  lemma CellFlatRoundTrip(c: Cell, cols: nat)
    requires c.xi < cols
    ensures CellOf(Flat(c, cols), cols) == c
  {
    FlatInjective(CellOf(Flat(c, cols), cols), c, cols);
  }

  /** A grid with at least one entry has at least one column. */
  lemma NonEmptyHasColumns<T>(g: Grid<T>, i: nat)
    requires i < |g.data|
    ensures g.cols > 0
  {
    if g.cols == 0 {
      assert false;
    }
  }
}
