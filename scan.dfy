/**
 * The visiting order of the neighbour scan, independent of what a visit
 * does: `step` is applied to a running value once per listed particle, cell
 * by cell, in the order of the three nested loops, and the result equals one
 * fold over Block's list.
 */
module Scan {
  import opened Options
  import opened Grid

  /** Folding `step` over the indices `js`, in order. */
  function Fold<T>(step: (T, nat) -> T, p: T, js: seq<nat>): T
    decreases |js|
  {
    if js == [] then p else step(Fold(step, p, js[..|js| - 1]), js[|js| - 1])
  }

  /**
   * The scan visits cell after cell: folding over a concatenation is
   * folding over the first part and then, from there, over the second.
   */
  lemma {:induction false} FoldAppend<T>(step: (T, nat) -> T, p: T, js: seq<nat>, ks: seq<nat>)
    ensures Fold(step, p, js + ks) == Fold(step, Fold(step, p, js), ks)
    decreases |ks|
  {
    if ks == [] {
      assert js + ks == js;
    } else {
      var front := ks[..|ks| - 1];
      FoldAppend(step, p, js, front);
      assert (js + ks)[..|js + ks| - 1] == js + front;
      assert (js + ks)[|js + ks| - 1] == ks[|ks| - 1];
    }
  }

  /**
   * The three scan loops around cell `c`, one function per loop level,
   * counted in turns: after `n` turns the `z2` loop has visited the cells
   * `(x2, y2, c.z - 1 .. c.z - 2 + n)`, the `y2` loop the columns
   * `c.y - 1 .. c.y - 2 + n` of slab `x2`, and the `x2` loop the slabs
   * `c.x - 1 .. c.x - 2 + n`.  Visiting a cell folds `step` over its list.
   */
  function ColumnScan<T>(step: (T, nat) -> T, p: T, f: seq<Option<Cell>>, c: Cell, x2: int, y2: int, n: nat): T
  {
    if n == 0 then p
    else Fold(step, ColumnScan(step, p, f, c, x2, y2, n - 1), CellAt(f, Cell(x2, y2, c.z - 1 + (n - 1))))
  }

  function SlabScan<T>(step: (T, nat) -> T, p: T, f: seq<Option<Cell>>, c: Cell, x2: int, n: nat): T
  {
    if n == 0 then p
    else ColumnScan(step, SlabScan(step, p, f, c, x2, n - 1), f, c, x2, c.y - 1 + (n - 1), 3)
  }

  function BlockScan<T>(step: (T, nat) -> T, p: T, f: seq<Option<Cell>>, c: Cell, n: nat): T
  {
    if n == 0 then p
    else SlabScan(step, BlockScan(step, p, f, c, n - 1), f, c, c.x - 1 + (n - 1), 3)
  }

  /** One more turn of the `z2` loop appends one cell to ZRun. */
  lemma ColumnStep<T>(step: (T, nat) -> T, p: T, f: seq<Option<Cell>>, c: Cell, x2: int, y2: int, n: nat)
    requires n > 0
    requires ColumnScan(step, p, f, c, x2, y2, n - 1) == Fold(step, p, ZRun(f, c, x2, y2, n - 1))
    ensures ColumnScan(step, p, f, c, x2, y2, n) == Fold(step, p, ZRun(f, c, x2, y2, n))
  {
    FoldAppend(step, p, ZRun(f, c, x2, y2, n - 1), CellAt(f, Cell(x2, y2, c.z - 1 + (n - 1))));
  }

  /** The whole `z2` loop folds over ZRun, in order. */
  lemma ColumnScanIsZRun<T>(step: (T, nat) -> T, p: T, f: seq<Option<Cell>>, c: Cell, x2: int, y2: int)
    ensures ColumnScan(step, p, f, c, x2, y2, 3) == Fold(step, p, ZRun(f, c, x2, y2, 3))
  {
    assert ZRun(f, c, x2, y2, 0) == [];
    ColumnStep(step, p, f, c, x2, y2, 1);
    ColumnStep(step, p, f, c, x2, y2, 2);
    ColumnStep(step, p, f, c, x2, y2, 3);
  }

  /** One more turn of the `y2` loop appends one column to YRows. */
  lemma SlabStep<T>(step: (T, nat) -> T, p: T, f: seq<Option<Cell>>, c: Cell, x2: int, n: nat)
    requires n > 0
    requires SlabScan(step, p, f, c, x2, n - 1) == Fold(step, p, YRows(f, c, x2, n - 1))
    ensures SlabScan(step, p, f, c, x2, n) == Fold(step, p, YRows(f, c, x2, n))
  {
    var y2 := c.y - 1 + (n - 1);
    ColumnScanIsZRun(step, SlabScan(step, p, f, c, x2, n - 1), f, c, x2, y2);
    FoldAppend(step, p, YRows(f, c, x2, n - 1), ZRun(f, c, x2, y2, 3));
  }

  /** The whole `y2` loop folds over YRows, in order. */
  lemma SlabScanIsYRows<T>(step: (T, nat) -> T, p: T, f: seq<Option<Cell>>, c: Cell, x2: int)
    ensures SlabScan(step, p, f, c, x2, 3) == Fold(step, p, YRows(f, c, x2, 3))
  {
    assert YRows(f, c, x2, 0) == [];
    SlabStep(step, p, f, c, x2, 1);
    SlabStep(step, p, f, c, x2, 2);
    SlabStep(step, p, f, c, x2, 3);
  }

  /** One more turn of the `x2` loop appends one slab to XRows. */
  lemma BlockStep<T>(step: (T, nat) -> T, p: T, f: seq<Option<Cell>>, c: Cell, n: nat)
    requires n > 0
    requires BlockScan(step, p, f, c, n - 1) == Fold(step, p, XRows(f, c, n - 1))
    ensures BlockScan(step, p, f, c, n) == Fold(step, p, XRows(f, c, n))
  {
    var x2 := c.x - 1 + (n - 1);
    SlabScanIsYRows(step, BlockScan(step, p, f, c, n - 1), f, c, x2);
    FoldAppend(step, p, XRows(f, c, n - 1), YRows(f, c, x2, 3));
  }

  /** The whole `x2` loop folds over the block list, in order. */
  lemma BlockScanIsBlock<T>(step: (T, nat) -> T, p: T, f: seq<Option<Cell>>, c: Cell)
    ensures BlockScan(step, p, f, c, 3) == Fold(step, p, Block(f, c))
  {
    assert XRows(f, c, 0) == [];
    BlockStep(step, p, f, c, 1);
    BlockStep(step, p, f, c, 2);
    BlockStep(step, p, f, c, 3);
  }
}
