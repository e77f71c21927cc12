/**
 * The uniform spatial grid of ParticleManager, as functions of the particle
 * positions and the grid translation: which cell a particle is filed under
 * (PutParticleInGrid), what each cell holds after the rebuild at the top of
 * Update, the order of the non-empty-cell index, and the 3x3x3 block of
 * cells the neighbour scan visits.  Everything after GridCell is stated over
 * the filing `f`, the cell (or none) of every particle in list order, so the
 * rebuilt grid depends on the particles only through their positions.
 */
module Grid {
  import opened Options
  import opened Vectors
  import opened Forces

  /** `_gridSize`: cells per axis. */
  const G: int := 64

  /** A cell coordinate, the `int[] { x, y, z }` of `_nonEmptyCells`. */
  datatype Cell = Cell(x: int, y: int, z: int)

  /** A cell that exists in the `G x G x G` array. */
  predicate InGrid(c: Cell) {
    0 <= c.x < G && 0 <= c.y < G && 0 <= c.z < G
  }

  /**
   * The cell a particle at `position` is filed under, or None when the
   * translated position is not strictly inside `(0, G)` on every axis.  A
   * filed particle's cell exists in the grid.
   */
  function GridCell(position: Vec3, translation: Vec3): (r: Option<Cell>)
    ensures r.Some? ==> InGrid(r.value)
  {
    var v := Sub(position, translation);
    if v.x < G as real && v.y < G as real && v.z < G as real &&
       v.x > 0.0 && v.y > 0.0 && v.z > 0.0
    then Some(Cell(Trunc(v.x), Trunc(v.y), Trunc(v.z)))
    else None
  }

  /**
   * A particle is filed exactly when its translated position is strictly
   * inside `(0, G)` on every axis, and then it lies inside its cell.
   */
  lemma GridCellBounds(position: Vec3, translation: Vec3)
    ensures var r, v := GridCell(position, translation), Sub(position, translation);
            (r.Some? <==> 0.0 < v.x < G as real && 0.0 < v.y < G as real && 0.0 < v.z < G as real) &&
            (r.Some? ==>
              r.value.x as real <= v.x < r.value.x as real + 1.0 &&
              r.value.y as real <= v.y < r.value.y as real + 1.0 &&
              r.value.z as real <= v.z < r.value.z as real + 1.0)
  {
  }

  /** The cell of every particle, in list order. */
  function Filing(ps: seq<Particle>, t: Vec3): seq<Option<Cell>>
  {
    seq(|ps|, j requires 0 <= j < |ps| => GridCell(ps[j].position, t))
  }

  /**
   * The filing has one entry per particle, that particle's cell, and every
   * filed cell exists in the grid.
   */
  lemma FilingInGrid(ps: seq<Particle>, t: Vec3)
    ensures |Filing(ps, t)| == |ps|
    ensures forall j :: 0 <= j < |ps| ==> Filing(ps, t)[j] == GridCell(ps[j].position, t)
    ensures forall j :: 0 <= j < |ps| && Filing(ps, t)[j].Some? ==> InGrid(Filing(ps, t)[j].value)
  {
  }

  /**
   * Appending a particle to the list appends its cell to the filing and
   * leaves the filing of every earlier particle as it was.
   */
  lemma FilingAppend(ps: seq<Particle>, p: Particle, t: Vec3)
    ensures Filing(ps + [p], t) == Filing(ps, t) + [GridCell(p.position, t)]
  {
  }

  /**
   * The filing depends on the particles only through their positions:
   * velocities, masses and accumulators play no part in where a particle
   * is filed.
   */
  lemma FilingDependsOnlyOnPositions(ps: seq<Particle>, qs: seq<Particle>, t: Vec3)
    requires |ps| == |qs|
    requires forall j :: 0 <= j < |ps| ==> ps[j].position == qs[j].position
    ensures Filing(ps, t) == Filing(qs, t)
  {
  }

  /** The cell of particle `j`, or None for an index past the list. */
  function CellOfIndex(f: seq<Option<Cell>>, j: nat): Option<Cell> {
    if j < |f| then f[j] else None
  }

  /**
   * The list cell `c` holds once the first `n` particles have been put in
   * the grid in list order: their indices, strictly increasing.
   */
  function Members(f: seq<Option<Cell>>, c: Cell, n: nat): (r: seq<nat>)
    requires n <= |f|
  {
    if n == 0 then []
    else
      var prev := Members(f, c, n - 1);
      if f[n - 1] == Some(c) then prev + [n - 1] else prev
  }

  /** A list of particle indices as the grid stores it: an empty list is a null cell. */
  function Lift(s: seq<nat>): Option<seq<nat>> {
    if s == [] then None else Some(s)
  }

  /**
   * `_nonEmptyCells` after the first `n` insertions: a cell is appended at
   * the insertion that allocates its list, i.e. when it was still empty.
   */
  function FirstUse(f: seq<Option<Cell>>, n: nat): seq<Cell>
    requires n <= |f|
  {
    if n == 0 then []
    else
      var prev := FirstUse(f, n - 1);
      match f[n - 1]
      case None => prev
      case Some(c) => if Members(f, c, n - 1) == [] then prev + [c] else prev
  }

  /** Cell `c` holds particle `j` exactly when `j` is among the first `n` and files under `c`. */
  lemma {:induction false} MembersExact(f: seq<Option<Cell>>, c: Cell, n: nat, j: nat)
    requires n <= |f|
    ensures j in Members(f, c, n) <==> j < n && f[j] == Some(c)
  {
    if n > 0 {
      MembersExact(f, c, n - 1, j);
    }
  }

  /** A cell lists its particles in increasing index order, so never one twice. */
  lemma {:induction false} MembersIncreasing(f: seq<Option<Cell>>, c: Cell, n: nat)
    requires n <= |f|
    ensures forall a, b :: 0 <= a < b < |Members(f, c, n)| ==> Members(f, c, n)[a] < Members(f, c, n)[b]
  {
    if n > 0 {
      MembersIncreasing(f, c, n - 1);
      var prev := Members(f, c, n - 1);
      if f[n - 1] == Some(c) {
        var r := prev + [n - 1];
        assert Members(f, c, n) == r;
        forall a, b | 0 <= a < b < |r| ensures r[a] < r[b] {
          if b == |prev| {
            MembersExact(f, c, n - 1, prev[a]);
          }
        }
      }
    }
  }

  /** Cell `c` holds particle `j` once if `j` files under `c`, and otherwise not at all. */
  lemma {:induction false} MembersCount(f: seq<Option<Cell>>, c: Cell, n: nat, j: nat)
    requires n <= |f|
    ensures multiset(Members(f, c, n))[j] == if j < n && f[j] == Some(c) then 1 else 0
  {
    if n > 0 {
      MembersCount(f, c, n - 1, j);
      var prev := Members(f, c, n - 1);
      if f[n - 1] == Some(c) {
        var last: nat := n - 1;
        assert Members(f, c, n) == prev + [last];
        assert multiset(Members(f, c, n)) == multiset(prev) + multiset{last};
      }
    }
  }

  /**
   * The non-empty-cell index lists exactly the cells that hold a particle,
   * each once.
   */
  lemma {:induction false} FirstUseExact(f: seq<Option<Cell>>, n: nat)
    requires n <= |f|
    ensures forall c :: c in FirstUse(f, n) <==> Members(f, c, n) != []
    ensures forall a, b :: 0 <= a < b < |FirstUse(f, n)| ==> FirstUse(f, n)[a] != FirstUse(f, n)[b]
  {
    if n > 0 {
      FirstUseExact(f, n - 1);
      var prev := FirstUse(f, n - 1);
      if f[n - 1].Some? && Members(f, f[n - 1].value, n - 1) == [] {
        var c := f[n - 1].value;
        assert c !in prev;
        assert FirstUse(f, n) == prev + [c];
      }
      var cs := FirstUse(f, n);
      forall a, b | 0 <= a < b < |cs| ensures cs[a] != cs[b] {
        if b == |prev| {
          assert cs[a] == prev[a] && prev[a] in prev && cs[b] !in prev;
        }
      }
      forall c ensures c in FirstUse(f, n) <==> Members(f, c, n) != [] {
        var m := Members(f, c, n - 1);
        if f[n - 1] == Some(c) {
          assert Members(f, c, n) == m + [n - 1];
        } else {
          assert Members(f, c, n) == m;
        }
      }
    }
  }

  /**
   * The cells and the non-empty index after `n` insertions depend only on
   * the first `n` particles: appending a particle changes nothing already
   * filed.
   */
  lemma {:induction false} FilingPrefix(f: seq<Option<Cell>>, g: seq<Option<Cell>>, n: nat)
    requires n <= |f| && n <= |g| && f[..n] == g[..n]
    ensures forall c :: Members(f, c, n) == Members(g, c, n)
    ensures FirstUse(f, n) == FirstUse(g, n)
  {
    if n > 0 {
      assert f[..n - 1] == f[..n][..n - 1] && g[..n - 1] == g[..n][..n - 1];
      assert f[n - 1] == f[..n][n - 1] && g[n - 1] == g[..n][n - 1];
      FilingPrefix(f, g, n - 1);
    }
  }

  /** Cells within one step of each other on every axis. */
  predicate Near(a: Cell, b: Cell) {
    -1 <= a.x - b.x <= 1 && -1 <= a.y - b.y <= 1 && -1 <= a.z - b.z <= 1
  }

  /** What the scan reads from cell `c`: nothing outside the grid. */
  function CellAt(f: seq<Option<Cell>>, c: Cell): seq<nat>
  {
    if InGrid(c) then Members(f, c, |f|) else []
  }

  /** The `z2` loop: the first `n` cells `(x2, y2, centre.z - 1 + i)`. */
  function ZRun(f: seq<Option<Cell>>, centre: Cell, x2: int, y2: int, n: nat): seq<nat>
  {
    if n == 0 then []
    else ZRun(f, centre, x2, y2, n - 1) + CellAt(f, Cell(x2, y2, centre.z - 1 + (n - 1)))
  }

  /** The `y2` loop: the first `n` rows `y2 = centre.y - 1 + i` of slab `x2`. */
  function YRows(f: seq<Option<Cell>>, centre: Cell, x2: int, n: nat): seq<nat>
  {
    if n == 0 then []
    else YRows(f, centre, x2, n - 1) + ZRun(f, centre, x2, centre.y - 1 + (n - 1), 3)
  }

  /** The `x2` loop: the first `n` slabs `x2 = centre.x - 1 + i`. */
  function XRows(f: seq<Option<Cell>>, centre: Cell, n: nat): seq<nat>
  {
    if n == 0 then []
    else XRows(f, centre, n - 1) + YRows(f, centre, centre.x - 1 + (n - 1), 3)
  }

  /** Every particle index the scan meets around `centre`, in visiting order. */
  function Block(f: seq<Option<Cell>>, centre: Cell): seq<nat>
  {
    XRows(f, centre, 3)
  }

  /** Occurrences in a concatenation add up. */
  lemma CountConcat(a: seq<nat>, b: seq<nat>, j: nat)
    ensures multiset(a + b)[j] == multiset(a)[j] + multiset(b)[j]
  {
  }

  lemma CellAtCount(f: seq<Option<Cell>>, c: Cell, j: nat)
    requires forall i :: 0 <= i < |f| && f[i].Some? ==> InGrid(f[i].value)
    ensures multiset(CellAt(f, c))[j] == if CellOfIndex(f, j) == Some(c) then 1 else 0
  {
    if InGrid(c) {
      MembersCount(f, c, |f|, j);
    }
  }

  lemma {:induction false} ZRunCount(f: seq<Option<Cell>>, centre: Cell, x2: int, y2: int, n: nat, j: nat)
    requires forall i :: 0 <= i < |f| && f[i].Some? ==> InGrid(f[i].value)
    ensures var o := CellOfIndex(f, j);
            multiset(ZRun(f, centre, x2, y2, n))[j] ==
            if o.Some? && o.value.x == x2 && o.value.y == y2 &&
               centre.z - 1 <= o.value.z < centre.z - 1 + n then 1 else 0
  {
    if n > 0 {
      ZRunCount(f, centre, x2, y2, n - 1, j);
      var c := Cell(x2, y2, centre.z - 1 + (n - 1));
      CellAtCount(f, c, j);
      var a, b := ZRun(f, centre, x2, y2, n - 1), CellAt(f, c);
      assert ZRun(f, centre, x2, y2, n) == a + b;
      var ma: multiset<nat>, mb: multiset<nat> := multiset(a), multiset(b);
      assert multiset(a + b) == ma + mb;
      var o := CellOfIndex(f, j);
      assert (o == Some(c)) == (o.Some? && o.value.x == x2 && o.value.y == y2 && o.value.z == c.z);
    }
  }

  lemma {:induction false} YRowsCount(f: seq<Option<Cell>>, centre: Cell, x2: int, n: nat, j: nat)
    requires forall i :: 0 <= i < |f| && f[i].Some? ==> InGrid(f[i].value)
    ensures var o := CellOfIndex(f, j);
            multiset(YRows(f, centre, x2, n))[j] ==
            if o.Some? && o.value.x == x2 && centre.y - 1 <= o.value.y < centre.y - 1 + n &&
               -1 <= o.value.z - centre.z <= 1 then 1 else 0
  {
    if n > 0 {
      var y2 := centre.y - 1 + (n - 1);
      assert multiset(YRows(f, centre, x2, n))[j] ==
             multiset(YRows(f, centre, x2, n - 1))[j] + multiset(ZRun(f, centre, x2, y2, 3))[j] by {
        var a, b := YRows(f, centre, x2, n - 1), ZRun(f, centre, x2, y2, 3);
        assert YRows(f, centre, x2, n) == a + b;
        assert multiset(a + b) == multiset(a) + multiset(b);
      }
      YRowsCount(f, centre, x2, n - 1, j);
      ZRunCount(f, centre, x2, y2, 3, j);
    }
  }

  lemma {:induction false} XRowsCount(f: seq<Option<Cell>>, centre: Cell, n: nat, j: nat)
    requires forall i :: 0 <= i < |f| && f[i].Some? ==> InGrid(f[i].value)
    ensures var o := CellOfIndex(f, j);
            multiset(XRows(f, centre, n))[j] ==
            if o.Some? && centre.x - 1 <= o.value.x < centre.x - 1 + n &&
               -1 <= o.value.y - centre.y <= 1 && -1 <= o.value.z - centre.z <= 1 then 1 else 0
  {
    if n > 0 {
      var o := CellOfIndex(f, j);
      var x2 := centre.x - 1 + (n - 1);
      var a, b := XRows(f, centre, n - 1), YRows(f, centre, x2, 3);
      assert XRows(f, centre, n) == a + b;
      CountConcat(a, b, j);
      var ma: multiset<nat>, mb: multiset<nat> := multiset(a), multiset(b);
      assert ma[j] == if o.Some? && centre.x - 1 <= o.value.x < x2 &&
                         -1 <= o.value.y - centre.y <= 1 && -1 <= o.value.z - centre.z <= 1 then 1 else 0 by {
        XRowsCount(f, centre, n - 1, j);
      }
      assert mb[j] == if o.Some? && o.value.x == x2 &&
                         -1 <= o.value.y - centre.y <= 1 && -1 <= o.value.z - centre.z <= 1 then 1 else 0 by {
        YRowsCount(f, centre, x2, 3, j);
      }
    }
  }

  /**
   * The neighbour block of `centre` meets particle `j` exactly once when
   * `j` is filed in a cell within one step of `centre` on every axis (the
   * clipping at the grid edge drops no filed particle), and never otherwise.
   */
  lemma BlockCount(ps: seq<Particle>, t: Vec3, centre: Cell, j: nat)
    ensures var o := if j < |ps| then GridCell(ps[j].position, t) else None;
            multiset(Block(Filing(ps, t), centre))[j] == if o.Some? && Near(o.value, centre) then 1 else 0
  {
    XRowsCount(Filing(ps, t), centre, 3, j);
  }
}
