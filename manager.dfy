/**
 * The ParticleManager object: the emitter, the particle list, the spatial
 * grid with its non-empty-cell index, the per-step Update and the field
 * rasterizer.  A particle is named by its index in `particles`; the grid
 * stores indices, a null cell is `None`, and `nonEmptyCells` is `None`
 * until the first Update allocates it.
 */
module Fluid {
  import opened Options
  import opened Vectors
  import opened Forces
  import opened Grid
  import opened Scan
  import opened Solver
  import opened Rasterizer

  /** `_particleScale`: the radius of an emitted particle. */
  const ParticleScale: real := 0.1

  /** The list a grid cell holds; a null cell holds nothing. */
  function Contents(cell: Option<seq<nat>>): seq<nat>
  {
    if cell.Some? then cell.value else []
  }

  /**
   * A particle as EmitParticle creates it: at `position`, moving with
   * `velocity`, mass `_particleScale / 10000`, every accumulator zero.
   */
  function NewParticle(position: Vec3, velocity: Vec3): Particle
  {
    Particle(position, velocity, ParticleScale / 10000.0, Zero(), Zero(), Zero(), Zero(), 0.0)
  }

  /** `now` is `was` with entry `i` replaced by `p` and every other entry kept. */
  ghost predicate Replaced(now: seq<Particle>, was: seq<Particle>, i: nat, p: Particle) {
    |now| == |was| && i < |was| && now[i] == p &&
    forall j | 0 <= j < |was| && j != i :: now[j] == was[j]
  }

  class ParticleManager {
    /** `Position` of the emitter box. */
    const emitterPosition: Vec3
    /** `Forward`, the emission direction and initial velocity. */
    const forward: Vec3
    /** `EmitterBox.Width`. */
    const emitterWidth: real
    /** `_translation`, the offset of the grid's corner. */
    const gridTranslation: Vec3
    /** The floating-point kernels of the force steps. */
    const kernels: Kernels

    var particles: seq<Particle>
    var grid: array3<Option<seq<nat>>>
    var nonEmptyCells: Option<seq<Cell>>

    /**
     * The grid has `G` cells per axis.  Before the first Update every cell
     * is null; afterwards the non-empty index lists, without repetition,
     * exactly the cells that are not null, all in the grid.
     */
    ghost predicate Valid()
      reads this`grid, this`nonEmptyCells, grid
    {
      grid.Length0 == G && grid.Length1 == G && grid.Length2 == G &&
      Indexed(nonEmptyCells)
    }

    /** The non-empty index against the grid's cells, as Valid states it. */
    ghost predicate Indexed(index: Option<seq<Cell>>)
      requires grid.Length0 == G && grid.Length1 == G && grid.Length2 == G
      reads this`grid, this`nonEmptyCells, grid
    {
      match index
      case None =>
        forall x, y, z | 0 <= x < G && 0 <= y < G && 0 <= z < G :: grid[x, y, z].None?
      case Some(cells) =>
        (forall a, b | 0 <= a < b < |cells| :: cells[a] != cells[b]) &&
        (forall a | 0 <= a < |cells| :: InGrid(cells[a])) &&
        (forall x, y, z | 0 <= x < G && 0 <= y < G && 0 <= z < G ::
           grid[x, y, z].Some? <==> Cell(x, y, z) in cells)
    }

    /**
     * The grid and its index are what putting the first `n` particles of
     * filing `f` into an empty grid, in order, produces.
     */
    ghost predicate Files(f: seq<Option<Cell>>, n: nat)
      requires n <= |f|
      reads this`grid, this`nonEmptyCells, grid
    {
      grid.Length0 == G && grid.Length1 == G && grid.Length2 == G &&
      (forall x, y, z | 0 <= x < G && 0 <= y < G && 0 <= z < G ::
         grid[x, y, z] == Lift(Members(f, Cell(x, y, z), n))) &&
      nonEmptyCells == Some(FirstUse(f, n))
    }

    /** The lists of the grid's cells are those of filing `f`, as the scan reads them. */
    ghost predicate Lists(f: seq<Option<Cell>>)
      reads this`grid, grid
    {
      grid.Length0 == G && grid.Length1 == G && grid.Length2 == G &&
      forall x, y, z | 0 <= x < G && 0 <= y < G && 0 <= z < G ::
        Contents(grid[x, y, z]) == CellAt(f, Cell(x, y, z))
    }

    /** Where EmitParticle places a new particle: `Position + Forward * EmitterBox.Width`. */
    function EmitPosition(): Vec3 {
      Add(emitterPosition, Scale(forward, emitterWidth))
    }

    /**
     * The constructor allocates an all-null grid; the non-empty index is not
     * allocated yet.
     */
    constructor (emitterPosition: Vec3, forward: Vec3, emitterWidth: real,
                 translation: Vec3, kernels: Kernels)
      ensures Valid() && fresh(grid)
      ensures this.emitterPosition == emitterPosition && this.forward == forward
      ensures this.emitterWidth == emitterWidth && this.gridTranslation == translation
      ensures this.kernels == kernels
      ensures particles == [] && nonEmptyCells == None
    {
      this.emitterPosition := emitterPosition;
      this.forward := forward;
      this.emitterWidth := emitterWidth;
      this.kernels := kernels;
      particles := [];
      grid := new Option<seq<nat>>[G, G, G]((_, _, _) => None);
      gridTranslation := translation;
      nonEmptyCells := None;
    }

    /**
     * PutParticleInGrid(particles[i]).  A particle outside the open box
     * changes nothing.  Otherwise it is appended at the end of its cell; no
     * other cell changes; and the cell joins the end of the non-empty index
     * exactly when its list is allocated here.  Allocating a list before the
     * first Update would dereference the null index, so that case is
     * excluded.
     */
    method PutParticleInGrid(i: nat, ghost f: seq<Option<Cell>>)
      requires Valid() && i < |particles|
      requires nonEmptyCells.Some? || GridCell(particles[i].position, gridTranslation).None?
      requires i < |f| && f[i] == GridCell(particles[i].position, gridTranslation)
      modifies grid, this`nonEmptyCells
      ensures Valid()
      ensures old(Files(f, i)) ==> Files(f, i + 1)
      ensures grid == old(grid)
      ensures f[i].None? ==> unchanged(grid) && nonEmptyCells == old(nonEmptyCells)
      ensures f[i].Some? ==> PutInCell(f[i].value, i)
    {
      var pos := Sub(particles[i].position, gridTranslation);
      if pos.x < G as real && pos.y < G as real && pos.z < G as real &&
         pos.x > 0.0 && pos.y > 0.0 && pos.z > 0.0 {
        var x, y, z := Trunc(pos.x), Trunc(pos.y), Trunc(pos.z);
        if grid[x, y, z].None? {
          grid[x, y, z] := Some([]);
          nonEmptyCells := Some(nonEmptyCells.value + [Cell(x, y, z)]);
        }
        grid[x, y, z] := Some(grid[x, y, z].value + [i]);
      }
      if old(Files(f, i)) {
        forall x, y, z | 0 <= x < G && 0 <= y < G && 0 <= z < G
          ensures grid[x, y, z] == Lift(Members(f, Cell(x, y, z), i + 1))
        {
          assert old(grid[x, y, z]) == Lift(Members(f, Cell(x, y, z), i));
        }
      }
    }

    /**
     * The effect of putting particle `i` into cell `c`: it is appended at
     * the end of that cell's list (allocated if it was null), no other cell
     * changes, and `c` is appended to the non-empty index exactly when its
     * list was allocated.
     */
    twostate predicate PutInCell(c: Cell, i: nat)
      requires InGrid(c) && grid == old(grid) && grid.Length0 == G && grid.Length1 == G && grid.Length2 == G
      reads this`grid, this`nonEmptyCells, grid
    {
      grid[c.x, c.y, c.z] == Some(Contents(old(grid[c.x, c.y, c.z])) + [i]) &&
      (forall x, y, z | 0 <= x < G && 0 <= y < G && 0 <= z < G && Cell(x, y, z) != c ::
         grid[x, y, z] == old(grid[x, y, z])) &&
      nonEmptyCells == if old(grid[c.x, c.y, c.z]).None? && old(nonEmptyCells).Some?
                       then Some(old(nonEmptyCells).value + [c])
                       else old(nonEmptyCells)
    }

    /**
     * The rebuild at the top of Update: a fresh all-null grid and an empty
     * index, then every particle put in, in list order.  The result depends
     * only on the particles' positions; nothing filed earlier survives.
     */
    method RebuildGrid()
      modifies this`grid, this`nonEmptyCells
      ensures fresh(grid) && Valid()
      ensures Files(Filing(particles, gridTranslation), |particles|)
    {
      ghost var f := Filing(particles, gridTranslation);
      ClearGrid(f);
      FileAll(f);
      FilesValid(f, |f|);
    }

    /** The rebuild loop: every particle of `f` put in the cleared grid, in list order. */
    method FileAll(ghost f: seq<Option<Cell>>)
      requires |f| == |particles| && Files(f, 0)
      requires forall j | 0 <= j < |f| :: f[j] == GridCell(particles[j].position, gridTranslation)
      modifies grid, this`nonEmptyCells
      ensures grid == old(grid) && Files(f, |f|)
    {
      var n := 0;
      while n < |particles|
        invariant 0 <= n <= |particles| && grid == old(grid)
        invariant Files(f, n)
      {
        FileParticle(n, f);
        n := n + 1;
      }
    }

    /**
     * A grid that files the first `n` particles of a filing into cells of
     * the grid is Valid: its index lists each non-null cell once.
     */
    lemma FilesValid(f: seq<Option<Cell>>, n: nat)
      requires n <= |f| && Files(f, n)
      requires forall j | 0 <= j < |f| && f[j].Some? :: InGrid(f[j].value)
      ensures Valid()
    {
      FirstUseExact(f, n);
      var cells := FirstUse(f, n);
      forall a | 0 <= a < |cells| ensures InGrid(cells[a]) {
        var c := cells[a];
        MembersExact(f, c, n, Members(f, c, n)[0]);
      }
      forall x, y, z | 0 <= x < G && 0 <= y < G && 0 <= z < G
        ensures grid[x, y, z].Some? <==> Cell(x, y, z) in cells
      {
        assert grid[x, y, z] == Lift(Members(f, Cell(x, y, z), n));
      }
    }

    /** The start of the rebuild: a fresh all-null grid and an allocated, empty index. */
    method ClearGrid(ghost f: seq<Option<Cell>>)
      modifies this`grid, this`nonEmptyCells
      ensures fresh(grid) && Files(f, 0)
    {
      grid := new Option<seq<nat>>[G, G, G]((_, _, _) => None);
      nonEmptyCells := Some([]);
    }

    /** One turn of the rebuild loop: the grid that filed `n` particles of `f` files `n + 1`. */
    method FileParticle(n: nat, ghost f: seq<Option<Cell>>)
      requires n < |particles| && n < |f| && Files(f, n)
      requires f[n] == GridCell(particles[n].position, gridTranslation)
      requires forall j | 0 <= j < |f| && f[j].Some? :: InGrid(f[j].value)
      modifies grid, this`nonEmptyCells
      ensures grid == old(grid) && Files(f, n + 1)
    {
      FilesValid(f, n);
      PutParticleInGrid(n, f);
    }

    /**
     * The innermost loop of the scan: particle `i1` meets the particles of
     * one cell in order, skipping itself, and reads of each only its body,
     * here `bs`.  Only `particles[i1]` changes.
     */
    method VisitCell(i1: nat, members: seq<nat>, ghost bs: seq<Body>)
      requires |particles| == |bs| && i1 < |bs|
      requires forall a | 0 <= a < |members| :: members[a] < |bs|
      requires forall j | 0 <= j < |bs| :: BodyOf(particles[j]) == bs[j]
      modifies this`particles
      ensures Replaced(particles, old(particles), i1, Fold(Meet(kernels, i1, bs), old(particles[i1]), members))
    {
      var m := 0;
      while m < |members|
        invariant 0 <= m <= |members|
        invariant Replaced(particles, old(particles), i1, Fold(Meet(kernels, i1, bs), old(particles[i1]), members[..m]))
      {
        var i2 := members[m];
        if i2 != i1 {
          particles := particles[i1 := PairStep(kernels, particles[i1], BodyOf(particles[i2]))];
        }
        assert members[..m + 1][..m] == members[..m];
        m := m + 1;
      }
      assert members[..|members|] == members;
    }

    /**
     * The body of the `z2` loop: particle `i1` meets the particles of cell
     * `(x2, y2, z2)` when that cell exists in the grid and is non-empty.
     */
    method VisitNeighbour(i1: nat, x2: int, y2: int, z2: int, ghost f: seq<Option<Cell>>, ghost bs: seq<Body>)
      requires Lists(f) && |f| == |bs| == |particles| && i1 < |bs|
      requires forall j | 0 <= j < |bs| :: BodyOf(particles[j]) == bs[j]
      modifies this`particles
      ensures Replaced(particles, old(particles), i1, Fold(Meet(kernels, i1, bs), old(particles[i1]), CellAt(f, Cell(x2, y2, z2))))
      ensures forall j | 0 <= j < |bs| :: BodyOf(particles[j]) == bs[j]
    {
      if x2 >= 0 && x2 < G && y2 >= 0 && y2 < G && z2 >= 0 && z2 < G {
        var secondCell := grid[x2, y2, z2];
        assert Contents(secondCell) == Members(f, Cell(x2, y2, z2), |f|);
        forall a | 0 <= a < |Contents(secondCell)| ensures Contents(secondCell)[a] < |bs| {
          MembersExact(f, Cell(x2, y2, z2), |f|, Contents(secondCell)[a]);
        }
        if secondCell.Some? {
          MeetsKeep(kernels, i1, bs, particles[i1], secondCell.value);
          VisitCell(i1, secondCell.value, bs);
        }
      }
    }

    /**
     * The `z2` loop of the scan at fixed `(x2, y2)`: particle `i1` meets,
     * in order, the particles of the three cells `(x2, y2, c.z - 1 .. c.z + 1)`
     * that exist in the grid.
     */
    method ScanColumn(i1: nat, c: Cell, x2: int, y2: int, ghost f: seq<Option<Cell>>, ghost bs: seq<Body>)
      requires Lists(f) && |f| == |bs| == |particles| && i1 < |bs|
      requires forall j | 0 <= j < |bs| :: BodyOf(particles[j]) == bs[j]
      modifies this`particles
      ensures Replaced(particles, old(particles), i1, ColumnScan(Meet(kernels, i1, bs), old(particles[i1]), f, c, x2, y2, 3))
      ensures forall j | 0 <= j < |bs| :: BodyOf(particles[j]) == bs[j]
    {
      ghost var p := particles[i1];
      var z2 := c.z - 1;
      while z2 < c.z + 2
        invariant c.z - 1 <= z2 <= c.z + 2
        invariant Replaced(particles, old(particles), i1, ColumnScan(Meet(kernels, i1, bs), p, f, c, x2, y2, z2 - (c.z - 1)))
        invariant forall j | 0 <= j < |bs| :: BodyOf(particles[j]) == bs[j]
      {
        VisitNeighbour(i1, x2, y2, z2, f, bs);
        z2 := z2 + 1;
      }
    }

    /** The `y2` loop of the scan at fixed `x2`: three columns in order. */
    method ScanSlab(i1: nat, c: Cell, x2: int, ghost f: seq<Option<Cell>>, ghost bs: seq<Body>)
      requires Lists(f) && |f| == |bs| == |particles| && i1 < |bs|
      requires forall j | 0 <= j < |bs| :: BodyOf(particles[j]) == bs[j]
      modifies this`particles
      ensures Replaced(particles, old(particles), i1, SlabScan(Meet(kernels, i1, bs), old(particles[i1]), f, c, x2, 3))
      ensures forall j | 0 <= j < |bs| :: BodyOf(particles[j]) == bs[j]
    {
      ghost var p := particles[i1];
      var y2 := c.y - 1;
      while y2 < c.y + 2
        invariant c.y - 1 <= y2 <= c.y + 2
        invariant Replaced(particles, old(particles), i1, SlabScan(Meet(kernels, i1, bs), p, f, c, x2, y2 - (c.y - 1)))
        invariant forall j | 0 <= j < |bs| :: BodyOf(particles[j]) == bs[j]
      {
        ScanColumn(i1, c, x2, y2, f, bs);
        y2 := y2 + 1;
      }
    }

    /** The `x2` loop of the scan around cell `c`: three slabs in order. */
    method ScanBlock(i1: nat, c: Cell, ghost f: seq<Option<Cell>>, ghost bs: seq<Body>)
      requires Lists(f) && |f| == |bs| == |particles| && i1 < |bs|
      requires forall j | 0 <= j < |bs| :: BodyOf(particles[j]) == bs[j]
      modifies this`particles
      ensures Replaced(particles, old(particles), i1, BlockScan(Meet(kernels, i1, bs), old(particles[i1]), f, c, 3))
    {
      ghost var p := particles[i1];
      var x2 := c.x - 1;
      while x2 < c.x + 2
        invariant c.x - 1 <= x2 <= c.x + 2
        invariant Replaced(particles, old(particles), i1, BlockScan(Meet(kernels, i1, bs), p, f, c, x2 - (c.x - 1)))
        invariant forall j | 0 <= j < |bs| :: BodyOf(particles[j]) == bs[j]
      {
        ScanSlab(i1, c, x2, f, bs);
        x2 := x2 + 1;
      }
    }

    /**
     * The scan of one particle `i1` filed in cell `c`: its accumulators are
     * reset, then it meets, in loop order, every other particle of the
     * cells within one step of `c` that exist in the grid.  It ends as
     * Scanned says; no other particle changes.
     */
    method ScanParticle(i1: nat, c: Cell, ghost ps0: seq<Particle>)
      requires |particles| == |ps0| && i1 < |ps0|
      requires Lists(Filing(ps0, gridTranslation))
      requires forall j | 0 <= j < |ps0| :: BodyOf(particles[j]) == BodyOf(ps0[j])
      requires GridCell(ps0[i1].position, gridTranslation) == Some(c)
      modifies this`particles
      ensures particles == old(particles)[i1 := Scanned(kernels, ps0, gridTranslation, i1)]
    {
      ghost var f, bs := Filing(ps0, gridTranslation), Bodies(ps0);
      ScannedIsBlockScan(kernels, ps0, gridTranslation, i1, c);
      ghost var was := particles;
      particles := particles[i1 := Reset(particles[i1])];
      ScanBlock(i1, c, f, bs);
      assert Reset(was[i1]) == Reset(ps0[i1]);
      assert particles == was[i1 := Scanned(kernels, ps0, gridTranslation, i1)];
    }

    /**
     * The `par1` loop over one non-empty cell `c`: each particle listed
     * there is scanned in turn and ends as Scanned says; no other particle
     * changes.
     */
    method ScanCell(c: Cell, members: seq<nat>, ghost ps0: seq<Particle>)
      requires |particles| == |ps0|
      requires Lists(Filing(ps0, gridTranslation))
      requires forall j | 0 <= j < |ps0| :: BodyOf(particles[j]) == BodyOf(ps0[j])
      requires forall a | 0 <= a < |members| ::
                 members[a] < |ps0| && GridCell(ps0[members[a]].position, gridTranslation) == Some(c)
      modifies this`particles
      ensures |particles| == |ps0|
      ensures forall i | 0 <= i < |ps0| ::
                particles[i] == if i in members then Scanned(kernels, ps0, gridTranslation, i) else old(particles[i])
    {
      ghost var done: set<nat> := {};
      var m := 0;
      while m < |members|
        invariant 0 <= m <= |members| && |particles| == |ps0|
        invariant forall j | 0 <= j < |ps0| :: BodyOf(particles[j]) == BodyOf(ps0[j])
        invariant forall a | 0 <= a < m :: members[a] in done
        invariant forall i | i in done :: i in members
        invariant forall i | 0 <= i < |ps0| ::
                    particles[i] == if i in done then Scanned(kernels, ps0, gridTranslation, i) else old(particles[i])
      {
        var i1 := members[m];
        ScanParticle(i1, c, ps0);
        done := done + {i1};
        m := m + 1;
      }
    }

    /**
     * The body of the loop over the non-empty index: the particles filed in
     * cell `c` are scanned (the null check never fires on a listed cell).
     */
    method ScanIndexedCell(c: Cell, ghost ps0: seq<Particle>)
      requires |particles| == |ps0| && InGrid(c)
      requires Lists(Filing(ps0, gridTranslation))
      requires forall j | 0 <= j < |ps0| :: BodyOf(particles[j]) == BodyOf(ps0[j])
      modifies this`particles
      ensures |particles| == |ps0|
      ensures forall i | 0 <= i < |ps0| ::
                particles[i] == if GridCell(ps0[i].position, gridTranslation) == Some(c)
                                then Scanned(kernels, ps0, gridTranslation, i) else old(particles[i])
    {
      ghost var f := Filing(ps0, gridTranslation);
      var gridCell := grid[c.x, c.y, c.z];
      var members := if gridCell.Some? then gridCell.value else [];
      assert members == Members(f, c, |f|);
      forall i | 0 <= i < |ps0| ensures i in members <==> f[i] == Some(c) {
        MembersExact(f, c, |f|, i);
      }
      forall a | 0 <= a < |members| ensures members[a] < |ps0| && f[members[a]] == Some(c) {
        MembersExact(f, c, |f|, members[a]);
      }
      ScanCell(c, members, ps0);
    }

    /** A grid that files all of `f` lists, cell by cell, what the scan reads. */
    lemma FilesLists(f: seq<Option<Cell>>)
      requires Files(f, |f|)
      ensures Lists(f)
    {
      forall x, y, z | 0 <= x < G && 0 <= y < G && 0 <= z < G
        ensures Contents(grid[x, y, z]) == CellAt(f, Cell(x, y, z))
      {
        assert grid[x, y, z] == Lift(Members(f, Cell(x, y, z), |f|));
      }
    }

    /**
     * The scan half of Update over the freshly rebuilt grid: every cell of
     * the non-empty index in order, every particle of that cell in order.
     * Each filed particle ends as Scanned says and every particle outside
     * the grid is untouched.
     */
    method ScanNeighbours(ghost ps0: seq<Particle>)
      requires particles == ps0
      requires Files(Filing(ps0, gridTranslation), |ps0|)
      modifies this`particles
      ensures |particles| == |ps0|
      ensures forall i | 0 <= i < |ps0| :: particles[i] == Scanned(kernels, ps0, gridTranslation, i)
    {
      ghost var f := Filing(ps0, gridTranslation);
      var cells := nonEmptyCells.value;
      FilingInGrid(ps0, gridTranslation);
      FilesLists(f);
      FilesIndex(f);
      ScanCells(cells, ps0);
    }

    /** The non-empty index of a grid that files all of `f` names all of its cells, each in the grid. */
    lemma FilesIndex(f: seq<Option<Cell>>)
      requires Files(f, |f|)
      requires forall j | 0 <= j < |f| && f[j].Some? :: InGrid(f[j].value)
      ensures forall a | 0 <= a < |nonEmptyCells.value| :: InGrid(nonEmptyCells.value[a])
      ensures forall i | 0 <= i < |f| && f[i].Some? :: f[i].value in nonEmptyCells.value
    {
      var cells := nonEmptyCells.value;
      FirstUseExact(f, |f|);
      forall a | 0 <= a < |cells| ensures InGrid(cells[a]) {
        MembersExact(f, cells[a], |f|, Members(f, cells[a], |f|)[0]);
      }
      forall i | 0 <= i < |f| && f[i].Some? ensures f[i].value in cells {
        MembersExact(f, f[i].value, |f|, i);
      }
    }

    /**
     * The loop over a list of cells of the grid: the particles filed in any
     * of them are scanned, every other particle is untouched.
     */
    method ScanCells(cells: seq<Cell>, ghost ps0: seq<Particle>)
      requires particles == ps0
      requires Lists(Filing(ps0, gridTranslation))
      requires forall a | 0 <= a < |cells| :: InGrid(cells[a])
      modifies this`particles
      ensures |particles| == |ps0|
      ensures forall i | 0 <= i < |ps0| ::
                particles[i] == if GridCell(ps0[i].position, gridTranslation).Some? &&
                                   GridCell(ps0[i].position, gridTranslation).value in cells
                                then Scanned(kernels, ps0, gridTranslation, i) else ps0[i]
    {
      ghost var seen: set<Cell> := {};
      var n := 0;
      while n < |cells|
        invariant 0 <= n <= |cells| && |particles| == |ps0|
        invariant forall j | 0 <= j < |ps0| :: BodyOf(particles[j]) == BodyOf(ps0[j])
        invariant forall a | 0 <= a < n :: cells[a] in seen
        invariant forall c | c in seen :: c in cells
        invariant forall i | 0 <= i < |ps0| ::
                    particles[i] == if GridCell(ps0[i].position, gridTranslation).Some? &&
                                       GridCell(ps0[i].position, gridTranslation).value in seen
                                    then Scanned(kernels, ps0, gridTranslation, i) else ps0[i]
      {
        ScanIndexedCell(cells[n], ps0);
        seen := seen + {cells[n]};
        n := n + 1;
      }
    }

    /**
     * The last loop of Update: every particle, filed or not, gets the
     * tension step and then `LinearVelocity += ComputedForce`.
     */
    method ApplyForces()
      modifies this`particles
      ensures |particles| == |old(particles)|
      ensures forall i | 0 <= i < |particles| ::
                particles[i] == Integrate(ApplyTension(kernels, old(particles)[i]))
    {
      var n := 0;
      while n < |particles|
        invariant 0 <= n <= |particles| && |particles| == |old(particles)|
        invariant forall i | 0 <= i < n :: particles[i] == Integrate(ApplyTension(kernels, old(particles)[i]))
        invariant forall i | n <= i < |particles| :: particles[i] == old(particles)[i]
      {
        var par := ApplyTension(kernels, particles[n]);
        par := par.(linearVelocity := Add(par.linearVelocity, par.computedForce));
        particles := particles[n := par];
        n := n + 1;
      }
    }

    /**
     * Update: the grid is rebuilt from the current particles, and every
     * particle then takes the step of StepParticle over the particle list
     * as it stood before the call.  The list keeps its length and order.
     */
    method Update()
      modifies this
      ensures fresh(grid) && Valid()
      ensures Files(Filing(old(particles), gridTranslation), |old(particles)|)
      ensures |particles| == |old(particles)|
      ensures forall i | 0 <= i < |particles| ::
                particles[i] == StepParticle(kernels, old(particles), gridTranslation, i)
    {
      RebuildGrid();
      ScanNeighbours(particles);
      ApplyForces();
    }

    /**
     * EmitParticle: a new particle at EmitPosition moving with `Forward` is
     * appended to the list and put in the grid.  If the grid held exactly
     * the particles before, it holds exactly the particles after.
     */
    method EmitParticle() returns (i: nat)
      requires Valid()
      requires nonEmptyCells.Some? || GridCell(EmitPosition(), gridTranslation).None?
      modifies this`particles, this`nonEmptyCells, grid
      ensures Valid()
      ensures i == |old(particles)| && particles == old(particles) + [NewParticle(EmitPosition(), forward)]
      ensures grid == old(grid)
      ensures GridCell(EmitPosition(), gridTranslation).None? ==>
                unchanged(grid) && nonEmptyCells == old(nonEmptyCells)
      ensures GridCell(EmitPosition(), gridTranslation).Some? ==>
                PutInCell(GridCell(EmitPosition(), gridTranslation).value, i)
      ensures old(Files(Filing(particles, gridTranslation), |particles|)) ==>
              Files(Filing(particles, gridTranslation), |particles|)
    {
      ghost var was := Files(Filing(particles, gridTranslation), |particles|);
      ghost var f0 := Filing(particles, gridTranslation);
      i := |particles|;
      particles := particles + [NewParticle(EmitPosition(), forward)];
      ghost var f := Filing(particles, gridTranslation);
      if was {
        assert f[..i] == f0[..i];
        FilingPrefix(f, f0, i);
      }
      PutParticleInGrid(i, f);
    }

    /**
     * GetParticlesGData: a fresh `xSize x ySize x zSize` array, zero at the
     * start, into which every particle is splatted in list order.  Every
     * cell ends as FieldAt says.  Nothing else changes.
     */
    method GetParticlesGData(xSize: nat, ySize: nat, zSize: nat, translation: Vec3, scale: Vec3)
      returns (gdata: array3<real>)
      requires NonZero(scale)
      requires forall j | 0 <= j < |particles| :: CastDefined(particles[j].position, translation, scale)
      ensures fresh(gdata)
      ensures gdata.Length0 == xSize && gdata.Length1 == ySize && gdata.Length2 == zSize
      ensures forall x, y, z | 0 <= x < xSize && 0 <= y < ySize && 0 <= z < zSize ::
                gdata[x, y, z] == FieldAt(particles, |particles|, xSize, ySize, zSize, translation, scale, Cell(x, y, z))
    {
      gdata := new real[xSize, ySize, zSize]((_, _, _) => 0.0);
      var n := 0;
      while n < |particles|
        invariant 0 <= n <= |particles| && fresh(gdata)
        invariant gdata.Length0 == xSize && gdata.Length1 == ySize && gdata.Length2 == zSize
        invariant forall x, y, z | 0 <= x < xSize && 0 <= y < ySize && 0 <= z < zSize ::
                    gdata[x, y, z] == FieldAt(particles, n, xSize, ySize, zSize, translation, scale, Cell(x, y, z))
      {
        SplatParticle(gdata, ScaledCell(particles[n].position, translation, scale));
        n := n + 1;
      }
    }
  }
}
