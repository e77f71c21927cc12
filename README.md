# BepuFluid particle core in Dafny

This project models the `ParticleManager` class of BepuFluid, a small
smoothed-particle fluid running inside the BEPU physics engine. It covers
the discrete machinery of each simulation step:

- **The uniform spatial grid.** Every particle whose translated position
  lies strictly inside the open box `(0, 64)` on all three axes is filed in
  one cell of a 64 x 64 x 64 array of per-cell index lists; any other
  particle is left out of the grid. A cell's list is allocated
  lazily, and at that moment the cell is appended to a non-empty-cell index.
  Each `Update` throws the grid away and rebuilds it from the particle list.
- **The neighbour scan.** For every particle of every non-empty cell, the
  accumulators are reset. The particle then meets, in loop order, every
  other particle of the 3x3x3 block of cells around its own, clipped to the
  grid. Each meeting runs four pair kernels that write to the first particle
  only.
- **The two-phase update.** After the scan, every particle gets the tension
  step. This step is gated on the gradient length being strictly above the
  threshold. Then every particle gets `velocity += computedForce`.
- **The field rasterizer `GetParticlesGData`.** It splats every particle
  into a fresh 3-D array of doubles.

The model has these parts:

- Particles are values, and a particle is named by its index in the list.
- `ParticleManager` is a Dafny class. Its fields are:
  - the particle list, a `seq`;
  - the grid, an `array3` of optional index lists, where a null C# list is
    `None`;
  - the non-empty index, which is `None` until the first `Update`.
- The methods keep the source's loops. Each loop is proved against
  specification functions:
  - `Grid.Members` and `Grid.FirstUse` give what the grid and the index
    hold after `n` insertions.
  - `Grid.Block` is the list of indices the scan meets, in visiting order.
  - `Scan.Fold` runs a visit function over that list.
  - `Solver.Scanned` and `Solver.StepParticle` give the state of one
    particle after the scan and after the whole step.
  - `Rasterizer.FieldAt` gives the value of one array cell after splatting.
- Lemmas then state what those functions mean: the grid files exactly the
  in-box particles once each, and the scan meets each near particle exactly
  once.

The kernel arithmetic is left abstract. A `Kernels` value supplies:

- `distance` and `length`, the square-root-based functions;
- the four per-pair force vectors.

A kernel sees only the kinematic state (the `Body`) of the two particles.
So the model fixes four things:

- which pairs are visited, in which order;
- which fields each step writes;
- under which distance gate each step writes;
- that nothing other than `par1` changes.

Single-precision arithmetic is modelled as exact reals. The C# `(int)` cast
is `Vectors.Trunc`, which rounds toward zero.

Some behaviours of the code are easy to misread. The model follows the code
in each case:

- The splat's stencil is a full 3x3 square in the X-Z plane of the
  particle's Y layer, and it includes the centre cell. An unclipped particle
  therefore deposits `level + 9 * level/2` in all
  (BepuFluid/ParticleManager.cs:286-299). See `Rasterizer.UnclippedSplat`.
- The rasterizer splats every particle, not only those in the spatial grid
  or in the output array. The centre cell and each stencil cell are clipped
  against the output array independently, so a particle just outside the
  array still deposits into its edge column
  (BepuFluid/ParticleManager.cs:286-299). See `Rasterizer.EdgeColumnSplat`.
- A particle outside the grid is never reset. The force it carried from its
  last in-grid step is therefore added to its velocity again on every
  `Update`. See `Solver.OutOfGridReappliesForce`.
- Each kernel's own `par1 == par2` test is subsumed by the scan's `par1 == par2`
  skip. The model has only the scan's skip, in `Solver.Meet`.

## Model

| member | source | states |
|---|---|---|
| Vectors.Trunc | BepuFluid/ParticleManager.cs:181-183 | the `(int)` cast rounds toward zero: the result is at most `r` away from zero and within one of it, for positive and negative `r` |
| Forces.ComputePressure | BepuFluid/ParticleManager.cs:121-138 | only `computedForce` is written, and a pair farther apart than `H` changes nothing |
| Forces.ComputeViscosity | BepuFluid/ParticleManager.cs:145-163 | only `computedForce` is written, and a pair farther apart than `H` changes nothing |
| Forces.ComputeTensionGradient | BepuFluid/ParticleManager.cs:80-96 | only `colorFieldGradient` is written; a pair farther apart than `H` or at distance zero changes nothing |
| Forces.ComputeTensionSecondGradient | BepuFluid/ParticleManager.cs:98-114 | only `colorFieldSecondGradient` is written; same gate as the gradient |
| Forces.PairStep | BepuFluid/ParticleManager.cs:243-246 | one visited pair writes only the three additive accumulators of `par1`; outside `H` nothing changes; a coincident pair leaves both gradients unchanged |
| Forces.ApplyTension | BepuFluid/ParticleManager.cs:58-73 | nothing changes when the gradient length is at most the threshold; above it, `tensionLevel` is the length, `colorField` is the tension force (componentwise `F * level == -30 * second * gradient`), and that force is added to `computedForce`; no other field is written |
| Grid.GridCell | BepuFluid/ParticleManager.cs:177-183 | a filed particle's cell exists in the 64^3 grid |
| Grid.GridCellBounds | BepuFluid/ParticleManager.cs:177-183 | a particle is filed exactly when every translated coordinate is strictly between 0 and 64, and then it lies inside its cell |
| Grid.FilingAppend | BepuFluid/ParticleManager.cs:33-37 | appending a particle to the list appends its cell to the filing and keeps the filing of every earlier particle |
| Grid.FilingDependsOnlyOnPositions | BepuFluid/ParticleManager.cs:177-183 | two particle lists with the same positions have the same filing, whatever their velocities, masses or accumulators |
| Grid.MembersExact | BepuFluid/ParticleManager.cs:185-191 | after `n` insertions, cell `c` holds particle `j` exactly when `j < n` and `j` files under `c` |
| Grid.MembersIncreasing | BepuFluid/ParticleManager.cs:191 | a cell lists its particles in strictly increasing list order, hence without repetition |
| Grid.MembersCount | BepuFluid/ParticleManager.cs:185-191 | a cell holds each particle that files under it exactly once, and no other particle |
| Grid.FirstUseExact | BepuFluid/ParticleManager.cs:185-189 | the non-empty index contains exactly the cells that hold a particle, and contains no cell twice |
| Grid.FilingPrefix | BepuFluid/ParticleManager.cs:33-37 | the cells and the index after `n` insertions depend only on the first `n` particles, so appending a particle changes nothing already filed |
| Grid.CellAtCount | BepuFluid/ParticleManager.cs:231-236 | the scan's read of one cell meets particle `j` once if `j` files there and otherwise not at all |
| Grid.ZRunCount | BepuFluid/ParticleManager.cs:229-236 | the `z2` loop meets particle `j` once exactly when `j`'s cell is in that column run, and otherwise never |
| Grid.YRowsCount | BepuFluid/ParticleManager.cs:227-236 | the `y2` loop meets particle `j` once exactly when `j`'s cell is in one of those rows, and otherwise never |
| Grid.XRowsCount | BepuFluid/ParticleManager.cs:225-236 | the `x2` loop meets particle `j` once exactly when `j`'s cell is in one of those slabs, and otherwise never |
| Grid.BlockCount | BepuFluid/ParticleManager.cs:225-247 | the block around a cell meets particle `j` exactly once when `j` is filed within one cell on every axis, including at the grid edge, and never otherwise |
| Scan.FoldAppend | BepuFluid/ParticleManager.cs:238-247 | visiting `js` then `ks` is visiting `js + ks` |
| Scan.ColumnScanIsZRun | BepuFluid/ParticleManager.cs:229-249 | the three turns of the `z2` loop visit the cells of the column run in order |
| Scan.SlabScanIsYRows | BepuFluid/ParticleManager.cs:227-250 | the three turns of the `y2` loop visit the rows of the slab in order |
| Scan.BlockScanIsBlock | BepuFluid/ParticleManager.cs:225-251 | the three turns of the `x2` loop visit the whole block in order |
| Solver.MeetsKeep | BepuFluid/ParticleManager.cs:238-247 | meeting any run of particles never writes position, velocity, mass, `colorField` or `tensionLevel` |
| Solver.Scanned | BepuFluid/ParticleManager.cs:212-252 | the scan never writes the kinematic state; a particle outside the grid is not touched; a filed one ends with `colorField` zero and `tensionLevel` zero |
| Solver.ScannedIsBlockScan | BepuFluid/ParticleManager.cs:219-251 | a filed particle's scan is the reset particle run through the three nested loops |
| Solver.StepParticle | BepuFluid/ParticleManager.cs:195-259 | a step keeps position and mass, and the new velocity is the old one plus the final force |
| Solver.MeetsIsolated | BepuFluid/ParticleManager.cs:87-153 | meeting only particles farther apart than `H` changes nothing |
| Solver.IsolatedParticleKeepsVelocity | BepuFluid/ParticleManager.cs:219-259 | a filed particle with no other particle within `H` ends the step with every accumulator zero and its velocity unchanged |
| Solver.StepDependsOnlyOnBodies | BepuFluid/ParticleManager.cs:219-223 | a filed particle's step depends only on the kinematic state of the particles, not on accumulators left from earlier steps |
| Solver.OutOfGridReappliesForce | BepuFluid/ParticleManager.cs:255-259 | a particle outside the grid, below the tension threshold, adds its stale `computedForce` to its velocity again |
| Rasterizer.SplatAt | BepuFluid/ParticleManager.cs:286-300 | a splat never takes anything away from a cell |
| Rasterizer.FieldGrows | BepuFluid/ParticleManager.cs:268-300 | the field starts at zero and only receives additions: splatting more particles never lowers a cell |
| Rasterizer.UnclippedSplat | BepuFluid/ParticleManager.cs:286-300 | a particle whose stencil is inside the array adds `level + level/2` to its cell, `level/2` to its eight X-Z neighbours, and nothing elsewhere |
| Rasterizer.EdgeColumnSplat | BepuFluid/ParticleManager.cs:286-300 | a particle one cell past the x edge puts nothing in its own cell but `level/2` into the three adjacent edge-column cells |
| Rasterizer.NegativeFractionTruncatesToZero | BepuFluid/ParticleManager.cs:282-284 | a scaled offset in `(-1, 0)` is cast to index 0, where rounding down would give -1 |
| Rasterizer.SplatParticle | BepuFluid/ParticleManager.cs:286-300 | one particle's centre write and 3x3 stencil loops add `SplatAt` to every array cell |
| Fluid.ParticleManager.constructor | BepuFluid/ParticleManager.cs:334-344 | a fresh all-null grid, no particles, and an unallocated non-empty index |
| Fluid.ParticleManager.PutParticleInGrid | BepuFluid/ParticleManager.cs:175-193 | a particle outside the open box changes nothing; otherwise it is appended to its cell, no other cell changes, and the cell joins the end of the index exactly when its list is allocated; validity is kept, and a grid that filed particles `0..i-1` now files `0..i` |
| Fluid.ParticleManager.ClearGrid | BepuFluid/ParticleManager.cs:197-199 | a fresh all-null grid with an empty index files no particle |
| Fluid.ParticleManager.FileParticle | BepuFluid/ParticleManager.cs:201-204 | one turn of the rebuild loop takes a grid that files `n` particles to one that files `n + 1` |
| Fluid.ParticleManager.FileAll | BepuFluid/ParticleManager.cs:201-204 | the rebuild loop files every particle in list order |
| Fluid.ParticleManager.FilesValid | BepuFluid/ParticleManager.cs:185-189 | a grid built by insertions is valid: its index lists every non-null cell once and nothing else |
| Fluid.ParticleManager.RebuildGrid | BepuFluid/ParticleManager.cs:197-204 | after the rebuild, each cell holds exactly the in-box particles that truncate to it, in list order, and the index is valid; the result depends only on the positions and the translation |
| Fluid.ParticleManager.VisitCell | BepuFluid/ParticleManager.cs:238-247 | `par1` meets the listed particles in order, skips itself, and no other particle changes |
| Fluid.ParticleManager.VisitNeighbour | BepuFluid/ParticleManager.cs:231-248 | a cell outside the grid or a null cell is skipped; otherwise its particles are met in order |
| Fluid.ParticleManager.ScanColumn | BepuFluid/ParticleManager.cs:229-249 | the `z2` loop meets the three cells of the column in order |
| Fluid.ParticleManager.ScanSlab | BepuFluid/ParticleManager.cs:227-250 | the `y2` loop meets the three columns in order |
| Fluid.ParticleManager.ScanBlock | BepuFluid/ParticleManager.cs:225-251 | the `x2` loop meets the three slabs in order |
| Fluid.ParticleManager.ScanParticle | BepuFluid/ParticleManager.cs:217-252 | one particle is reset and scanned and ends as `Scanned` says; no other particle changes |
| Fluid.ParticleManager.ScanCell | BepuFluid/ParticleManager.cs:217-252 | every particle listed in a cell ends as `Scanned` says; every other particle is unchanged |
| Fluid.ParticleManager.ScanIndexedCell | BepuFluid/ParticleManager.cs:208-252 | the particles filed in an indexed cell are scanned; the null check never fires |
| Fluid.ParticleManager.FilesLists | BepuFluid/ParticleManager.cs:212-233 | the rebuilt grid's cells are what the scan reads |
| Fluid.ParticleManager.FilesIndex | BepuFluid/ParticleManager.cs:206 | the non-empty index names the cell of every filed particle, and only cells of the grid |
| Fluid.ParticleManager.ScanCells | BepuFluid/ParticleManager.cs:206-253 | the loop over a list of cells scans exactly the particles filed in one of them |
| Fluid.ParticleManager.ScanNeighbours | BepuFluid/ParticleManager.cs:206-253 | after the scan, every particle is as `Scanned` says: filed ones are reset and have met their block, others are untouched |
| Fluid.ParticleManager.ApplyForces | BepuFluid/ParticleManager.cs:255-259 | every particle, filed or not, gets the tension step and then `velocity += computedForce` |
| Fluid.ParticleManager.Update | BepuFluid/ParticleManager.cs:195-260 | the grid is rebuilt from the current particles, and every particle takes `StepParticle` over the list as it stood before the call; length and order are kept |
| Fluid.ParticleManager.EmitParticle | BepuFluid/ParticleManager.cs:26-40 | a new particle at `Position + Forward * Width` moving with `Forward`, mass `0.1 / 10000` and zero accumulators is appended; outside the open box the grid and the index are unchanged, inside it the particle is appended to its cell, no other cell changes and the cell joins the index exactly when its list is allocated; a grid that held exactly the particles still does |
| Fluid.ParticleManager.GetParticlesGData | BepuFluid/ParticleManager.cs:266-304 | the result is a fresh array of the requested size, and every cell holds the sum of the splats of all particles, in list order |

## Left out

- Floating point: single-precision rounding, NaN and infinities are not
  modelled. Values are exact reals.
- The kernel formulas are not modelled. The `Math.Pow` expressions of the
  four Compute* kernels are uninterpreted functions of the two particles'
  kinematic state, so no property of the force values is proved.
- Pairwise momentum symmetry is not stated. The viscosity term uses
  `H - distanceVector.X` rather than `H - distance`, so the pair terms are
  not antisymmetric in the code.
- Forces.ComputePressure: the model does not see that the code has no
  zero-distance guard. Coincident particles divide by zero there and produce
  NaN; in the model the abstract `pressure` kernel returns some value.
- Physics integration by the host engine is not modelled. This covers BEPU
  `Space.Add`, collision, and position updates. The model never changes a
  position or a mass, and `Update` is the only step.
- The particle radius `_particleScale` given to the sphere is not modelled.
  Only the mass `_particleScale / 10000` it induces is kept in
  `NewParticle`.
- `EmitterBox` is reduced to its width. Only the emit position
  `Position + Forward * EmitterBox.Width` matters to the core.
- Fluid.ParticleManager.PutParticleInGrid: allocating a cell's list before
  the first `Update` dereferences the null non-empty index and throws. The
  model excludes that case by a precondition instead of modelling the
  exception. The same holds for `EmitParticle`.
- Fluid.ParticleManager.GetParticlesGData: the sizes are natural numbers.
  C# throws an `OverflowException` when `new double[xSize, ySize, zSize]`
  gets a negative size; that exception is not modelled.
- Fluid.ParticleManager.GetParticlesGData: the model requires that every
  scaled, translated coordinate converts to a C# `int`. An out-of-range cast
  has an unspecified result.
- Rasterizer.NonZero: a zero `scale` component makes the C# division give an
  infinity or NaN. The rasterizer getting one requires a scale with no zero
  component.
- Solver.Meet: it also skips an index past the list. The grid never holds
  one, and the skip keeps the visit function total.
- `GetInfo` is not modelled. It only formats constants into strings.
- BepuFluid/Emitter.cs is not part of this model. It is a superseded
  variant that is driven by physics-engine collision callbacks.
- BepuFluid/Particle.cs is not part of this model. Its fields become the
  `Forces.Particle` datatype.
- The game loop, input, rendering, the marching-cubes primitive and the
  scene geometry are not modelled.
- Concurrency: none exists in the core; everything runs on one thread.
