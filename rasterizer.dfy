/**
 * The density field of GetParticlesGData: every particle is splatted into a
 * fresh `xSize x ySize x zSize` array of doubles (modelled as reals).  The
 * splat adds `Level` to the particle's truncated cell when that cell is in
 * the array, and, independently, `Level / 2` to every in-array cell of the
 * 3x3 stencil around it in the X-Z plane of the same Y layer, the centre
 * cell included.
 */
module Rasterizer {
  import opened Vectors
  import opened Forces
  import opened Grid

  /** The fixed `level` each particle deposits. */
  const Level: real := 0.09

  /** A scale with no zero component, so that the divisions are defined. */
  predicate NonZero(scale: Vec3) {
    scale.x != 0.0 && scale.y != 0.0 && scale.z != 0.0
  }

  /** The truncated cell of a particle: `(int)((position - translation) / scale)` per axis. */
  function ScaledCell(position: Vec3, translation: Vec3, scale: Vec3): Cell
    requires NonZero(scale)
  {
    var v := Sub(position, translation);
    Cell(Trunc(v.x / scale.x), Trunc(v.y / scale.y), Trunc(v.z / scale.z))
  }

  /** The conversion of every axis to `int` is defined. */
  predicate CastDefined(position: Vec3, translation: Vec3, scale: Vec3)
    requires NonZero(scale)
  {
    var c := ScaledCell(position, translation, scale);
    FitsInt(c.x) && FitsInt(c.y) && FitsInt(c.z)
  }

  /** A cell of the `xs x ys x zs` output array. */
  predicate InBox(c: Cell, xs: int, ys: int, zs: int) {
    0 <= c.x < xs && 0 <= c.y < ys && 0 <= c.z < zs
  }

  /** What a particle in cell `c` adds to cell `target`. */
  function SplatAt(xs: int, ys: int, zs: int, c: Cell, target: Cell): (r: real)
    ensures r >= 0.0
  {
    (if target == c && InBox(c, xs, ys, zs) then Level else 0.0) +
    (if target.y == c.y && -1 <= target.x - c.x <= 1 && -1 <= target.z - c.z <= 1 &&
        InBox(target, xs, ys, zs) then Level / 2.0 else 0.0)
  }

  /** The field value at `target` after splatting the first `n` particles. */
  function FieldAt(ps: seq<Particle>, n: nat, xs: int, ys: int, zs: int,
                   translation: Vec3, scale: Vec3, target: Cell): real
    requires n <= |ps| && NonZero(scale)
  {
    if n == 0 then 0.0
    else FieldAt(ps, n - 1, xs, ys, zs, translation, scale, target) +
         SplatAt(xs, ys, zs, ScaledCell(ps[n - 1].position, translation, scale), target)
  }

  /**
   * The field only ever receives additions: splatting more particles never
   * lowers a cell, and every cell stays at or above zero.
   */
  lemma {:induction false} FieldGrows(ps: seq<Particle>, m: nat, n: nat, xs: int, ys: int, zs: int,
                                      translation: Vec3, scale: Vec3, target: Cell)
    requires m <= n <= |ps| && NonZero(scale)
    ensures 0.0 <= FieldAt(ps, m, xs, ys, zs, translation, scale, target)
                <= FieldAt(ps, n, xs, ys, zs, translation, scale, target)
    decreases n
  {
    if m < n {
      FieldGrows(ps, m, n - 1, xs, ys, zs, translation, scale, target);
    } else if n > 0 {
      FieldGrows(ps, n - 1, n - 1, xs, ys, zs, translation, scale, target);
    }
  }

  /**
   * A particle whose stencil lies wholly inside the array raises its own
   * cell by `Level + Level / 2`, the eight X-Z neighbours of that cell by
   * `Level / 2`, and nothing else: `Level + 9 * Level / 2` in all.
   */
  lemma UnclippedSplat(xs: int, ys: int, zs: int, c: Cell, target: Cell)
    requires 1 <= c.x && c.x + 1 < xs && 0 <= c.y < ys && 1 <= c.z && c.z + 1 < zs
    ensures SplatAt(xs, ys, zs, c, target) ==
            if target == c then Level + Level / 2.0
            else if target.y == c.y && -1 <= target.x - c.x <= 1 && -1 <= target.z - c.z <= 1 then Level / 2.0
            else 0.0
  {
  }

  /**
   * The stencil's bounds test does not depend on the centre's: a particle
   * whose truncated `x` is one past either edge of the array deposits
   * nothing into its own cell, but `Level / 2` into the three cells of the
   * edge column next to it.
   */
  lemma EdgeColumnSplat(xs: int, ys: int, zs: int, c: Cell, target: Cell)
    requires 0 < xs && (c.x == -1 || c.x == xs) && 0 <= c.y < ys && 1 <= c.z && c.z + 1 < zs
    requires InBox(target, xs, ys, zs)
    ensures var edge := if c.x == -1 then 0 else xs - 1;
            SplatAt(xs, ys, zs, c, target) ==
            if target.x == edge && target.y == c.y && -1 <= target.z - c.z <= 1 then Level / 2.0 else 0.0
  {
  }

  /**
   * Truncation toward zero: a particle whose scaled offset on `x` lies in
   * `(-1, 0)` is placed in column 0 (rounding down would give -1), and so
   * its whole splat lands as for a particle inside the array.
   */
  lemma NegativeFractionTruncatesToZero(position: Vec3, translation: Vec3, scale: Vec3)
    requires NonZero(scale)
    requires -1.0 < (position.x - translation.x) / scale.x < 0.0
    ensures ScaledCell(position, translation, scale).x == 0
    ensures ((position.x - translation.x) / scale.x).Floor == -1
  {
  }

  /**
   * One particle's splat, in the order of GetParticlesGData: the centre
   * cell, then the stencil with `x2` outer and `z2` inner.
   */
  method SplatParticle(g: array3<real>, c: Cell)
    modifies g
    ensures forall x, y, z | 0 <= x < g.Length0 && 0 <= y < g.Length1 && 0 <= z < g.Length2 ::
              g[x, y, z] == old(g[x, y, z]) + SplatAt(g.Length0, g.Length1, g.Length2, c, Cell(x, y, z))
  {
    var xs, ys, zs := g.Length0, g.Length1, g.Length2;
    if c.x < xs && c.y < ys && c.z < zs && c.x >= 0 && c.y >= 0 && c.z >= 0 {
      g[c.x, c.y, c.z] := g[c.x, c.y, c.z] + Level;
    }
    var x2 := c.x - 1;
    while x2 < c.x + 2
      invariant c.x - 1 <= x2 <= c.x + 2
      invariant forall x, y, z | 0 <= x < xs && 0 <= y < ys && 0 <= z < zs ::
                  g[x, y, z] == old(g[x, y, z]) + StencilSoFar(xs, ys, zs, c, x2, c.z - 1, Cell(x, y, z))
    {
      var z2 := c.z - 1;
      while z2 < c.z + 2
        invariant c.z - 1 <= z2 <= c.z + 2
        invariant forall x, y, z | 0 <= x < xs && 0 <= y < ys && 0 <= z < zs ::
                    g[x, y, z] == old(g[x, y, z]) + StencilSoFar(xs, ys, zs, c, x2, z2, Cell(x, y, z))
      {
        if x2 < xs && c.y < ys && z2 < zs && x2 >= 0 && c.y >= 0 && z2 >= 0 {
          g[x2, c.y, z2] := g[x2, c.y, z2] + Level / 2.0;
        }
        z2 := z2 + 1;
      }
      x2 := x2 + 1;
    }
  }

  /**
   * What the splat of a particle in cell `c` has added to `target` once the
   * stencil loop stands at `(x2, z2)`.
   */
  ghost function StencilSoFar(xs: int, ys: int, zs: int, c: Cell, x2: int, z2: int, target: Cell): real {
    (if target == c && InBox(c, xs, ys, zs) then Level else 0.0) +
    (if target.y == c.y && InBox(target, xs, ys, zs) && -1 <= target.z - c.z <= 1 &&
        (c.x - 1 <= target.x < x2 || (target.x == x2 && c.z - 1 <= target.z < z2))
     then Level / 2.0 else 0.0)
  }
}
