/**
 * What one Update does to one particle, as a function of the particle list
 * before the step: a particle filed in the grid is reset and then meets, in
 * scan order, every other particle of the 3x3x3 block around its cell; a
 * particle outside the grid keeps its accumulators.  Then every particle
 * gets the tension step and `linearVelocity += computedForce`.
 */
module Solver {
  import opened Options
  import opened Vectors
  import opened Forces
  import opened Grid
  import opened Scan

  /** The accumulator reset at the start of a filed particle's scan. */
  function Reset(p: Particle): Particle {
    p.(colorField := Zero(), colorFieldGradient := Zero(), colorFieldSecondGradient := Zero(),
       computedForce := Zero(), tensionLevel := 0.0)
  }

  /** The kinematic state of every particle, in list order. */
  function Bodies(ps: seq<Particle>): seq<Body>
  {
    seq(|ps|, j requires 0 <= j < |ps| => BodyOf(ps[j]))
  }

  /**
   * Particle `i` meeting the particle at index `j`: the four pair steps,
   * except that the particle skips itself (and an index past the list,
   * which the grid never holds).
   */
  function Meet(k: Kernels, i: nat, bs: seq<Body>): (Particle, nat) -> Particle {
    (q: Particle, j: nat) => if j == i || j >= |bs| then q else PairStep(k, q, bs[j])
  }

  /** Meeting any sequence of particles never writes the kinematic state, `colorField` or `tensionLevel`. */
  lemma {:induction false} MeetsKeep(k: Kernels, i: nat, bs: seq<Body>, p: Particle, js: seq<nat>)
    ensures var r := Fold(Meet(k, i, bs), p, js);
            BodyOf(r) == BodyOf(p) && r.colorField == p.colorField && r.tensionLevel == p.tensionLevel
    decreases |js|
  {
    if js != [] {
      MeetsKeep(k, i, bs, p, js[..|js| - 1]);
    }
  }

  /**
   * Particle `i` after the neighbour scan of Update.  The scan never writes
   * the kinematic state; a particle outside the grid is not visited at all,
   * and a filed one ends with `colorField` and `tensionLevel` reset.
   */
  function Scanned(k: Kernels, ps: seq<Particle>, t: Vec3, i: nat): (r: Particle)
    requires i < |ps|
    ensures BodyOf(r) == BodyOf(ps[i])
    ensures GridCell(ps[i].position, t).None? ==> r == ps[i]
    ensures GridCell(ps[i].position, t).Some? ==> r.colorField == Zero() && r.tensionLevel == 0.0
  {
    match GridCell(ps[i].position, t)
    case None => ps[i]
    case Some(c) =>
      MeetsKeep(k, i, Bodies(ps), Reset(ps[i]), Block(Filing(ps, t), c));
      Fold(Meet(k, i, Bodies(ps)), Reset(ps[i]), Block(Filing(ps, t), c))
  }

  /** A filed particle's scan is the `x2` loop's three slabs from the reset particle. */
  lemma ScannedIsBlockScan(k: Kernels, ps: seq<Particle>, t: Vec3, i: nat, c: Cell)
    requires i < |ps| && GridCell(ps[i].position, t) == Some(c)
    ensures Scanned(k, ps, t, i) == BlockScan(Meet(k, i, Bodies(ps)), Reset(ps[i]), Filing(ps, t), c, 3)
  {
    BlockScanIsBlock(Meet(k, i, Bodies(ps)), Reset(ps[i]), Filing(ps, t), c);
  }

  /** `par.LinearVelocity += par.ComputedForce`. */
  function Integrate(p: Particle): Particle {
    p.(linearVelocity := Add(p.linearVelocity, p.computedForce))
  }

  /**
   * Particle `i` after a whole Update.  Its position and mass are never
   * written; its new velocity is the old one plus its final force.
   */
  function StepParticle(k: Kernels, ps: seq<Particle>, t: Vec3, i: nat): (r: Particle)
    requires i < |ps|
    ensures r.position == ps[i].position && r.mass == ps[i].mass
    ensures r.linearVelocity == Add(ps[i].linearVelocity, r.computedForce)
  {
    Integrate(ApplyTension(k, Scanned(k, ps, t, i)))
  }

  /** Pairs outside the kernel support contribute nothing to `par1`. */
  lemma {:induction false} MeetsIsolated(k: Kernels, p: Particle, i: nat, bs: seq<Body>, js: seq<nat>)
    requires forall a :: 0 <= a < |js| && js[a] != i && js[a] < |bs| ==> k.distance(p.position, bs[js[a]].position) > H
    ensures Fold(Meet(k, i, bs), p, js) == p
    decreases |js|
  {
    if js != [] {
      MeetsIsolated(k, p, i, bs, js[..|js| - 1]);
    }
  }

  /**
   * A filed particle with no other particle within `H` ends the step with
   * every accumulator zero and its velocity unchanged (given that the zero
   * vector has length zero).
   */
  lemma IsolatedParticleKeepsVelocity(k: Kernels, ps: seq<Particle>, t: Vec3, i: nat)
    requires i < |ps| && GridCell(ps[i].position, t).Some?
    requires k.length(Zero()) == 0.0
    requires forall j :: 0 <= j < |ps| && j != i ==> k.distance(ps[i].position, ps[j].position) > H
    ensures StepParticle(k, ps, t, i) == Reset(ps[i])
  {
    var c := GridCell(ps[i].position, t).value;
    var bs, js := Bodies(ps), Block(Filing(ps, t), c);
    MeetsIsolated(k, Reset(ps[i]), i, bs, js);
    var v := ps[i].linearVelocity;
    assert Add(v, Zero()) == v;
  }

  /**
   * No carry-over: the step of a filed particle depends only on the
   * positions, velocities and masses of the particles, not on any
   * accumulator left from an earlier step.
   */
  lemma StepDependsOnlyOnBodies(k: Kernels, ps: seq<Particle>, qs: seq<Particle>, t: Vec3, i: nat)
    requires |ps| == |qs| && i < |ps|
    requires forall j :: 0 <= j < |ps| ==> BodyOf(ps[j]) == BodyOf(qs[j])
    requires GridCell(ps[i].position, t).Some?
    ensures StepParticle(k, ps, t, i) == StepParticle(k, qs, t, i)
  {
    assert Bodies(ps) == Bodies(qs);
    assert Filing(ps, t) == Filing(qs, t);
    assert Reset(ps[i]) == Reset(qs[i]);
  }

  /**
   * A particle outside the grid is not reset, so the force it carried from
   * its last step is added to its velocity again (here below the tension
   * threshold, where nothing else changes).
   */
  lemma OutOfGridReappliesForce(k: Kernels, ps: seq<Particle>, t: Vec3, i: nat)
    requires i < |ps| && GridCell(ps[i].position, t).None?
    requires k.length(ps[i].colorFieldGradient) <= TensionThreshold
    ensures StepParticle(k, ps, t, i) ==
            ps[i].(linearVelocity := Add(ps[i].linearVelocity, ps[i].computedForce))
  {
  }
}
