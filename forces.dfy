/**
 * The fluid particle and the per-pair and per-particle force steps of
 * ParticleManager (its "Forces" region).  Each step updates one particle,
 * `par1`, and is modelled as a function from the old value of that particle
 * to the new one.  The kernel arithmetic itself (single-precision formulas
 * with Math.Pow and a square root) is left abstract: a `Kernels` value
 * supplies it, and the model fixes only which fields each step writes and
 * under which distance gate it writes them.
 */
module Forces {
  import opened Vectors

  /** Kernel support radius `H`. */
  const H: real := 1.0
  /** `_tensionScale`. */
  const TensionScale: real := 30.0
  /** `_tensionThreshold`: minimum gradient length before tension applies. */
  const TensionThreshold: real := 0.0001

  /**
   * A fluid particle.  `position`, `linearVelocity` and `mass` belong to the
   * rigid-body sphere the physics world integrates; the other five fields
   * are the per-step accumulators of the solver.
   */
  datatype Particle = Particle(
    position: Vec3,
    linearVelocity: Vec3,
    mass: real,
    colorField: Vec3,
    colorFieldGradient: Vec3,
    colorFieldSecondGradient: Vec3,
    computedForce: Vec3,
    tensionLevel: real)

  /** What a pair kernel may look at in a particle: its kinematic state. */
  datatype Body = Body(position: Vec3, linearVelocity: Vec3, mass: real)

  function BodyOf(p: Particle): Body {
    Body(p.position, p.linearVelocity, p.mass)
  }

  /**
   * The floating-point parts of the solver, left uninterpreted:
   * `distance` is Vector3.Distance, `length` is Vector3.Length, and the four
   * kernels give the vector that ComputePressure, ComputeViscosity,
   * ComputeTensionGradient and ComputeTensionSecondGradient add to `par1`
   * when the pair is inside the kernel support.
   */
  datatype Kernels = Kernels(
    distance: (Vec3, Vec3) -> real,
    length: Vec3 -> real,
    pressure: (Body, Body) -> Vec3,
    viscosity: (Body, Body) -> Vec3,
    tensionGradient: (Body, Body) -> Vec3,
    tensionSecondGradient: (Body, Body) -> Vec3)

  /** ComputePressure(par1, par2): writes only `computedForce`, and only within `H`. */
  function ComputePressure(k: Kernels, p1: Particle, b2: Body): (r: Particle)
    ensures r.(computedForce := p1.computedForce) == p1
    ensures k.distance(p1.position, b2.position) > H ==> r == p1
  {
    if k.distance(p1.position, b2.position) > H then p1
    else p1.(computedForce := Add(p1.computedForce, k.pressure(BodyOf(p1), b2)))
  }

  /** ComputeViscosity(par1, par2): writes only `computedForce`, and only within `H`. */
  function ComputeViscosity(k: Kernels, p1: Particle, b2: Body): (r: Particle)
    ensures r.(computedForce := p1.computedForce) == p1
    ensures k.distance(p1.position, b2.position) > H ==> r == p1
  {
    if k.distance(p1.position, b2.position) > H then p1
    else p1.(computedForce := Add(p1.computedForce, k.viscosity(BodyOf(p1), b2)))
  }

  /**
   * ComputeTensionGradient(par1, par2): writes only `colorFieldGradient`,
   * and skips pairs farther than `H` and coincident pairs.
   */
  function ComputeTensionGradient(k: Kernels, p1: Particle, b2: Body): (r: Particle)
    ensures r.(colorFieldGradient := p1.colorFieldGradient) == p1
    ensures k.distance(p1.position, b2.position) > H ==> r == p1
    ensures k.distance(p1.position, b2.position) == 0.0 ==> r == p1
  {
    var d := k.distance(p1.position, b2.position);
    if d > H || d == 0.0 then p1
    else p1.(colorFieldGradient := Add(p1.colorFieldGradient, k.tensionGradient(BodyOf(p1), b2)))
  }

  /**
   * ComputeTensionSecondGradient(par1, par2): writes only
   * `colorFieldSecondGradient`, with the same gate as the gradient.
   */
  function ComputeTensionSecondGradient(k: Kernels, p1: Particle, b2: Body): (r: Particle)
    ensures r.(colorFieldSecondGradient := p1.colorFieldSecondGradient) == p1
    ensures k.distance(p1.position, b2.position) > H ==> r == p1
    ensures k.distance(p1.position, b2.position) == 0.0 ==> r == p1
  {
    var d := k.distance(p1.position, b2.position);
    if d > H || d == 0.0 then p1
    else p1.(colorFieldSecondGradient :=
               Add(p1.colorFieldSecondGradient, k.tensionSecondGradient(BodyOf(p1), b2)))
  }

  /**
   * The four contributions of one visited pair, in the order of the scan.
   * Only the three additive accumulators of `par1` can change; a pair
   * outside the support changes nothing, and a coincident pair only
   * changes the force.
   */
  function PairStep(k: Kernels, p1: Particle, b2: Body): (r: Particle)
    ensures r.(computedForce := p1.computedForce,
               colorFieldGradient := p1.colorFieldGradient,
               colorFieldSecondGradient := p1.colorFieldSecondGradient) == p1
    ensures k.distance(p1.position, b2.position) > H ==> r == p1
    ensures k.distance(p1.position, b2.position) == 0.0 ==>
              r.colorFieldGradient == p1.colorFieldGradient &&
              r.colorFieldSecondGradient == p1.colorFieldSecondGradient
  {
    var q := ComputePressure(k, p1, b2);
    var q := ComputeViscosity(k, q, b2);
    var q := ComputeTensionGradient(k, q, b2);
    ComputeTensionSecondGradient(k, q, b2)
  }

  /**
   * ApplyTension(par).  Nothing changes unless the gradient length is
   * strictly above the threshold; then `colorField` becomes the tension
   * force F (componentwise F.c * level == -TensionScale * second.c * grad.c),
   * F is added to `computedForce` and `tensionLevel` records the length.
   */
  function ApplyTension(k: Kernels, p: Particle): (r: Particle)
    ensures r.(colorField := p.colorField, computedForce := p.computedForce,
               tensionLevel := p.tensionLevel) == p
    ensures k.length(p.colorFieldGradient) <= TensionThreshold ==> r == p
    ensures var level := k.length(p.colorFieldGradient);
            var g, s := p.colorFieldGradient, p.colorFieldSecondGradient;
            level > TensionThreshold ==>
              r.tensionLevel == level &&
              r.computedForce == Add(p.computedForce, r.colorField) &&
              r.colorField.x * level == -TensionScale * s.x * g.x &&
              r.colorField.y * level == -TensionScale * s.y * g.y &&
              r.colorField.z * level == -TensionScale * s.z * g.z
  {
    var level := k.length(p.colorFieldGradient);
    if level > TensionThreshold then
      var g, s := p.colorFieldGradient, p.colorFieldSecondGradient;
      var force := Vec3(-TensionScale * s.x * g.x / level,
                        -TensionScale * s.y * g.y / level,
                        -TensionScale * s.z * g.z / level);
      p.(colorField := force,
         computedForce := Add(p.computedForce, force),
         tensionLevel := level)
    else
      p
  }
}
