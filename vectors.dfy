/**
 * The part of the Vector3 value type that the particle core uses, over exact
 * reals, and the truncating integer cast of C#.
 */
module Vectors {
  datatype Vec3 = Vec3(x: real, y: real, z: real)

  function Zero(): Vec3 { Vec3(0.0, 0.0, 0.0) }

  function Add(a: Vec3, b: Vec3): Vec3 { Vec3(a.x + b.x, a.y + b.y, a.z + b.z) }

  function Sub(a: Vec3, b: Vec3): Vec3 { Vec3(a.x - b.x, a.y - b.y, a.z - b.z) }

  function Scale(a: Vec3, s: real): Vec3 { Vec3(a.x * s, a.y * s, a.z * s) }

  /**
   * C#'s `(int)` conversion of a floating-point value: it drops the
   * fraction, rounding toward zero (not toward minus infinity).
   */
  function Trunc(r: real): (n: int)
    ensures 0.0 <= r ==> 0 <= n && n as real <= r < n as real + 1.0
    ensures r < 0.0 ==> n <= 0 && n as real - 1.0 < r <= n as real
  {
    if r >= 0.0 then r.Floor else -((-r).Floor)
  }

  /** The values a C# `int` can hold; a cast outside this range is undefined. */
  predicate FitsInt(n: int) {
    -0x8000_0000 <= n < 0x8000_0000
  }
}
