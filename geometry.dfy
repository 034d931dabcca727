/** Three-component vectors over the reals (the simulation's glm::vec3) and
    the fixed simulation constants of the fluid model. */
module Geometry {

  datatype Vec3 = Vec3(x: real, y: real, z: real)

  const Zero: Vec3 := Vec3(0.0, 0.0, 0.0)

  function Add(a: Vec3, b: Vec3): Vec3 {
    Vec3(a.x + b.x, a.y + b.y, a.z + b.z)
  }

  function Sub(a: Vec3, b: Vec3): Vec3 {
    Vec3(a.x - b.x, a.y - b.y, a.z - b.z)
  }

  function Scale(s: real, a: Vec3): Vec3 {
    Vec3(s * a.x, s * a.y, s * a.z)
  }

  function Dot(a: Vec3, b: Vec3): real {
    a.x * b.x + a.y * b.y + a.z * b.z
  }

  /** Squared distance between two points: the dot product of their difference with itself. */
  function Dist2(a: Vec3, b: Vec3): real {
    Dot(Sub(b, a), Sub(b, a))
  }

  // Simulation constants, exact decimal values of the float literals.
  const G: real := 0.001 * 0.25          // gravitational constant
  const Spacing: real := 0.22            // particle spacing
  const K: real := Spacing / 1000.0      // far pressure weight
  const KNear: real := K * 10.0          // near pressure weight
  const R: real := Spacing * 1.25        // radius of support
  const Rsq: real := R * R
  const SimW: real := 1.5                // half width of the world
  const Bottom: real := 0.0              // floor of the world
  const InitialGirth: real := 2.0
  const MaxVel: real := 2.0
  /** Lattice step of both seeding routines: half the radius of support. */
  const LatticeStep: real := R * 0.5

  /** A square root as the C library provides it, over the non-negative reals. */
  ghost predicate IsSqrt(sqrt: real -> real) {
    forall x: real :: x >= 0.0 ==> sqrt(x) >= 0.0 && sqrt(x) * sqrt(x) == x
  }

  /** A squared distance below the squared radius of support bounds every
      axis separation strictly by the radius. */
  lemma AxesWithinRadius(a: Vec3, b: Vec3)
    requires Dist2(a, b) < Rsq
    ensures -R < b.x - a.x < R && -R < b.y - a.y < R && -R < b.z - a.z < R
  {
    var d := Sub(b, a);
    assert d.x * d.x >= 0.0 && d.y * d.y >= 0.0 && d.z * d.z >= 0.0;
    SquareBelow(d.x);
    SquareBelow(d.y);
    SquareBelow(d.z);
  }

  lemma SquareBelow(t: real)
    requires t * t < Rsq
    ensures -R < t < R
  {
  }
}
