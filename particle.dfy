/** The per-particle record of the simulation and the two ways a particle is created. */
module Particles {
  import opened Geometry

  /** A cached interaction: the neighbour's index and its weights q and q*q. */
  datatype Neighbor = Neighbor(j: nat, q: real, q2: real)

  datatype Particle = Particle(
    pos: Vec3,
    r: real, g: real, b: real,        // render colour
    posOld: Vec3,
    vel: Vec3,
    force: Vec3,
    mass: real,
    rho: real, rhoNear: real,
    press: real, pressNear: real,
    sigma: real, beta: real,
    neighbors: seq<Neighbor>)

  /** A particle as the initial seeding creates it: at rest at p, no force,
      cohesion coefficients 3 and 4. Fields the seeding leaves unset are zero. */
  function Seeded(p: Vec3): Particle {
    Particle(p, 0.0, 0.0, 0.0, p, Zero, Zero, 0.0, 0.0, 0.0, 0.0, 0.0, 3.0, 4.0, [])
  }

  /** A particle as an added layer creates it: its previous position is p moved by a
      thousandth of the jitter triple, and twice gravity is already applied. */
  function Dropped(p: Vec3, jitter: Vec3): Particle {
    Particle(p, 0.0, 0.0, 0.0, Add(p, Scale(0.001, jitter)), Zero, Vec3(0.0, -G * 2.0, 0.0),
             0.0, 0.0, 0.0, 0.0, 0.0, 3.0, 4.0, [])
  }

  /** The positions of a particle sequence, index for index. */
  function Positions(ps: seq<Particle>): seq<Vec3> {
    seq(|ps|, k requires 0 <= k < |ps| => ps[k].pos)
  }
}
