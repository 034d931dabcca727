/** The lattices the two seeding routines walk, and what they append to the
    particle store. A lattice is listed in loop order: layers bottom-up in y,
    rows in x, points in z, all spaced half a radius of support apart. The
    z-extent of a row depends on its x through a cosine envelope, which the
    model takes as a given function halfDepth. */
module Seeding {
  import opened Geometry
  import opened Particles

  /** Number of lattice values from `from` up to and including `to` (non-positive when none). */
  function Steps(from: real, to: real): int {
    ((to - from) / LatticeStep).Floor + 1
  }

  /** While from is at most to, the count is positive and one step up lowers it by one. */
  lemma StepsDecrease(from: real, to: real)
    requires from <= to
    ensures Steps(from, to) >= 1
    ensures Steps(from + LatticeStep, to) == Steps(from, to) - 1
  {
    assert (to - (from + LatticeStep)) / LatticeStep == (to - from) / LatticeStep - 1.0;
  }

  /** The points (x, y, z), (x, y, z + step), ... not above h. */
  function Row(x: real, y: real, z: real, h: real): seq<Vec3>
    decreases Steps(z, h)
  {
    if z > h then [] else [Vec3(x, y, z)] + Row(x, y, z + LatticeStep, h)
  }

  /** The rows of height y from x up to w, each spanning [-halfDepth(x), halfDepth(x)] in z. */
  function Layer(y: real, x: real, w: real, halfDepth: real -> real): seq<Vec3>
    decreases Steps(x, w)
  {
    if x > w then [] else Row(x, y, -halfDepth(x), halfDepth(x)) + Layer(y, x + LatticeStep, w, halfDepth)
  }

  /** All layers from height y up to top, each spanning [-w, w] in x. */
  function Lattice(y: real, top: real, w: real, halfDepth: real -> real): seq<Vec3>
    decreases Steps(y, top)
  {
    if y > top then [] else Layer(y, -w, w, halfDepth) + Lattice(y + LatticeStep, top, w, halfDepth)
  }

  /** At most n layers from height y up to top. */
  function Layers(y: real, top: real, w: real, halfDepth: real -> real, n: nat): seq<Vec3>
    decreases n
  {
    if y > top || n == 0 then [] else Layer(y, -w, w, halfDepth) + Layers(y + LatticeStep, top, w, halfDepth, n - 1)
  }

  /** Dropping one more added layer: the points left to visit lose that layer, and the
      store is the drop of the points visited so far followed by that layer. */
  lemma AddedLayer(ps: seq<Particle>, visited: seq<Vec3>, y: real, halfDepth: real -> real, n: nat, jitter: nat -> Vec3)
    requires y <= AddTop && n > 0
    ensures var layer := Layer(y, -AddHalfWidth, AddHalfWidth, halfDepth);
            && visited + Layers(y, AddTop, AddHalfWidth, halfDepth, n)
               == (visited + layer) + Layers(y + LatticeStep, AddTop, AddHalfWidth, halfDepth, n - 1)
            && Drop(ps, visited + layer, jitter) == Drop(Drop(ps, visited, jitter), layer, jitter)
  {
    var layer := Layer(y, -AddHalfWidth, AddHalfWidth, halfDepth);
    var rest := Layers(y + LatticeStep, AddTop, AddHalfWidth, halfDepth, n - 1);
    assert Layers(y, AddTop, AddHalfWidth, halfDepth, n) == layer + rest;
    assert visited + (layer + rest) == (visited + layer) + rest;
    DropConcat(ps, visited, layer, jitter);
  }

  // The initial droplet: heights 0.1 to 5, x in [-0.5, 0.5].
  const InitStart: real := Bottom + 0.1
  const InitTop: real := 5.0
  const InitHalfWidth: real := InitialGirth / 2.0 / 2.0

  // Added layers: heights 5.5 to 8, x in [-0.4, 0.4].
  const AddStart: real := Bottom + 5.5
  const AddTop: real := 8.0
  const AddHalfWidth: real := InitialGirth * 0.4 / 2.0

  /** Layers an add emits: the layer counter is tested only after a layer is done, so at least one. */
  function Quota(pL: nat): (n: nat)
    ensures n >= 1 && n >= pL
    ensures pL >= 1 ==> n == pL
    ensures pL == 0 ==> n == 1
  {
    if pL == 0 then 1 else pL
  }

  /** An add asked for no layers still emits exactly the first added layer. */
  lemma AddNoneEmitsOneLayer(halfDepth: real -> real)
    ensures Layers(AddStart, AddTop, AddHalfWidth, halfDepth, Quota(0))
         == Layer(AddStart, -AddHalfWidth, AddHalfWidth, halfDepth)
  {
    assert Layers(AddStart + LatticeStep, AddTop, AddHalfWidth, halfDepth, 0) == [];
    assert Layer(AddStart, -AddHalfWidth, AddHalfWidth, halfDepth) + [] == Layer(AddStart, -AddHalfWidth, AddHalfWidth, halfDepth);
  }

  /** The store after visiting the points pts in order, pushing a seeded particle at
      each point visited while the store holds at most pN particles. */
  function Fill(pN: nat, ps: seq<Particle>, pts: seq<Vec3>): seq<Particle> {
    if pts == [] then ps
    else
      var done := Fill(pN, ps, pts[..|pts| - 1]);
      if |done| > pN then done else done + [Seeded(pts[|pts| - 1])]
  }

  /** The store after an add visits the points pts in order, pushing at each a dropped
      particle; the particle stored at index n takes the n-th jitter triple. */
  function Drop(ps: seq<Particle>, pts: seq<Vec3>, jitter: nat -> Vec3): seq<Particle> {
    if pts == [] then ps
    else
      var done := Drop(ps, pts[..|pts| - 1], jitter);
      done + [Dropped(pts[|pts| - 1], jitter(|done|))]
  }

  /** An add keeps what the store held and appends one dropped particle per point. */
  lemma {:induction false} DropShape(ps: seq<Particle>, pts: seq<Vec3>, jitter: nat -> Vec3)
    ensures |Drop(ps, pts, jitter)| == |ps| + |pts|
    ensures Drop(ps, pts, jitter)[..|ps|] == ps
    ensures forall k :: |ps| <= k < |Drop(ps, pts, jitter)| ==> Drop(ps, pts, jitter)[k] == Dropped(pts[k - |ps|], jitter(k))
  {
    if pts != [] {
      var m := |pts| - 1;
      DropShape(ps, pts[..m], jitter);
    }
  }

  /** Visiting a then b is visiting a, then visiting b from the store that left. */
  lemma {:induction false} DropConcat(ps: seq<Particle>, a: seq<Vec3>, b: seq<Vec3>, jitter: nat -> Vec3)
    ensures Drop(ps, a + b, jitter) == Drop(Drop(ps, a, jitter), b, jitter)
  {
    if b == [] {
      assert a + b == a;
    } else {
      var m := |b| - 1;
      DropConcat(ps, a, b[..m], jitter);
      assert (a + b)[..|a + b| - 1] == a + b[..m];
    }
  }

  /** Seeding keeps what the store held, then adds seeded particles at the first lattice
      points, stopping once the store holds pN + 1 particles. */
  lemma {:induction false} FillShape(pN: nat, ps: seq<Particle>, pts: seq<Vec3>)
    ensures |Fill(pN, ps, pts)| == if |ps| > pN then |ps| else Min(|ps| + |pts|, pN + 1)
    ensures Fill(pN, ps, pts)[..|ps|] == ps
    ensures forall k :: |ps| <= k < |Fill(pN, ps, pts)| ==> Fill(pN, ps, pts)[k] == Seeded(pts[k - |ps|])
  {
    if pts != [] {
      var m := |pts| - 1;
      FillShape(pN, ps, pts[..m]);
    }
  }

  /** Visiting a then b is visiting a, then visiting b from the store that left. */
  lemma {:induction false} FillConcat(pN: nat, ps: seq<Particle>, a: seq<Vec3>, b: seq<Vec3>)
    ensures Fill(pN, ps, a + b) == Fill(pN, Fill(pN, ps, a), b)
  {
    if b == [] {
      assert a + b == a;
    } else {
      var m := |b| - 1;
      FillConcat(pN, ps, a, b[..m]);
      assert (a + b)[..|a + b| - 1] == a + b[..m];
    }
  }

  /** The count guard: seeding never leaves more than max(initial size, pN + 1) particles,
      and from a store with room, a lattice with enough points fills it to exactly pN + 1. */
  lemma SeedCount(pN: nat, ps: seq<Particle>, pts: seq<Vec3>)
    ensures |Fill(pN, ps, pts)| <= if |ps| > pN then |ps| else pN + 1
    ensures |Fill(pN, ps, pts)| >= |ps|
    ensures |ps| <= pN && |ps| + |pts| > pN ==> |Fill(pN, ps, pts)| == pN + 1
  {
    FillShape(pN, ps, pts);
  }

  function Min(a: int, b: int): int {
    if a <= b then a else b
  }

  /** Once the store is over the count, visiting further points adds nothing. */
  lemma {:induction false} FillSaturated(pN: nat, ps: seq<Particle>, a: seq<Vec3>, b: seq<Vec3>)
    requires |Fill(pN, ps, a)| > pN
    ensures Fill(pN, ps, a + b) == Fill(pN, ps, a)
  {
    if b != [] {
      var m := |b| - 1;
      FillSaturated(pN, ps, a, b[..m]);
      assert (a + b)[..|a + b| - 1] == a + b[..m];
    } else {
      assert a + b == a;
    }
  }

  lemma {:induction false} RowBounds(x: real, y: real, z: real, h: real)
    ensures forall p :: p in Row(x, y, z, h) ==> p.x == x && p.y == y && z <= p.z <= h
    decreases Steps(z, h)
  {
    if z <= h {
      RowBounds(x, y, z + LatticeStep, h);
    }
  }

  lemma {:induction false} LayerBounds(y: real, x: real, w: real, halfDepth: real -> real)
    ensures forall p :: p in Layer(y, x, w, halfDepth) ==>
              p.y == y && x <= p.x <= w && -halfDepth(p.x) <= p.z <= halfDepth(p.x)
    decreases Steps(x, w)
  {
    if x <= w {
      RowBounds(x, y, -halfDepth(x), halfDepth(x));
      LayerBounds(y, x + LatticeStep, w, halfDepth);
    }
  }

  /** Every point of the initial lattice lies in the droplet volume. */
  lemma {:induction false} LatticeBounds(y: real, top: real, w: real, halfDepth: real -> real)
    ensures forall p :: p in Lattice(y, top, w, halfDepth) ==>
              y <= p.y <= top && -w <= p.x <= w && -halfDepth(p.x) <= p.z <= halfDepth(p.x)
    decreases Steps(y, top)
  {
    if y <= top {
      LayerBounds(y, -w, w, halfDepth);
      LatticeBounds(y + LatticeStep, top, w, halfDepth);
    }
  }

  /** Every point of n layers lies at most n - 1 steps above the first layer and not above top. */
  lemma {:induction false} LayersBounds(y: real, top: real, w: real, halfDepth: real -> real, n: nat)
    ensures forall p :: p in Layers(y, top, w, halfDepth, n) ==>
              y <= p.y <= top && p.y <= y + (n - 1) as real * LatticeStep &&
              -w <= p.x <= w && -halfDepth(p.x) <= p.z <= halfDepth(p.x)
    decreases n
  {
    if y <= top && n > 0 {
      var layer := Layer(y, -w, w, halfDepth);
      var rest := Layers(y + LatticeStep, top, w, halfDepth, n - 1);
      LayerBounds(y, -w, w, halfDepth);
      LayersBounds(y + LatticeStep, top, w, halfDepth, n - 1);
      assert y + LatticeStep + (n - 2) as real * LatticeStep == y + (n - 1) as real * LatticeStep;
      assert Layers(y, top, w, halfDepth, n) == layer + rest;
    }
  }

  predicate InUnitCube(v: Vec3) {
    0.0 <= v.x <= 1.0 && 0.0 <= v.y <= 1.0 && 0.0 <= v.z <= 1.0
  }

  /** The particles an add of pL layers creates: between heights 5.5 and 8, in at most
      max(pL, 1) layers, falling with twice gravity, previous position jittered
      by at most a thousandth upwards on each axis. */
  lemma AddedParticles(pL: nat, ps: seq<Particle>, halfDepth: real -> real, jitter: nat -> Vec3)
    requires forall n: nat :: InUnitCube(jitter(n))
    ensures var added := Drop(ps, Layers(AddStart, AddTop, AddHalfWidth, halfDepth, Quota(pL)), jitter);
            && |added| == |ps| + |Layers(AddStart, AddTop, AddHalfWidth, halfDepth, Quota(pL))|
            && added[..|ps|] == ps
            && forall k :: |ps| <= k < |added| ==>
                 var p := added[k];
                 && AddStart <= p.pos.y <= AddTop
                 && p.pos.y <= AddStart + (Quota(pL) - 1) as real * LatticeStep
                 && -AddHalfWidth <= p.pos.x <= AddHalfWidth
                 && -halfDepth(p.pos.x) <= p.pos.z <= halfDepth(p.pos.x)
                 && p.force == Vec3(0.0, -G * 2.0, 0.0) && p.sigma == 3.0 && p.beta == 4.0
                 && 0.0 <= p.posOld.x - p.pos.x <= 0.001
                 && 0.0 <= p.posOld.y - p.pos.y <= 0.001
                 && 0.0 <= p.posOld.z - p.pos.z <= 0.001
  {
    var pts := Layers(AddStart, AddTop, AddHalfWidth, halfDepth, Quota(pL));
    DropShape(ps, pts, jitter);
    LayersBounds(AddStart, AddTop, AddHalfWidth, halfDepth, Quota(pL));
    forall k | 0 <= k < |pts| ensures pts[k] in pts {
    }
  }

  /** The particles the initial seeding creates lie in the droplet volume, at rest, with no force. */
  lemma SeededParticles(pN: nat, ps: seq<Particle>, halfDepth: real -> real)
    ensures var filled := Fill(pN, ps, Lattice(InitStart, InitTop, InitHalfWidth, halfDepth));
            forall k :: |ps| <= k < |filled| ==>
              var p := filled[k];
              && InitStart <= p.pos.y <= InitTop
              && -InitHalfWidth <= p.pos.x <= InitHalfWidth
              && -halfDepth(p.pos.x) <= p.pos.z <= halfDepth(p.pos.x)
              && p.posOld == p.pos && p.force == Zero && p.sigma == 3.0 && p.beta == 4.0
  {
    var pts := Lattice(InitStart, InitTop, InitHalfWidth, halfDepth);
    FillShape(pN, ps, pts);
    LatticeBounds(InitStart, InitTop, InitHalfWidth, halfDepth);
    forall k | 0 <= k < |pts| ensures pts[k] in pts {
    }
  }
}
