/** The simulation's global state in main.cpp (the particle vector, the one
    spatial index, the gravity switch and the rest density) and the routines
    that change it: the two seeding loops and the first four phases of a step.
    Each routine is proved against the functions of Seeding and Phases. */
module Simulation {
  import opened Geometry
  import opened SpatialHash
  import opened Particles
  import opened Seeding
  import opened Phases

  /** Number of particles the initial droplet is seeded for. */
  const N: nat := 200

  class World {
    var particles: seq<Particle>
    /** The global index; its cell size is twice the radius of support. */
    const index: SpatialIndex
    var useGravity: bool
    var doSimulation: bool
    var restDensity: real

    /** The index discretises with cell size 2r over the 27 offsets around a cell. */
    predicate Valid()
      reads this
    {
      index.invCellSize == 1.0 / IndexCellSize && index.offsets == NeighborOffsets()
    }

    /** The globals as the program starts: no particles, an empty index, both
        switches off and rest density 3. */
    constructor ()
      ensures Valid()
      ensures particles == [] && index.table == map[]
      ensures !useGravity && !doSimulation && restDensity == 3.0
      ensures fresh(index)
    {
      particles := [];
      index := new SpatialIndex(R * 2.0);
      useGravity := false;
      doSimulation := false;
      restDensity := 3.0;
    }

    /** Seeds the droplet: walks the initial lattice layer by layer, pushing a particle
        at rest at each point while the store holds at most pN particles. */
    method InitParticles(pN: nat, halfDepth: real -> real)
      modifies this`particles
      ensures particles == Fill(pN, old(particles), Lattice(InitStart, InitTop, InitHalfWidth, halfDepth))
    {
      var layerW := InitialGirth / 2.0;
      ghost var total := Lattice(InitStart, InitTop, InitHalfWidth, halfDepth);
      ghost var visited: seq<Vec3> := [];
      var y := Bottom + 0.1;
      while y <= 5.0
        invariant visited + Lattice(y, InitTop, InitHalfWidth, halfDepth) == total
        invariant particles == Fill(pN, old(particles), visited)
        decreases Steps(y, InitTop)
      {
        StepsDecrease(y, InitTop);
        ghost var layer := Layer(y, -InitHalfWidth, InitHalfWidth, halfDepth);
        SeedLayer(pN, y, layerW, halfDepth);
        FillConcat(pN, old(particles), visited, layer);
        assert Lattice(y, InitTop, InitHalfWidth, halfDepth) == layer + Lattice(y + LatticeStep, InitTop, InitHalfWidth, halfDepth);
        Associative(visited, layer, Lattice(y + LatticeStep, InitTop, InitHalfWidth, halfDepth));
        visited := visited + layer;
        y := y + LatticeStep;
      }
      assert visited + [] == visited;
    }

    /** One layer of the droplet: the rows at height y for x from -layerW/2 to layerW/2. */
    method SeedLayer(pN: nat, y: real, layerW: real, halfDepth: real -> real)
      modifies this`particles
      ensures particles == Fill(pN, old(particles), Layer(y, -layerW / 2.0, layerW / 2.0, halfDepth))
    {
      ghost var total := Layer(y, -layerW / 2.0, layerW / 2.0, halfDepth);
      ghost var visited: seq<Vec3> := [];
      var x := -layerW / 2.0;
      while x <= layerW / 2.0
        invariant visited + Layer(y, x, layerW / 2.0, halfDepth) == total
        invariant particles == Fill(pN, old(particles), visited)
        decreases Steps(x, layerW / 2.0)
      {
        StepsDecrease(x, layerW / 2.0);
        ghost var row := Row(x, y, -halfDepth(x), halfDepth(x));
        SeedRow(pN, x, y, halfDepth(x));
        FillConcat(pN, old(particles), visited, row);
        assert Layer(y, x, layerW / 2.0, halfDepth) == row + Layer(y, x + LatticeStep, layerW / 2.0, halfDepth);
        Associative(visited, row, Layer(y, x + LatticeStep, layerW / 2.0, halfDepth));
        visited := visited + row;
        x := x + LatticeStep;
      }
      assert visited + [] == visited;
    }

    /** One row of the droplet: the points (x, y, z) for z from -h to h; the count guard
        leaves the row as soon as the store holds more than pN particles. */
    method SeedRow(pN: nat, x: real, y: real, h: real)
      modifies this`particles
      ensures particles == Fill(pN, old(particles), Row(x, y, -h, h))
    {
      ghost var visited: seq<Vec3> := [];
      var z := -h;
      while z <= h
        invariant visited + Row(x, y, z, h) == Row(x, y, -h, h)
        invariant particles == Fill(pN, old(particles), visited)
        decreases Steps(z, h)
      {
        StepsDecrease(z, h);
        if |particles| > pN {
          FillSaturated(pN, old(particles), visited, Row(x, y, z, h));
          visited := visited + Row(x, y, z, h);
          break;
        }
        var pos := Vec3(x, y, z);
        particles := particles + [Seeded(pos)];
        assert (visited + [pos])[..|visited|] == visited;
        assert Row(x, y, z, h) == [pos] + Row(x, y, z + LatticeStep, h);
        Associative(visited, [pos], Row(x, y, z + LatticeStep, h));
        visited := visited + [pos];
        z := z + LatticeStep;
      }
      assert visited + [] == visited;
    }

    /** Drops layers of particles from above: walks the added lattice layer by layer,
        pushing a jittered particle under twice gravity at every point, and stops after
        pL layers (after one when pL is 0). */
    method AddParticleLayers(pL: nat, halfDepth: real -> real, jitter: nat -> Vec3)
      modifies this`particles
      ensures particles == Drop(old(particles), Layers(AddStart, AddTop, AddHalfWidth, halfDepth, Quota(pL)), jitter)
    {
      var layer := 0;
      var layerW := InitialGirth * 0.4;
      var startLayer := Bottom + 5.5;
      ghost var quota := Quota(pL);
      ghost var total := Layers(AddStart, AddTop, AddHalfWidth, halfDepth, quota);
      ghost var visited: seq<Vec3> := [];
      var y := startLayer;
      while y <= 8.0
        invariant 0 <= layer < quota
        invariant visited + Layers(y, AddTop, AddHalfWidth, halfDepth, quota - layer) == total
        invariant particles == Drop(old(particles), visited, jitter)
        decreases Steps(y, AddTop)
      {
        StepsDecrease(y, AddTop);
        ghost var row := Layer(y, -AddHalfWidth, AddHalfWidth, halfDepth);
        assert -layerW / 2.0 == -AddHalfWidth && layerW / 2.0 == AddHalfWidth;
        DropLayer(y, layerW, halfDepth, jitter);
        assert particles == Drop(Drop(old(particles), visited, jitter), row, jitter);
        AddedLayer(old(particles), visited, y, halfDepth, quota - layer, jitter);
        visited := visited + row;
        layer := layer + 1;
        if layer >= pL {
          assert layer == quota;
          assert visited + [] == visited;
          break;
        }
        y := y + LatticeStep;
      }
      assert visited + [] == visited;
    }

    /** One added layer: the rows at height y for x from -layerW/2 to layerW/2. */
    method DropLayer(y: real, layerW: real, halfDepth: real -> real, jitter: nat -> Vec3)
      modifies this`particles
      ensures particles == Drop(old(particles), Layer(y, -layerW / 2.0, layerW / 2.0, halfDepth), jitter)
    {
      ghost var total := Layer(y, -layerW / 2.0, layerW / 2.0, halfDepth);
      ghost var visited: seq<Vec3> := [];
      var x := -layerW / 2.0;
      while x <= layerW / 2.0
        invariant visited + Layer(y, x, layerW / 2.0, halfDepth) == total
        invariant particles == Drop(old(particles), visited, jitter)
        decreases Steps(x, layerW / 2.0)
      {
        StepsDecrease(x, layerW / 2.0);
        ghost var row := Row(x, y, -halfDepth(x), halfDepth(x));
        DropRow(x, y, halfDepth(x), jitter);
        DropConcat(old(particles), visited, row, jitter);
        assert Layer(y, x, layerW / 2.0, halfDepth) == row + Layer(y, x + LatticeStep, layerW / 2.0, halfDepth);
        Associative(visited, row, Layer(y, x + LatticeStep, layerW / 2.0, halfDepth));
        visited := visited + row;
        x := x + LatticeStep;
      }
      assert visited + [] == visited;
    }

    /** One added row: a particle at each point (x, y, z) for z from -h to h, its
        previous position jittered by a thousandth of the triple drawn for its index. */
    method DropRow(x: real, y: real, h: real, jitter: nat -> Vec3)
      modifies this`particles
      ensures particles == Drop(old(particles), Row(x, y, -h, h), jitter)
    {
      ghost var visited: seq<Vec3> := [];
      var z := -h;
      while z <= h
        invariant visited + Row(x, y, z, h) == Row(x, y, -h, h)
        invariant particles == Drop(old(particles), visited, jitter)
        decreases Steps(z, h)
      {
        StepsDecrease(z, h);
        var pos := Vec3(x, y, z);
        particles := particles + [Dropped(pos, jitter(|particles|))];
        assert (visited + [pos])[..|visited|] == visited;
        assert Row(x, y, z, h) == [pos] + Row(x, y, z + LatticeStep, h);
        Associative(visited, [pos], Row(x, y, z + LatticeStep, h));
        visited := visited + [pos];
        z := z + LatticeStep;
      }
      assert visited + [] == visited;
    }

    /** The simulation part of a reset: the store is emptied and reseeded with N
        particles, the simulation is paused and gravity is on. */
    method ResetSimulation(halfDepth: real -> real)
      modifies this`particles, this`doSimulation, this`useGravity
      ensures particles == Fill(N, [], Lattice(InitStart, InitTop, InitHalfWidth, halfDepth))
      ensures !doSimulation && useGravity
    {
      particles := [];
      InitParticles(N, halfDepth);
      doSimulation := false;
      useGravity := true;
    }

    /** Phase 1: applies each particle's force, restarts the force from gravity,
        takes the Verlet step with damping and adds the boundary springs. */
    method Integrate()
      modifies this`particles
      ensures particles == IntegrateAll(old(particles), useGravity)
    {
      var i := 0;
      while i < |particles|
        invariant 0 <= i <= |particles| == |old(particles)|
        invariant forall k :: 0 <= k < i ==> particles[k] == Integrated(old(particles)[k], useGravity)
        invariant forall k :: i <= k < |particles| ==> particles[k] == old(particles)[k]
      {
        IntegrateAt(i);
        i := i + 1;
      }
    }

    /** The integration of particle i, field by field. */
    method IntegrateAt(i: nat)
      requires i < |particles|
      modifies this`particles
      ensures particles == old(particles)[i := Integrated(old(particles)[i], useGravity)]
    {
      var p := particles[i];
      p := p.(pos := Add(p.pos, p.force));
      if useGravity {
        p := p.(force := Vec3(0.0, -G, 0.0));
      } else {
        p := p.(force := Zero);
      }
      p := p.(vel := Sub(p.pos, p.posOld));
      var velMag := Dot(p.vel, p.vel);
      if velMag > MaxVel * MaxVel {
        p := p.(vel := Scale(0.1, p.vel));
      }
      p := p.(posOld := p.pos);
      p := p.(pos := Add(p.pos, p.vel));
      if useGravity {
        if p.pos.x < -SimW {
          p := p.(force := p.force.(x := p.force.x - (p.pos.x - -SimW) / 8.0));
        }
        if p.pos.x > SimW {
          p := p.(force := p.force.(x := p.force.x - (p.pos.x - SimW) / 8.0));
        }
        if p.pos.z < -SimW {
          p := p.(force := p.force.(z := p.force.z - (p.pos.z - -SimW) / 8.0));
        }
        if p.pos.z > SimW {
          p := p.(force := p.force.(z := p.force.z - (p.pos.z - SimW) / 8.0));
        }
        if p.pos.y < Bottom {
          p := p.(force := p.force.(y := p.force.y - (p.pos.y - Bottom) / 8.0));
        }
        if p.pos.y > Bottom + 10.0 {
          p := p.(force := p.force.(y := p.force.y - (p.pos.y - (Bottom + 10.0)) / 8.0));
        }
      }
      p := p.(neighbors := []);
      particles := particles[i := p];
    }

    /** Phase 2: empties the index and inserts every particle's index under its position. */
    method RebuildIndex()
      modifies index
      ensures index.table == Bucketed(Positions(particles), index.invCellSize)
    {
      index.Clear();
      var i := 0;
      while i < |particles|
        invariant 0 <= i <= |particles|
        invariant index.table == Bucketed(Positions(particles)[..i], index.invCellSize)
      {
        index.Insert(particles[i].pos, i);
        assert Positions(particles)[..i + 1][..i] == Positions(particles)[..i];
        i := i + 1;
      }
      assert Positions(particles)[..|particles|] == Positions(particles);
    }

    /** Phase 3: for each particle, queries the index and caches every other candidate
        inside the radius of support with its weights, summing q squared into the
        density and q cubed into the near density. */
    method ComputeDensity(sqrt: real -> real)
      requires TableWithin(index.table, |particles|)
      modifies this`particles
      ensures |particles| == |old(particles)|
      ensures forall i :: 0 <= i < |particles| ==>
                particles[i] == Densified(old(particles), i, Gather(index.table, Discretize(old(particles)[i].pos, index.invCellSize), index.offsets), sqrt)
    {
      var i := 0;
      while i < |particles|
        invariant 0 <= i <= |particles| == |old(particles)|
        invariant Positions(particles) == Positions(old(particles))
        invariant forall k :: 0 <= k < i ==>
                    particles[k] == Densified(old(particles), k, Gather(index.table, Discretize(old(particles)[k].pos, index.invCellSize), index.offsets), sqrt)
        invariant forall k :: i <= k < |particles| ==> particles[k] == old(particles)[k]
      {
        ghost var before := particles;
        DensityAt(i, sqrt);
        assert Positions(particles) == Positions(before);
        i := i + 1;
      }
    }

    /** The density pass for particle i: its cache and densities from the query around it. */
    method DensityAt(i: nat, sqrt: real -> real)
      requires i < |particles| && TableWithin(index.table, |particles|)
      modifies this`particles
      ensures particles == old(particles)[i := Densified(old(particles), i, Gather(index.table, Discretize(old(particles)[i].pos, index.invCellSize), index.offsets), sqrt)]
    {
      var p := particles[i];
      p := p.(rho := 0.0, rhoNear := 0.0);
      var neigh := index.Neighbors(p.pos, []);
      assert neigh == Gather(index.table, Discretize(particles[i].pos, index.invCellSize), index.offsets);
      var found, d, dn := Interactions(particles, i, neigh, sqrt);
      p := p.(rho := p.rho + d, rhoNear := p.rhoNear + dn, neighbors := p.neighbors + found);
      particles := particles[i := p];
    }

    /** Phase 4: the equation of state, far pressure from the density's excess over the
        rest density and near pressure from the near density. */
    method ComputePressure()
      modifies this`particles
      ensures particles == PressureAll(old(particles), restDensity)
    {
      for i := 0 to |particles|
        invariant |particles| == |old(particles)|
        invariant forall k :: 0 <= k < i ==> particles[k] == Pressurized(old(particles)[k], restDensity)
        invariant forall k :: i <= k < |particles| ==> particles[k] == old(particles)[k]
      {
        particles := particles[i := particles[i].(press := K * (particles[i].rho - restDensity),
                                                  pressNear := KNear * particles[i].rhoNear)];
      }
    }

    /** One step through the pressure pass; afterwards the index holds exactly the
        particles' current positions. */
    method Step(sqrt: real -> real)
      requires Valid()
      modifies this`particles, index
      ensures particles == Tick(old(particles), useGravity, restDensity, sqrt)
      ensures index.table == Bucketed(Positions(particles), 1.0 / IndexCellSize)
    {
      Integrate();
      ghost var moved := particles;
      RebuildIndex();
      ComputeDensity(sqrt);
      DensityPass(moved, particles, sqrt);
      ComputePressure();
      PassesKeepPositions(moved, restDensity, sqrt);
    }
  }

  /** A store whose every particle is the one the density pass computes from a query
      of the index rebuilt from moved is the density pass applied to moved. */
  lemma DensityPass(moved: seq<Particle>, dense: seq<Particle>, sqrt: real -> real)
    requires |dense| == |moved|
    requires forall k :: 0 <= k < |moved| ==>
               dense[k] == Densified(moved, k, Gather(Bucketed(Positions(moved), 1.0 / IndexCellSize),
                                                      Discretize(moved[k].pos, 1.0 / IndexCellSize), NeighborOffsets()), sqrt)
    ensures dense == DensityAll(moved, sqrt)
  {
  }

  /** The density and pressure passes move no particle. */
  lemma PassesKeepPositions(ps: seq<Particle>, restDensity: real, sqrt: real -> real)
    ensures Positions(PressureAll(DensityAll(ps, sqrt), restDensity)) == Positions(ps)
  {
    var out := PressureAll(DensityAll(ps, sqrt), restDensity);
    assert forall k :: 0 <= k < |ps| ==> Positions(out)[k] == Positions(ps)[k];
  }

  /** The inner loop of the density pass: walks the candidates of particle i, skipping
      i itself, and for each one strictly inside the radius of support records its
      weights and adds q squared and q cubed to the two sums. */
  method Interactions(ps: seq<Particle>, i: nat, neigh: seq<nat>, sqrt: real -> real) returns (found: seq<Neighbor>, d: real, dn: real)
    requires i < |ps| && Within(neigh, |ps|)
    ensures found == Cache(Positions(ps), i, neigh, sqrt)
    ensures d == Rho(found) && dn == RhoNear(found)
  {
    ghost var pos := Positions(ps);
    found := [];
    d := 0.0;
    dn := 0.0;
    for j := 0 to |neigh|
      invariant found == Cache(pos, i, neigh[..j], sqrt)
      invariant d == Rho(found) && dn == RhoNear(found)
    {
      CacheStep(pos, i, neigh, j, sqrt);
      if neigh[j] == i {
        assert found == Cache(pos, i, neigh[..j + 1], sqrt);
        continue;
      }
      var rij := Sub(ps[neigh[j]].pos, ps[i].pos);
      var rijLen2 := Dot(rij, rij);
      assert rijLen2 == Dist2(pos[i], pos[neigh[j]]);
      if rijLen2 < Rsq {
        var rijLen := sqrt(rijLen2);
        var q := 1.0 - rijLen / R;
        var q2 := q * q;
        var q3 := q2 * q;
        var n := Neighbor(neigh[j], q, q2);
        assert n == Weighted(neigh[j], Dist2(pos[i], pos[neigh[j]]), sqrt);
        DensitySnoc(found, n);
        assert n.q2 == q2 && n.q2 * n.q == q3;
        d := d + q2;
        dn := dn + q3;
        found := found + [n];
      } else {
        assert found == Cache(pos, i, neigh[..j + 1], sqrt);
      }
    }
    assert neigh[..|neigh|] == neigh;
  }

  lemma Associative<T>(a: seq<T>, b: seq<T>, c: seq<T>)
    ensures a + (b + c) == (a + b) + c
  {
  }
}
