/** What each phase of one simulation tick does to a particle, as functions of
    the particles before the phase: integration with force reset, damping and
    boundary springs; the density pass with its neighbour cache; the pressure
    equation of state. The class Simulation runs these phases as loops and is
    proved against these functions. */
module Phases {
  import opened Geometry
  import opened SpatialHash
  import opened Particles

  /** The restoring spring on one axis: f points back into [lo, hi], with
      magnitude an eighth of the excess, and is zero inside. */
  predicate Restoring(c: real, lo: real, hi: real, f: real) {
    && (f > 0.0 <==> c < lo)
    && (f < 0.0 <==> c > hi)
    && (c < lo ==> f == (lo - c) / 8.0)
    && (c > hi ==> f == (hi - c) / 8.0)
  }

  function Spring(c: real, lo: real, hi: real): real {
    if c < lo then -(c - lo) / 8.0 else if c > hi then -(c - hi) / 8.0 else 0.0
  }

  /** One particle after the integration phase. */
  function Integrated(p: Particle, useGravity: bool): Particle {
    var moved := Add(p.pos, p.force);
    var raw := Sub(moved, p.posOld);
    var vel := if Dot(raw, raw) > MaxVel * MaxVel then Scale(0.1, raw) else raw;
    var pos := Add(moved, vel);
    var force :=
      if useGravity
      then Vec3(Spring(pos.x, -SimW, SimW), -G + Spring(pos.y, Bottom, Bottom + 10.0), Spring(pos.z, -SimW, SimW))
      else Zero;
    p.(pos := pos, posOld := moved, vel := vel, force := force, neighbors := [])
  }

  /** What integration does to a particle. */
  lemma IntegratedProperties(p: Particle, useGravity: bool)
    ensures var r := Integrated(p, useGravity);
            // Verlet: the previous position is where last tick's force put the particle,
            // and the new position is one velocity further on.
            && r.posOld == Add(p.pos, p.force)
            && r.pos == Add(r.posOld, r.vel)
            // The velocity is the displacement since the last tick, cut to a tenth
            // exactly when its squared length exceeds the squared maximum speed.
            && (var raw := Sub(r.posOld, p.posOld);
                r.vel == if Dot(raw, raw) > MaxVel * MaxVel then Scale(0.1, raw) else raw)
            // The force restarts from gravity alone, or from zero without gravity, and with
            // gravity on each axis outside the world gets a spring pointing back in.
            && (!useGravity ==> r.force == Zero)
            && (useGravity ==>
                  && Restoring(r.pos.x, -SimW, SimW, r.force.x)
                  && Restoring(r.pos.y, Bottom, Bottom + 10.0, r.force.y + G)
                  && Restoring(r.pos.z, -SimW, SimW, r.force.z))
            && r.neighbors == []
            // Nothing else changes.
            && r.(pos := p.pos, posOld := p.posOld, vel := p.vel, force := p.force, neighbors := p.neighbors) == p
  {
  }

  /** The cache entry for neighbour j at squared distance d2: q = 1 - distance / radius. */
  function Weighted(j: nat, d2: real, sqrt: real -> real): Neighbor {
    var q := 1.0 - sqrt(d2) / R;
    Neighbor(j, q, q * q)
  }

  /** The neighbour cache particle i builds from the candidates, in candidate order:
      every candidate other than i itself whose squared distance is below the
      squared radius of support. */
  function Cache(pos: seq<Vec3>, i: nat, cands: seq<nat>, sqrt: real -> real): seq<Neighbor>
    requires i < |pos| && Within(cands, |pos|)
  {
    if cands == [] then []
    else
      var pre := Cache(pos, i, cands[..|cands| - 1], sqrt);
      var j := cands[|cands| - 1];
      if j == i then pre
      else if Dist2(pos[i], pos[j]) < Rsq then pre + [Weighted(j, Dist2(pos[i], pos[j]), sqrt)]
      else pre
  }

  /** Taking one more candidate extends the cache by at most that candidate's entry. */
  lemma CacheStep(pos: seq<Vec3>, i: nat, cands: seq<nat>, n: nat, sqrt: real -> real)
    requires i < |pos| && Within(cands, |pos|) && n < |cands|
    ensures Within(cands[..n], |pos|) && Within(cands[..n + 1], |pos|)
    ensures var j := cands[n];
            Cache(pos, i, cands[..n + 1], sqrt)
            == if j == i || Dist2(pos[i], pos[j]) >= Rsq then Cache(pos, i, cands[..n], sqrt)
               else Cache(pos, i, cands[..n], sqrt) + [Weighted(j, Dist2(pos[i], pos[j]), sqrt)]
  {
    assert cands[..n + 1][..n] == cands[..n];
  }

  /** Extending the cache by one entry adds its weights to both sums. */
  lemma DensitySnoc(cache: seq<Neighbor>, n: Neighbor)
    ensures Rho(cache + [n]) == Rho(cache) + n.q2
    ensures RhoNear(cache + [n]) == RhoNear(cache) + n.q2 * n.q
  {
    assert (cache + [n])[..|cache|] == cache;
  }

  /** The density: the sum of q squared over the cache. */
  function Rho(cache: seq<Neighbor>): real {
    if cache == [] then 0.0 else Rho(cache[..|cache| - 1]) + cache[|cache| - 1].q2
  }

  /** The near density: the sum of q cubed over the cache. */
  function RhoNear(cache: seq<Neighbor>): real {
    if cache == [] then 0.0 else RhoNear(cache[..|cache| - 1]) + cache[|cache| - 1].q2 * cache[|cache| - 1].q
  }

  /** Particle i after the density pass, given the candidates its index query returned. */
  function Densified(ps: seq<Particle>, i: nat, cands: seq<nat>, sqrt: real -> real): Particle
    requires i < |ps| && Within(cands, |ps|)
  {
    var cache := Cache(Positions(ps), i, cands, sqrt);
    ps[i].(rho := Rho(cache), rhoNear := RhoNear(cache), neighbors := ps[i].neighbors + cache)
  }

  /** One particle after the pressure pass: the equation of state. */
  function Pressurized(p: Particle, restDensity: real): Particle {
    p.(press := K * (p.rho - restDensity), pressNear := KNear * p.rhoNear)
  }

  /** The far pressure pushes out when over-dense and pulls in when under-dense; the near
      pressure has ten times the far weight and, from a non-negative near density, never
      pulls; nothing else changes. */
  lemma PressureProperties(p: Particle, restDensity: real)
    ensures var r := Pressurized(p, restDensity);
            && (r.press > 0.0 <==> p.rho > restDensity)
            && (r.press < 0.0 <==> p.rho < restDensity)
            && r.press == K * (p.rho - restDensity)
            && r.pressNear == KNear * p.rhoNear && KNear == 10.0 * K
            && (p.rhoNear >= 0.0 ==> r.pressNear >= 0.0)
            && r.(press := p.press, pressNear := p.pressNear) == p
  {
  }

  lemma Dist2NonNegative(a: Vec3, b: Vec3)
    ensures Dist2(a, b) >= 0.0
  {
    var d := Sub(b, a);
    assert d.x * d.x >= 0.0 && d.y * d.y >= 0.0 && d.z * d.z >= 0.0;
  }

  /** Inside the radius of support the weight q lies in (0, 1]. */
  lemma WeightInRange(j: nat, d2: real, sqrt: real -> real)
    requires IsSqrt(sqrt) && 0.0 <= d2 < Rsq
    ensures 0.0 < Weighted(j, d2, sqrt).q <= 1.0
    ensures Weighted(j, d2, sqrt).q2 == Weighted(j, d2, sqrt).q * Weighted(j, d2, sqrt).q
  {
    var s := sqrt(d2);
    assert s >= 0.0 && s * s == d2;
  }

  /** Every cache entry is a candidate other than i, strictly inside the radius of
      support, with q in (0, 1] and q2 its square. */
  lemma {:induction false} CacheSound(pos: seq<Vec3>, i: nat, cands: seq<nat>, sqrt: real -> real)
    requires IsSqrt(sqrt) && i < |pos| && Within(cands, |pos|)
    ensures forall e :: e in Cache(pos, i, cands, sqrt) ==>
              && e.j in cands && e.j != i && Dist2(pos[i], pos[e.j]) < Rsq
              && 0.0 < e.q <= 1.0 && e.q2 == e.q * e.q
  {
    if cands != [] {
      var m := |cands| - 1;
      var j := cands[m];
      assert forall x :: x in cands[..m] ==> x in cands;
      CacheSound(pos, i, cands[..m], sqrt);
      if j != i && Dist2(pos[i], pos[j]) < Rsq {
        Dist2NonNegative(pos[i], pos[j]);
        WeightInRange(j, Dist2(pos[i], pos[j]), sqrt);
      }
    }
  }

  /** Every candidate other than i strictly inside the radius of support is cached. */
  lemma {:induction false} CacheComplete(pos: seq<Vec3>, i: nat, cands: seq<nat>, sqrt: real -> real, j: nat)
    requires i < |pos| && Within(cands, |pos|)
    requires j in cands && j != i && Dist2(pos[i], pos[j]) < Rsq
    ensures exists e :: e in Cache(pos, i, cands, sqrt) && e.j == j
  {
    var m := |cands| - 1;
    assert forall x :: x in cands[..m] ==> x in cands;
    if cands[m] == j {
      assert Weighted(j, Dist2(pos[i], pos[j]), sqrt) in Cache(pos, i, cands, sqrt);
    } else {
      assert j in cands[..m] by {
        var n :| 0 <= n < |cands| && cands[n] == j;
        assert cands[..m][n] == j;
      }
      CacheComplete(pos, i, cands[..m], sqrt, j);
      var e :| e in Cache(pos, i, cands[..m], sqrt) && e.j == j;
      assert e in Cache(pos, i, cands, sqrt);
    }
  }

  /** Distinct candidates give a cache that names each neighbour once. */
  lemma {:induction false} CacheDistinct(pos: seq<Vec3>, i: nat, cands: seq<nat>, sqrt: real -> real)
    requires i < |pos| && Within(cands, |pos|) && Distinct(cands)
    ensures forall e :: e in Cache(pos, i, cands, sqrt) ==> e.j in cands
    ensures NamesEachOnce(Cache(pos, i, cands, sqrt))
  {
    if cands != [] {
      var m := |cands| - 1;
      var pre := cands[..m];
      assert forall x :: x in pre ==> x in cands;
      CacheDistinct(pos, i, pre, sqrt);
      var j := cands[m];
      var c0 := Cache(pos, i, pre, sqrt);
      var cache := Cache(pos, i, cands, sqrt);
      if cache != c0 {
        assert cache == c0 + [Weighted(j, Dist2(pos[i], pos[j]), sqrt)];
        forall a, b | 0 <= a < b < |cache| ensures cache[a].j != cache[b].j {
          assert cache[a] == c0[a];
          if b == |c0| {
            assert c0[a] in c0;
            assert c0[a].j in pre;
            assert cache[b].j == j;
            assert c0[a].j != j;
          } else {
            assert cache[b] == c0[b];
            assert NamesEachOnce(c0);
          }
        }
      }
    }
  }

  /** No two entries of the cache name the same neighbour. */
  predicate NamesEachOnce(cache: seq<Neighbor>) {
    forall a, b :: 0 <= a < b < |cache| ==> cache[a].j != cache[b].j
  }

  /** Sums of non-negative weights are non-negative. */
  lemma {:induction false} DensitiesNonNegative(cache: seq<Neighbor>)
    requires forall e :: e in cache ==> e.q >= 0.0 && e.q2 == e.q * e.q
    ensures Rho(cache) >= 0.0 && RhoNear(cache) >= 0.0
  {
    if cache != [] {
      var m := |cache| - 1;
      assert forall e :: e in cache[..m] ==> e in cache;
      DensitiesNonNegative(cache[..m]);
      var e := cache[m];
      assert e in cache;
      WeightsNonNegative(e.q, e.q2);
    }
  }

  lemma WeightsNonNegative(q: real, q2: real)
    requires q >= 0.0 && q2 == q * q
    ensures q2 >= 0.0 && q2 * q >= 0.0
  {
  }

  /** The cache of particle i names exactly the other particles strictly inside the
      radius of support of its position. */
  ghost predicate CachesExactly(pos: seq<Vec3>, i: nat, cache: seq<Neighbor>)
    requires i < |pos|
  {
    forall j: nat :: (exists e :: e in cache && e.j == j) <==> (j < |pos| && j != i && Dist2(pos[i], pos[j]) < Rsq)
  }

  /** Every cache entry has q in (0, 1] and q2 its square. */
  predicate WellWeighted(cache: seq<Neighbor>) {
    forall e :: e in cache ==> 0.0 < e.q <= 1.0 && e.q2 == e.q * e.q
  }

  /** The neighbour cache a particle builds from a query of the freshly rebuilt index
      holds exactly the other particles strictly inside the radius of support, each
      once, with weights in (0, 1]; so both densities are non-negative. */
  lemma NeighborCacheExact(pos: seq<Vec3>, i: nat, sqrt: real -> real)
    requires IsSqrt(sqrt) && i < |pos|
    ensures var inv := 1.0 / IndexCellSize;
            var cache := Cache(pos, i, Gather(Bucketed(pos, inv), Discretize(pos[i], inv), NeighborOffsets()), sqrt);
            && CachesExactly(pos, i, cache)
            && NamesEachOnce(cache)
            && WellWeighted(cache)
            && Rho(cache) >= 0.0 && RhoNear(cache) >= 0.0
  {
    var inv := 1.0 / IndexCellSize;
    var cands := Gather(Bucketed(pos, inv), Discretize(pos[i], inv), NeighborOffsets());
    var cache := Cache(pos, i, cands, sqrt);
    NeighborsOfBucketed(pos, inv, pos[i]);
    CacheSound(pos, i, cands, sqrt);
    CacheDistinct(pos, i, cands, sqrt);
    DensitiesNonNegative(cache);
    forall j: nat ensures (exists e :: e in cache && e.j == j) <==> (j < |pos| && j != i && Dist2(pos[i], pos[j]) < Rsq) {
      if j < |pos| && j != i && Dist2(pos[i], pos[j]) < Rsq {
        AxesWithinRadius(pos[i], pos[j]);
        NeighborsComplete(pos, pos[i], j);
        CacheComplete(pos, i, cands, sqrt, j);
      }
    }
  }

  // The whole tick through the pressure pass, phase by phase.

  function IntegrateAll(ps: seq<Particle>, useGravity: bool): seq<Particle> {
    seq(|ps|, k requires 0 <= k < |ps| => Integrated(ps[k], useGravity))
  }

  /** The candidates of particle i: a query of the index rebuilt from the current positions. */
  function Candidates(ps: seq<Particle>, i: nat): (c: seq<nat>)
    requires i < |ps|
    ensures Within(c, |ps|)
  {
    Gather(Bucketed(Positions(ps), 1.0 / IndexCellSize), Discretize(ps[i].pos, 1.0 / IndexCellSize), NeighborOffsets())
  }

  function DensityAll(ps: seq<Particle>, sqrt: real -> real): seq<Particle> {
    seq(|ps|, i requires 0 <= i < |ps| => Densified(ps, i, Candidates(ps, i), sqrt))
  }

  function PressureAll(ps: seq<Particle>, restDensity: real): seq<Particle> {
    seq(|ps|, k requires 0 <= k < |ps| => Pressurized(ps[k], restDensity))
  }

  /** The particles after one tick through the pressure pass. */
  function Tick(ps: seq<Particle>, useGravity: bool, restDensity: real, sqrt: real -> real): seq<Particle> {
    PressureAll(DensityAll(IntegrateAll(ps, useGravity), sqrt), restDensity)
  }

  /** After a tick, every particle sits where integration put it; its neighbour cache
      names exactly the other particles strictly within the radius of support of its
      new position, each once and never itself, with weights in (0, 1]; and both
      densities are non-negative. */
  lemma TickNeighbors(ps: seq<Particle>, useGravity: bool, restDensity: real, sqrt: real -> real, i: nat)
    requires IsSqrt(sqrt) && i < |ps|
    ensures var out := Tick(ps, useGravity, restDensity, sqrt);
            && |out| == |ps|
            && Positions(out) == Positions(IntegrateAll(ps, useGravity))
            && out[i].pos == Integrated(ps[i], useGravity).pos
            && CachesExactly(Positions(out), i, out[i].neighbors)
            && NamesEachOnce(out[i].neighbors)
            && WellWeighted(out[i].neighbors)
            && out[i].rho >= 0.0 && out[i].rhoNear >= 0.0
  {
    var moved := IntegrateAll(ps, useGravity);
    PassesNeighbors(moved, restDensity, sqrt, i);
    assert moved[i] == Integrated(ps[i], useGravity);
  }

  /** The density and pressure passes over particles where i's cache starts empty. */
  lemma PassesNeighbors(ps: seq<Particle>, restDensity: real, sqrt: real -> real, i: nat)
    requires IsSqrt(sqrt) && i < |ps| && ps[i].neighbors == []
    ensures var out := PressureAll(DensityAll(ps, sqrt), restDensity);
            && |out| == |ps|
            && Positions(out) == Positions(ps)
            && out[i].pos == ps[i].pos
            && CachesExactly(Positions(out), i, out[i].neighbors)
            && NamesEachOnce(out[i].neighbors)
            && WellWeighted(out[i].neighbors)
            && out[i].rho >= 0.0 && out[i].rhoNear >= 0.0
  {
    var out := PressureAll(DensityAll(ps, sqrt), restDensity);
    var pos := Positions(ps);
    var inv := 1.0 / IndexCellSize;
    assert pos[i] == ps[i].pos;
    assert Candidates(ps, i) == Gather(Bucketed(pos, inv), Discretize(pos[i], inv), NeighborOffsets());
    var cache := Cache(pos, i, Candidates(ps, i), sqrt);
    PassesAt(ps, restDensity, sqrt, i);
    assert out[i].neighbors == cache;
    NeighborCacheExact(pos, i, sqrt);
  }

  /** After a tick, every particle's pressures follow the equation of state from its
      new densities, and its near pressure is non-negative. */
  lemma TickPressures(ps: seq<Particle>, useGravity: bool, restDensity: real, sqrt: real -> real, i: nat)
    requires IsSqrt(sqrt) && i < |ps|
    ensures var out := Tick(ps, useGravity, restDensity, sqrt);
            && |out| == |ps|
            && out[i].press == K * (out[i].rho - restDensity)
            && out[i].pressNear == KNear * out[i].rhoNear && out[i].pressNear >= 0.0
  {
    var moved := IntegrateAll(ps, useGravity);
    DensitiesAt(moved, sqrt, i);
    PressuresAt(DensityAll(moved, sqrt), restDensity, i);
  }

  /** The density pass leaves both densities of particle i non-negative. */
  lemma DensitiesAt(ps: seq<Particle>, sqrt: real -> real, i: nat)
    requires IsSqrt(sqrt) && i < |ps|
    ensures |DensityAll(ps, sqrt)| == |ps|
    ensures DensityAll(ps, sqrt)[i].rho >= 0.0 && DensityAll(ps, sqrt)[i].rhoNear >= 0.0
  {
    var pos := Positions(ps);
    var inv := 1.0 / IndexCellSize;
    assert pos[i] == ps[i].pos;
    assert Candidates(ps, i) == Gather(Bucketed(pos, inv), Discretize(pos[i], inv), NeighborOffsets());
    DensityAllAt(ps, sqrt, i);
    NeighborCacheExact(pos, i, sqrt);
  }

  /** The pressure pass sets particle i's pressures by the equation of state from its
      unchanged densities. */
  lemma PressuresAt(ps: seq<Particle>, restDensity: real, i: nat)
    requires i < |ps|
    ensures var out := PressureAll(ps, restDensity);
            && |out| == |ps|
            && out[i].rho == ps[i].rho && out[i].rhoNear == ps[i].rhoNear
            && out[i].press == K * (out[i].rho - restDensity)
            && out[i].pressNear == KNear * out[i].rhoNear
            && (out[i].rhoNear >= 0.0 ==> out[i].pressNear >= 0.0)
  {
    PressureAllAt(ps, restDensity, i);
    PressureProperties(ps[i], restDensity);
  }

  /** Particle i after the density and pressure passes, in terms of its cache. */
  lemma PassesAt(ps: seq<Particle>, restDensity: real, sqrt: real -> real, i: nat)
    requires i < |ps|
    ensures var out := PressureAll(DensityAll(ps, sqrt), restDensity);
            var cache := Cache(Positions(ps), i, Candidates(ps, i), sqrt);
            && |out| == |ps|
            && Positions(out) == Positions(ps)
            && out[i].neighbors == ps[i].neighbors + cache
            && out[i].rho == Rho(cache) && out[i].rhoNear == RhoNear(cache)
  {
    DensityAllAt(ps, sqrt, i);
    PressureAllAt(DensityAll(ps, sqrt), restDensity, i);
    var out := PressureAll(DensityAll(ps, sqrt), restDensity);
    assert forall k :: 0 <= k < |ps| ==> Positions(out)[k] == Positions(ps)[k];
  }

  /** The pressure pass moves no particle and sets particle i's pressures from its densities. */
  lemma PressureAllAt(ps: seq<Particle>, restDensity: real, i: nat)
    requires i < |ps|
    ensures |PressureAll(ps, restDensity)| == |ps|
    ensures forall k :: 0 <= k < |ps| ==> PressureAll(ps, restDensity)[k].pos == ps[k].pos
    ensures PressureAll(ps, restDensity)[i] == Pressurized(ps[i], restDensity)
    ensures PressureAll(ps, restDensity)[i].rho == ps[i].rho && PressureAll(ps, restDensity)[i].rhoNear == ps[i].rhoNear
    ensures PressureAll(ps, restDensity)[i].neighbors == ps[i].neighbors
  {
  }

  /** The density pass moves no particle, and sets each one's densities and cache from its candidates. */
  lemma DensityAllAt(ps: seq<Particle>, sqrt: real -> real, i: nat)
    requires i < |ps|
    ensures |DensityAll(ps, sqrt)| == |ps|
    ensures forall k :: 0 <= k < |ps| ==> DensityAll(ps, sqrt)[k].pos == ps[k].pos
    ensures var cache := Cache(Positions(ps), i, Candidates(ps, i), sqrt);
            DensityAll(ps, sqrt)[i] == ps[i].(rho := Rho(cache), rhoNear := RhoNear(cache), neighbors := ps[i].neighbors + cache)
  {
  }
}
