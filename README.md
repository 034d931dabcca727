# SPH fluid simulation core, modelled in Dafny

This project models the simulation core of a small smoothed-particle-hydrodynamics (SPH) fluid demo written in C++ (`main.cpp`). The model covers four parts:

- **The uniform-grid spatial hash** (`SpatialIndex`). It maps integer grid cells to the particles inserted there and answers 27-cell neighbourhood queries.
- **The particle records.** These are `Particle` and `Neighbor`.
- **The two seeding routines.** `initParticles` fills a droplet; `addParticleLayers` drops new layers from above.
- **The first four phases of a simulation step.** These are integration (force reset, damping and boundary springs), the index rebuild, the density pass that builds each particle's neighbour cache, and the pressure equation of state.

The model has six modules, each in its own file:

- `Geometry` (`geometry.dfy`): `glm::vec3` as `Vec3` over `real`, and the simulation constants at their exact decimal values.
- `SpatialHash` (`spatial_hash.dfy`): the `SpatialIndex` class.
  - The C++ `unordered_map` becomes a `map<(int,int,int), seq<nat>>` field.
  - Particle pointers become particle indices.
  - The pure helper `Discretize` is the floor of position times the inverse cell size.
  - `Gather` (one query) and `Bucketed` (a table built by inserting every position once) are the specification functions the methods are proved against.
- `Particles` (`particle.dfy`): the records, plus the particle each seeding routine creates (`Seeded`, `Dropped`).
- `Seeding` (`seeding.dfy`): the lattices the seeding loops walk (`Row`, `Layer`, `Lattice`, `Layers`). It also defines what seeding does to the store: `Fill` with the count guard, and `Drop` for added layers.
- `Phases` (`phases.dfy`): one particle after each phase (`Integrated`, `Densified` with its `Cache`, `Pressurized`) and the whole tick through the pressure pass (`Tick`).
- `Simulation` (`simulation.dfy`): the program's globals (`particles`, `indexsp`, `useGravity`, `doSimulation`, `rest_density`) as the fields of class `World`.
  - Its methods run the source's loops.
  - Each loop is proved against the functions above.
  - The three nested loops of each seeding routine are split into one method per loop level (layer, row, point).
  - The per-particle bodies of the integration and density loops are methods of their own.

Three external functions become parameters:

- The C library `sqrt` is the parameter `sqrt: real -> real`. Lemmas that need its meaning require `IsSqrt(sqrt)`, meaning non-negative with square `x` for every `x >= 0`.
- The cosine envelope of the seeding loops is a parameter `halfDepth: real -> real`. It gives the z-extent of the row at x.
- `rand01` is a parameter `jitter: nat -> Vec3`. It gives the triple drawn for the particle stored at each index.

Where the code differs from its comments or from what one might expect of it, the model follows the code:

- The velocity damping comment says "cut it in half", but the code scales by 0.1. The model scales by 0.1.
- The initial seeding's guard tests the count before each push, so it stops at exactly `pN + 1` particles, not at `pN`. This holds whenever the lattice has room. The guard's `break` leaves only the innermost loop, but every later innermost loop breaks at once.
- `addParticleLayers(0)` still adds one layer, because the layer counter is tested only after a layer is done.
- The jitter is in `[0, 0.001]`, closed at both ends, since `rand01` can return 1. A jitter of 0 is possible, so an added particle's previous position may equal its position.
- Added layers start at the fixed height 5.5, whatever the height of the current fluid.

## Model

| member | source | states |
|---|---|---|
| SpatialHash.BuildOffsets | main.cpp:358-365 | the constructor's three nested loops push the 27 offsets in x-outer, z-inner order: offset n is (n/9-1, n/3%3-1, n%3-1) |
| SpatialHash.SpatialIndex.constructor | main.cpp:351-366 | a new index has an empty table, inverse cell size 1/cellSize and the 27 neighbour offsets |
| SpatialHash.SpatialIndex.Insert | main.cpp:368-372 | t is appended at the end of the bucket of the cell floor(pos * invCellSize); every other bucket is unchanged; a missing bucket is created holding just t |
| SpatialHash.SpatialIndex.Neighbors | main.cpp:374-385 | the result is ret followed by the concatenation, in offset order, of the buckets present at cell(pos)+offset; missing buckets are skipped; the table is not changed |
| SpatialHash.SpatialIndex.Clear | main.cpp:387-390 | the table is empty afterwards, so clearing twice is clearing once |
| SpatialHash.OffsetsExact | main.cpp:358-365 | the offsets are 27 pairwise distinct cells, and a cell is among them exactly when it lies in the 3x3x3 block around the origin |
| SpatialHash.GatherMembers | main.cpp:374-385 | an index is in a query's result exactly when one of the inspected buckets holds it |
| SpatialHash.GatherEmpty | main.cpp:387-390 | after Clear a query appends nothing |
| SpatialHash.BucketedMembers | main.cpp:613-617 | after the rebuild, each bucket holds each index at most once, and index j is in the bucket of cell c exactly when particle j's position discretises to c |
| SpatialHash.GatherDistinct | main.cpp:374-385 | over distinct offsets, a query of the rebuilt table returns no index twice |
| SpatialHash.CellsAdjacent | main.cpp:409-412 | two points whose separation times the inverse cell size is within [-1, 1] on every axis fall in cells at most one apart per axis |
| SpatialHash.GatherBucketedSound | main.cpp:374-385 | every index a 27-cell query of the rebuilt table returns belongs to a particle in a cell adjacent to the query's |
| SpatialHash.GatherBucketedComplete | main.cpp:374-385 | every particle whose cell is adjacent to the query's cell is returned |
| SpatialHash.NeighborsOfBucketed | main.cpp:613-617 | a query of the rebuilt table returns each index at most once, and returns exactly the particles in the 3x3x3 block of cells around the query point |
| SpatialHash.NeighborsComplete | main.cpp:479-480 | with cell size 2r, every particle within r of the query point on each axis is returned, exactly once |
| Geometry.AxesWithinRadius | main.cpp:643-649 | a squared distance below r squared bounds each axis separation strictly by r |
| Seeding.Quota | main.cpp:541-546 | the layer budget of an add is pL when pL >= 1 and exactly 1 when pL is 0, so it is at least 1 and at least pL |
| Seeding.AddNoneEmitsOneLayer | main.cpp:522-546 | an add asked for zero layers emits exactly the first added layer, since the counter is tested only after a layer is done |
| Seeding.FillShape | main.cpp:493-503 | seeding keeps the existing particles as a prefix, then appends seeded particles at the first lattice points in order, up to a total of pN + 1 (or none if the store already holds more than pN) |
| Seeding.SeedCount | main.cpp:493-496 | the final count never exceeds max(initial count, pN + 1); from a store with room and a lattice with enough points it is exactly pN + 1 |
| Seeding.FillSaturated | main.cpp:493-496 | once the store holds more than pN particles, visiting further lattice points adds nothing |
| Seeding.DropShape | main.cpp:529-539 | an add keeps the existing particles as a prefix and appends one dropped particle per lattice point, in order, the particle stored at index k taking jitter k |
| Seeding.LatticeBounds | main.cpp:487-491 | every point of the initial lattice has y in [0.1, 5], x in [-0.5, 0.5] and z within the envelope at its x |
| Seeding.LayersBounds | main.cpp:521-525 | every point of n added layers lies between the start height and the top, at most n - 1 steps above the start, with x within the half width and z within the envelope |
| Seeding.SeededParticles | main.cpp:483-507 | every particle initParticles adds lies in the droplet volume, with previous position equal to its position, zero force, sigma 3 and beta 4 |
| Seeding.AddedParticles | main.cpp:510-548 | an add keeps the existing particles; every new particle has 5.5 <= y <= 8, lies in at most max(pL, 1) layers, has force (0, -2G, 0), sigma 3 and beta 4, and a previous position above its position by between 0 and 0.001 on each axis |
| Phases.IntegratedProperties | main.cpp:556-609 | after integration: the previous position is position plus last tick's force; velocity is the displacement since the old previous position, scaled by 0.1 exactly when its squared length exceeds 4; position is previous position plus velocity; force is zero without gravity; with gravity, each axis outside [-1.5, 1.5] (x, z) or [0, 10] (y) gets a spring of an eighth of the excess pointing back inside on top of gravity, and none inside; the cache is empty; no other field changes |
| Phases.PressureProperties | main.cpp:675-681 | the far pressure is k times the density's excess over the rest density (positive exactly when over-dense, negative exactly when under-dense); the near pressure is k_near = 10k times the near density, non-negative for a non-negative near density; no other field changes |
| Phases.WeightInRange | main.cpp:649-656 | inside the radius of support the weight q = 1 - distance/r lies in (0, 1] and q2 is its square |
| Phases.CacheSound | main.cpp:634-668 | every cache entry names a candidate other than the particle itself, strictly inside the radius of support, with q in (0, 1] and q2 = q*q |
| Phases.CacheComplete | main.cpp:634-668 | every candidate other than the particle itself strictly inside the radius of support gets a cache entry |
| Phases.CacheDistinct | main.cpp:634-668 | from distinct candidates, the cache names each neighbour once |
| Phases.DensitiesNonNegative | main.cpp:657-672 | sums of q squared and q cubed over weights in [0, 1] are non-negative |
| Phases.NeighborCacheExact | main.cpp:613-672 | querying the freshly rebuilt index, particle i's cache names exactly the other particles strictly within the radius of support, each once, with weights in (0, 1], so both densities are non-negative |
| Phases.TickNeighbors | main.cpp:552-672 | after a step, every particle is where integration put it; its cache names exactly the other particles strictly within r of its new position, each once and never itself; both densities are non-negative |
| Phases.TickPressures | main.cpp:675-681 | after a step, each particle's pressures follow the equation of state from its new densities and its near pressure is non-negative |
| Simulation.World.constructor | main.cpp:198-240 | the program's globals at start (main.cpp:198-240): no particles, gravity and simulation off, rest density 3; and the global index `indexsp` (main.cpp:479-480): empty, cell size 2r |
| Simulation.World.InitParticles | main.cpp:483-507 | the store becomes Fill over the initial lattice: the count-guarded seeding of the droplet |
| Simulation.World.SeedLayer | main.cpp:489-506 | one y-layer of the droplet, seeded row by row with the count guard |
| Simulation.World.SeedRow | main.cpp:491-505 | one row of the droplet: a particle at rest at each z while the store holds at most pN particles, leaving the row once it holds more |
| Simulation.World.AddParticleLayers | main.cpp:510-548 | the store becomes Drop over the first max(pL, 1) added layers; existing particles are unchanged |
| Simulation.World.DropLayer | main.cpp:524-540 | one added y-layer, dropped row by row |
| Simulation.World.DropRow | main.cpp:526-539 | one added row: a jittered particle under twice gravity at each z |
| Simulation.World.ResetSimulation | main.cpp:1501-1504 | after a reset the store holds the seeding of N = 200 particles from empty, the simulation is paused and gravity is on |
| Simulation.World.Integrate | main.cpp:555-610 | each particle becomes its integrated self |
| Simulation.World.IntegrateAt | main.cpp:558-609 | particle i becomes its integrated self and no other particle changes |
| Simulation.World.RebuildIndex | main.cpp:613-617 | after the rebuild the table is exactly the one built by inserting every current position under its index, in order |
| Simulation.World.ComputeDensity | main.cpp:622-673 | every particle gets the densities and cache of its own query result |
| Simulation.World.DensityAt | main.cpp:624-672 | particle i's densities are recomputed from zero and its cache extended from its query; no other particle changes |
| Simulation.Interactions | main.cpp:634-669 | the inner density loop yields particle i's cache over its candidates, and the sums of q squared and q cubed over it |
| Simulation.World.ComputePressure | main.cpp:677-681 | each particle's pressures follow the equation of state |
| Simulation.World.Step | main.cpp:552-681 | one step through the pressure pass is Tick of the particles before it; afterwards the index holds exactly the particles' current positions |

## Left out

- The pressure-force, viscosity and colour passes of a step (main.cpp:683-737) are not modelled. They are float numerics with no crisp contract, and they divide by the distance between coincident particles.
- Float rounding is not modelled. Positions, forces, densities and the seeding loop counters are exact reals, so the number of lattice points per row is the exact one, not the float one.
- The conversion of a floored float to a 32-bit `int` in `Discretize` is unbounded in the model, so overflow for huge coordinates is not modelled.
- `TeschnerHash` and the 4093 hash buckets are not modelled, because they affect only performance. The constructor's bucket-count parameter is dropped with them.
- `sqrt`, the cosine envelope of the seeding loops and `rand01` are parameters. Their formulas are not modelled.
- Particle fields the seeding routines leave uninitialised (colour, velocity, mass, densities, pressures) are zero in the model. They are written before they are read.
- `mass` and the render colour are carried but never changed by the modelled phases.
- All GLUT/OpenGL code in main.cpp (display, menus, mouse, the keyboard bindings that toggle the switches, set the rest density and add four layers, and the view fields of `Reset`) is not modelled.
- `Display`'s gating of `step` on `doSimulation` (main.cpp:927-930) is not modelled; the flag is kept as a field.
- `initglui.cpp` (UI widgets) and `setmaterial.cpp` (material calls) are not part of this model.
- `Array3`, `MulArray3`, `HsvRgb`, `Cross`, `Dot` and `Unit` are rendering helpers and are not modelled.
- The index stores particle indices where the source stores `Particle*` pointers. So the model does not capture pointer invalidation if the vector reallocates while the index is live.
