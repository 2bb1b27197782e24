# Verlet particle engine — Dafny model

A model of the simulation core of a small 2-D particle engine. Circles move
under Verlet integration: the velocity is not stored. It is the difference
between a particle's position and its previous position. Every frame the
engine runs four passes over its particles in this order: gravity, integration,
the screen-boundary constraints, and an exhaustive pairwise collision pass.
Beside the engine the model covers three utilities:

- the range slicing a thread pool uses to split `[0, count)` among its workers;
- the grid hasher's cell-key packing and world-to-cell conversion;
- the process-wide feature-flag word.

Modules (one file each):

- `Vectors` (`vectors.dfy`): 2-D vectors over reals. `Vector2Length` comes
  from a library that is not part of this model. It is a parameter `norm`.
  Where a property needs it, `norm` is assumed non-negative and symmetric
  (`IsNorm`).
- `Particles` (`particle.dfy`): the `Particle` class. Its fields change in
  place. `ParticleState` is a snapshot of those fields, and the spec functions
  `Integrate`, `Force`, `CheckCollision` and `Resolve` work on snapshots.
  `Update`, `ApplyForce` and `ResolveCollision` are proved to produce exactly
  the spec function of the old snapshot, as is the engine's
  `ConstrainParticle` with `Constrain`. The setters and the engine's `Append`
  family are specified field by field.
- `Pairs` (`pairs.dfy`): the order in which the collision pass visits index
  pairs.
- `Engine` (`engine.dfy`): the `VerletEngine` class. It holds the particle
  vector, the vector's reserved capacity and the running maximum radius, and
  runs the per-frame passes.
- `ThreadPool` (`thread_pool.dfy`): the slice arithmetic of `dispatch`.
- `GridHashing` (`grid_hasher.dfy`): `Hash` and `GridCoord`. `Hash` works on
  the two's-complement bit patterns of its `int32_t` arguments (`bv32`) and
  of its `int64_t` result (`bv64`). `GridCoord` returns a mathematical
  integer in the `int32` range (`int32`).
- `Features` (`feature_flags.dfy`): the `Feature` bits and the `FeatureFlags`
  word.

To verify, run `dafny verify *.dfy` (Dafny 4.11) with all seven files
together. The proofs are written to stay within
`--resource-limit 2000000 --verification-time-limit 0`, with or without
`--warn-contradictory-assumptions`.

Where the header files and the `.cpp` files disagree, the model follows the
`.cpp` files. So particles have a temperature, the engine keeps
`maxParticleRadius`, and `ApplyConstraints` takes `uint32_t` dimensions.
Colour is the one place where the `.cpp` files disagree among themselves:
the constructor in `Particle.cpp` takes no colour, while `VerletEngine.cpp`
(lines 15-26) still passes one from `AddParticle`, `AddFixedParticle` and
`addParticle` to `emplace_back`. The model follows `Particle.cpp`. Particles
have no colour, and `AddParticle`, `AddFixedParticle` and `Append` take no
colour argument. Colour is only read when drawing. The headers do not say
how `maxParticleRadius` starts; the model starts it at 0.

Some behaviours of the code are easy to miss. The model keeps each of them:

- The comment at `Particle.cpp:95` says the collision test checks whether the
  distance is less than the radius sum. The test on the next line asks for
  an overlap of at least `eps`, so centres that overlap by less than `eps`
  do not collide (`CheckCollisionCases`).
- `GridCoord` converts the quotient with an `int32_t` cast, which truncates
  toward zero. It does not floor, so cell 0 spans one cell size on each side
  of zero (`GridCoordNearZero`).
- The boundary pass negates the corrected velocity component but does not
  damp it.
- The boundary pass clamps fixed particles too. A fixed particle is only
  guaranteed to stay put when it starts inside the box (`FixedInsideStaysPut`).
- Containment holds only on axes where the circle fits (2 r ≤ width).

## Model

| member | source | states |
|---|---|---|
| Particles.ConstantsInRange | src/Engine/Particle.hpp:8-9 | the contact tolerance is positive and the damping factor lies strictly between 0 and 1 |
| Particles.ParticleState.WithVelocity | src/Engine/Particle.hpp:34-44 | setting the velocity makes `GetVelocity` return it, keeps the position, and changes nothing else |
| Particles.Particle.constructor | src/Engine/Particle.cpp:7-21 | a new particle rests at its position (old position equal to it, zero acceleration, zero velocity, temperature 0) with the given radius and fixed flag |
| Particles.Particle.GetPosition | src/Engine/Particle.hpp:19-21 | returns the particle's current position |
| Particles.Particle.GetVelocity | src/Engine/Particle.hpp:34-39 | the implicit velocity: old position plus velocity is the current position |
| Particles.Particle.GetRadius | src/Engine/Particle.hpp:46-48 | returns the particle's radius |
| Particles.Particle.IsFixed | src/Engine/Particle.hpp:54-56 | returns the particle's fixed flag |
| Particles.Particle.SetPosition | src/Engine/Particle.hpp:23-26 | moves the particle and sets the old position too, so the velocity becomes zero; acceleration, radius, fixed flag and temperature are unchanged |
| Particles.Particle.SetVelocity | src/Engine/Particle.hpp:41-44 | round trip: `GetVelocity` afterwards returns the velocity set; the position does not move |
| Particles.Particle.SetPositionWithSameVelocity | src/Engine/Particle.hpp:28-32 | moves the particle while its velocity stays what it was; other fields unchanged |
| Particles.Particle.MakeFixed | src/Engine/Particle.hpp:58-60 | changes the fixed flag and nothing else |
| Particles.Particle.Update | src/Engine/Particle.cpp:47-59 | the new fields are `Integrate` of the old ones |
| Particles.Integrate | src/Engine/Particle.cpp:47-55 | one Verlet step never changes the radius, the fixed flag or the temperature |
| Particles.IntegrateStep | src/Engine/Particle.cpp:51-55 | step law for a movable particle: old position becomes the previous position, velocity grows by acceleration·dt², acceleration reset to zero |
| Particles.IntegrateFixed | src/Engine/Particle.cpp:48-50 | integration leaves a fixed particle exactly as it was |
| Particles.IntegrateInertia | src/Engine/Particle.cpp:51-55 | with no pending acceleration the velocity is kept |
| Particles.Particle.ApplyForce | src/Engine/Particle.cpp:61-66 | the new fields are `Force` of the old ones |
| Particles.Force | src/Engine/Particle.cpp:61-66 | applying a force never touches the position history, the radius, the fixed flag or the temperature |
| Particles.ForceAccumulates | src/Engine/Particle.cpp:61-66 | forces add up (f then g is f + g once) and are ignored by a fixed particle |
| Particles.CheckCollision | src/Engine/Particle.cpp:88-98 | a colliding pair is never doubly fixed, and its centres are closer than the sum of the radii |
| Particles.CheckCollisionSymmetric | src/Engine/Particle.cpp:88-98 | the collision test gives the same answer for (a, b) and (b, a) |
| Particles.CheckCollisionCases | src/Engine/Particle.cpp:88-98 | two fixed particles never collide; otherwise the test holds iff radius sum minus distance is at least the tolerance |
| Particles.CheckCollisionDistance | src/Engine/Particle.cpp:92-96 | centres closer than the radius sum by the tolerance collide; centres farther than it by the tolerance do not |
| Particles.Resolve | src/Engine/Particle.cpp:100-134 | a collision never changes either particle's acceleration, radius, fixed flag or temperature |
| Particles.PositionChangeAlongDelta | src/Engine/Particle.cpp:115-121 | the correction (normal scaled by the overlap share) is the centre-to-centre vector scaled by share · overlap / distance, the share being 1 with a fixed partner and ½ otherwise |
| Particles.ResolvedPositions | src/Engine/Particle.cpp:123-134 | in a real contact a movable first particle moves back by the correction and a movable second one forward by it; fixed ones stay |
| Particles.ResolveSkips | src/Engine/Particle.cpp:101-114 | a pair at zero distance or with overlap below the tolerance is left unchanged |
| Particles.ResolveKeepsFixed | src/Engine/Particle.cpp:125-134 | a fixed particle is never changed by a collision |
| Particles.ResolveBothMovable | src/Engine/Particle.cpp:116-134 | two movable particles get equal and opposite pushes of half the overlap along the normal; the sum of the centres is conserved |
| Particles.ResolveOneFixed | src/Engine/Particle.cpp:116-134 | when one particle is fixed the other is pushed by the whole overlap |
| Particles.ResolveDamps | src/Engine/Particle.cpp:125-134 | in a real contact every movable particle leaves with its post-push velocity (new position minus old position) times the damping factor |
| Particles.ResolveReachesContact | src/Engine/Particle.cpp:107-134 | the new centre-to-centre vector is the old one rescaled by (radius sum) / distance |
| Particles.ResolveTouches | src/Engine/Particle.cpp:107-134 | for a norm that scales with its argument, as the Euclidean length does, the resolved centres are exactly the radius sum apart |
| Particles.CheckCollisionMeansPenetrating | src/Engine/Particle.cpp:88-114 | a pair the test accepts at non-zero distance passes both skip guards of the resolver |
| Particles.ResolveSeparates | src/Engine/Particle.cpp:100-134 | a penetrating pair that is not doubly fixed and whose centres differ really moves |
| Particles.ResolveScenario | src/Engine/Particle.cpp:100-134 | radius 5 at (100, 100) and (104, 100) end at (97, 100) and (107, 100) |
| Particles.Particle.ResolveCollision | src/Engine/Particle.cpp:100-134 | the two particles' new fields are `Resolve` of their old fields |
| Particles.Particle.MoveDamped | src/Engine/Particle.cpp:125-134 | a movable particle pushed to a new position ends there with the velocity the push produced damped (`Displaced`) |
| Engine.ClampAxisFacts | src/Engine/VerletEngine.cpp:51-70 | an axis is corrected iff the circle pokes out on either side; otherwise the coordinate is kept; when the circle fits, the result lies in [r, limit − r] |
| Engine.Constrain | src/Engine/VerletEngine.cpp:44-84 | the boundary pass never changes a particle's acceleration, radius, fixed flag or temperature |
| Engine.ConstrainContains | src/Engine/VerletEngine.cpp:44-84 | containment: on each axis where 2 r fits, the centre ends within [r, limit − r] |
| Engine.ConstrainKeepsInside | src/Engine/VerletEngine.cpp:71-73 | a particle already inside the box is untouched |
| Engine.ConstrainReflects | src/Engine/VerletEngine.cpp:74-82 | the velocity component of each corrected axis is negated, the other kept |
| Engine.ConstrainIdempotent | src/Engine/VerletEngine.cpp:44-84 | when the circle fits, a second boundary pass changes nothing |
| Engine.VerletEngine.ConstrainParticle | src/Engine/VerletEngine.cpp:45-83 | one loop body: the particle's new fields are `Constrain` of the old ones |
| Engine.VerletEngine.ConstrainAt | src/Engine/VerletEngine.cpp:45-83 | one loop iteration constrains particle i and leaves every other particle as it was |
| Engine.VerletEngine.ApplyConstraints | src/Engine/VerletEngine.cpp:44-84 | every particle becomes `Constrain` of its old fields, and ends inside the box on every axis it fits |
| Engine.VerletEngine.constructor | src/Engine/VerletEngine.hpp:17-18 | an empty engine: no particles, no capacity, maximum radius 0 |
| Engine.VerletEngine.EnsureCapacity | src/Engine/VerletEngine.cpp:4-13 | afterwards capacity ≥ size + k; when it had to grow it is max(size + k + 1, old·3/2), otherwise unchanged; particles untouched |
| Engine.VerletEngine.Append | src/Engine/VerletEngine.cpp:23-26 | appends exactly one new resting particle and leaves earlier ones as they were; the maximum radius is `std::max` of the old maximum and the new radius, so it never decreases and bounds every radius |
| Engine.VerletEngine.AddParticle | src/Engine/VerletEngine.cpp:15-17 | appends one movable resting particle and keeps the earlier ones; the maximum radius never decreases and bounds the new radius; below the reserved capacity the capacity is unchanged |
| Engine.VerletEngine.AddFixedParticle | src/Engine/VerletEngine.cpp:19-21 | appends one fixed resting particle and keeps the earlier ones; the maximum radius never decreases and bounds the new radius; below the reserved capacity the capacity is unchanged |
| Engine.VerletEngine.ParticlesCount | src/Engine/VerletEngine.cpp:28-30 | the number of particles held, never more than the reserved capacity |
| Engine.VerletEngine.Update | src/Engine/VerletEngine.cpp:32-36 | every particle becomes `Integrate` of its old fields |
| Engine.VerletEngine.UpdateAt | src/Engine/VerletEngine.cpp:33-35 | one loop iteration integrates particle i and leaves every other particle as it was |
| Engine.VerletEngine.ApplyGravity | src/Engine/VerletEngine.cpp:38-42 | every particle becomes `Force(gravity)` of its old fields; fixed ones are unchanged |
| Engine.VerletEngine.ApplyGravityAt | src/Engine/VerletEngine.cpp:39-41 | one loop iteration applies gravity to particle i and leaves every other particle as it was |
| Pairs.RowMembers | src/Engine/VerletEngine.cpp:89 | the inner loop of row i visits exactly the pairs (i, j) for j from its start to n − 1 |
| Pairs.RowSorted | src/Engine/VerletEngine.cpp:89 | a row is visited in increasing j |
| Pairs.AllPairsExact | src/Engine/VerletEngine.cpp:86-96 | the pass visits (i, j) iff i < j < n, in strict lexicographic order, each pair once; with n ≤ 1 it visits nothing |
| Pairs.PairsFromCount | src/Engine/VerletEngine.cpp:86-96 | rows i to n − 1 hold 0 + 1 + … + (n − i − 1) pairs |
| Pairs.AllPairsCount | src/Engine/VerletEngine.cpp:86-96 | the pass visits n (n − 1) / 2 pairs |
| Engine.VerletEngine.VisitPair | src/Engine/VerletEngine.cpp:88-93 | one inner iteration: the particles become `ResolvePair` of their old fields |
| Engine.VerletEngine.ResolveRow | src/Engine/VerletEngine.cpp:89-94 | one outer iteration: the particles become the pairs of row i resolved in order |
| Engine.VerletEngine.ResolveCollisions | src/Engine/VerletEngine.cpp:86-96 | the particles become `ResolvePairs` over `AllPairs`; with at most one particle nothing changes |
| Engine.ResolvePairsKeepsFixed | src/Engine/VerletEngine.cpp:86-96 | the collision pass keeps the particle count, every radius and fixed flag, and every fixed particle |
| Engine.ResolvePairSkipsNonColliding | src/Engine/VerletEngine.cpp:91-93 | a visited pair that does not collide is left as it is |
| Engine.FixedInsideStaysPut | src/Game.cpp:116-122 | over one full frame (gravity, integration, boundaries, collisions) a fixed particle that starts inside the box is unchanged |
| Engine.LoopEnd | src/Engine/VerletEngine.cpp:87 | `size() - 1` in `size_t`: n − 1 for n ≥ 1, `SIZE_MAX` for n = 0 |
| Engine.LoopEndUnderflows | src/Engine/VerletEngine.cpp:87 | with no particles the bound wraps to `SIZE_MAX`, so the loop guards admit the pair (0, 1), which is no pair of an empty vector |
| Engine.LoopEndInRange | src/Engine/VerletEngine.cpp:87-90 | with at least one particle the bound is n − 1 and the index pairs the loops visit are exactly those of `AllPairs` |
| ThreadPool.SharesAddUp | src/utils/ThreadPool.hpp:74-76 | `count` is `threadCount` full batches plus fewer than `threadCount` extra items |
| ThreadPool.OffsetClosed | src/utils/ThreadPool.hpp:78-90 | slice i starts at i·batch + min(i, extra) |
| ThreadPool.Exhausted | src/utils/ThreadPool.hpp:79-84 | the loop stops after every worker or at the first empty slice, which happens only when the batch is zero and the extras are used up; either way min(count, workers) slices were queued and they reach `count` |
| ThreadPool.QueueBatches | src/utils/ThreadPool.hpp:78-91 | the loop queues slice k = [offset k, offset k + 1) for every k it reaches, at most one per worker, and stops early only on an empty slice |
| ThreadPool.QueuedSlices | src/utils/ThreadPool.hpp:78-91 | the slices so queued are non-empty, laid end to end from 0 to `count`, min(count, workers) of them, with the stated sizes |
| ThreadPool.Dispatch | src/utils/ThreadPool.hpp:72-94 | min(count, workers) non-empty slices, laid end to end from 0 to `count`; slice i has count / workers items, plus one for i < count % workers |
| ThreadPool.TilesCover | src/utils/ThreadPool.hpp:78-91 | every index below `count`, and no other, is in some slice |
| ThreadPool.TilesDisjoint | src/utils/ThreadPool.hpp:78-91 | slices do not overlap: each ends before the next begins |
| ThreadPool.DispatchSeventeenOverFour | src/utils/ThreadPool.hpp:72-94 | 17 items over 4 workers give [0, 5), [5, 9), [9, 13), [13, 17) |
| GridHashing.Truncate | src/Engine/GridHasher.hpp:15 | the conversion to an integer rounds toward zero: r ≤ q < r + 1 for q ≥ 0, r − 1 < q ≤ r for q < 0 |
| GridHashing.GridHasher.GridCoord | src/Engine/GridHasher.hpp:14-16 | the cell coordinate is the quotient by the cell size truncated toward zero (the floor for non-negative quotients); needs a non-zero cell size |
| GridHashing.GridCoordNearZero | src/Engine/GridHasher.hpp:14-16 | every coordinate strictly within one cell size of zero, on either side, truncates to 0 and is in cell 0 |
| GridHashing.GridHasher.Hash | src/Engine/GridHasher.hpp:10-12 | for y ≥ 0 the key is the plain packing of x over y; for y < 0 the high half of the key is all ones whatever x is |
| GridHashing.HashSplits | src/Engine/GridHasher.hpp:10-12 | for y ≥ 0 the high half of the key is x and the low half is y |
| GridHashing.HashInjectiveNonNegative | src/Engine/GridHasher.hpp:10-12 | for y ≥ 0 two cells get the same key iff they are the same cell |
| GridHashing.HashMinusOne | src/Engine/GridHasher.hpp:10-12 | Hash(x, −1) is −1 for every x |
| GridHashing.HashCollides | src/Engine/GridHasher.hpp:10-12 | cells (0, −1) and (1, −1) get the same key |
| GridHashing.PackedKeySplits | src/Engine/GridHasher.hpp:10-12 | the corrected key's high half is x and its low half is y, for all x and y |
| GridHashing.PackedKeyInjective | src/Engine/GridHasher.hpp:10-12 | the corrected key is injective on all cells |
| Features.Feature.Mask | src/utils/FeatureFlags.hpp:4-11 | `None` has no bit; every other feature owns exactly one bit |
| Features.MasksDisjoint | src/utils/FeatureFlags.hpp:4-11 | distinct features own disjoint bits and distinct masks |
| Features.NoneNeverOn | src/utils/FeatureFlags.hpp:29-31 | `None` is never reported enabled |
| Features.SetEffect | src/utils/FeatureFlags.hpp:20-22 | after `Enable(f)`, g is on iff it was on before or g is the real feature f |
| Features.ClearEffect | src/utils/FeatureFlags.hpp:23-25 | after `Disable(f)`, g is on iff it was on before and g is not f |
| Features.FlipEffect | src/utils/FeatureFlags.hpp:26-28 | after `Toggle(f)`, f (if real) is inverted and every other feature kept |
| Features.MeetsSingleBit | src/utils/FeatureFlags.hpp:4-11 | a word holds either none or all of a feature's mask |
| Features.SetSelf | src/utils/FeatureFlags.hpp:20-22 | after `Enable(f)` f is on exactly when f is a real feature |
| Features.ClearSelf | src/utils/FeatureFlags.hpp:23-25 | after `Disable(f)` f is off |
| Features.FlipSelf | src/utils/FeatureFlags.hpp:26-28 | after `Toggle(f)` f is on exactly when it is a real feature that was off |
| Features.SetOther | src/utils/FeatureFlags.hpp:20-22 | `Enable(f)` keeps every feature whose bit is disjoint from f's |
| Features.ClearOther | src/utils/FeatureFlags.hpp:23-25 | `Disable(f)` keeps every feature whose bit is disjoint from f's |
| Features.FlipOther | src/utils/FeatureFlags.hpp:26-28 | `Toggle(f)` keeps every feature whose bit is disjoint from f's |
| Features.SetKeepsOtherBits | src/utils/FeatureFlags.hpp:20-22 | `Enable` leaves every bit outside f's mask as it was |
| Features.ClearKeepsOtherBits | src/utils/FeatureFlags.hpp:23-25 | `Disable` leaves every bit outside f's mask as it was |
| Features.FlipKeepsOtherBits | src/utils/FeatureFlags.hpp:26-28 | `Toggle` leaves every bit outside f's mask as it was |
| Features.SetIdempotent | src/utils/FeatureFlags.hpp:20-22 | enabling twice is enabling once |
| Features.ClearIdempotent | src/utils/FeatureFlags.hpp:23-25 | disabling twice is disabling once |
| Features.FlipTwice | src/utils/FeatureFlags.hpp:26-28 | toggling twice restores the word |
| Features.FeatureFlags.constructor | src/utils/FeatureFlags.hpp:16-19 | the static instance starts with every feature off |
| Features.FeatureFlags.Enable | src/utils/FeatureFlags.hpp:20-22 | the word becomes `Set` of the old word, and a real feature is then enabled |
| Features.FeatureFlags.Disable | src/utils/FeatureFlags.hpp:23-25 | the word becomes `Clear` of the old word, and the feature is then disabled |
| Features.FeatureFlags.Toggle | src/utils/FeatureFlags.hpp:26-28 | the word becomes `Flip` of the old word; a real feature's state is inverted |
| Features.FeatureFlags.IsEnabled | src/utils/FeatureFlags.hpp:29-31 | `None` is never enabled, and nothing is enabled in an all-zero word |
| Features.FeatureFlags.SetAll | src/utils/FeatureFlags.hpp:33-38 | round trip: `GetAll` afterwards returns the word set |
| Features.FeatureFlags.GetAll | src/utils/FeatureFlags.hpp:36-38 | the word has the bit of a feature set exactly when that feature is enabled |

## Left out

- Thermal simulation: the fire-mode branches of `Particle::Update` and `ResolveCollision`, and the temperature helpers, are left out. The model runs with fire mode off, so temperature is set to 0 and never changes.
- Drawing (`Draw`, textures, colours), `Game`, `main` and the fire colour table are left out. They are rendering and application code. `Game::Update` appears only as the step order in `FixedInsideStaysPut`.
- Floating point: coordinates and radii are reals. The model does not capture rounding, NaN or infinities.
- `Vector2Length` is a parameter. Its value is not computed, so lemmas that rely on a norm assume only non-negativity and symmetry.
- Move construction and move assignment of particles are left out. The vector holds each particle as a distinct object (`Distinct`), and relocation on growth is not modelled.
- Engine.VerletEngine.EnsureCapacity: `reserve(n)` is taken to set the capacity to exactly n, and `size_t` overflow of `size + k` is not modelled.
- Engine.VerletEngine.Append: the reallocation of a full vector on `emplace_back` is modelled as doubling. The standard library leaves the growth factor to the implementation.
- Particles.Particle.ResolveCollision requires the two particles to be different objects, as at its only call site. Self-collision is not modelled.
- ThreadPool: the workers, the task queue, `wait` and the callback invocation are left out (concurrency). Only the slice list `dispatch` queues is modelled, and the number of workers is a parameter.
- The spatial-hash engine variant that uses `GridHasher` is not part of this model. Only `Hash` and `GridCoord` are modelled.
- GridHashing.GridHasher.Hash: `(int64_t)x << 32` with a negative x is undefined behaviour before C++20. The model gives it the C++20 meaning, the two's-complement pattern shifted left with the high bits dropped.
- GridHashing.GridHasher.GridCoord requires the truncated quotient to fit in `int32`; outside that range the C++ conversion is undefined.
- Engine.LoopEnd: `size_t` is taken to be 64 bits wide (`SIZE_MAX` = 2⁶⁴ − 1), as on the usual 64-bit targets; the underflow is the same at any width.
- The comment at `Particle.cpp:124` gives the damping in the collision response the purpose of avoiding energy gain. No energy bound is stated: it would depend on floating-point damping over many steps. `ResolveDamps` states only the per-call damping.
- `FeatureFlags::Instance` (the static singleton accessor) is modelled as the constructor of the one instance. The deleted copy operations have no counterpart.

## Findings

| source | as written | input that shows it | evidently intended | confidence | as-written member | corrected member |
|---|---|---|---|---|---|---|
| src/Engine/VerletEngine.cpp:87 | the loop bound `m_particles.size() - 1` is computed in `size_t` and wraps to `SIZE_MAX` when the engine is empty, so the loop reads `m_particles[0]` of an empty vector | `ResolveCollisions()` on an engine with no particles | with no particles the pass does nothing | not executed | Engine.LoopEndUnderflows | Engine.VerletEngine.ResolveCollisions |
| src/Engine/GridHasher.hpp:10-12 | `y` is sign-extended to 64 bits before the or, so a negative y sets all 32 high bits and erases x | `Hash(0, -1) == Hash(1, -1) == -1` | the key keeps both coordinates (y zero-extended, as `uint32_t`) and is injective | not executed | GridHashing.HashCollides | GridHashing.PackedKeyInjective |
