/** The simulation engine: an append-only collection of particles and the
    per-step passes over it (gravity, integration, boundary constraints and the
    exhaustive collision pass). */
module Engine {
  import opened Vectors
  import opened Particles
  import opened Pairs

  /** The screen dimensions `ApplyConstraints` receives are `uint32_t`. */
  newtype uint32 = x: int | 0 <= x < 0x1_0000_0000

  /** `SIZE_MAX`, the largest `size_t`. */
  const SizeMax: nat := 0xFFFF_FFFF_FFFF_FFFF

  function Max(a: nat, b: nat): (m: nat) {
    if a < b then b else a
  }

  /** `std::max` on radii: the first argument unless it is below the second. */
  function MaxRadius(a: real, b: real): (m: real) {
    if a < b then b else a
  }

  // ----- Boundary constraints ---------------------------------------------

  /** One axis of `ApplyConstraints`: the lower-edge test, then the upper-edge
      test on the possibly corrected coordinate; also whether either fired. */
  function ClampAxis(c: real, r: real, limit: real): (clamped: (real, bool)) {
    var c1 := if c - r < 0.0 then r else c;
    var c2 := if c1 + r > limit then limit - r else c1;
    (c2, c - r < 0.0 || c1 + r > limit)
  }

  /** The axis is corrected exactly when the circle pokes out on either side. */
  predicate OutOfBounds(c: real, r: real, limit: real): (out: bool) {
    c - r < 0.0 || c + r > limit
  }

  lemma ClampAxisFacts(c: real, r: real, limit: real)
    ensures ClampAxis(c, r, limit).1 <==> OutOfBounds(c, r, limit)
    ensures !OutOfBounds(c, r, limit) ==> ClampAxis(c, r, limit).0 == c
    ensures 2.0 * r <= limit ==> r <= ClampAxis(c, r, limit).0 <= limit - r
  {
  }

  /** `VerletEngine::ApplyConstraints` for one particle: clamp the circle into
      [0, width] x [0, height] and, when anything was corrected, restart it at
      the clamped position with the velocity component of every corrected axis
      negated. There is no fixed-flag test: fixed particles are clamped too. */
  function Constrain(s: ParticleState, width: uint32, height: uint32): (r: ParticleState)
    ensures r.acceleration == s.acceleration && r.radius == s.radius
    ensures r.isFixed == s.isFixed && r.temperature == s.temperature
  {
    var (x, changedX) := ClampAxis(s.position.x, s.radius, width as real);
    var (y, changedY) := ClampAxis(s.position.y, s.radius, height as real);
    if !changedX && !changedY then s
    else
      var v := s.Velocity();
      var v' := Vector2(if changedX then -v.x else v.x, if changedY then -v.y else v.y);
      s.(position := Vector2(x, y), oldPosition := Vector2(x, y)).WithVelocity(v')
  }

  predicate Inside(s: ParticleState, width: uint32, height: uint32): (inside: bool) {
    && !OutOfBounds(s.position.x, s.radius, width as real)
    && !OutOfBounds(s.position.y, s.radius, height as real)
  }

  /** Containment: a circle that fits the box along an axis ends inside it on
      that axis. */
  lemma ConstrainContains(s: ParticleState, width: uint32, height: uint32)
    ensures 2.0 * s.radius <= width as real ==>
      s.radius <= Constrain(s, width, height).position.x <= width as real - s.radius
    ensures 2.0 * s.radius <= height as real ==>
      s.radius <= Constrain(s, width, height).position.y <= height as real - s.radius
  {
    ClampAxisFacts(s.position.x, s.radius, width as real);
    ClampAxisFacts(s.position.y, s.radius, height as real);
  }

  /** A particle already inside the box is left completely untouched. */
  lemma ConstrainKeepsInside(s: ParticleState, width: uint32, height: uint32)
    requires Inside(s, width, height)
    ensures Constrain(s, width, height) == s
  {
    ClampAxisFacts(s.position.x, s.radius, width as real);
    ClampAxisFacts(s.position.y, s.radius, height as real);
  }

  /** The velocity component of each corrected axis is negated and the other
      is preserved. */
  lemma ConstrainReflects(s: ParticleState, width: uint32, height: uint32)
    ensures var v := s.Velocity();
      Constrain(s, width, height).Velocity() ==
        Vector2(if OutOfBounds(s.position.x, s.radius, width as real) then -v.x else v.x,
                if OutOfBounds(s.position.y, s.radius, height as real) then -v.y else v.y)
  {
    ClampAxisFacts(s.position.x, s.radius, width as real);
    ClampAxisFacts(s.position.y, s.radius, height as real);
  }

  /** When the circle fits the box, a second pass of the constraints changes
      nothing. */
  lemma ConstrainIdempotent(s: ParticleState, width: uint32, height: uint32)
    requires 2.0 * s.radius <= width as real && 2.0 * s.radius <= height as real
    ensures Constrain(Constrain(s, width, height), width, height) == Constrain(s, width, height)
  {
    var t := Constrain(s, width, height);
    ConstrainContains(s, width, height);
    ConstrainReflects(s, width, height);
    ConstrainKeepsInside(t, width, height);
  }

  // ----- The exhaustive collision pass ------------------------------------

  /** One visit of the pass: resolve pair (i, j) when `CheckCollision` holds. */
  function ResolvePair(norm: Vector2 -> real, s: seq<ParticleState>, p: Pair): (r: seq<ParticleState>) {
    var (i, j) := p;
    if i < |s| && j < |s| && i != j && CheckCollision(norm, s[i], s[j]) then
      var (a, b) := Resolve(norm, s[i], s[j]);
      s[i := a][j := b]
    else s
  }

  /** The particles after visiting the pairs `ps` in order. */
  function ResolvePairs(norm: Vector2 -> real, s: seq<ParticleState>, ps: seq<Pair>): (r: seq<ParticleState>)
    decreases |ps|
  {
    if ps == [] then s
    else ResolvePair(norm, ResolvePairs(norm, s, ps[..|ps| - 1]), ps[|ps| - 1])
  }

  /** Collision resolution keeps the number of particles, every radius and
      fixed flag, and never changes a fixed particle at all. */
  lemma {:induction false} ResolvePairsKeepsFixed(norm: Vector2 -> real, s: seq<ParticleState>, ps: seq<Pair>)
    ensures |ResolvePairs(norm, s, ps)| == |s|
    ensures forall k :: 0 <= k < |s| ==>
      && ResolvePairs(norm, s, ps)[k].radius == s[k].radius
      && ResolvePairs(norm, s, ps)[k].isFixed == s[k].isFixed
      && (s[k].isFixed ==> ResolvePairs(norm, s, ps)[k] == s[k])
    decreases |ps|
  {
    if ps != [] {
      var t := ResolvePairs(norm, s, ps[..|ps| - 1]);
      ResolvePairsKeepsFixed(norm, s, ps[..|ps| - 1]);
      var (i, j) := ps[|ps| - 1];
      if i < |t| && j < |t| && i != j && CheckCollision(norm, t[i], t[j]) {
        ResolveKeepsFixed(norm, t[i], t[j]);
      }
    }
  }

  /** A pair that is not colliding when visited is left as it is. */
  lemma ResolvePairSkipsNonColliding(norm: Vector2 -> real, s: seq<ParticleState>, i: nat, j: nat)
    requires i < |s| && j < |s| && !CheckCollision(norm, s[i], s[j])
    ensures ResolvePair(norm, s, (i, j)) == s
  {
  }

  /** A fixed particle that starts a step inside the box does not move during
      the step (gravity, integration, constraints, collisions). */
  lemma FixedInsideStaysPut(norm: Vector2 -> real, s: seq<ParticleState>, g: Vector2, dt: real,
                            width: uint32, height: uint32, k: nat)
    requires k < |s| && s[k].isFixed && Inside(s[k], width, height)
    ensures var integrated := seq(|s|, m requires 0 <= m < |s| => Constrain(Integrate(Force(s[m], g), dt), width, height));
      var r := ResolvePairs(norm, integrated, AllPairs(|s|));
      |r| == |s| && r[k] == s[k]
  {
    var integrated := seq(|s|, m requires 0 <= m < |s| => Constrain(Integrate(Force(s[m], g), dt), width, height));
    ForceAccumulates(s[k], g, Zero);
    IntegrateFixed(s[k], dt);
    ConstrainKeepsInside(s[k], width, height);
    assert integrated[k] == s[k];
    ResolvePairsKeepsFixed(norm, integrated, AllPairs(|s|));
  }

  lemma ResolvePairsSnoc(norm: Vector2 -> real, s: seq<ParticleState>, ps: seq<Pair>, p: Pair)
    ensures ResolvePairs(norm, s, ps + [p]) == ResolvePair(norm, ResolvePairs(norm, s, ps), p)
  {
    assert (ps + [p])[..|ps|] == ps;
  }

  /** Bookkeeping for the outer loop: finishing row i moves it from the pairs
      still to visit to the pairs done. */
  lemma NextRow(done: seq<Pair>, i: nat, n: nat)
    requires i < n
    ensures (done + Row(i, i + 1, n)) + PairsFrom(i + 1, n) == done + PairsFrom(i, n)
  {
  }

  /** Visiting `p` and then `q` is visiting `p + q`. */
  lemma {:induction false} ResolvePairsAppend(norm: Vector2 -> real, s: seq<ParticleState>, p: seq<Pair>, q: seq<Pair>)
    ensures ResolvePairs(norm, s, p + q) == ResolvePairs(norm, ResolvePairs(norm, s, p), q)
    decreases |q|
  {
    if q == [] {
      assert p + q == p;
    } else {
      assert (p + q)[..|p + q| - 1] == p + q[..|q| - 1];
      ResolvePairsAppend(norm, s, p, q[..|q| - 1]);
    }
  }

  // ----- The unsigned loop bound of the collision pass, as written --------

  /** `m_particles.size() - 1` computed in `size_t`. */
  function LoopEnd(n: nat): (end: nat)
    requires n <= SizeMax
    ensures n == 0 ==> end == SizeMax
    ensures n > 0 ==> end == n - 1
  {
    (n + SizeMax) % (SizeMax + 1)
  }

  /** With no particles the bound wraps to `SIZE_MAX`, so the loop guards
      (i < end, i < j <= end) admit the pair (0, 1), which is no pair of an
      empty vector: the first iteration reads element 0 of it. */
  lemma LoopEndUnderflows()
    ensures LoopEnd(0) == SizeMax
    ensures var end := LoopEnd(0); 0 < end && 0 < 1 <= end && (0, 1) !in AllPairs(0)
  {
    assert AllPairs(0) == [];
  }

  /** With at least one particle the bound is n - 1 and every index the loop
      reads (i < end, j <= end) is below n: the pairs are those of `AllPairs`. */
  lemma LoopEndInRange(n: nat)
    requires 1 <= n <= SizeMax
    ensures LoopEnd(n) == n - 1
    ensures forall i: nat, j: nat :: (i < LoopEnd(n) && i < j <= LoopEnd(n)) <==> (i, j) in AllPairs(n)
  {
    AllPairsExact(n);
  }

  // ----- The engine ---------------------------------------------------------

  /** `VerletEngine`: the particles (a `std::vector<Particle>`, whose reserved
      capacity is kept as a number) and the running maximum radius. */
  class VerletEngine {
    var particles: seq<Particle>
    var capacity: nat
    var maxParticleRadius: real

    /** The vector never holds more than its capacity, owns each particle once,
        and no particle is larger than the recorded maximum radius. */
    ghost predicate Valid(): (valid: bool)
      reads this, particles
    {
      && |particles| <= capacity
      && Distinct()
      && (forall i :: 0 <= i < |particles| ==> particles[i].radius <= maxParticleRadius)
    }

    /** Each particle is held by the vector once. */
    ghost predicate Distinct(): (distinct: bool)
      reads this
    {
      forall i, j :: 0 <= i < j < |particles| ==> particles[i] != particles[j]
    }

    /** The particles' fields, in index order. */
    function States(): (r: seq<ParticleState>)
      reads this, particles
      ensures |r| == |particles|
      ensures forall k :: 0 <= k < |particles| ==> r[k] == particles[k].State()
    {
      seq(|particles|, k requires 0 <= k < |particles| reads this, particles => particles[k].State())
    }

    constructor ()
      ensures Valid() && particles == [] && capacity == 0 && maxParticleRadius == 0.0
    {
      particles := [];
      capacity := 0;
      maxParticleRadius := 0.0;
    }

    /** Reserves room for `additionalCount` more particles, growing by at least
        half of the current capacity when it has to grow. */
    method EnsureCapacity(additionalCount: nat)
      requires Valid()
      modifies this
      ensures Valid()
      ensures particles == old(particles) && maxParticleRadius == old(maxParticleRadius)
      ensures capacity >= |particles| + additionalCount
      ensures |particles| + additionalCount > old(capacity) ==>
        capacity == Max(|particles| + additionalCount + 1, old(capacity) * 3 / 2)
      ensures |particles| + additionalCount <= old(capacity) ==> capacity == old(capacity)
    {
      var requiredSize := |particles| + additionalCount;
      if requiredSize > capacity {
        var newCapacity := Max(requiredSize + 1, capacity * 3 / 2);
        capacity := newCapacity;
      }
    }

    /** `addParticle`: appends one new particle resting at `position`, leaves
        every earlier particle as it was and keeps the running maximum radius. */
    method Append(position: Vector2, radius: real, isFixed: bool)
      requires Valid()
      modifies this
      ensures Valid()
      ensures |particles| == |old(particles)| + 1 && particles[..|old(particles)|] == old(particles)
      ensures fresh(particles[|old(particles)|])
      ensures States() == old(States()) + [ParticleState(position, position, Zero, radius, isFixed, 0.0)]
      ensures maxParticleRadius == MaxRadius(old(maxParticleRadius), radius)
      ensures old(maxParticleRadius) <= maxParticleRadius && radius <= maxParticleRadius
      ensures |old(particles)| < old(capacity) ==> capacity == old(capacity)
    {
      if |particles| == capacity {
        // emplace_back on a full vector reallocates; the model doubles
        capacity := if capacity == 0 then 1 else 2 * capacity;
      }
      var p := new Particle(position, radius, isFixed);
      particles := particles + [p];
      maxParticleRadius := MaxRadius(maxParticleRadius, radius);
    }

    method AddParticle(position: Vector2, radius: real)
      requires Valid()
      modifies this
      ensures Valid()
      ensures |particles| == |old(particles)| + 1 && particles[..|old(particles)|] == old(particles)
      ensures fresh(particles[|old(particles)|])
      ensures States() == old(States()) + [ParticleState(position, position, Zero, radius, false, 0.0)]
      ensures maxParticleRadius == MaxRadius(old(maxParticleRadius), radius)
      ensures old(maxParticleRadius) <= maxParticleRadius && radius <= maxParticleRadius
      ensures |old(particles)| < old(capacity) ==> capacity == old(capacity)
    {
      Append(position, radius, false);
    }

    method AddFixedParticle(position: Vector2, radius: real)
      requires Valid()
      modifies this
      ensures Valid()
      ensures |particles| == |old(particles)| + 1 && particles[..|old(particles)|] == old(particles)
      ensures fresh(particles[|old(particles)|])
      ensures States() == old(States()) + [ParticleState(position, position, Zero, radius, true, 0.0)]
      ensures maxParticleRadius == MaxRadius(old(maxParticleRadius), radius)
      ensures old(maxParticleRadius) <= maxParticleRadius && radius <= maxParticleRadius
      ensures |old(particles)| < old(capacity) ==> capacity == old(capacity)
    {
      Append(position, radius, true);
    }

    /** The number of particles held; never more than the reserved
        capacity. */
    function ParticlesCount(): (n: nat)
      reads this
      ensures n == |particles|
      ensures Valid() ==> n <= capacity
    {
      |particles|
    }

    /** Integrates every particle once. */
    method Update(dt: real)
      requires Valid()
      modifies particles
      ensures Valid() && |States()| == |old(States())|
      ensures forall k :: 0 <= k < |particles| ==> States()[k] == Integrate(old(States())[k], dt)
    {
      ghost var start := States();
      var i := 0;
      while i < |particles|
        invariant 0 <= i <= |particles|
        invariant Distinct()
        invariant |States()| == |start|
        invariant forall k :: 0 <= k < i ==> States()[k] == Integrate(start[k], dt)
        invariant forall k :: i <= k < |particles| ==> States()[k] == start[k]
      {
        UpdateAt(i, dt);
        i := i + 1;
      }
      assert Valid() by {
        assert forall k :: 0 <= k < |particles| ==> particles[k].radius == States()[k].radius == start[k].radius;
      }
    }

    /** The body of the `Update` loop for particle i. */
    method UpdateAt(i: nat, dt: real)
      requires Distinct() && i < |particles|
      modifies particles[i]
      ensures States() == old(States())[i := Integrate(old(States())[i], dt)]
    {
      ghost var before := States();
      particles[i].Update(dt);
      assert forall k :: 0 <= k < |particles| && k != i ==> States()[k] == before[k];
    }

    /** Adds `gravity` to the acceleration of every movable particle. */
    method ApplyGravity(gravity: Vector2)
      requires Valid()
      modifies particles
      ensures Valid() && |States()| == |old(States())|
      ensures forall k :: 0 <= k < |particles| ==> States()[k] == Force(old(States())[k], gravity)
    {
      ghost var start := States();
      var i := 0;
      while i < |particles|
        invariant 0 <= i <= |particles|
        invariant Distinct()
        invariant |States()| == |start|
        invariant forall k :: 0 <= k < i ==> States()[k] == Force(start[k], gravity)
        invariant forall k :: i <= k < |particles| ==> States()[k] == start[k]
      {
        ApplyGravityAt(i, gravity);
        i := i + 1;
      }
      assert Valid() by {
        assert forall k :: 0 <= k < |particles| ==> particles[k].radius == States()[k].radius == start[k].radius;
      }
    }

    /** The body of the `ApplyGravity` loop for particle i. */
    method ApplyGravityAt(i: nat, gravity: Vector2)
      requires Distinct() && i < |particles|
      modifies particles[i]
      ensures States() == old(States())[i := Force(old(States())[i], gravity)]
    {
      ghost var before := States();
      particles[i].ApplyForce(gravity);
      assert forall k :: 0 <= k < |particles| && k != i ==> States()[k] == before[k];
    }

    /** Keeps every particle inside the screen, reflecting the velocity on
        each corrected axis. */
    method ApplyConstraints(screenWidth: uint32, screenHeight: uint32)
      requires Valid()
      modifies particles
      ensures Valid() && |States()| == |old(States())|
      ensures forall k :: 0 <= k < |particles| ==>
        States()[k] == Constrain(old(States())[k], screenWidth, screenHeight)
      ensures forall k :: 0 <= k < |particles| && 2.0 * particles[k].radius <= screenWidth as real ==>
        particles[k].radius <= particles[k].position.x <= screenWidth as real - particles[k].radius
      ensures forall k :: 0 <= k < |particles| && 2.0 * particles[k].radius <= screenHeight as real ==>
        particles[k].radius <= particles[k].position.y <= screenHeight as real - particles[k].radius
    {
      ghost var start := States();
      var i := 0;
      while i < |particles|
        invariant 0 <= i <= |particles|
        invariant Distinct()
        invariant |States()| == |start|
        invariant forall k :: 0 <= k < i ==> States()[k] == Constrain(start[k], screenWidth, screenHeight)
        invariant forall k :: i <= k < |particles| ==> States()[k] == start[k]
      {
        ConstrainAt(i, screenWidth, screenHeight);
        i := i + 1;
      }
      forall k | 0 <= k < |particles|
        ensures 2.0 * particles[k].radius <= screenWidth as real ==>
          particles[k].radius <= particles[k].position.x <= screenWidth as real - particles[k].radius
        ensures 2.0 * particles[k].radius <= screenHeight as real ==>
          particles[k].radius <= particles[k].position.y <= screenHeight as real - particles[k].radius
      {
        ConstrainContains(start[k], screenWidth, screenHeight);
        ConstrainReflects(start[k], screenWidth, screenHeight);
        assert particles[k].State() == Constrain(start[k], screenWidth, screenHeight);
      }
      assert Valid() by {
        assert forall k :: 0 <= k < |particles| ==> particles[k].radius == States()[k].radius == start[k].radius by {
          forall k | 0 <= k < |particles| ensures States()[k].radius == start[k].radius {
            ConstrainReflects(start[k], screenWidth, screenHeight);
          }
        }
      }
    }

    /** The body of the `ApplyConstraints` loop for particle i. */
    method ConstrainAt(i: nat, screenWidth: uint32, screenHeight: uint32)
      requires Distinct() && i < |particles|
      modifies particles[i]
      ensures States() == old(States())[i := Constrain(old(States())[i], screenWidth, screenHeight)]
    {
      ghost var before := States();
      ConstrainParticle(particles[i], screenWidth, screenHeight);
      assert forall k :: 0 <= k < |particles| && k != i ==> States()[k] == before[k];
    }

    /** The body of the `ApplyConstraints` loop for one particle. */
    static method ConstrainParticle(particle: Particle, screenWidth: uint32, screenHeight: uint32)
      modifies particle
      ensures particle.State() == Constrain(old(particle.State()), screenWidth, screenHeight)
    {
      ghost var s := particle.State();
      var position := particle.GetPosition();
      var radius := particle.GetRadius();
      var changedX, changedY := false, false;
      if position.x - radius < 0.0 {
        position := position.(x := radius);
        changedX := true;
      }
      if position.x + radius > screenWidth as real {
        position := position.(x := screenWidth as real - radius);
        changedX := true;
      }
      assert (position.x, changedX) == ClampAxis(s.position.x, s.radius, screenWidth as real);
      if position.y - radius < 0.0 {
        position := position.(y := radius);
        changedY := true;
      }
      if position.y + radius > screenHeight as real {
        position := position.(y := screenHeight as real - radius);
        changedY := true;
      }
      assert (position.y, changedY) == ClampAxis(s.position.y, s.radius, screenHeight as real);
      if changedX || changedY {
        var velocity := particle.GetVelocity();
        if changedX {
          velocity := velocity.(x := velocity.x * -1.0);
        }
        if changedY {
          velocity := velocity.(y := velocity.y * -1.0);
        }
        particle.SetPosition(position);
        particle.SetVelocity(velocity);
      }
    }

    /** The body of the inner `ResolveCollisions` loop: resolve particles i
        and j when they collide. */
    method VisitPair(norm: Vector2 -> real, i: nat, j: nat)
      requires Distinct() && i < j < |particles|
      modifies particles[i], particles[j]
      ensures States() == ResolvePair(norm, old(States()), (i, j))
    {
      ghost var before := States();
      var first := particles[i];
      var second := particles[j];
      if CheckCollision(norm, first.State(), second.State()) {
        Particle.ResolveCollision(norm, first, second);
      }
      assert forall k :: 0 <= k < |particles| && k != i && k != j ==> States()[k] == before[k];
    }

    /** The inner loop of `ResolveCollisions` for row i: the pairs (i, j) for
        every j > i, in increasing order. */
    method ResolveRow(norm: Vector2 -> real, i: nat)
      requires Distinct() && i < |particles|
      modifies particles
      ensures States() == ResolvePairs(norm, old(States()), Row(i, i + 1, |particles|))
    {
      var end := |particles| - 1;
      var j := i + 1;
      while j <= end
        invariant i + 1 <= j <= end + 1
        invariant Distinct()
        invariant States() == ResolvePairs(norm, old(States()), Row(i, i + 1, j))
      {
        VisitPair(norm, i, j);
        RowSnoc(i, i + 1, j);
        ResolvePairsSnoc(norm, old(States()), Row(i, i + 1, j), (i, j));
        j := j + 1;
      }
    }

    /** The exhaustive pass: every pair i < j in lexicographic order, resolved
        when `CheckCollision` holds. With no particles the method returns at
        once (the source's unsigned bound would underflow there). */
    method ResolveCollisions(norm: Vector2 -> real)
      requires Valid()
      modifies particles
      ensures Valid()
      ensures States() == ResolvePairs(norm, old(States()), AllPairs(|particles|))
      ensures |particles| <= 1 ==> States() == old(States())
    {
      var n := |particles|;
      if n == 0 {
        assert AllPairs(0) == [];
        return;
      }
      ghost var start := States();
      ghost var done: seq<Pair> := [];
      var end := n - 1;
      var i := 0;
      while i < end
        invariant 0 <= i <= end
        invariant Distinct()
        invariant States() == ResolvePairs(norm, start, done)
        invariant done + PairsFrom(i, n) == AllPairs(n)
      {
        ResolveRow(norm, i);
        ResolvePairsAppend(norm, start, done, Row(i, i + 1, n));
        NextRow(done, i, n);
        done := done + Row(i, i + 1, n);
        i := i + 1;
      }
      assert PairsFrom(n - 1, n) == [];
      assert done == AllPairs(n);
      if n == 1 {
        assert AllPairs(1) == [];
      }
      assert Valid() by {
        ResolvePairsKeepsFixed(norm, start, done);
        assert forall k :: 0 <= k < |particles| ==> particles[k].radius == States()[k].radius == start[k].radius;
      }
    }
  }
}
