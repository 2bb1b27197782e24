/** A single simulated point mass with Verlet (position / old position)
    integration, its collision test and its collision response. */
module Particles {
  import opened Vectors

  /** `Particle::eps`: overlaps smaller than this are treated as contact noise. */
  const Eps: real := 0.0001

  /** `Particle::dampening`: velocity multiplier applied to a particle that a
      collision pushes. */
  const Dampening: real := 0.98

  lemma ConstantsInRange()
    ensures 0.0 < Eps
    ensures 0.0 < Dampening < 1.0
  {
  }

  /** The fields of a particle at one moment. The velocity is not stored: it is
      the difference between the position and the old position. */
  datatype ParticleState = ParticleState(
    position: Vector2,
    oldPosition: Vector2,
    acceleration: Vector2,
    radius: real,
    isFixed: bool,
    temperature: real)
  {
    /** `GetVelocity`. */
    function Velocity(): (v: Vector2) {
      Sub(position, oldPosition)
    }

    /** `SetVelocity`: keeps the position and rewrites the old position so that
        the implicit velocity becomes `v`. */
    function WithVelocity(v: Vector2): (s: ParticleState)
      ensures s.Velocity() == v
      ensures s.position == position && s.acceleration == acceleration
      ensures s.radius == radius && s.isFixed == isFixed && s.temperature == temperature
    {
      this.(oldPosition := Sub(position, v))
    }
  }

  /** `Particle::Update(dt)`: one Verlet step, after which the accumulated
      acceleration is consumed. A fixed particle does not move. */
  function Integrate(s: ParticleState, dt: real): (r: ParticleState)
    ensures r.radius == s.radius && r.isFixed == s.isFixed && r.temperature == s.temperature
  {
    if s.isFixed then s
    else
      var velocity := Sub(s.position, s.oldPosition);
      s.(oldPosition := s.position,
         position := Add(s.position, Add(velocity, Scale(s.acceleration, dt * dt))),
         acceleration := Zero)
  }

  /** The step law: the previous position is kept as the old position, the
      velocity grows by acceleration times dt squared, the acceleration is reset,
      and nothing else changes. */
  lemma IntegrateStep(s: ParticleState, dt: real)
    requires !s.isFixed
    ensures Integrate(s, dt).oldPosition == s.position
    ensures Integrate(s, dt).position == Add(Add(s.position, s.Velocity()), Scale(s.acceleration, dt * dt))
    ensures Integrate(s, dt).Velocity() == Add(s.Velocity(), Scale(s.acceleration, dt * dt))
    ensures Integrate(s, dt).acceleration == Zero
  {
  }

  /** A fixed particle is left exactly as it was, whatever force it holds. */
  lemma IntegrateFixed(s: ParticleState, dt: real)
    requires s.isFixed
    ensures Integrate(s, dt) == s
  {
  }

  /** With no pending acceleration a movable particle keeps its velocity. */
  lemma IntegrateInertia(s: ParticleState, dt: real)
    requires s.acceleration == Zero
    ensures Integrate(s, dt).Velocity() == s.Velocity()
  {
  }

  /** `Particle::ApplyForce(f)`: accumulates `f` into the acceleration of a
      movable particle; on a fixed particle it does nothing. */
  function Force(s: ParticleState, f: Vector2): (r: ParticleState)
    ensures r.position == s.position && r.oldPosition == s.oldPosition
    ensures r.radius == s.radius && r.isFixed == s.isFixed && r.temperature == s.temperature
  {
    if s.isFixed then s else s.(acceleration := Add(s.acceleration, f))
  }

  /** Forces accumulate: applying `f` then `g` is applying `f + g` once. */
  lemma ForceAccumulates(s: ParticleState, f: Vector2, g: Vector2)
    ensures Force(Force(s, f), g) == Force(s, Add(f, g))
    ensures s.isFixed ==> Force(s, f) == s
  {
  }

  /** `Particle::CheckCollision`: two particles collide unless both are fixed,
      when the sum of their radii exceeds the distance between their centres by
      at least `Eps`. `norm` stands for raymath's `Vector2Length`. */
  function CheckCollision(norm: Vector2 -> real, first: ParticleState, second: ParticleState): (colliding: bool)
    ensures colliding ==> !(first.isFixed && second.isFixed)
    ensures colliding ==> norm(Sub(first.position, second.position)) < first.radius + second.radius
  {
    if first.isFixed && second.isFixed then false
    else
      var minPermissibleDistance := first.radius + second.radius;
      var actualDistance := norm(Sub(first.position, second.position));
      minPermissibleDistance - actualDistance >= Eps
  }

  /** The collision test does not depend on the order of its arguments. */
  lemma CheckCollisionSymmetric(norm: Vector2 -> real, a: ParticleState, b: ParticleState)
    requires IsNorm(norm)
    ensures CheckCollision(norm, a, b) == CheckCollision(norm, b, a)
  {
    SubAntisymmetric(a.position, b.position);
    assert norm(Neg(Sub(b.position, a.position))) == norm(Sub(b.position, a.position));
  }

  /** Two fixed particles never collide; otherwise the test is exactly the
      overlap threshold. */
  lemma CheckCollisionCases(norm: Vector2 -> real, a: ParticleState, b: ParticleState)
    ensures a.isFixed && b.isFixed ==> !CheckCollision(norm, a, b)
    ensures !(a.isFixed && b.isFixed) ==>
      (CheckCollision(norm, a, b) <==> (a.radius + b.radius) - norm(Sub(a.position, b.position)) >= Eps)
  {
  }

  /** Centres closer than the sum of the radii by at least `Eps` collide, and
      centres at least `Eps` farther apart than that do not. */
  lemma CheckCollisionDistance(norm: Vector2 -> real, a: ParticleState, b: ParticleState)
    requires !a.isFixed || !b.isFixed
    ensures norm(Sub(a.position, b.position)) <= a.radius + b.radius - Eps ==> CheckCollision(norm, a, b)
    ensures norm(Sub(a.position, b.position)) >= a.radius + b.radius + Eps ==> !CheckCollision(norm, a, b)
  {
  }

  /** A particle pushed to `p` by a collision: its position becomes `p` and its
      velocity, measured from the unchanged old position, is damped. */
  function Displaced(s: ParticleState, p: Vector2): (moved: ParticleState) {
    var moved := s.(position := p);
    moved.WithVelocity(Scale(moved.Velocity(), Dampening))
  }

  /** The vector from the first centre to the second. */
  function Delta(a: ParticleState, b: ParticleState): (delta: Vector2) {
    Sub(b.position, a.position)
  }

  /** Whether `Resolve` acts at all: a zero distance (no normal) and an overlap
      below `Eps` are both skipped. */
  predicate Penetrating(norm: Vector2 -> real, a: ParticleState, b: ParticleState): (penetrating: bool) {
    var distance := norm(Delta(a, b));
    distance != 0.0 && (a.radius + b.radius) - distance >= Eps
  }

  /** `Particle::ResolveCollision` without its thermal branch: pushes the two
      particles apart along the line of their centres, by the whole overlap when
      one of them is fixed and by half of it each otherwise, and damps the
      velocity of every particle it moves. */
  function Resolve(norm: Vector2 -> real, a: ParticleState, b: ParticleState): (r: (ParticleState, ParticleState))
    ensures r.0.acceleration == a.acceleration && r.0.radius == a.radius
    ensures r.0.isFixed == a.isFixed && r.0.temperature == a.temperature
    ensures r.1.acceleration == b.acceleration && r.1.radius == b.radius
    ensures r.1.isFixed == b.isFixed && r.1.temperature == b.temperature
  {
    var distance := norm(Delta(a, b));
    if distance == 0.0 then (a, b)
    else if (a.radius + b.radius) - distance < Eps then (a, b)
    else
      var positionChange := PositionChange(norm, a, b);
      (if a.isFixed then a else Displaced(a, Sub(a.position, positionChange)),
       if b.isFixed then b else Displaced(b, Add(b.position, positionChange)))
  }

  /** The correction along the unit normal: the whole overlap when one
      particle is fixed, half of it otherwise. */
  function PositionChange(norm: Vector2 -> real, a: ParticleState, b: ParticleState): (change: Vector2)
    requires norm(Delta(a, b)) != 0.0
  {
    var distance := norm(Delta(a, b));
    var overlap := (a.radius + b.radius) - distance;
    var collisionNormal := Scale(Delta(a, b), 1.0 / distance);
    Scale(collisionNormal, if a.isFixed || b.isFixed then overlap else overlap * 0.5)
  }

  lemma ScaleTwice(v: Vector2, k: real, m: real)
    ensures Scale(Scale(v, k), m) == Scale(v, k * m)
  {
    assert v.x * k * m == v.x * (k * m);
    assert v.y * k * m == v.y * (k * m);
  }

  /** The source scales twice, by 1 / distance and then by the share of the
      overlap; that is one scaling of the centre-to-centre vector by
      share · overlap / distance. */
  lemma PositionChangeAlongDelta(norm: Vector2 -> real, a: ParticleState, b: ParticleState)
    requires norm(Delta(a, b)) != 0.0
    ensures var distance := norm(Delta(a, b));
      var overlap := (a.radius + b.radius) - distance;
      PositionChange(norm, a, b) ==
        Scale(Delta(a, b), (if a.isFixed || b.isFixed then 1.0 else 0.5) * overlap / distance)
  {
    var distance := norm(Delta(a, b));
    var overlap := (a.radius + b.radius) - distance;
    var share := if a.isFixed || b.isFixed then 1.0 else 0.5;
    ScaleTwice(Delta(a, b), 1.0 / distance, share * overlap);
    assert 1.0 / distance * (share * overlap) == share * overlap / distance;
    if !(a.isFixed || b.isFixed) {
      assert overlap * 0.5 == share * overlap;
    }
  }

  /** Degenerate and negligible contacts are skipped: both particles come back
      unchanged. */
  lemma ResolveSkips(norm: Vector2 -> real, a: ParticleState, b: ParticleState)
    requires !Penetrating(norm, a, b)
    ensures Resolve(norm, a, b) == (a, b)
  {
  }

  /** A fixed particle is never changed by a collision. */
  lemma ResolveKeepsFixed(norm: Vector2 -> real, a: ParticleState, b: ParticleState)
    ensures a.isFixed ==> Resolve(norm, a, b).0 == a
    ensures b.isFixed ==> Resolve(norm, a, b).1 == b
  {
  }

  /** Between two movable particles the pushes are equal and opposite, each
      half the overlap along the normal, so the midpoint of the two centres does
      not move. */
  lemma ResolveBothMovable(norm: Vector2 -> real, a: ParticleState, b: ParticleState)
    requires Penetrating(norm, a, b) && !a.isFixed && !b.isFixed
    ensures var push := Scale(Delta(a, b), 0.5 * ((a.radius + b.radius) - norm(Delta(a, b))) / norm(Delta(a, b)));
      && Sub(Resolve(norm, a, b).1.position, b.position) == push
      && Sub(Resolve(norm, a, b).0.position, a.position) == Neg(push)
    ensures Add(Resolve(norm, a, b).0.position, Resolve(norm, a, b).1.position) == Add(a.position, b.position)
  {
    PositionChangeAlongDelta(norm, a, b);
  }

  /** When exactly one particle is fixed, the other absorbs the whole overlap. */
  lemma ResolveOneFixed(norm: Vector2 -> real, a: ParticleState, b: ParticleState)
    requires Penetrating(norm, a, b)
    ensures var push := Scale(Delta(a, b), 1.0 * ((a.radius + b.radius) - norm(Delta(a, b))) / norm(Delta(a, b)));
      && (a.isFixed && !b.isFixed ==> Sub(Resolve(norm, a, b).1.position, b.position) == push)
      && (!a.isFixed && b.isFixed ==> Sub(Resolve(norm, a, b).0.position, a.position) == Neg(push))
  {
    PositionChangeAlongDelta(norm, a, b);
  }

  /** In a real contact every movable particle leaves with its post-push
      velocity (new position minus old position) multiplied by `Dampening`. */
  lemma ResolveDamps(norm: Vector2 -> real, a: ParticleState, b: ParticleState)
    requires Penetrating(norm, a, b)
    ensures !a.isFixed ==>
      Resolve(norm, a, b).0.Velocity() == Scale(Sub(Resolve(norm, a, b).0.position, a.oldPosition), Dampening)
    ensures !b.isFixed ==>
      Resolve(norm, a, b).1.Velocity() == Scale(Sub(Resolve(norm, a, b).1.position, b.oldPosition), Dampening)
  {
  }

  /** The new centre-to-centre vector is the old one rescaled by
      (radius sum) / distance. */
  lemma ResolveReachesContact(norm: Vector2 -> real, a: ParticleState, b: ParticleState)
    requires Penetrating(norm, a, b) && !(a.isFixed && b.isFixed)
    ensures Delta(Resolve(norm, a, b).0, Resolve(norm, a, b).1)
         == Scale(Delta(a, b), (a.radius + b.radius) / norm(Delta(a, b)))
  {
    var d := Delta(a, b);
    var distance := norm(d);
    var t := ((a.radius + b.radius) - distance) / distance;
    var pc := PositionChange(norm, a, b);
    DivAddOne(distance, (a.radius + b.radius) - distance);
    PositionChangeAlongDelta(norm, a, b);
    ResolvedPositions(norm, a, b);
    if a.isFixed || b.isFixed {
      assert 1.0 * ((a.radius + b.radius) - distance) / distance == t;
      assert pc == Scale(d, t);
    } else {
      assert 0.5 * ((a.radius + b.radius) - distance) / distance == 0.5 * t;
      assert pc == Scale(d, 0.5 * t);
    }
  }

  /** Where `Resolve` puts the two centres in a real contact. */
  lemma ResolvedPositions(norm: Vector2 -> real, a: ParticleState, b: ParticleState)
    requires Penetrating(norm, a, b)
    ensures Resolve(norm, a, b).0.position ==
      if a.isFixed then a.position else Sub(a.position, PositionChange(norm, a, b))
    ensures Resolve(norm, a, b).1.position ==
      if b.isFixed then b.position else Add(b.position, PositionChange(norm, a, b))
  {
  }

  /** For a norm that scales with its argument, as the Euclidean length does,
      the resolved pair ends exactly at the sum of the radii. */
  lemma ResolveTouches(norm: Vector2 -> real, a: ParticleState, b: ParticleState)
    requires Penetrating(norm, a, b) && !(a.isFixed && b.isFixed)
    requires var k := (a.radius + b.radius) / norm(Delta(a, b));
      norm(Scale(Delta(a, b), k)) == k * norm(Delta(a, b))
    ensures norm(Delta(Resolve(norm, a, b).0, Resolve(norm, a, b).1)) == a.radius + b.radius
  {
    ResolveReachesContact(norm, a, b);
    var distance := norm(Delta(a, b));
    assert (a.radius + b.radius) / distance * distance == a.radius + b.radius;
  }

  /** The narrow-phase test and the resolver agree on the threshold: a pair that
      `CheckCollision` accepts and whose centres are at a non-zero distance is
      really pushed by `Resolve`. */
  lemma CheckCollisionMeansPenetrating(norm: Vector2 -> real, a: ParticleState, b: ParticleState)
    requires IsNorm(norm)
    requires CheckCollision(norm, a, b) && norm(Delta(a, b)) != 0.0
    ensures Penetrating(norm, a, b)
  {
    SubAntisymmetric(a.position, b.position);
    assert norm(Neg(Delta(a, b))) == norm(Delta(a, b));
  }

  /** A penetrating pair that is not doubly fixed and whose centres differ
      really separates: at least one centre moves. */
  lemma ResolveSeparates(norm: Vector2 -> real, a: ParticleState, b: ParticleState)
    requires IsNorm(norm)
    requires Penetrating(norm, a, b) && !(a.isFixed && b.isFixed) && Delta(a, b) != Zero
    ensures Resolve(norm, a, b).0.position != a.position || Resolve(norm, a, b).1.position != b.position
  {
    ResolveReachesContact(norm, a, b);
    var d := Delta(a, b);
    var distance := norm(d);
    var sum := a.radius + b.radius;
    assert 0.0 < distance < sum;
    DivGreaterThanOne(sum, distance);
    var d' := Scale(d, sum / distance);
    if d.x != 0.0 {
      assert d'.x != d.x;
    } else {
      assert d'.y != d.y;
    }
  }

  lemma DivAddOne(d: real, o: real)
    requires d != 0.0
    ensures (d + o) / d == 1.0 + o / d
  {
    var k := 1.0 / d;
    assert (d + o) / d == (d + o) * k;
    assert o / d == o * k;
    assert d * k == 1.0;
  }

  lemma DivGreaterThanOne(n: real, d: real)
    requires 0.0 < d < n
    ensures n / d > 1.0
  {
    var q := n / d;
    assert q * d == n;
  }

  /** The two-particle scenario: radius 5 at (100, 100) and (104, 100), zero
      velocity; each is pushed 3 units apart along the x axis. */
  lemma ResolveScenario(norm: Vector2 -> real)
    requires norm(Vector2(4.0, 0.0)) == 4.0
    ensures (var a := ParticleState(Vector2(100.0, 100.0), Vector2(100.0, 100.0), Zero, 5.0, false, 0.0);
             var b := ParticleState(Vector2(104.0, 100.0), Vector2(104.0, 100.0), Zero, 5.0, false, 0.0);
             Resolve(norm, a, b).0.position == Vector2(97.0, 100.0)
             && Resolve(norm, a, b).1.position == Vector2(107.0, 100.0))
  {
  }

  /** The engine's particle: fields updated in place by its methods. */
  class Particle {
    var position: Vector2
    var oldPosition: Vector2
    var acceleration: Vector2
    var radius: real
    var isFixed: bool
    var temperature: real

    /** All fields as one value. */
    function State(): (snapshot: ParticleState)
      reads this
    {
      ParticleState(position, oldPosition, acceleration, radius, isFixed, temperature)
    }

    /** A new particle rests at `pos`: old position equal to the position, no
        acceleration, so zero velocity. */
    constructor (pos: Vector2, radius: real, isFixed: bool)
      ensures State() == ParticleState(pos, pos, Zero, radius, isFixed, 0.0)
      ensures GetVelocity() == Zero
    {
      this.position := pos;
      this.oldPosition := pos;
      this.acceleration := Zero;
      this.radius := radius;
      this.isFixed := isFixed;
      this.temperature := 0.0;
    }

    function GetPosition(): (p: Vector2)
      reads this
      ensures p == State().position
    {
      position
    }

    /** The implicit velocity: the step from the old position to the
        current one. */
    function GetVelocity(): (v: Vector2)
      reads this
      ensures Add(oldPosition, v) == position
    {
      State().Velocity()
    }

    function GetRadius(): (r: real)
      reads this
      ensures r == State().radius
    {
      radius
    }

    function IsFixed(): (fixed: bool)
      reads this
      ensures fixed == State().isFixed
    {
      isFixed
    }

    /** Moves the particle to `pos` and stops it: the old position is set too. */
    method SetPosition(pos: Vector2)
      modifies this
      ensures position == pos && oldPosition == pos && GetVelocity() == Zero
      ensures acceleration == old(acceleration) && radius == old(radius)
      ensures isFixed == old(isFixed) && temperature == old(temperature)
    {
      position := pos;
      oldPosition := pos;
    }

    /** Sets the implicit velocity; the position does not move. */
    method SetVelocity(v: Vector2)
      modifies this
      ensures State() == old(State()).WithVelocity(v)
      ensures GetVelocity() == v && position == old(position)
    {
      oldPosition := Sub(position, v);
    }

    /** Moves the particle to `pos` while keeping its velocity. */
    method SetPositionWithSameVelocity(pos: Vector2)
      modifies this
      ensures position == pos && GetVelocity() == old(GetVelocity())
      ensures acceleration == old(acceleration) && radius == old(radius)
      ensures isFixed == old(isFixed) && temperature == old(temperature)
    {
      var velocity := GetVelocity();
      SetPosition(pos);
      SetVelocity(velocity);
    }

    /** Changes the fixed flag and nothing else. */
    method MakeFixed(fixed: bool := true)
      modifies this
      ensures State() == old(State()).(isFixed := fixed)
    {
      isFixed := fixed;
    }

    method Update(dt: real)
      modifies this
      ensures State() == Integrate(old(State()), dt)
    {
      if isFixed {
        return;
      }
      var velocity := Sub(position, oldPosition);
      oldPosition := position;
      position := Add(position, Add(velocity, Scale(acceleration, dt * dt)));
      acceleration := Zero;
    }

    method ApplyForce(force: Vector2)
      modifies this
      ensures State() == Force(old(State()), force)
    {
      if !isFixed {
        acceleration := Add(acceleration, force);
      }
    }

    /** The two particles are distinct objects, as at the engine's only call
        site; `norm` stands for `Vector2Length`. */
    static method ResolveCollision(norm: Vector2 -> real, first: Particle, second: Particle)
      requires first != second
      modifies first, second
      ensures first.State() == Resolve(norm, old(first.State()), old(second.State())).0
      ensures second.State() == Resolve(norm, old(first.State()), old(second.State())).1
    {
      ghost var a, b := first.State(), second.State();
      var delta := Sub(second.position, first.position);
      var distance := norm(delta);
      if distance == 0.0 {
        return;
      }
      var minPermissibleDistance := first.radius + second.radius;
      var overlap := minPermissibleDistance - distance;
      if overlap < Eps {
        return;
      }
      var collisionNormal := Scale(delta, 1.0 / distance);
      var positionChange := Scale(collisionNormal, if first.isFixed || second.isFixed then overlap else overlap * 0.5);
      assert positionChange == PositionChange(norm, a, b);
      assert Resolve(norm, a, b) == (if a.isFixed then a else Displaced(a, Sub(a.position, positionChange)),
                                     if b.isFixed then b else Displaced(b, Add(b.position, positionChange)));
      if !first.isFixed {
        first.MoveDamped(Sub(first.position, positionChange));
      }
      assert first.State() == Resolve(norm, a, b).0;
      if !second.isFixed {
        second.MoveDamped(Add(second.position, positionChange));
      }
    }

    /** What `ResolveCollision` does to a movable particle: move it to `pos`,
        then damp the velocity the move produced. */
    method MoveDamped(pos: Vector2)
      modifies this
      ensures State() == Displaced(old(State()), pos)
    {
      position := pos;
      var velocity := GetVelocity();
      SetVelocity(Scale(velocity, Dampening));
    }
  }
}
