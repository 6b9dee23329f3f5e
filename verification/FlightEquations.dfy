/** The equations between acceleration, thrust and state that a step of each moving phase satisfies, and how
    they come out of the step function piece by piece: the shares of an ascent's thrust, the fins of a descent,
    and the thrust of a landing burn as asked for and as given. */
module FlightEquations {
  import opened Attitude
  import opened Flight
  import opened FlightThrust

  // The thrust the engine has.
  function Engine(c: Config, loss: bool): real {
    if loss then 0.6 * c.maximumThrust else c.maximumThrust
  }

  // a is x where x is within the limit, and the limit on its side otherwise.
  predicate Limited(a: real, x: real, limit: real) {
    && (-limit <= x <= limit ==> a == x)
    && (x < -limit ==> a == -limit)
    && (x > limit ==> a == limit)
  }

  // Velocity first, then position with the new velocity.
  predicate Moves(dt: real, s: State, a: Vector, t: State) {
    && t.velocity.east == s.velocity.east + a.east * dt && t.position.east == s.position.east + t.velocity.east * dt
    && t.velocity.north == s.velocity.north + a.north * dt
    && t.position.north == s.position.north + t.velocity.north * dt
    && t.velocity.up == s.velocity.up + a.up * dt && t.position.up == s.position.up + t.velocity.up * dt
  }

  // The thrust that gives a mass this acceleration against gravity.
  function Forces(m: real, g: real, a: Vector): Vector {
    Vector(m * a.east, m * a.north, m * (g + a.up))
  }

  // ---------- Ascent ----------

  // An axis is given the acceleration asked for unless that is more than its share of the thrust.
  predicate Shared(m: real, a: real, asked: real, share: real) {
    if m * asked <= share then a == asked else m * a == share
  }

  /** Burning mass, downrange and crossrange accelerations, and the rest of the thrust upward. */
  predicate AscentForces(c: Config, s: State, dt: real, loss: bool, t: State) {
    var a, m, p := t.acceleration, t.mass, Engine(c, loss);
    && m == (if s.mass - c.ascentMassFlow * dt >= c.dryMass then s.mass - c.ascentMassFlow * dt else c.dryMass)
    && Shared(m, a.east, c.ascentHorizontalAcceleration, 0.25 * p)
    && Shared(m, a.north, c.ascentCrossrangeAcceleration, 0.1 * p)
    && a.up >= -c.gravity && Dot(Forces(m, c.gravity, a)) == p * p
    && t.thrust == p && Moves(dt, s, a, t)
  }

  // Motion under a thrust.
  predicate Pushed(dt: real, s: State, a: Vector, t: State) {
    && t.acceleration == a && Moves(dt, s, a, t)
    && t.mass == s.mass && t.thrust == s.thrust && t.phase == s.phase && t.phaseTime == s.phaseTime
  }

  lemma PoweredPushes(lib: Library, s: State, f: Vector, a: Vector, dt: real, t: State)
    requires t == Powered(lib, s, f, a, dt)
    ensures Pushed(dt, s, a, t)
  {}

  // The step before the test for cutoff, under an acceleration a.
  predicate Ascends(s: State, dt: real, m: real, p: real, a: Vector, t: State) {
    t.mass == m && t.thrust == p && t.acceleration == a && Moves(dt, s, a, t)
  }

  lemma AscendedIs(c: Config, lib: Library, s: State, dt: real, loss: bool, m: real, p: real, a: Vector, t: State)
    requires Sensible(c) && s.mass >= c.dryMass && m == BurnedMass(c, s.mass, dt) && p == Engine(c, loss)
    requires a == Accelerated(AscentThrust(c, lib, m, p), m, c.gravity) && t == Ascended(c, lib, s, dt, loss)
    ensures Ascends(s, dt, m, p, a, t) && t.phase == s.phase && t.phaseTime == s.phaseTime
  {
    assert Available(c, loss) == p;
    PoweredPushes(lib, s.(mass := m, thrust := p), AscentThrust(c, lib, m, p), a, dt, t);
  }

  predicate Cuts(c: Config, t: State, phaseTime: real)
    requires c.gravity > 0.0
  {
    PredictedApogee(c, t) >= c.targetApogee || phaseTime >= c.ascentBurnDuration || t.mass <= c.dryMass
  }

  lemma SameAscent(s: State, dt: real, m: real, p: real, a: Vector, b: State, t: State, u: State)
    requires Ascends(b, dt, m, p, a, u)
    requires b.position == s.position && b.velocity == s.velocity && b.mass == s.mass
    requires t.position == u.position && t.velocity == u.velocity && t.acceleration == u.acceleration
    requires t.mass == u.mass && t.thrust == u.thrust
    ensures Ascends(s, dt, m, p, a, t)
  {}

  lemma SameCut(c: Config, t: State, u: State)
    requires c.gravity > 0.0 && t.position == u.position && t.velocity == u.velocity && t.mass == u.mass
    ensures CutsOff(c, u) <==> Cuts(c, t, u.phaseTime)
  {}

  lemma AscentIs(c: Config, lib: Library, s: State, dt: real, loss: bool, m: real, p: real, a: Vector, t: State)
    requires Sensible(c) && Exact(lib) && s.mass >= c.dryMass && dt > 0.0 && s.phase.PoweredAscent?
    requires m == BurnedMass(c, s.mass, dt) && p == Engine(c, loss)
    requires a == Accelerated(AscentThrust(c, lib, m, p), m, c.gravity) && t == Next(c, lib, s, dt, loss)
    ensures Ascends(s, dt, m, p, a, t)
    ensures t.phase == if Cuts(c, t, s.phaseTime + dt) then Coast else PoweredAscent
  {
    var b := Begun(s, dt);
    var u := Ascended(c, lib, b, dt, loss);
    AscendedIs(c, lib, b, dt, loss, m, p, a, u);
    NextInAscent(c, lib, s, dt, loss, u);
    SameAscent(s, dt, m, p, a, b, t, u);
    SameCut(c, t, u);
  }

  lemma NextInAscent(c: Config, lib: Library, s: State, dt: real, loss: bool, u: State)
    requires Sensible(c) && Exact(lib) && s.mass >= c.dryMass && dt > 0.0 && s.phase.PoweredAscent?
    requires u == Ascended(c, lib, Begun(s, dt), dt, loss)
    ensures var v := if CutsOff(c, u) then Entered(u, Coast) else u;
      Next(c, lib, s, dt, loss) == v.(orientation := Normalized(lib, v.orientation))
  {}

  // A whole thrust, the horizontal parts as far as their shares go.
  predicate Whole(c: Config, m: real, p: real, f: Vector) {
    && f.east == Min(m * c.ascentHorizontalAcceleration, p * 0.25)
    && f.north == Min(m * c.ascentCrossrangeAcceleration, p * 0.1)
    && f.up >= 0.0 && Dot(f) == p * p
  }

  lemma AscentThrustWhole(c: Config, lib: Library, m: real, p: real, f: Vector)
    requires Sensible(c) && Exact(lib) && m > 0.0 && p >= 0.0 && f == AscentThrust(c, lib, m, p)
    ensures Whole(c, m, p, f)
  {
    AscentThrustIsWhole(c, lib, m, p);
    MagnitudeSquared(lib, f);
  }

  lemma ForcesAre(m: real, g: real, f: Vector, a: Vector)
    requires m > 0.0 && f.up >= 0.0 && a == Accelerated(f, m, g)
    ensures Forces(m, g, a) == f && a.up >= -g
  {
    Restored(m, f.east);
    Restored(m, f.north);
    UpShare(m, f.up, g);
  }

  lemma Restored(m: real, f: real)
    requires m > 0.0
    ensures m * (f / m) == f
  {}

  lemma SharesAre(c: Config, m: real, p: real, f: Vector, a: Vector)
    requires m > 0.0 && Whole(c, m, p, f) && a.east == f.east / m && a.north == f.north / m
    ensures Shared(m, a.east, c.ascentHorizontalAcceleration, 0.25 * p)
    ensures Shared(m, a.north, c.ascentCrossrangeAcceleration, 0.1 * p)
  {
    Share(m, c.ascentHorizontalAcceleration, p * 0.25, f.east);
    Share(m, c.ascentCrossrangeAcceleration, p * 0.1, f.north);
  }

  lemma BurnedTo(c: Config, mass: real, dt: real)
    requires Sensible(c) && mass >= c.dryMass && dt > 0.0
    ensures BurnedMass(c, mass, dt)
         == if mass - c.ascentMassFlow * dt >= c.dryMass then mass - c.ascentMassFlow * dt else c.dryMass
  {
    NonnegativeProduct(c.ascentMassFlow, dt);
  }

  lemma ByForces(c: Config, s: State, dt: real, loss: bool, m: real, f: Vector, a: Vector, t: State)
    requires Sensible(c) && s.mass >= c.dryMass && dt > 0.0 && m == BurnedMass(c, s.mass, dt)
    requires Whole(c, m, Engine(c, loss), f) && a == Accelerated(f, m, c.gravity)
    requires Ascends(s, dt, m, Engine(c, loss), a, t)
    ensures AscentForces(c, s, dt, loss, t)
  {
    BurnedTo(c, s.mass, dt);
    ForcesAre(m, c.gravity, f, a);
    SharesAre(c, m, Engine(c, loss), f, a);
  }

  lemma CutsPlainly(c: Config, t: State, phaseTime: real)
    requires c.gravity > 0.0
    ensures Cuts(c, t, phaseTime) <==>
      2.0 * c.gravity * t.position.up + t.velocity.up * t.velocity.up >= 2.0 * c.gravity * c.targetApogee
      || phaseTime >= c.ascentBurnDuration || t.mass <= c.dryMass
  {
    Predicted(c.gravity, t.position.up, t.velocity.up, c.targetApogee);
  }

  lemma Share(m: real, asked: real, share: real, f: real)
    requires m > 0.0 && f == Min(m * asked, share)
    ensures Shared(m, f / m, asked, share) && m * (f / m) == f
  {
    var a := f / m;
    assert m * a == f;
    if m * asked <= share { Cancel(m, a, asked); }
  }

  lemma UpShare(m: real, f: real, g: real)
    requires m > 0.0 && f >= 0.0
    ensures f / m - g >= -g && m * (g + (f / m - g)) == f
  {
    var q := f / m;
    assert m * q == f;
    if q < 0.0 { Positive(m, -q); }
  }

  lemma Predicted(g: real, h: real, v: real, target: real)
    requires g > 0.0
    ensures h + v * v / (2.0 * g) >= target <==> 2.0 * g * h + v * v >= 2.0 * g * target
  {
    var q := v * v / (2.0 * g);
    assert 2.0 * g * q == v * v;
    assert 2.0 * g * (h + q - target) == 2.0 * g * h + v * v - 2.0 * g * target;
    if h + q > target { Positive(2.0 * g, h + q - target); }
    if h + q < target { Positive(2.0 * g, target - h - q); }
  }

  // ---------- Descent ----------

  // Fins steer each horizontal axis within their limit; gravity does the rest.
  predicate FinForces(c: Config, s: State, a: Vector) {
    && Limited(a.east, 0.0008 * (c.targetDownrange - s.position.east) - 0.018 * s.velocity.east,
               c.maximumGridFinAcceleration)
    && Limited(a.north, 0.0008 * (c.targetCrossrange - s.position.north) - 0.018 * s.velocity.north,
               c.maximumGridFinAcceleration)
    && a.up == -c.gravity
  }

  // The limit deflects them by 20 degrees.
  predicate Deflected(limit: real, a: Vector, fins: (real, real)) {
    limit * fins.0 == 20.0 * a.east && limit * fins.1 == 20.0 * a.north
  }

  predicate DescentForces(c: Config, s: State, dt: real, t: State) {
    && FinForces(c, s, t.acceleration) && Moves(dt, s, t.acceleration, t)
    && t.mass == s.mass && t.thrust == 0.0
    && (t.phase.Descent? ==> Deflected(c.maximumGridFinAcceleration, t.acceleration, t.fins))
  }

  lemma ClampLimits(x: real, limit: real)
    requires limit >= 0.0
    ensures Limited(Clamp(x, -limit, limit), x, limit)
  {}

  lemma Deflects(a: real, limit: real)
    requires limit > 0.0
    ensures limit * (a / limit * 20.0) == 20.0 * a
  {
    Restored(limit, a);
  }

  lemma SteeredMoves(s: State, dt: real, b: State, a: Vector, u: State, t: State)
    requires b.position == s.position && b.velocity == s.velocity && b.acceleration == a && u == Moved(b, a, dt)
    requires t.position == u.position && t.velocity == u.velocity && t.acceleration == u.acceleration
    ensures t.acceleration == a && Moves(dt, s, a, t)
  {}

  lemma NextInDescent(c: Config, lib: Library, s: State, dt: real, loss: bool, b: State, u: State, t: State)
    requires Sensible(c) && Exact(lib) && s.mass >= c.dryMass && dt > 0.0 && s.phase.Descent?
    requires b == Steered(c, Begun(s, dt)) && u == Moved(b, b.acceleration, dt) && t == Next(c, lib, s, dt, loss)
    ensures t.position == u.position && t.velocity == u.velocity && t.acceleration == u.acceleration
    ensures t.mass == s.mass && t.thrust == 0.0 && (t.phase.Descent? ==> t.fins == b.fins)
    ensures t.phase == if StartsBurn(c, t.mass, t.position.up, t.velocity.up, loss) then LandingBurn else Descent
  {}

  lemma Falls(c: Config, s: State, dt: real, a: Vector, fins: (real, real), t: State)
    requires FinForces(c, s, a) && Deflected(c.maximumGridFinAcceleration, a, fins) && Moves(dt, s, a, t)
    requires t.acceleration == a && t.mass == s.mass && t.thrust == 0.0 && (t.phase.Descent? ==> t.fins == fins)
    ensures DescentForces(c, s, dt, t)
  {}

  lemma FinsSteer(c: Config, s: State, dt: real, b: State)
    requires Sensible(c) && b == Steered(c, Begun(s, dt))
    ensures FinForces(c, s, b.acceleration) && Deflected(c.maximumGridFinAcceleration, b.acceleration, b.fins)
  {
    var limit := c.maximumGridFinAcceleration;
    ClampLimits((c.targetDownrange - s.position.east) * 0.0008 - s.velocity.east * 0.018, limit);
    ClampLimits((c.targetCrossrange - s.position.north) * 0.0008 - s.velocity.north * 0.018, limit);
    Deflects(b.acceleration.east, limit);
    Deflects(b.acceleration.north, limit);
  }

  lemma StartsExactlyWhen(c: Config, mass: real, h: real, v: real, loss: bool, upward: real)
    requires mass > 0.0 && upward == Engine(c, loss) / mass - c.gravity
    ensures StartsBurn(c, mass, h, v, loss) <==>
      v < 0.0 && (Engine(c, loss) <= mass * c.gravity || 2.0 * upward * h <= c.landingBurnMargin * (v * v))
  {
    assert Available(c, loss) == Engine(c, loss);
    Weighs(mass, Engine(c, loss), c.gravity);
    if upward > 0.0 { StopsWithin(h, v * v, upward, c.landingBurnMargin); }
  }

  lemma Weighs(m: real, p: real, g: real)
    requires m > 0.0
    ensures p / m - g <= 0.0 <==> p <= m * g
  {
    var q := p / m;
    assert m * q == p;
    if q < g { Positive(m, g - q); }
    if q > g { Positive(m, q - g); }
  }

  lemma StopsWithin(h: real, squared: real, upward: real, margin: real)
    requires upward > 0.0
    ensures h <= squared / (2.0 * upward) * margin <==> 2.0 * upward * h <= margin * squared
  {
    var q := squared / (2.0 * upward);
    assert 2.0 * upward * q == squared;
    assert 2.0 * upward * (q * margin) == margin * squared;
    if h < q * margin { Positive(2.0 * upward, q * margin - h); }
    if h > q * margin { Positive(2.0 * upward, h - q * margin); }
  }

  // ---------- Landing burn ----------

  /** The acceleration that guidance asks for: towards the target on each horizontal axis, by at most
      4 m/s^2, and upward what would null the descent over the remaining altitude and 5% more. */
  predicate Asked(c: Config, s: State, a: Vector) {
    && Limited(a.east, 0.08 * (c.targetDownrange - s.position.east) - 0.57 * s.velocity.east, 4.0)
    && Limited(a.north, 0.08 * (c.targetCrossrange - s.position.north) - 0.57 * s.velocity.north, 4.0)
    && a.up * (2.0 * (if s.position.up < 1.0 then 1.0 else s.position.up))
       == (if s.velocity.up < 0.0 then 1.05 * (s.velocity.up * s.velocity.up) else 0.0)
  }

  /** The given acceleration b is the asked one where its thrust is available, and otherwise takes all the
      thrust there is in the direction of that thrust. */
  predicate Given(m: real, g: real, p: real, a: Vector, b: Vector, k: real) {
    && Forces(m, g, b) == Scaled(Forces(m, g, a), k)
    && if Dot(Forces(m, g, a)) <= p * p then b == a && k == 1.0
       else 0.0 <= k < 1.0 && Dot(Forces(m, g, b)) == p * p
  }

  // Motion under b until the ground is reached, under a thrust of the given length squared.
  predicate Lands(dt: real, squared: real, s: State, b: Vector, t: State) {
    if s.position.up + (s.velocity.up + b.up * dt) * dt <= 0.0 then
      && t.phase.Landed? && t.velocity == ZERO && t.acceleration == ZERO && t.thrust == 0.0
      && t.position == Vector(s.position.east + (s.velocity.east + b.east * dt) * dt,
                              s.position.north + (s.velocity.north + b.north * dt) * dt, 0.0)
    else
      && t.phase.LandingBurn? && t.acceleration == b && Moves(dt, s, b, t) && t.mass == s.mass
      && t.thrust >= 0.0 && t.thrust * t.thrust == squared
  }

  lemma LimitedIsClamp(a: real, x: real, y: real, limit: real)
    requires limit >= 0.0 && Limited(a, x, limit) && x == y
    ensures a == Clamp(y, -limit, limit)
  {}

  lemma AskedUp(s: State, up: real)
    requires up * (2.0 * (if s.position.up < 1.0 then 1.0 else s.position.up))
          == if s.velocity.up < 0.0 then 1.05 * (s.velocity.up * s.velocity.up) else 0.0
    ensures up == Braking(s.position.up, s.velocity.up)
  {
    var x := 2.0 * Max(s.position.up, 1.0);
    var squared := s.velocity.up * s.velocity.up;
    assert x * up == if s.velocity.up < 0.0 then 1.05 * squared else 0.0;
    Restored(x, squared);
    assert x * (squared / x * 1.05) == 1.05 * squared;
    assert x * 0.0 == 0.0;
    Cancel(x, up, Braking(s.position.up, s.velocity.up));
  }

  lemma RequestIsAsked(c: Config, s: State, a: Vector)
    requires Asked(c, s, a)
    ensures RequestedThrust(c, s.mass, s.position, s.velocity) == Forces(s.mass, c.gravity, a)
  {
    LimitedIsClamp(a.east, 0.08 * (c.targetDownrange - s.position.east) - 0.57 * s.velocity.east,
                   (c.targetDownrange - s.position.east) * 0.08 - s.velocity.east * 0.57, 4.0);
    LimitedIsClamp(a.north, 0.08 * (c.targetCrossrange - s.position.north) - 0.57 * s.velocity.north,
                   (c.targetCrossrange - s.position.north) * 0.08 - s.velocity.north * 0.57, 4.0);
    AskedUp(s, a.up);
  }

  lemma LengthsCompare(x: real, y: real)
    requires x >= 0.0 && y >= 0.0
    ensures x > y <==> x * x > y * y
  {
    if x > y { Larger(x, y); }
    if y > x { Larger(y, x); }
  }

  lemma SaturatedForces(lib: Library, w: Vector, p: real, f: Vector) returns (k: real)
    requires Exact(lib) && w.up >= 0.0 && p >= 0.0 && f == Saturated(lib, w, p)
    ensures f == Scaled(w, k) && f.up >= 0.0
    ensures if Dot(w) <= p * p then f == w && k == 1.0 else 0.0 <= k < 1.0 && Dot(f) == p * p
  {
    var length := Magnitude(lib, w);
    MagnitudeSquared(lib, w);
    LengthsCompare(length, p);
    if length > p {
      k := p / length;
      Shortened(lib, w, p);
      MagnitudeSquared(lib, f);
      assert length * k == p;
    } else {
      k := 1.0;
    }
  }

  // Position, velocity and thrust of a step are those of u unless it has reached the ground.
  predicate Ends(u: State, length: real, t: State) {
    if u.position.up <= 0.0 then
      && t.phase.Landed? && t.velocity == ZERO && t.acceleration == ZERO && t.thrust == 0.0
      && t.position == u.position.(up := 0.0)
    else
      && t.phase.LandingBurn? && t.acceleration == u.acceleration && t.velocity == u.velocity
      && t.position == u.position && t.mass == u.mass && t.thrust == length
  }

  lemma NextInBurn(c: Config, lib: Library, s: State, dt: real, loss: bool, f: Vector, b: Vector, u: State, t: State)
    requires Sensible(c) && Exact(lib) && s.mass >= c.dryMass && dt > 0.0 && s.phase.LandingBurn?
    requires f == LandingThrust(c, lib, s, loss) && b == Accelerated(f, s.mass, c.gravity)
    requires u == Powered(lib, Begun(s, dt), f, b, dt) && t == Next(c, lib, s, dt, loss)
    ensures Ends(u, Magnitude(lib, f), t)
  {}

  lemma Touches(dt: real, squared: real, length: real, s: State, w: State, b: Vector, u: State, t: State)
    requires w.position == s.position && w.velocity == s.velocity && w.mass == s.mass && Pushed(dt, w, b, u)
    requires Ends(u, length, t) && length >= 0.0 && length * length == squared
    ensures Lands(dt, squared, s, b, t)
  {}

  lemma BurnGives(c: Config, lib: Library, s: State, loss: bool, a: Vector, f: Vector, b: Vector) returns (k: real)
    requires Sensible(c) && Exact(lib) && s.mass > 0.0 && Asked(c, s, a)
    requires f == LandingThrust(c, lib, s, loss) && b == Accelerated(f, s.mass, c.gravity)
    ensures Given(s.mass, c.gravity, Engine(c, loss), a, b, k) && Forces(s.mass, c.gravity, b) == f
  {
    RequestIsAsked(c, s, a);
    RequestedUp(c, s.mass, s.position, s.velocity);
    assert Available(c, loss) == Engine(c, loss);
    k := SaturatedForces(lib, Forces(s.mass, c.gravity, a), Engine(c, loss), f);
    ForcesAre(s.mass, c.gravity, f, b);
    GivenBy(s.mass, c.gravity, Engine(c, loss), a, b, Forces(s.mass, c.gravity, a), f, k);
  }

  lemma GivenBy(m: real, g: real, p: real, a: Vector, b: Vector, w: Vector, f: Vector, k: real)
    requires m > 0.0 && Forces(m, g, a) == w && Forces(m, g, b) == f && f == Scaled(w, k)
    requires if Dot(w) <= p * p then f == w && k == 1.0 else 0.0 <= k < 1.0 && Dot(f) == p * p
    ensures Given(m, g, p, a, b, k)
  {
    if Dot(w) <= p * p { SameForces(m, g, a, b); }
  }

  lemma BurnLands(c: Config, lib: Library, s: State, dt: real, loss: bool, f: Vector, b: Vector, t: State)
    requires Sensible(c) && Exact(lib) && s.mass >= c.dryMass && dt > 0.0 && s.phase.LandingBurn?
    requires f == LandingThrust(c, lib, s, loss) && b == Accelerated(f, s.mass, c.gravity)
    requires t == Next(c, lib, s, dt, loss)
    ensures Lands(dt, Dot(f), s, b, t)
  {
    var u := Powered(lib, Begun(s, dt), f, b, dt);
    PoweredPushes(lib, Begun(s, dt), f, b, dt, u);
    NextInBurn(c, lib, s, dt, loss, f, b, u, t);
    MagnitudeSquared(lib, f);
    Touches(dt, Dot(f), Magnitude(lib, f), s, Begun(s, dt), b, u, t);
  }

  lemma SameForces(m: real, g: real, a: Vector, b: Vector)
    requires m > 0.0 && Forces(m, g, a) == Forces(m, g, b)
    ensures a == b
  {
    Cancel(m, a.east, b.east);
    Cancel(m, a.north, b.north);
    Cancel(m, g + a.up, g + b.up);
  }
}
