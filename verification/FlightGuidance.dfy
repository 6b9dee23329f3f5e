/** Horizontal guidance: fins and landing thrust pull towards the target and lose energy each step. */
module FlightGuidance {
  import opened Attitude
  import opened Flight
  import opened FlightRun

  // Energy of a miss distance e and a velocity v under a spring of stiffness k.
  function Energy(k: real, e: real, v: real): real {
    k * (e * e) + v * v
  }

  // One step of an axis: the acceleration k e - d v, then the velocity, then the position.
  predicate GuidedTo(k: real, d: real, dt: real, e: real, v: real, e1: real, v1: real) {
    v1 == v + (e * k - v * d) * dt && e1 == e - v1 * dt
  }

  lemma SpringTerm(k: real, d: real, dt: real, e: real, v: real, v1: real)
    requires v1 == v + (e * k - v * d) * dt
    ensures k * (2.0 * (e * v1) * dt) == 2.0 * (v1 * v1) - 2.0 * ((1.0 - d * dt) * (v * v1))
  {
    var w := e * k * dt;
    assert (e * k - v * d) * dt == w - v * (d * dt);
    assert w == v1 - v * (1.0 - d * dt);
    assert k * (2.0 * (e * v1) * dt) == 2.0 * (w * v1);
    assert w * v1 == v1 * v1 - v * (1.0 - d * dt) * v1;
    assert v * (1.0 - d * dt) * v1 == (1.0 - d * dt) * (v * v1);
  }

  lemma MissTerm(k: real, dt: real, e: real, v1: real)
    ensures var e1 := e - v1 * dt;
      k * (e1 * e1) == k * (e * e) - k * (2.0 * (e * v1) * dt) + k * dt * dt * (v1 * v1)
  {
    var e1, x := e - v1 * dt, v1 * dt;
    assert e1 * e1 == e * e - 2.0 * (e * x) + x * x;
    assert e * x == (e * v1) * dt && x * x == dt * dt * (v1 * v1);
    Distribute(k, e * e, -(2.0 * (e * v1) * dt), dt * dt * (v1 * v1));
    assert k * -(2.0 * (e * v1) * dt) == -(k * (2.0 * (e * v1) * dt));
    assert k * (dt * dt * (v1 * v1)) == k * dt * dt * (v1 * v1);
  }

  lemma DampingTerm(q: real, v: real, v1: real)
    ensures v * v - 2.0 * (q * (v * v1)) + q * q * (v1 * v1) == (v - q * v1) * (v - q * v1)
  {
    var x := q * v1;
    assert (v - x) * (v - x) == v * v - 2.0 * (v * x) + x * x;
    assert v * x == q * (v * v1) && x * x == q * q * (v1 * v1);
  }

  /** What a step takes off the energy, exactly. */
  lemma EnergyLost(k: real, d: real, dt: real, e: real, v: real, e1: real, v1: real)
    requires GuidedTo(k, d, dt, e, v, e1, v1)
    ensures var q := 1.0 - d * dt;
      Energy(k, e, v) - Energy(k, e1, v1) == (v - q * v1) * (v - q * v1) + (1.0 - q * q - k * dt * dt) * (v1 * v1)
  {
    var q := 1.0 - d * dt;
    SpringTerm(k, d, dt, e, v, v1);
    MissTerm(k, dt, e, v1);
    DampingTerm(q, v, v1);
    Distribute(v1 * v1, 1.0, -(q * q), -(k * dt * dt));
    assert v1 * v1 * -(q * q) == -(q * q * (v1 * v1)) && v1 * v1 * -(k * dt * dt) == -(k * dt * dt * (v1 * v1));
  }

  lemma EnergyFalls(k: real, d: real, dt: real, q: real, e: real, v: real, e1: real, v1: real)
    requires GuidedTo(k, d, dt, e, v, e1, v1) && q == 1.0 - d * dt && 1.0 - q * q - k * dt * dt > 0.0
    ensures Energy(k, e1, v1) <= Energy(k, e, v)
    ensures v1 != 0.0 || v != 0.0 ==> Energy(k, e1, v1) < Energy(k, e, v)
  {
    var r := 1.0 - q * q - k * dt * dt;
    EnergyLost(k, d, dt, e, v, e1, v1);
    SumOfSquares(v - q * v1, r, v1);
    if v1 == 0.0 { assert q * v1 == 0.0; }
  }

  lemma SumOfSquares(x: real, r: real, y: real)
    requires r > 0.0
    ensures x * x + r * (y * y) >= 0.0
    ensures x != 0.0 || y != 0.0 ==> x * x + r * (y * y) > 0.0
  {
    var a, b := x * x, y * y;
    SquareSign(x, a);
    SquareSign(y, b);
    WeightedSum(a, r, b);
  }

  lemma SquareSign(x: real, a: real)
    requires a == x * x
    ensures a >= 0.0 && (x != 0.0 ==> a > 0.0)
  {
    if x == 0.0 {
      assert x * x == 0.0;
    } else {
      SameSignProduct(x, x, a);
    }
  }

  lemma SameSignProduct(x: real, y: real, a: real)
    requires a == x * y && ((x > 0.0 && y > 0.0) || (x < 0.0 && y < 0.0))
    ensures a > 0.0
  {}

  lemma WeightedSum(a: real, r: real, b: real)
    requires a >= 0.0 && r > 0.0 && b >= 0.0
    ensures a + r * b >= 0.0 && (a > 0.0 || b > 0.0 ==> a + r * b > 0.0)
  {
    if b > 0.0 { Positive(r, b); } else { assert r * b == 0.0; }
  }

  // ---------- The two guided phases ----------

  predicate Unclamped(command: real, limit: real) {
    -limit <= command <= limit
  }

  // The energy of each axis falls, or the axis is at rest before and after.
  ghost predicate Converges(k: real, c: Config, s: State, t: State) {
    && AxisConverges(k, c.targetDownrange - s.position.east, s.velocity.east,
                     c.targetDownrange - t.position.east, t.velocity.east)
    && AxisConverges(k, c.targetCrossrange - s.position.north, s.velocity.north,
                     c.targetCrossrange - t.position.north, t.velocity.north)
  }

  ghost predicate AxisConverges(k: real, e: real, v: real, e1: real, v1: real) {
    Energy(k, e1, v1) <= Energy(k, e, v) && (v != 0.0 || v1 != 0.0 ==> Energy(k, e1, v1) < Energy(k, e, v))
  }

  lemma AxisGuided(k: real, d: real, target: real, position: real, velocity: real, position1: real, velocity1: real)
    requires velocity1 == velocity + ((target - position) * k - velocity * d) * 0.01
    requires position1 == position + velocity1 * 0.01
    requires (k == 0.0008 && d == 0.018) || (k == 0.08 && d == 0.57)
    ensures AxisConverges(k, target - position, velocity, target - position1, velocity1)
  {
    EnergyFalls(k, d, 0.01, 1.0 - d * 0.01, target - position, velocity, target - position1, velocity1);
  }

  // What a descent step does to the horizontal axes while no fin is at its limit.
  lemma DescentAxes(c: Config, lib: Library, s: State, loss: bool)
    requires Sensible(c) && Exact(lib) && s.mass >= c.dryMass && s.phase.Descent?
    requires Unclamped((c.targetDownrange - s.position.east) * 0.0008 - s.velocity.east * 0.018,
                       c.maximumGridFinAcceleration)
    requires Unclamped((c.targetCrossrange - s.position.north) * 0.0008 - s.velocity.north * 0.018,
                       c.maximumGridFinAcceleration)
    ensures var t := Next(c, lib, s, FIXED_STEP, loss);
      && t.velocity.east
        == s.velocity.east + ((c.targetDownrange - s.position.east) * 0.0008 - s.velocity.east * 0.018) * 0.01
      && t.velocity.north
        == s.velocity.north + ((c.targetCrossrange - s.position.north) * 0.0008 - s.velocity.north * 0.018) * 0.01
      && t.position.east == s.position.east + t.velocity.east * 0.01
      && t.position.north == s.position.north + t.velocity.north * 0.01
  {
    NextByPhase(c, lib, s, FIXED_STEP, loss);
  }

  /** While no fin is at its limit, each descent step brings both horizontal axes closer to rest at the
      target, in energy. */
  lemma DescentConverges(c: Config, lib: Library, s: State, loss: bool)
    requires Sensible(c) && Exact(lib) && s.mass >= c.dryMass && s.phase.Descent?
    requires Unclamped((c.targetDownrange - s.position.east) * 0.0008 - s.velocity.east * 0.018,
                       c.maximumGridFinAcceleration)
    requires Unclamped((c.targetCrossrange - s.position.north) * 0.0008 - s.velocity.north * 0.018,
                       c.maximumGridFinAcceleration)
    ensures Converges(0.0008, c, s, Next(c, lib, s, FIXED_STEP, loss))
  {
    var t := Next(c, lib, s, FIXED_STEP, loss);
    DescentAxes(c, lib, s, loss);
    AxisGuided(0.0008, 0.018, c.targetDownrange, s.position.east, s.velocity.east, t.position.east, t.velocity.east);
    AxisGuided(0.0008, 0.018, c.targetCrossrange, s.position.north, s.velocity.north, t.position.north,
               t.velocity.north);
  }

  lemma MassCancels(mass: real, a: real)
    requires mass > 0.0
    ensures mass * a / mass == a
  {
    Cancel(mass, mass * a / mass, a);
  }

  lemma RequestedAcceleration(c: Config, mass: real, position: Vector, velocity: Vector)
    requires mass > 0.0
    ensures var a := Accelerated(RequestedThrust(c, mass, position, velocity), mass, c.gravity);
      && a.east == Steering(c.targetDownrange, position.east, velocity.east)
      && a.north == Steering(c.targetCrossrange, position.north, velocity.north)
  {
    MassCancels(mass, Steering(c.targetDownrange, position.east, velocity.east));
    MassCancels(mass, Steering(c.targetCrossrange, position.north, velocity.north));
  }

  // The horizontal axes after a landing-burn step short of touchdown.
  predicate Steered(c: Config, dt: real, s: State, t: State) {
    && t.velocity.east == s.velocity.east + Steering(c.targetDownrange, s.position.east, s.velocity.east) * dt
    && t.velocity.north == s.velocity.north + Steering(c.targetCrossrange, s.position.north, s.velocity.north) * dt
    && t.position.east == s.position.east + t.velocity.east * dt
    && t.position.north == s.position.north + t.velocity.north * dt
  }

  lemma UnsaturatedBurn(c: Config, lib: Library, s: State, dt: real, loss: bool)
    requires Sensible(c) && s.mass > 0.0 && s.phase.LandingBurn?
    requires Magnitude(lib, RequestedThrust(c, s.mass, s.position, s.velocity)) <= Available(c, loss)
    ensures var t := InLandingBurn(c, lib, s, dt, loss); t.phase.LandingBurn? ==> Steered(c, dt, s, t)
  {
    var f := LandingThrust(c, lib, s, loss);
    var a := Accelerated(f, s.mass, c.gravity);
    RequestedAcceleration(c, s.mass, s.position, s.velocity);
    SteeredBy(c, lib, s, f, a, dt);
    assert InLandingBurn(c, lib, s, dt, loss).phase.LandingBurn? ==>
      InLandingBurn(c, lib, s, dt, loss) == Powered(lib, s, f, a, dt).(thrust := Magnitude(lib, f));
  }

  lemma SteeredBy(c: Config, lib: Library, s: State, f: Vector, a: Vector, dt: real)
    requires a.east == Steering(c.targetDownrange, s.position.east, s.velocity.east)
    requires a.north == Steering(c.targetCrossrange, s.position.north, s.velocity.north)
    ensures Steered(c, dt, s, Powered(lib, s, f, a, dt))
  {}

  lemma SameAxes(c: Config, dt: real, s: State, b: State, t: State, u: State)
    requires Steered(c, dt, b, u) && b.position == s.position && b.velocity == s.velocity
    requires t.position == u.position && t.velocity == u.velocity
    ensures Steered(c, dt, s, t)
  {}

  // A landing-burn step while the thrust does not saturate.
  lemma BurnAxes(c: Config, lib: Library, s: State, loss: bool)
    requires Sensible(c) && Exact(lib) && s.mass >= c.dryMass && s.phase.LandingBurn?
    requires Magnitude(lib, RequestedThrust(c, s.mass, s.position, s.velocity)) <= Available(c, loss)
    ensures var t := Next(c, lib, s, FIXED_STEP, loss); t.phase.LandingBurn? ==> Steered(c, 0.01, s, t)
  {
    var b := Begun(s, FIXED_STEP);
    var u := InLandingBurn(c, lib, b, FIXED_STEP, loss);
    UnsaturatedBurn(c, lib, b, FIXED_STEP, loss);
    if u.phase.LandingBurn? {
      SameAxes(c, FIXED_STEP, s, b, u.(orientation := Normalized(lib, u.orientation)), u);
    }
  }

  /** While neither the commands nor the thrust saturate, each landing-burn step short of touchdown brings
      both horizontal axes closer to rest at the target, in energy. */
  lemma BurnConverges(c: Config, lib: Library, s: State, loss: bool)
    requires Sensible(c) && Exact(lib) && s.mass >= c.dryMass && s.phase.LandingBurn?
    requires Unclamped((c.targetDownrange - s.position.east) * 0.08 - s.velocity.east * 0.57, 4.0)
    requires Unclamped((c.targetCrossrange - s.position.north) * 0.08 - s.velocity.north * 0.57, 4.0)
    requires Magnitude(lib, RequestedThrust(c, s.mass, s.position, s.velocity)) <= Available(c, loss)
    ensures var t := Next(c, lib, s, FIXED_STEP, loss); t.phase.LandingBurn? ==> Converges(0.08, c, s, t)
  {
    var t := Next(c, lib, s, FIXED_STEP, loss);
    BurnAxes(c, lib, s, loss);
    if t.phase.LandingBurn? {
      AxisGuided(0.08, 0.57, c.targetDownrange, s.position.east, s.velocity.east, t.position.east, t.velocity.east);
      AxisGuided(0.08, 0.57, c.targetCrossrange, s.position.north, s.velocity.north, t.position.north,
                 t.velocity.north);
    }
  }
}
