/** What each moving phase does in one step, as equations between the accelerations, the engine's thrust and
    the state, and what they give over a whole ascent. */
module FlightForces {
  import opened Attitude
  import opened Flight
  import opened FlightEquations

  // ---------- Ascent ----------

  /** An ascent step. */
  lemma AscentByForces(c: Config, lib: Library, s: State, dt: real, loss: bool, t: State)
    requires Sensible(c) && Exact(lib) && s.mass >= c.dryMass && dt > 0.0 && s.phase.PoweredAscent?
    requires t == Next(c, lib, s, dt, loss)
    ensures AscentForces(c, s, dt, loss, t)
  {
    var m, p := BurnedMass(c, s.mass, dt), Engine(c, loss);
    var f := AscentThrust(c, lib, m, p);
    var a := Accelerated(f, m, c.gravity);
    AscentIs(c, lib, s, dt, loss, m, p, a, t);
    AscentThrustWhole(c, lib, m, p, f);
    ByForces(c, s, dt, loss, m, f, a, t);
  }

  /** It is the last one as soon as the ballistic apogee, the clock or the mass says so. */
  lemma CutoffExactlyWhen(c: Config, lib: Library, s: State, dt: real, loss: bool, t: State)
    requires Sensible(c) && Exact(lib) && s.mass >= c.dryMass && dt > 0.0 && s.phase.PoweredAscent?
    requires t == Next(c, lib, s, dt, loss)
    ensures t.phase == if 2.0 * c.gravity * t.position.up + t.velocity.up * t.velocity.up
                            >= 2.0 * c.gravity * c.targetApogee
                          || s.phaseTime + dt >= c.ascentBurnDuration || t.mass <= c.dryMass
                       then Coast else PoweredAscent
  {
    var m, p := BurnedMass(c, s.mass, dt), Engine(c, loss);
    AscentIs(c, lib, s, dt, loss, m, p, Accelerated(AscentThrust(c, lib, m, p), m, c.gravity), t);
    CutsPlainly(c, t, s.phaseTime + dt);
  }

  // ---------- Descent ----------

  /** A descent step falls freely while its fins steer. */
  lemma DescentByForces(c: Config, lib: Library, s: State, dt: real, loss: bool, t: State)
    requires Sensible(c) && Exact(lib) && s.mass >= c.dryMass && dt > 0.0 && s.phase.Descent?
    requires t == Next(c, lib, s, dt, loss)
    ensures DescentForces(c, s, dt, t)
  {
    var b := Steered(c, Begun(s, dt));
    var u := Moved(b, b.acceleration, dt);
    NextInDescent(c, lib, s, dt, loss, b, u, t);
    SteeredMoves(s, dt, b, b.acceleration, u, t);
    FinsSteer(c, s, dt, b);
    Falls(c, s, dt, b.acceleration, b.fins, t);
  }

  /** The default fins: towards 1000 m downrange and 200 m crossrange, by at most 0.35 m/s^2. */
  lemma DefaultFins(lib: Library, s: State, loss: bool, t: State)
    requires Exact(lib) && s.mass >= 15000.0 && s.phase.Descent? && t == Next(DEFAULT, lib, s, FIXED_STEP, loss)
    ensures Limited(t.acceleration.east, 0.0008 * (1000.0 - s.position.east) - 0.018 * s.velocity.east, 0.35)
    ensures Limited(t.acceleration.north, 0.0008 * (200.0 - s.position.north) - 0.018 * s.velocity.north, 0.35)
  {
    DescentByForces(DEFAULT, lib, s, FIXED_STEP, loss, t);
  }

  /** A falling descent ignites when full thrust could not hold the weight, or could not stop it within the
      altitude left over the margin. */
  lemma IgnitionExactlyWhen(c: Config, lib: Library, s: State, dt: real, loss: bool, t: State)
    requires Sensible(c) && Exact(lib) && s.mass >= c.dryMass && dt > 0.0 && s.phase.Descent?
    requires t == Next(c, lib, s, dt, loss)
    ensures t.phase == if t.velocity.up < 0.0
                          && (Engine(c, loss) <= s.mass * c.gravity
                              || 2.0 * (Engine(c, loss) / s.mass - c.gravity) * t.position.up
                                 <= c.landingBurnMargin * (t.velocity.up * t.velocity.up))
                       then LandingBurn else Descent
  {
    var b := Steered(c, Begun(s, dt));
    NextInDescent(c, lib, s, dt, loss, b, Moved(b, b.acceleration, dt), t);
    StartsExactlyWhen(c, t.mass, t.position.up, t.velocity.up, loss, Engine(c, loss) / t.mass - c.gravity);
  }

  // ---------- Landing burn ----------

  /** A step of the landing burn. */
  lemma BurnByForces(c: Config, lib: Library, s: State, dt: real, loss: bool, a: Vector, t: State)
    returns (b: Vector, k: real)
    requires Sensible(c) && Exact(lib) && s.mass >= c.dryMass && dt > 0.0 && s.phase.LandingBurn?
    requires Asked(c, s, a) && t == Next(c, lib, s, dt, loss)
    ensures Given(s.mass, c.gravity, Engine(c, loss), a, b, k)
    ensures Lands(dt, Dot(Forces(s.mass, c.gravity, b)), s, b, t)
  {
    var f := LandingThrust(c, lib, s, loss);
    b := Accelerated(f, s.mass, c.gravity);
    k := BurnGives(c, lib, s, loss, a, f, b);
    BurnLands(c, lib, s, dt, loss, f, b, t);
  }
}
