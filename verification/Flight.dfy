/** The simulator's flight model. Doubles are reals, so rounding is not modelled, and square roots come from
    a parameter that is required to be exact. */
module Flight {
  import opened Attitude

  datatype Phase = Prelaunch | PoweredAscent | Coast | Descent | LandingBurn | Landed

  datatype Config = Config(
    gravity: real, initialMass: real, dryMass: real, maximumThrust: real, ascentMassFlow: real,
    prelaunchDuration: real, ascentBurnDuration: real, landingBurnMargin: real,
    targetApogee: real, targetDownrange: real, targetCrossrange: real,
    ascentHorizontalAcceleration: real, ascentCrossrangeAcceleration: real, maximumGridFinAcceleration: real)

  const DEFAULT := Config(9.80665, 20000.0, 15000.0, 300000.0, 200.0, 2.0, 25.0, 1.15,
                          2400.0, 1000.0, 200.0, 1.05, 0.21, 0.35)

  const FIXED_STEP := 0.01

  // The angles atan2(east, up) and atan2(north, up) of a thrust vector, or zero.
  datatype Gimbal = Centred | Along(thrust: Vector)

  datatype State = State(
    phase: Phase, time: real, phaseTime: real, position: Vector, velocity: Vector, acceleration: Vector,
    mass: real, thrust: real, gimbal: Gimbal, fins: (real, real), orientation: Quaternion)

  // What the arithmetic of a step needs of a configuration.
  predicate Sensible(c: Config) {
    && c.gravity > 0.0 && 0.0 < c.dryMass <= c.initialMass
    && c.maximumThrust >= 0.0 && c.ascentMassFlow >= 0.0 && c.maximumGridFinAcceleration > 0.0
    && c.ascentHorizontalAcceleration >= 0.0 && c.ascentCrossrangeAcceleration >= 0.0
  }

  function Clamp(x: real, low: real, high: real): real {
    if x < low then low else if high < x then high else x
  }

  function Initial(c: Config): State {
    State(Prelaunch, 0.0, 0.0, ZERO, ZERO, ZERO, c.initialMass, 0.0, Centred, (0.0, 0.0), IDENTITY)
  }

  // ---------- One step as a function ----------

  function Available(c: Config, loss: bool): real {
    c.maximumThrust * (if loss then 0.6 else 1.0)
  }

  function Entered(s: State, next: Phase): State {
    s.(phase := next, phaseTime := 0.0,
       gimbal := if next != PoweredAscent && next != LandingBurn then Centred else s.gimbal,
       fins := if next != Descent then (0.0, 0.0) else s.fins)
  }

  predicate StartsBurn(c: Config, mass: real, altitude: real, velocity: real, loss: bool)
    requires mass > 0.0
  {
    if velocity >= 0.0 then false
    else
      var upward := Available(c, loss) / mass - c.gravity;
      if upward <= 0.0 then true
      else altitude <= velocity * velocity / (2.0 * upward) * c.landingBurnMargin
  }

  // Velocities first, then positions with the new velocities.
  function Moved(s: State, a: Vector, dt: real): State {
    var v := Vector(s.velocity.east + a.east * dt, s.velocity.north + a.north * dt, s.velocity.up + a.up * dt);
    s.(acceleration := a, velocity := v,
       position := Vector(s.position.east + v.east * dt, s.position.north + v.north * dt, s.position.up + v.up * dt))
  }

  function Accelerated(f: Vector, mass: real, gravity: real): Vector
    requires mass > 0.0
  {
    Vector(f.east / mass, f.north / mass, f.up / mass - gravity)
  }

  function Begun(s: State, dt: real): State {
    s.(time := s.time + dt, phaseTime := s.phaseTime + dt, thrust := 0.0,
       acceleration := Vector(0.0, 0.0, s.acceleration.up), gimbal := Centred, fins := (0.0, 0.0))
  }

  function InPrelaunch(c: Config, s: State): State {
    var t := s.(acceleration := s.acceleration.(up := 0.0));
    if t.phaseTime >= c.prelaunchDuration then Entered(t, PoweredAscent) else t
  }

  function BurnedMass(c: Config, mass: real, dt: real): real {
    mass - Max(0.0, Min(mass - c.dryMass, c.ascentMassFlow * dt))
  }

  function AscentThrust(c: Config, lib: Library, mass: real, thrust: real): Vector {
    var east := Min(mass * c.ascentHorizontalAcceleration, thrust * 0.25);
    var north := Min(mass * c.ascentCrossrangeAcceleration, thrust * 0.1);
    Vector(east, north, RemainingThrust(lib, thrust, east, north))
  }

  function RemainingThrust(lib: Library, thrust: real, east: real, north: real): real {
    lib.sqrt(Max(0.0, thrust * thrust - east * east - north * north))
  }

  function PredictedApogee(c: Config, s: State): real
    requires c.gravity > 0.0
  {
    s.position.up + s.velocity.up * s.velocity.up / (2.0 * c.gravity)
  }

  predicate CutsOff(c: Config, s: State)
    requires c.gravity > 0.0
  {
    PredictedApogee(c, s) >= c.targetApogee || s.phaseTime >= c.ascentBurnDuration || s.mass <= c.dryMass
  }

  // Motion under a thrust f that gives the acceleration a.
  function Powered(lib: Library, s: State, f: Vector, a: Vector, dt: real): State {
    var t := Moved(s.(gimbal := Along(f), acceleration := a), a, dt);
    t.(orientation := Oriented(lib, t.orientation, f))
  }

  function Ascended(c: Config, lib: Library, s: State, dt: real, loss: bool): State
    requires Sensible(c) && s.mass >= c.dryMass
  {
    var mass := BurnedMass(c, s.mass, dt);
    var f := AscentThrust(c, lib, mass, Available(c, loss));
    Powered(lib, s.(mass := mass, thrust := Available(c, loss)), f, Accelerated(f, mass, c.gravity), dt)
  }

  function InAscent(c: Config, lib: Library, s: State, dt: real, loss: bool): State
    requires Sensible(c) && s.mass >= c.dryMass
  {
    var t := Ascended(c, lib, s, dt, loss);
    if CutsOff(c, t) then Entered(t, Coast) else t
  }

  function InCoast(c: Config, s: State, dt: real): State {
    var t := Moved(s, Vector(0.0, 0.0, -c.gravity), dt);
    if t.velocity.up <= 0.0 then Entered(t, Descent) else t
  }

  function FinAcceleration(c: Config, target: real, position: real, velocity: real): real {
    Clamp((target - position) * 0.0008 - velocity * 0.018,
          -c.maximumGridFinAcceleration, c.maximumGridFinAcceleration)
  }

  // Grid fins steer; their deflection is at most 20 degrees.
  function Steered(c: Config, s: State): State
    requires Sensible(c)
  {
    var east := FinAcceleration(c, c.targetDownrange, s.position.east, s.velocity.east);
    var north := FinAcceleration(c, c.targetCrossrange, s.position.north, s.velocity.north);
    s.(acceleration := Vector(east, north, -c.gravity),
       fins := (east / c.maximumGridFinAcceleration * 20.0, north / c.maximumGridFinAcceleration * 20.0))
  }

  function InDescent(c: Config, s: State, dt: real, loss: bool): State
    requires Sensible(c) && s.mass > 0.0
  {
    var steered := Steered(c, s);
    var t := Moved(steered, steered.acceleration, dt);
    if StartsBurn(c, t.mass, t.position.up, t.velocity.up, loss) then Entered(t, LandingBurn) else t
  }

  // The upward acceleration that would null the descent over the remaining altitude, and 5% more.
  function Braking(altitude: real, velocity: real): real {
    if velocity < 0.0 then velocity * velocity / (2.0 * Max(altitude, 1.0)) * 1.05 else 0.0
  }

  function Steering(target: real, position: real, velocity: real): real {
    Clamp((target - position) * 0.08 - velocity * 0.57, -4.0, 4.0)
  }

  function RequestedThrust(c: Config, mass: real, position: Vector, velocity: Vector): Vector {
    Vector(mass * Steering(c.targetDownrange, position.east, velocity.east),
           mass * Steering(c.targetCrossrange, position.north, velocity.north),
           mass * (c.gravity + Braking(position.up, velocity.up)))
  }

  function Saturated(lib: Library, f: Vector, available: real): Vector
    requires available >= 0.0
  {
    var magnitude := Magnitude(lib, f);
    if magnitude > available then Scaled(f, available / magnitude) else f
  }

  function LandingThrust(c: Config, lib: Library, s: State, loss: bool): Vector
    requires Sensible(c)
  {
    Saturated(lib, RequestedThrust(c, s.mass, s.position, s.velocity), Available(c, loss))
  }

  function TouchedDown(s: State): State {
    Entered(s.(position := s.position.(up := 0.0), velocity := ZERO, acceleration := ZERO, thrust := 0.0), Landed)
  }

  function InLandingBurn(c: Config, lib: Library, s: State, dt: real, loss: bool): State
    requires Sensible(c) && s.mass > 0.0
  {
    var f := LandingThrust(c, lib, s, loss);
    var t := Powered(lib, s, f, Accelerated(f, s.mass, c.gravity), dt).(thrust := Magnitude(lib, f));
    if t.position.up <= 0.0 then TouchedDown(t) else t
  }

  /** FlightSimulation::step. */
  function Next(c: Config, lib: Library, s: State, dt: real, loss: bool): (t: State)
    requires Sensible(c) && Exact(lib) && s.mass >= c.dryMass
    ensures c.dryMass <= t.mass <= s.mass
  {
    if dt <= 0.0 || s.phase.Landed? then s
    else
      var b := Begun(s, dt);
      var t := match s.phase
        case Prelaunch => InPrelaunch(c, b)
        case PoweredAscent => InAscent(c, lib, b, dt, loss)
        case Coast => InCoast(c, b, dt)
        case Descent => InDescent(c, b, dt, loss)
        case LandingBurn => InLandingBurn(c, lib, b, dt, loss)
        case Landed => b;
      t.(orientation := Normalized(lib, t.orientation))
  }

  // ---------- The simulation object ----------

  class FlightSimulation {
    const config: Config
    var state: State
    var thrusterLoss: bool

    ghost predicate Valid()
      reads this
    {
      Sensible(config) && state.mass >= config.dryMass
    }

    constructor (config: Config)
      ensures this.config == config && state == Initial(config) && !thrusterLoss
      ensures Sensible(config) ==> Valid()
    {
      this.config := config;
      state := Initial(config);
      thrusterLoss := false;
    }

    method SetThrusterLoss(enabled: bool)
      modifies this`thrusterLoss
      ensures thrusterLoss == enabled
    {
      thrusterLoss := enabled;
    }

    method TransitionTo(next: Phase)
      modifies this`state
      ensures state == Entered(old(state), next)
    {
      state := state.(phase := next);
      state := state.(phaseTime := 0.0);
      if next != PoweredAscent && next != LandingBurn {
        state := state.(gimbal := Centred);
      }
      if next != Descent {
        state := state.(fins := (0.0, 0.0));
      }
    }

    predicate ShouldStartLandingBurn()
      requires state.mass > 0.0
      reads this
    {
      StartsBurn(config, state.mass, state.position.up, state.velocity.up, thrusterLoss)
    }

    method NormalizeOrientation(lib: Library)
      requires Exact(lib)
      modifies this`state
      ensures state == old(state).(orientation := Normalized(lib, old(state.orientation))) && Unit(state.orientation)
    {
      NormalizedIsUnit(lib, state.orientation);
      var q := state.orientation;
      var squares := Squares(q);
      if squares <= EPSILON {
        state := state.(orientation := IDENTITY);
        return;
      }
      assert SqrtAt(lib, squares) && lib.sqrt(squares) != 0.0;
      var inverse := 1.0 / lib.sqrt(squares);
      state := state.(orientation := Quaternion(q.w * inverse, q.x * inverse, q.y * inverse, q.z * inverse));
    }

    method UpdateOrientation(lib: Library, thrust: Vector)
      modifies this`state
      ensures state == old(state).(orientation := Oriented(lib, old(state.orientation), thrust))
      ensures Exact(lib) && thrust.up >= 0.0 && Magnitude(lib, thrust) > EPSILON ==>
        Unit(state.orientation) && Axis(state.orientation) == Direction(thrust, Magnitude(lib, thrust))
    {
      if Exact(lib) && thrust.up >= 0.0 { OrientedAlongThrust(lib, state.orientation, thrust); }
      var magnitude := Magnitude(lib, thrust);
      if magnitude <= EPSILON {
        return;
      }
      var east, north, up := thrust.east / magnitude, thrust.north / magnitude, thrust.up / magnitude;
      var scalar := lib.sqrt(Max(0.0, (1.0 + up) / 2.0));
      if scalar <= EPSILON {
        state := state.(orientation := Quaternion(0.0, 1.0, 0.0, 0.0));
      } else {
        state := state.(orientation := Quaternion(scalar, -north / (2.0 * scalar), east / (2.0 * scalar), 0.0));
      }
    }

    // The velocity and position updates that every moving phase ends with.
    method Integrate(dt: real)
      modifies this`state
      ensures state == Moved(old(state), old(state).acceleration, dt)
    {
      var a := state.acceleration;
      state := state.(velocity := state.velocity.(east := state.velocity.east + a.east * dt));
      state := state.(velocity := state.velocity.(north := state.velocity.north + a.north * dt));
      state := state.(velocity := state.velocity.(up := state.velocity.up + a.up * dt));
      state := state.(position := state.position.(east := state.position.east + state.velocity.east * dt));
      state := state.(position := state.position.(north := state.position.north + state.velocity.north * dt));
      state := state.(position := state.position.(up := state.position.up + state.velocity.up * dt));
    }

    // What both powered phases do with their thrust vector.
    method ApplyThrust(lib: Library, f: Vector, a: Vector, dt: real)
      modifies this`state
      ensures state == Powered(lib, old(state), f, a, dt)
    {
      state := state.(gimbal := Along(f));
      state := state.(acceleration := a);
      Integrate(dt);
      UpdateOrientation(lib, f);
    }

    method StepPrelaunch()
      modifies this`state
      ensures state == InPrelaunch(config, old(state))
    {
      state := state.(acceleration := state.acceleration.(up := 0.0));
      if state.phaseTime >= config.prelaunchDuration {
        TransitionTo(PoweredAscent);
      }
    }

    method Burn(dt: real)
      modifies this`state
      ensures state == old(state).(mass := BurnedMass(config, old(state.mass), dt))
    {
      var propellantAvailable := state.mass - config.dryMass;
      var propellantUsed := Min(propellantAvailable, config.ascentMassFlow * dt);
      state := state.(mass := state.mass - Max(0.0, propellantUsed));
    }

    method StepAscent(lib: Library, dt: real)
      requires Valid()
      modifies this`state
      ensures state == InAscent(config, lib, old(state), dt, thrusterLoss)
    {
      state := state.(thrust := Available(config, thrusterLoss));
      Burn(dt);
      var f := AscentThrust(config, lib, state.mass, state.thrust);
      ApplyThrust(lib, f, Accelerated(f, state.mass, config.gravity), dt);
      if CutsOff(config, state) {
        TransitionTo(Coast);
      }
    }

    method StepCoast(dt: real)
      requires state.acceleration.east == 0.0 && state.acceleration.north == 0.0
      modifies this`state
      ensures state == InCoast(config, old(state), dt)
    {
      state := state.(acceleration := state.acceleration.(up := -config.gravity));
      Integrate(dt);
      if state.velocity.up <= 0.0 {
        TransitionTo(Descent);
      }
    }

    method SteerFins()
      requires Sensible(config)
      modifies this`state
      ensures state == Steered(config, old(state))
    {
      var limit := config.maximumGridFinAcceleration;
      var east := FinAcceleration(config, config.targetDownrange, state.position.east, state.velocity.east);
      var north := FinAcceleration(config, config.targetCrossrange, state.position.north, state.velocity.north);
      state := state.(acceleration := Vector(east, north, -config.gravity));
      state := state.(fins := (east / limit * 20.0, north / limit * 20.0));
    }

    method StepDescent(dt: real)
      requires Valid()
      modifies this`state
      ensures state == InDescent(config, old(state), dt, thrusterLoss)
    {
      SteerFins();
      Integrate(dt);
      if ShouldStartLandingBurn() {
        TransitionTo(LandingBurn);
      }
    }

    method StepLandingBurn(lib: Library, dt: real)
      requires Valid()
      modifies this`state
      ensures state == InLandingBurn(config, lib, old(state), dt, thrusterLoss)
    {
      var f := RequestedThrust(config, state.mass, state.position, state.velocity);
      var maximum := Available(config, thrusterLoss);
      var requested := Magnitude(lib, f);
      if requested > maximum {
        f := Scaled(f, maximum / requested);
      }
      ApplyThrust(lib, f, Accelerated(f, state.mass, config.gravity), dt);
      state := state.(thrust := Magnitude(lib, f));
      if state.position.up <= 0.0 {
        state := state.(position := state.position.(up := 0.0));
        state := state.(velocity := ZERO, acceleration := ZERO, thrust := 0.0);
        TransitionTo(Landed);
      }
    }

    method Begin(dt: real)
      modifies this`state
      ensures state == Begun(old(state), dt)
    {
      state := state.(time := state.time + dt);
      state := state.(phaseTime := state.phaseTime + dt);
      state := state.(thrust := 0.0);
      state := state.(acceleration := state.acceleration.(east := 0.0, north := 0.0));
      state := state.(gimbal := Centred);
      state := state.(fins := (0.0, 0.0));
    }

    method Step(lib: Library, dt: real)
      requires Valid() && Exact(lib)
      modifies this`state
      ensures Valid() && state == Next(config, lib, old(state), dt, thrusterLoss)
    {
      if dt <= 0.0 || state.phase.Landed? {
        return;
      }
      Begin(dt);
      match state.phase {
        case Prelaunch => StepPrelaunch();
        case PoweredAscent => StepAscent(lib, dt);
        case Coast => StepCoast(dt);
        case Descent => StepDescent(dt);
        case LandingBurn => StepLandingBurn(lib, dt);
        case Landed =>
      }
      NormalizeOrientation(lib);
    }
  }
}
