/** Whole flights: the states reached under an arbitrary schedule of thruster losses, and what every one
    of them satisfies. */
module FlightRun {
  import opened Attitude
  import opened Flight
  import opened FlightThrust

  /** A flight: steps of dt from the initial state, the n-th of them with thruster loss schedule(n),
      and path(n) the state before it. */
  datatype Run = Run(config: Config, lib: Library, dt: real, schedule: nat -> bool, path: nat -> State)

  ghost predicate Fair(config: Config, lib: Library, dt: real) {
    Sensible(config) && Exact(lib) && dt > 0.0
  }

  ghost predicate StepsOn(r: Run, n: nat)
    requires Fair(r.config, r.lib, r.dt)
  {
    r.path(n).mass >= r.config.dryMass && r.path(n + 1) == Next(r.config, r.lib, r.path(n), r.dt, r.schedule(n))
  }

  ghost predicate IsRun(r: Run) {
    && Fair(r.config, r.lib, r.dt)
    && r.path(0) == Initial(r.config)
    && forall n: nat :: StepsOn(r, n)
  }

  function StateAt(config: Config, lib: Library, dt: real, schedule: nat -> bool, n: nat): (s: State)
    requires Fair(config, lib, dt)
    ensures s.mass >= config.dryMass
    decreases n
  {
    if n == 0 then Initial(config)
    else Next(config, lib, StateAt(config, lib, dt, schedule, n - 1), dt, schedule(n - 1))
  }

  /** Every configuration, step and schedule has a run. */
  lemma RunExists(config: Config, lib: Library, dt: real, schedule: nat -> bool) returns (r: Run)
    requires Fair(config, lib, dt)
    ensures IsRun(r) && r == Run(config, lib, dt, schedule, r.path)
  {
    r := Run(config, lib, dt, schedule,
             (n: nat) => if Fair(config, lib, dt) then StateAt(config, lib, dt, schedule, n) else Initial(config));
  }

  function Order(phase: Phase): nat {
    match phase
    case Prelaunch => 0
    case PoweredAscent => 1
    case Coast => 2
    case Descent => 3
    case LandingBurn => 4
    case Landed => 5
  }

  predicate InPoweredPhase(s: State) {
    s.phase.PoweredAscent? || s.phase.LandingBurn?
  }

  // The thrust vector of the powered step taken from s.
  function ThrustVector(c: Config, lib: Library, s: State, dt: real, loss: bool): Vector
    requires Sensible(c) && InPoweredPhase(s)
  {
    if s.phase.PoweredAscent? then AscentThrust(c, lib, BurnedMass(c, s.mass, dt), Available(c, loss))
    else LandingThrust(c, lib, s, loss)
  }

  // ---------- One step ----------

  // What a step does before it normalizes the orientation.
  lemma NextByPhase(c: Config, lib: Library, s: State, dt: real, loss: bool)
    requires Sensible(c) && Exact(lib) && s.mass >= c.dryMass && dt > 0.0
    ensures var t, b := Next(c, lib, s, dt, loss), Begun(s, dt);
      match s.phase
      case Prelaunch => var u := InPrelaunch(c, b); t == u.(orientation := Normalized(lib, u.orientation))
      case PoweredAscent =>
        var u := InAscent(c, lib, b, dt, loss);
        t == u.(orientation := Normalized(lib, u.orientation))
      case Coast => var u := InCoast(c, b, dt); t == u.(orientation := Normalized(lib, u.orientation))
      case Descent => var u := InDescent(c, b, dt, loss); t == u.(orientation := Normalized(lib, u.orientation))
      case LandingBurn =>
        var u := InLandingBurn(c, lib, b, dt, loss);
        t == u.(orientation := Normalized(lib, u.orientation))
      case Landed => t == s
  {}

  lemma AvailableIsWithinMaximum(c: Config, loss: bool)
    requires Sensible(c)
    ensures 0.0 <= Available(c, loss) <= c.maximumThrust
  {}

  lemma LandingThrustIgnoresTheClock(c: Config, lib: Library, s: State, dt: real, loss: bool)
    requires Sensible(c)
    ensures LandingThrust(c, lib, Begun(s, dt), loss) == LandingThrust(c, lib, s, loss)
  {}

  lemma ThrustIsAvailable(c: Config, lib: Library, s: State, dt: real, loss: bool)
    requires Sensible(c) && Exact(lib) && s.mass >= c.dryMass && InPoweredPhase(s)
    ensures var f := ThrustVector(c, lib, s, dt, loss);
      && 0.0 <= f.up && 0.0 <= Magnitude(lib, f) <= Available(c, loss)
      && (s.phase.PoweredAscent? ==> Magnitude(lib, f) == Available(c, loss))
  {
    var f := ThrustVector(c, lib, s, dt, loss);
    AvailableIsWithinMaximum(c, loss);
    MagnitudeSquared(lib, f);
    if s.phase.PoweredAscent? {
      AscentThrustIsWhole(c, lib, BurnedMass(c, s.mass, dt), Available(c, loss));
    } else {
      var k := LandingThrustSaturates(c, lib, s, loss);
    }
  }

  // The orientation a powered step computes, and the thrust it reports.
  lemma PoweredStep(c: Config, lib: Library, s: State, dt: real, loss: bool)
    requires Sensible(c) && Exact(lib) && s.mass >= c.dryMass && dt > 0.0 && InPoweredPhase(s)
    ensures var t, f := Next(c, lib, s, dt, loss), ThrustVector(c, lib, s, dt, loss);
      && t.orientation == Normalized(lib, Oriented(lib, s.orientation, f))
      && t.thrust == (if s.phase.PoweredAscent? then Available(c, loss)
                      else if t.phase.Landed? then 0.0 else Magnitude(lib, f))
      && (t.gimbal == Centred || (t.phase == s.phase && t.gimbal == Along(f)))
  {
    NextByPhase(c, lib, s, dt, loss);
    if s.phase.LandingBurn? { LandingThrustIgnoresTheClock(c, lib, s, dt, loss); }
  }

  /** A powered step turns the vehicle's axis exactly onto the thrust it applies (unless that thrust is
      negligible, when nothing turns), reports its length as thrust_n unless it touched down, and never
      asks the engine for more than it has; ascent asks for all of it. */
  lemma AlignedAfterPoweredStep(c: Config, lib: Library, s: State, dt: real, loss: bool)
    requires Sensible(c) && Exact(lib) && s.mass >= c.dryMass && dt > 0.0 && InPoweredPhase(s)
    requires Unit(s.orientation)
    ensures var t, f := Next(c, lib, s, dt, loss), ThrustVector(c, lib, s, dt, loss);
      var m := Magnitude(lib, f);
      && m <= Available(c, loss) && (s.phase.PoweredAscent? ==> m == Available(c, loss))
      && t.thrust == (if t.phase.Landed? then 0.0 else m)
      && (if m > EPSILON then Axis(t.orientation) == Direction(f, m) else t.orientation == s.orientation)
  {
    var f := ThrustVector(c, lib, s, dt, loss);
    ThrustIsAvailable(c, lib, s, dt, loss);
    PoweredStep(c, lib, s, dt, loss);
    OrientedAlongThrust(lib, s.orientation, f);
    NormalizedKeepsUnit(lib, Oriented(lib, s.orientation, f));
    NextPhase(c, lib, s, dt, loss);
  }

  /** Without thrust the attitude is held. */
  lemma HeldWithoutThrust(c: Config, lib: Library, s: State, dt: real, loss: bool)
    requires Sensible(c) && Exact(lib) && s.mass >= c.dryMass && !InPoweredPhase(s) && Unit(s.orientation)
    ensures Next(c, lib, s, dt, loss).orientation == s.orientation
  {
    NormalizedKeepsUnit(lib, s.orientation);
    if dt > 0.0 { NextByPhase(c, lib, s, dt, loss); }
  }

  /** A step stays in its phase or enters the one after it. */
  lemma NextPhase(c: Config, lib: Library, s: State, dt: real, loss: bool)
    requires Sensible(c) && Exact(lib) && s.mass >= c.dryMass
    ensures Order(s.phase) <= Order(Next(c, lib, s, dt, loss).phase) <= Order(s.phase) + 1
  {
    if dt > 0.0 { NextByPhase(c, lib, s, dt, loss); }
  }

  // ---------- Every reachable state ----------

  predicate Deflection(x: real) {
    -20.0 <= x <= 20.0
  }

  /** Mass between dry and initial; a unit attitude; thrust only from a powered phase, and within the
      engine's maximum (the step that cuts off is already in coast while it still reports its thrust);
      actuators at rest outside the phases that use them; and after touchdown nothing moves. */
  ghost predicate Sound(c: Config, lib: Library, s: State) {
    && c.dryMass <= s.mass <= c.initialMass
    && Unit(s.orientation)
    && 0.0 <= s.thrust <= c.maximumThrust
    && (s.thrust > 0.0 ==> InPoweredPhase(s) || (s.phase.Coast? && s.phaseTime == 0.0))
    && (s.gimbal.Along? ==>
          InPoweredPhase(s) && s.thrust == Magnitude(lib, s.gimbal.thrust) && s.gimbal.thrust.up >= 0.0)
    && (s.fins != (0.0, 0.0) ==> s.phase.Descent?) && Deflection(s.fins.0) && Deflection(s.fins.1)
    && (s.phase.Landed? ==> AtRest(s))
  }

  predicate AtRest(s: State) {
    s.position.up == 0.0 && s.velocity == ZERO && s.acceleration == ZERO && s.thrust == 0.0
  }

  lemma FinsAreLimited(a: real, limit: real)
    requires limit > 0.0 && -limit <= a <= limit
    ensures Deflection(a / limit * 20.0)
  {
    var q := a / limit;
    assert q * limit == a;
    assert -1.0 <= q <= 1.0;
  }

  lemma UnpoweredKeepsSound(c: Config, lib: Library, s: State, dt: real, loss: bool)
    requires Sensible(c) && Exact(lib) && Sound(c, lib, s) && dt > 0.0 && !InPoweredPhase(s)
    ensures Sound(c, lib, Next(c, lib, s, dt, loss))
  {
    NextByPhase(c, lib, s, dt, loss);
    HeldWithoutThrust(c, lib, s, dt, loss);
    if s.phase.Descent? {
      var b := Begun(s, dt);
      var limit := c.maximumGridFinAcceleration;
      FinsAreLimited(FinAcceleration(c, c.targetDownrange, b.position.east, b.velocity.east), limit);
      FinsAreLimited(FinAcceleration(c, c.targetCrossrange, b.position.north, b.velocity.north), limit);
    }
  }

  lemma PoweredKeepsSound(c: Config, lib: Library, s: State, dt: real, loss: bool)
    requires Sensible(c) && Exact(lib) && Sound(c, lib, s) && dt > 0.0 && InPoweredPhase(s)
    ensures Sound(c, lib, Next(c, lib, s, dt, loss))
  {
    var f := ThrustVector(c, lib, s, dt, loss);
    AvailableIsWithinMaximum(c, loss);
    ThrustIsAvailable(c, lib, s, dt, loss);
    PoweredStep(c, lib, s, dt, loss);
    NormalizedIsUnit(lib, Oriented(lib, s.orientation, f));
    PoweredStepEnds(c, lib, s, dt, loss);
  }

  lemma PoweredStepEnds(c: Config, lib: Library, s: State, dt: real, loss: bool)
    requires Sensible(c) && Exact(lib) && s.mass >= c.dryMass && dt > 0.0 && InPoweredPhase(s)
    ensures var t := Next(c, lib, s, dt, loss);
      && t.fins == (0.0, 0.0) && (t.phase == s.phase || t.phaseTime == 0.0)
      && (t.phase == s.phase || (s.phase.PoweredAscent? && t.phase.Coast?) || (t.phase.Landed? && AtRest(t)))
  {
    NextByPhase(c, lib, s, dt, loss);
  }

  /** Every state of every flight is sound, whatever the thruster-loss schedule. */
  lemma {:induction false} EveryStateIsSound(r: Run, n: nat)
    requires IsRun(r)
    ensures Sound(r.config, r.lib, r.path(n))
    decreases n
  {
    if n > 0 {
      EveryStateIsSound(r, n - 1);
      assert StepsOn(r, n - 1);
      if InPoweredPhase(r.path(n - 1)) {
        PoweredKeepsSound(r.config, r.lib, r.path(n - 1), r.dt, r.schedule(n - 1));
      } else {
        UnpoweredKeepsSound(r.config, r.lib, r.path(n - 1), r.dt, r.schedule(n - 1));
      }
    }
  }

  lemma PhaseAt(r: Run, n: nat)
    requires IsRun(r)
    ensures Order(r.path(n).phase) <= Order(r.path(n + 1).phase) <= Order(r.path(n).phase) + 1
    ensures r.path(n + 1).mass <= r.path(n).mass
  {
    assert StepsOn(r, n);
    NextPhase(r.config, r.lib, r.path(n), r.dt, r.schedule(n));
  }

  lemma Clock(c: Config, lib: Library, s: State, dt: real, loss: bool)
    requires Sensible(c) && Exact(lib) && s.mass >= c.dryMass && dt > 0.0 && !s.phase.Landed?
    ensures var t := Next(c, lib, s, dt, loss);
      t.time == s.time + dt && t.phaseTime == if t.phase == s.phase then s.phaseTime + dt else 0.0
  {
    NextByPhase(c, lib, s, dt, loss);
  }

  lemma ClockTicks(r: Run, n: nat)
    requires IsRun(r) && !r.path(n).phase.Landed?
    ensures r.path(n + 1).time == r.path(n).time + r.dt
    ensures r.path(n + 1).phaseTime
         == if r.path(n + 1).phase == r.path(n).phase then r.path(n).phaseTime + r.dt else 0.0
  {
    assert StepsOn(r, n);
    Clock(r.config, r.lib, r.path(n), r.dt, r.schedule(n));
  }

  /** Until a flight has landed its clock shows the steps taken. */
  lemma {:induction false} ClockCountsSteps(r: Run, n: nat)
    requires IsRun(r) && (n == 0 || !r.path(n - 1).phase.Landed?)
    ensures r.path(n).time == n as real * r.dt
    decreases n
  {
    if n > 0 {
      if n > 1 { PhaseAt(r, n - 2); }
      ClockCountsSteps(r, n - 1);
      ClockTicks(r, n - 1);
      assert n as real == (n - 1) as real + 1.0;
    }
  }

  /** Along a flight the mass never rises and the phase never goes back or skips one. */
  lemma {:induction false} MassFallsAndPhasesAdvance(r: Run, m: nat, n: nat)
    requires IsRun(r) && m <= n
    ensures r.path(n).mass <= r.path(m).mass
    ensures Order(r.path(m).phase) <= Order(r.path(n).phase) <= Order(r.path(m).phase) + (n - m)
    decreases n - m
  {
    if m < n {
      MassFallsAndPhasesAdvance(r, m, n - 1);
      PhaseAt(r, n - 1);
    }
  }
}
