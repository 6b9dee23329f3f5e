/** Every step of a default flight makes progress: the bounds that each phase keeps, the speed that a landing
    burn never falls below, and a rank that falls by at least one with every step until the vehicle has
    landed, whichever thrust is lost. Accelerations and speeds are treated as plain arithmetic first. */
module FlightProgress {
  import opened Attitude
  import opened Flight
  import opened FlightThrust
  import opened FlightRun
  import opened FlightBallistics

  // ---------- The landing burn ----------

  // A landing-burn step under the upward acceleration a.
  predicate BurnsTo(dt: real, s: State, a: real, t: State) {
    var v := s.velocity.up + a * dt;
    var h := s.position.up + v * dt;
    && t.mass == s.mass
    && if h <= 0.0 then t.phase.Landed? else t.phase.LandingBurn? && t.velocity.up == v && t.position.up == h
  }

  lemma BurnedOrLanded(dt: real, s: State, t: State)
    requires t.velocity.up == s.velocity.up + t.acceleration.up * dt
    requires t.position.up == s.position.up + t.velocity.up * dt
    requires t.phase.LandingBurn? && t.mass == s.mass
    ensures BurnsTo(dt, s, t.acceleration.up, if t.position.up <= 0.0 then TouchedDown(t) else t)
  {}

  lemma InLandingBurnMoves(c: Config, lib: Library, s: State, dt: real, loss: bool)
    requires Sensible(c) && s.mass > 0.0 && s.phase.LandingBurn?
    ensures BurnsTo(dt, s, Accelerated(LandingThrust(c, lib, s, loss), s.mass, c.gravity).up,
                    InLandingBurn(c, lib, s, dt, loss))
  {
    var f := LandingThrust(c, lib, s, loss);
    var a := Accelerated(f, s.mass, c.gravity);
    PoweredMoves(lib, s, f, a, dt);
    var t := Powered(lib, s, f, a, dt).(thrust := Magnitude(lib, f));
    BurnedOrLanded(dt, s, t);
    assert InLandingBurn(c, lib, s, dt, loss) == if t.position.up <= 0.0 then TouchedDown(t) else t;
  }

  lemma SameBurn(dt: real, s: State, b: State, a: real, t: State, u: State)
    requires BurnsTo(dt, b, a, u) && b.position == s.position && b.velocity == s.velocity && b.mass == s.mass
    requires t.position == u.position && t.velocity == u.velocity && t.phase == u.phase && t.mass == u.mass
    ensures BurnsTo(dt, s, a, t)
  {}

  // The thrust f is within what guidance asks for and what the engine can give.
  predicate WithinLimits(f: real, mass: real, wanted: real, available: real, g: real) {
    0.0 <= f <= mass * (g + wanted) && f <= available
  }

  // So thrust over mass is.
  lemma AccelerationLimits(f: real, mass: real, wanted: real, available: real, g: real)
    requires mass > 0.0 && WithinLimits(f, mass, wanted, available, g)
    ensures -g <= f / mass - g <= wanted && f / mass <= available / mass
  {
    var q, p := f / mass, available / mass;
    assert mass * q == f && mass * p == available;
    if q > g + wanted { Stretch(mass, g + wanted, q); }
    if q > p { Stretch(mass, p, q); }
    if q < 0.0 { Stretch(mass, q, 0.0); }
  }

  lemma Stretch(m: real, a: real, b: real)
    requires m > 0.0 && a < b
    ensures m * a < m * b
  {
    Positive(m, b - a);
  }

  lemma NextInLandingBurn(c: Config, lib: Library, s: State, dt: real, loss: bool, u: State)
    requires Sensible(c) && Exact(lib) && s.mass >= c.dryMass && dt > 0.0 && s.phase.LandingBurn?
    requires u == InLandingBurn(c, lib, Begun(s, dt), dt, loss)
    ensures Next(c, lib, s, dt, loss) == u.(orientation := Normalized(lib, u.orientation))
  {}

  lemma LandingMoves(c: Config, lib: Library, s: State, dt: real, loss: bool, a: real, t: State)
    requires Sensible(c) && Exact(lib) && s.mass >= c.dryMass && dt > 0.0 && s.phase.LandingBurn?
    requires a == Accelerated(LandingThrust(c, lib, s, loss), s.mass, c.gravity).up
    requires t == Next(c, lib, s, dt, loss)
    ensures BurnsTo(dt, s, a, t)
  {
    var b := Begun(s, dt);
    var u := InLandingBurn(c, lib, b, dt, loss);
    NextInLandingBurn(c, lib, s, dt, loss, u);
    LandingThrustIgnoresTheClock(c, lib, s, dt, loss);
    assert Accelerated(LandingThrust(c, lib, b, loss), b.mass, c.gravity).up == a;
    InLandingBurnMoves(c, lib, b, dt, loss);
    SameBurn(dt, s, b, a, t, u);
  }

  lemma UpThrustLimits(c: Config, lib: Library, s: State, loss: bool, up: real, wanted: real)
    requires Sensible(c) && Exact(lib) && s.mass > 0.0
    requires up == LandingThrust(c, lib, s, loss).up && wanted == Braking(s.position.up, s.velocity.up)
    ensures WithinLimits(up, s.mass, wanted, c.maximumThrust, c.gravity)
  {
    var k := LandingThrustSaturates(c, lib, s, loss);
    UpIsAtMostMagnitude(lib, LandingThrust(c, lib, s, loss));
    AvailableIsWithinMaximum(c, loss);
  }

  lemma UpAccelerationLimits(c: Config, lib: Library, s: State, loss: bool, a: real, wanted: real)
    requires Sensible(c) && Exact(lib) && s.mass > 0.0
    requires a == Accelerated(LandingThrust(c, lib, s, loss), s.mass, c.gravity).up
    requires wanted == Braking(s.position.up, s.velocity.up)
    ensures -c.gravity <= a <= wanted && a <= c.maximumThrust / s.mass - c.gravity
  {
    var up := LandingThrust(c, lib, s, loss).up;
    UpThrustLimits(c, lib, s, loss, up, wanted);
    AccelerationLimits(up, s.mass, wanted, c.maximumThrust, c.gravity);
  }

  /** Whether requested or saturated, the thrust of a landing burn decelerates by no more than guidance
      asks for and no more than the engine allows. */
  lemma LandingStep(c: Config, lib: Library, s: State, dt: real, loss: bool) returns (a: real)
    requires Sensible(c) && Exact(lib) && s.mass >= c.dryMass && dt > 0.0 && s.phase.LandingBurn?
    ensures -c.gravity <= a <= Braking(s.position.up, s.velocity.up) && a <= c.maximumThrust / s.mass - c.gravity
    ensures BurnsTo(dt, s, a, Next(c, lib, s, dt, loss))
  {
    a := Accelerated(LandingThrust(c, lib, s, loss), s.mass, c.gravity).up;
    UpAccelerationLimits(c, lib, s, loss, a, Braking(s.position.up, s.velocity.up));
    LandingMoves(c, lib, s, dt, loss, a, Next(c, lib, s, dt, loss));
  }

  // ---------- Descent speed, as plain arithmetic ----------

  const STRONGEST := 10.2 // more than 300 kN / 15 t - g

  predicate Brakes(u: real, h: real, a: real) {
    a <= Braking(h, -u) && a <= STRONGEST
  }

  lemma BrakingOver(u: real, h: real, s: real)
    requires u > 0.0 && s == Max(h, 1.0)
    ensures Braking(h, -u) == 0.525 * (u * u / s)
  {
    assert (-u) * (-u) == u * u;
    var x, y := u * u / (2.0 * s), u * u / s;
    assert x * (2.0 * s) == u * u && y * s == u * u;
    assert s * (2.0 * x) == s * y;
    Cancel(s, 2.0 * x, y);
  }

  lemma QuotientAtMost(x: real, s: real, y: real)
    requires s > 0.0 && x <= s * y
    ensures x / s <= y
  {
    var q := x / s;
    assert s * q == x;
    if q > y { Stretch(s, y, q); }
  }

  lemma Scaling(x: real, a: real, b: real)
    requires x >= 0.0 && a <= b
    ensures x * a <= x * b
  {
    NonnegativeProduct(x, b - a);
  }

  lemma SquareOver(x: real, s: real, k: real)
    requires s > 0.0 && 0.0 <= x <= k * s
    ensures x * x / s <= k * x
  {
    Scaling(x, x, k * s);
    assert x * (k * s) == s * (k * x);
    QuotientAtMost(x * x, s, k * x);
  }

  lemma SquaresApart(u: real, w: real, s: real, k: real)
    requires s > 0.0 && 0.0 <= w <= u && u + w <= k * s
    ensures u * u / s - w * w / s <= k * (u - w)
  {
    assert u * u / s - w * w / s == (u * u - w * w) / s;
    assert u * u - w * w == (u - w) * (u + w);
    Scaling(u - w, u + w, k * s);
    assert (u - w) * (k * s) == s * (k * (u - w));
    QuotientAtMost(u * u - w * w, s, k * (u - w));
  }

  // x - 0.00525 x^2 / s grows with x up to 90 s.
  lemma SlowedSpeed(u: real, w: real, s: real, k: real)
    requires s >= 1.0 && 0.0 <= w <= u <= 90.0 * s && w <= k * s && 0.0 <= k <= 1.0
    ensures u - 0.00525 * (u * u / s) >= w - 0.00525 * (k * w)
  {
    SquareOver(w, s, k);
    assert k * s <= s by { Scaling(s, k, 1.0); }
    SquaresApart(u, w, s, 91.0);
  }

  // One step of 0.01 s under a brakes the descent without ending it.
  lemma StaysDescending(u: real, h: real, a: real)
    requires u > 0.0 && Brakes(u, h, a)
    ensures u - a * 0.01 > 0.0
  {
    var s := Max(h, 1.0);
    BrakingOver(u, h, s);
    if u <= 90.0 * s { SquareOver(u, s, 90.0); }
  }

  // A lower bound for the descent speed at an altitude: proportional to it down to a metre, then linear
  // to a positive value at the ground.
  function SpeedFloor(ratio: real, h: real): real {
    if h >= 1.0 then ratio * h else ratio * 0.5 * (0.5 + h)
  }

  // The products of a ratio with a speed w, with that again, and with what a step leaves of the speed.
  predicate Products(ratio: real, w: real, y: real, z: real, u1: real, x: real) {
    y == ratio * w && z == ratio * y && x == ratio * u1 && 0.0 <= y <= 0.1 * w && 0.0 <= z <= 0.1 * y
  }

  lemma ProductsOf(ratio: real, w: real, u1: real) returns (y: real, z: real, x: real)
    requires 0.0 < ratio <= 0.1 && w >= 0.0
    ensures Products(ratio, w, y, z, u1, x)
  {
    y, x := ratio * w, ratio * u1;
    z := ratio * y;
    NonnegativeProduct(ratio, w);
    NonnegativeProduct(ratio, y);
    Scaling(w, ratio, 0.1);
    Scaling(y, ratio, 0.1);
  }

  lemma FloorFallsAbove(ratio: real, h: real, w: real, y: real, z: real, u1: real, x: real, h1: real)
    requires ratio > 0.0 && h >= 1.0 && w == ratio * h && 0.0 <= y <= 0.1 * w && 0.0 <= z <= 0.1 * y
    requires u1 >= w - 0.00525 * y && x >= y - 0.00525 * z && ratio * h1 == w - 0.01 * x
    ensures u1 >= SpeedFloor(ratio, h1)
  {
    assert ratio <= w by { Scaling(ratio, 1.0, h); }
    FloorIs(ratio, h1, w - 0.01 * x);
  }

  lemma FloorIs(ratio: real, h: real, p: real)
    requires ratio * h == p
    ensures SpeedFloor(ratio, h) == if h >= 1.0 then p else 0.25 * ratio + 0.5 * p
  {
    Halved(ratio, h);
  }

  lemma FloorFallsBelow(ratio: real, h: real, p: real, w: real, y: real, z: real, u1: real, x: real, h1: real)
    requires ratio > 0.0 && p == ratio * h && h < 1.0 && w == 0.25 * ratio + 0.5 * p && w >= 0.0
    requires 0.0 <= y <= 0.1 * w && 0.0 <= z <= 0.1 * y
    requires u1 >= w - 0.0039375 * y && x >= y - 0.0039375 * z && ratio * h1 == p - 0.01 * x && h1 < 1.0
    ensures u1 >= SpeedFloor(ratio, h1)
  {
    FloorIs(ratio, h1, p - 0.01 * x);
  }

  lemma Halved(ratio: real, h: real)
    ensures ratio * 0.5 * (0.5 + h) == 0.25 * ratio + 0.5 * (ratio * h)
  {}

  lemma Reduced(ratio: real, u1: real, w: real, y: real, c: real)
    requires ratio > 0.0 && u1 >= w - c * y
    ensures ratio * u1 >= ratio * w - c * (ratio * y)
  {
    Scaling(ratio, w - c * y, u1);
    assert ratio * (w - c * y) == ratio * w - c * (ratio * y);
  }

  lemma Lowered(ratio: real, h: real, u1: real, h1: real, x: real)
    requires h1 == h - u1 * 0.01 && x == ratio * u1
    ensures ratio * h1 == ratio * h - 0.01 * x
  {
    assert ratio * (u1 * 0.01) == 0.01 * (ratio * u1);
  }

  // What a step leaves of a speed at the floor is above the floor for the altitude it leads to.
  lemma FloorFallsHigh(ratio: real, h: real, w: real, u1: real, h1: real)
    requires 0.0 < ratio <= 0.1 && h >= 1.0 && w == ratio * h && h1 == h - u1 * 0.01
    requires u1 >= w - 0.00525 * (ratio * w)
    ensures u1 >= SpeedFloor(ratio, h1)
  {
    Positive(ratio, h);
    var y, z, x := ProductsOf(ratio, w, u1);
    Lowered(ratio, h, u1, h1, x);
    Reduced(ratio, u1, w, y, 0.00525);
    FloorFallsAbove(ratio, h, w, y, z, u1, x, h1);
  }

  lemma FloorFallsLow(ratio: real, h: real, p: real, w: real, u1: real, h1: real)
    requires 0.0 < ratio <= 0.1 && 0.0 < h < 1.0 && p == ratio * h && p >= 0.0 && w == 0.25 * ratio + 0.5 * p
    requires h1 == h - u1 * 0.01 && u1 >= w - 0.0039375 * (ratio * w)
    ensures u1 >= SpeedFloor(ratio, h1)
  {
    var y, z, x := ProductsOf(ratio, w, u1);
    Lowered(ratio, h, u1, h1, x);
    Reduced(ratio, u1, w, y, 0.0039375);
    FloorFallsBelow(ratio, h, p, w, y, z, u1, x, h1);
  }

  lemma FloorFalls(ratio: real, h: real, w: real, k: real, u1: real, h1: real)
    requires 0.0 < ratio <= 0.1 && h > 0.0 && w == SpeedFloor(ratio, h) && h1 == h - u1 * 0.01
    requires k == (if h >= 1.0 then ratio else 0.75 * ratio) && u1 >= w - 0.00525 * (k * w)
    ensures u1 >= SpeedFloor(ratio, h1)
  {
    if h >= 1.0 {
      FloorFallsHigh(ratio, h, w, u1, h1);
    } else {
      Positive(ratio, h);
      Halved(ratio, h);
      assert k * w == 0.75 * (ratio * w);
      FloorFallsLow(ratio, h, ratio * h, w, u1, h1);
    }
  }

  // Faster than 90 times the altitude a step cannot take it below the floor.
  lemma FarAboveFloor(ratio: real, u1: real, s: real, h1: real)
    requires 0.0 < ratio <= 0.1 && s >= 1.0 && u1 >= 90.0 * s - 0.102 && h1 < s
    ensures u1 >= SpeedFloor(ratio, h1)
  {
    if h1 >= 1.0 { Scaling(h1, ratio, 0.1); } else if h1 >= 0.0 { Halved(ratio, h1); Scaling(h1, ratio, 0.1); }
    else { Halved(ratio, h1); NonnegativeProduct(ratio, -h1); assert ratio * -h1 == -(ratio * h1); }
  }

  lemma FloorIsPositive(ratio: real, h: real)
    requires ratio > 0.0 && h > 0.0
    ensures SpeedFloor(ratio, h) >= 0.25 * ratio
  {
    Halved(ratio, h);
    Positive(ratio, h);
    if h >= 1.0 { Scaling(ratio, 1.0, h); }
  }

  lemma FloorIsKept(ratio: real, u: real, h: real, a: real)
    requires 0.0 < ratio <= 0.1 && h > 0.0 && u >= SpeedFloor(ratio, h) && Brakes(u, h, a)
    ensures var u1 := u - a * 0.01; var h1 := h - u1 * 0.01;
      u1 > 0.0 && (h1 > 0.0 ==> u1 >= SpeedFloor(ratio, h1) >= 0.25 * ratio)
  {
    var s, w, u1 := Max(h, 1.0), SpeedFloor(ratio, h), u - a * 0.01;
    var h1 := h - u1 * 0.01;
    FloorIsPositive(ratio, h);
    StaysDescending(u, h, a);
    if h1 > 0.0 { FloorIsPositive(ratio, h1); }
    if u <= 90.0 * s {
      BrakingOver(u, h, s);
      FloorWithin(ratio, h, s, w);
      var k := if h >= 1.0 then ratio else 0.75 * ratio;
      SlowedSpeed(u, w, s, k);
      FloorFalls(ratio, h, w, k, u1, h1);
    } else {
      FarAboveFloor(ratio, u1, s, h1);
    }
  }

  lemma FloorWithin(ratio: real, h: real, s: real, w: real)
    requires ratio > 0.0 && h > 0.0 && s == Max(h, 1.0) && w == SpeedFloor(ratio, h)
    ensures w <= (if h >= 1.0 then ratio else 0.75 * ratio) * s
  {
    Halved(ratio, h);
    if h < 1.0 { Scaling(ratio, h, 1.0); }
  }

  // ---------- Bounds on every phase ----------

  const RATIO := 0.02 // of speed to altitude, per second, that no default landing burn falls below
  const LIMIT := 2406.0 // more than the target apogee and what a step can overshoot it by

  // Default flights stay within these bounds.
  predicate Bounded(s: State) {
    && 15000.0 <= s.mass <= 20000.0
    && match s.phase
       case Prelaunch => s.position.up == 0.0 && s.velocity.up == 0.0 && 0.0 <= s.phaseTime < 2.0
       case PoweredAscent =>
         && 0.0 <= s.phaseTime < 25.0 && s.mass <= Max(15000.0, 20000.0 - 200.0 * s.phaseTime)
         && PredictedApogee(DEFAULT, s) < 2400.0 && Climbed(s.position.up, s.velocity.up, s.phaseTime)
       case Coast => s.mass <= 17000.0 && -256.0 <= s.velocity.up <= 256.0 && PredictedApogee(DEFAULT, s) <= LIMIT
       case Descent => s.mass <= 17000.0 && -430.0 < s.velocity.up <= 0.0 && s.position.up <= LIMIT
       case LandingBurn =>
         s.velocity.up < 0.0 && s.position.up <= LIMIT && -s.velocity.up >= SpeedFloor(RATIO, s.position.up)
       case Landed => true
  }

  // How far an engine that accelerates by at most 10.2 m/s^2 can have come t seconds after lift-off.
  predicate Climbed(altitude: real, velocity: real, t: real) {
    altitude <= 5.1 * (t * t) + 0.06 * t && -10.2 * t <= velocity <= 10.2 * t
  }

  // How many steps a descent that keeps to the speed floor can take from an altitude.
  function StepsFrom(h: real): real {
    if h <= 0.0 then 0.0
    else if h < 1.0 then 22000.0 * h
    else if h < 10.0 then 22000.0 + 7500.0 * (h - 1.0)
    else if h < 100.0 then 89500.0 + 550.0 * (h - 10.0)
    else if h < 1000.0 then 139000.0 + 55.0 * (h - 100.0)
    else 188500.0 + 5.5 * (h - 1000.0)
  }

  const BURN_RANK := 196234.0
  const DESCENT_RANK := BURN_RANK + 4731.0
  const COAST_RANK := DESCENT_RANK + 2817.0
  const ASCENT_RANK := COAST_RANK + 2501.0
  const MAXIMUM_STEPS := 206484 // about 35 minutes of flight

  // How many more steps a flight can take.
  function Rank(s: State): real {
    match s.phase
    case Prelaunch => ASCENT_RANK + (2.0 - s.phaseTime) * 100.0 + 1.0
    case PoweredAscent => COAST_RANK + (25.0 - s.phaseTime) * 100.0 + 1.0
    case Coast => DESCENT_RANK + Max(0.0, s.velocity.up) * 11.0 + 1.0
    case Descent => BURN_RANK + (430.0 + s.velocity.up) * 11.0 + 1.0
    case LandingBurn => StepsFrom(s.position.up) + 1.0
    case Landed => 0.0
  }

  lemma StepsFromFalls(h: real, h1: real, u1: real)
    requires 0.0 < h1 == h - u1 * 0.01 && h <= LIMIT && u1 >= SpeedFloor(RATIO, h1)
    ensures StepsFrom(h1) <= StepsFrom(h) - 1.0
  {}

  ghost predicate Progress(s: State, t: State) {
    Bounded(t) && Rank(t) <= Rank(s) - 1.0
  }

  lemma RankIsNonnegative(s: State)
    requires Bounded(s)
    ensures 0.0 <= Rank(s) && (Rank(s) < 1.0 ==> s.phase.Landed?)
  {}

  lemma PrelaunchProgress(lib: Library, s: State, loss: bool)
    requires Exact(lib) && Bounded(s) && s.phase.Prelaunch?
    ensures Progress(s, Next(DEFAULT, lib, s, FIXED_STEP, loss))
  {
    NextByPhase(DEFAULT, lib, s, FIXED_STEP, loss);
  }

  // Altitude, velocity, phase time and mass after an ascent step.
  lemma AscentStepBounds(lib: Library, s: State, loss: bool)
    requires Exact(lib) && s.phase.PoweredAscent? && 15000.0 <= s.mass <= 20000.0
    ensures var t := Next(DEFAULT, lib, s, FIXED_STEP, loss);
      && AscendsTo(DEFAULT, FIXED_STEP, s, t)
      && -9.80665 <= t.acceleration.up <= STRONGEST
      && (if t.phase.PoweredAscent? then t.phaseTime == s.phaseTime + 0.01 < 25.0 else t.phase.Coast?)
      && 15000.0 <= t.mass <= Max(15000.0, s.mass - 2.0)
  {
    AscentStep(DEFAULT, lib, s, FIXED_STEP, loss);
    var t := Next(DEFAULT, lib, s, FIXED_STEP, loss);
    var f := AscentThrust(DEFAULT, lib, t.mass, Available(DEFAULT, loss));
    AscentClock(lib, s, loss);
    AscentThrustIsWhole(DEFAULT, lib, t.mass, Available(DEFAULT, loss));
    UpIsAtMostMagnitude(lib, f);
    UpwardLimit(f.up, t.mass);
  }

  lemma AscentClock(lib: Library, s: State, loss: bool)
    requires Exact(lib) && s.phase.PoweredAscent? && 15000.0 <= s.mass <= 20000.0
    ensures var t := Next(DEFAULT, lib, s, FIXED_STEP, loss);
      && t.acceleration == Accelerated(AscentThrust(DEFAULT, lib, t.mass, Available(DEFAULT, loss)), t.mass, 9.80665)
      && (if t.phase.PoweredAscent? then t.phaseTime == s.phaseTime + 0.01 < 25.0
          else
            && t.phase.Coast?
            && (PredictedApogee(DEFAULT, t) >= 2400.0 || s.phaseTime + 0.01 >= 25.0 || t.mass <= 15000.0))
      && t.mass == Max(15000.0, s.mass - 2.0)
  {
    NextByPhase(DEFAULT, lib, s, FIXED_STEP, loss);
  }

  lemma UpwardLimit(f: real, mass: real)
    requires 0.0 <= f <= 300000.0 && mass >= 15000.0
    ensures -9.80665 <= f / mass - 9.80665 <= STRONGEST
  {
    Quotient(f, mass);
    QuotientAtMost(f, mass, 20.0);
  }

  lemma ClimbsOn(h: real, v: real, t: real, a: real)
    requires 0.0 <= t <= 25.0 && Climbed(h, v, t) && -9.80665 <= a <= 10.2
    ensures var w := v + a * 0.01; Climbed(h + w * 0.01, w, t + 0.01) && -256.0 <= w <= 256.0
  {
    var t1 := t + 0.01;
    assert t1 * t1 == t * t + 0.02 * t + 0.0001;
  }

  // In the first 15 seconds the target apogee is out of reach.
  lemma TooEarly(h: real, v: real, t: real)
    requires 0.0 <= t <= 15.0 && Climbed(h, v, t)
    ensures h + v * v / 19.6133 < 2400.0
  {
    NonnegativeProduct(10.2 * t - v, 10.2 * t + v);
    assert (10.2 * t - v) * (10.2 * t + v) == 104.04 * (t * t) - v * v;
    NonnegativeProduct(15.0 - t, 15.0 + t);
    assert (15.0 - t) * (15.0 + t) == 225.0 - t * t;
    QuotientAtMost(v * v, 19.6133, 1195.0);
  }

  // A cut-off ascent has burned enough to be able to brake even under loss.
  lemma CutoffMass(phaseTime: real, mass: real, h: real, v: real, burned: real)
    requires 0.0 <= phaseTime <= 25.0 && Climbed(h, v, phaseTime + 0.01)
    requires mass <= Max(15000.0, 20000.0 - 200.0 * phaseTime) && burned <= Max(15000.0, mass - 2.0)
    requires h + v * v / 19.6133 >= 2400.0 || phaseTime + 0.01 >= 25.0 || burned <= 15000.0
    ensures burned <= 17000.0
  {
    if phaseTime + 0.01 <= 15.0 { TooEarly(h, v, phaseTime + 0.01); }
  }

  lemma CutoffState(s: State, t: State)
    requires Bounded(s) && s.phase.PoweredAscent? && t.phase.Coast? && AscendsTo(DEFAULT, FIXED_STEP, s, t)
    requires -9.80665 <= t.acceleration.up <= STRONGEST
    requires 15000.0 <= t.mass <= Max(15000.0, s.mass - 2.0)
    requires PredictedApogee(DEFAULT, t) >= 2400.0 || s.phaseTime + 0.01 >= 25.0 || t.mass <= 15000.0
    ensures Bounded(t)
  {
    ClimbsOn(s.position.up, s.velocity.up, s.phaseTime, t.acceleration.up);
    CutoffMass(s.phaseTime, s.mass, t.position.up, t.velocity.up, t.mass);
    GainIsGain(DEFAULT, s, t, 0.01);
    SmallGain(s, t);
  }

  lemma AscentProgress(lib: Library, s: State, loss: bool)
    requires Exact(lib) && Bounded(s) && s.phase.PoweredAscent?
    ensures Progress(s, Next(DEFAULT, lib, s, FIXED_STEP, loss))
  {
    var t := Next(DEFAULT, lib, s, FIXED_STEP, loss);
    AscentStepBounds(lib, s, loss);
    ClimbsOn(s.position.up, s.velocity.up, s.phaseTime, t.acceleration.up);
    if t.phase.Coast? {
      AscentClock(lib, s, loss);
      CutoffState(s, t);
    }
  }

  lemma CoastProgress(lib: Library, s: State, loss: bool)
    requires Exact(lib) && Bounded(s) && s.phase.Coast?
    ensures Progress(s, Next(DEFAULT, lib, s, FIXED_STEP, loss))
  {
    var t := Next(DEFAULT, lib, s, FIXED_STEP, loss);
    CoastStep(DEFAULT, lib, s, FIXED_STEP, loss);
    CoastStepLosesEnergy(9.80665, 0.01, s, t);
    AltitudeBelowPredicted(9.80665, t);
  }

  // A descent step, as seen by the vertical motion.
  predicate DescendsTo(dt: real, loss: bool, s: State, t: State)
    requires t.mass > 0.0
  {
    && t.velocity.up == s.velocity.up - 9.80665 * dt && t.position.up == s.position.up + t.velocity.up * dt
    && t.mass == s.mass
    && t.phase == if StartsBurn(DEFAULT, t.mass, t.position.up, t.velocity.up, loss) then LandingBurn else Descent
  }

  lemma DescentStep(lib: Library, s: State, loss: bool)
    requires Exact(lib) && s.phase.Descent? && 15000.0 <= s.mass <= 20000.0
    ensures DescendsTo(0.01, loss, s, Next(DEFAULT, lib, s, FIXED_STEP, loss))
  {
    NextByPhase(DEFAULT, lib, s, FIXED_STEP, loss);
  }

  // Falling at 430 m/s always starts the burn below the limit.
  lemma FastFallStartsBurn(mass: real, altitude: real, velocity: real, loss: bool)
    requires 15000.0 <= mass <= 20000.0 && altitude <= LIMIT && velocity <= -430.0
    ensures StartsBurn(DEFAULT, mass, altitude, velocity, loss)
  {
    var available := Available(DEFAULT, loss);
    var upward := available / mass - 9.80665;
    QuotientAtMost(available, mass, 20.0);
    assert upward <= STRONGEST;
    if upward > 0.0 {
      Scaling(-velocity, 430.0, -velocity);
      assert velocity * velocity == -velocity * -velocity >= 184900.0;
      AtLeast(velocity * velocity, 2.0 * upward, 20.4);
    }
  }

  lemma AtLeast(x: real, s: real, limit: real)
    requires 0.0 < s <= limit && x >= 184900.0 && limit == 20.4
    ensures x / s >= 9000.0
  {
    var q := x / s;
    assert s * q == x;
    if q < 9000.0 { Stretch(s, q, 9000.0); }
  }

  // At burn ignition the descent is fast enough for the altitude left.
  lemma IgnitionSpeed(mass: real, altitude: real, velocity: real, loss: bool)
    requires 15000.0 <= mass <= 17000.0 && altitude <= LIMIT && velocity <= -0.09
    requires StartsBurn(DEFAULT, mass, altitude, velocity, loss)
    ensures -velocity >= SpeedFloor(RATIO, altitude)
  {
    var available, u := Available(DEFAULT, loss), -velocity;
    var q := available / mass;
    assert mass * q == available >= 180000.0;
    if q < 10.58 { Stretch(mass, q, 10.58); }
    var upward := q - 9.80665;
    assert velocity * velocity == u * u;
    QuotientFalls(u * u, 1.54, 2.0 * upward);
    assert altitude <= u * u / 1.54 * 1.15 <= 0.75 * (u * u);
    if altitude >= 1.0 { FastEnough(altitude, u); }
  }

  lemma FastEnough(h: real, u: real)
    requires 1.0 <= h <= 2406.0 && u > 0.0 && h <= 0.75 * (u * u)
    ensures u >= 0.02 * h
  {
    var w := 0.02 * h;
    NonnegativeProduct(h, 2406.0 - h);
    assert h * (2406.0 - h) == 2406.0 * h - h * h;
    assert w * w == 0.0004 * (h * h);
    if w > u { Larger(w, u); }
  }

  lemma QuotientFalls(x: real, a: real, b: real)
    requires x >= 0.0 && 0.0 < a <= b
    ensures x / b <= x / a
  {
    var q := x / a;
    assert a * q == x;
    Quotient(x, a);
    Scaling(q, a, b);
    assert q * a == a * q && q * b == b * q;
    QuotientAtMost(x, b, q);
  }

  lemma DescentProgress(lib: Library, s: State, loss: bool)
    requires Exact(lib) && Bounded(s) && s.phase.Descent?
    ensures Progress(s, Next(DEFAULT, lib, s, FIXED_STEP, loss))
  {
    var t := Next(DEFAULT, lib, s, FIXED_STEP, loss);
    DescentStep(lib, s, loss);
    if t.velocity.up <= -430.0 { FastFallStartsBurn(t.mass, t.position.up, t.velocity.up, loss); }
    if t.phase.LandingBurn? { IgnitionSpeed(t.mass, t.position.up, t.velocity.up, loss); }
  }

  // A burn step from u downward at altitude h, in the default configuration.
  lemma BurnStepBounds(lib: Library, s: State, loss: bool) returns (a: real)
    requires Exact(lib) && s.phase.LandingBurn? && 15000.0 <= s.mass <= 20000.0 && s.velocity.up < 0.0
    ensures BurnsTo(0.01, s, a, Next(DEFAULT, lib, s, FIXED_STEP, loss)) && a >= -9.80665
    ensures Brakes(-s.velocity.up, s.position.up, a)
  {
    a := LandingStep(DEFAULT, lib, s, FIXED_STEP, loss);
    QuotientAtMost(300000.0, s.mass, 20.0);
  }

  lemma BurnProgress(lib: Library, s: State, loss: bool)
    requires Exact(lib) && Bounded(s) && s.phase.LandingBurn?
    ensures Progress(s, Next(DEFAULT, lib, s, FIXED_STEP, loss))
  {
    var a := BurnStepBounds(lib, s, loss);
    var u, h := -s.velocity.up, s.position.up;
    if h > 0.0 {
      FloorIsKept(RATIO, u, h, a);
      var h1 := h - (u - a * 0.01) * 0.01;
      if h1 > 0.0 { StepsFromFalls(h, h1, u - a * 0.01); }
    } else {
      StaysDescending(u, h, a);
    }
  }

  // ---------- Whole flights ----------

  ghost predicate IsDefaultRun(r: Run) {
    IsRun(r) && r.config == DEFAULT && r.dt == FIXED_STEP
  }

  lemma StepProgress(r: Run, n: nat)
    requires IsDefaultRun(r) && Bounded(r.path(n)) && !r.path(n).phase.Landed?
    ensures Progress(r.path(n), r.path(n + 1))
  {
    assert StepsOn(r, n);
    match r.path(n).phase
    case Prelaunch => PrelaunchProgress(r.lib, r.path(n), r.schedule(n));
    case PoweredAscent => AscentProgress(r.lib, r.path(n), r.schedule(n));
    case Coast => CoastProgress(r.lib, r.path(n), r.schedule(n));
    case Descent => DescentProgress(r.lib, r.path(n), r.schedule(n));
    case LandingBurn => BurnProgress(r.lib, r.path(n), r.schedule(n));
  }

  lemma LandedStays(r: Run, n: nat)
    requires IsRun(r) && r.path(n).phase.Landed?
    ensures r.path(n + 1) == r.path(n)
  {
    assert StepsOn(r, n);
    NextByPhase(r.config, r.lib, r.path(n), r.dt, r.schedule(n));
  }

  lemma {:induction false} EveryStateIsBounded(r: Run, n: nat)
    requires IsDefaultRun(r)
    ensures Bounded(r.path(n))
    decreases n
  {
    if n > 0 {
      EveryStateIsBounded(r, n - 1);
      if r.path(n - 1).phase.Landed? {
        LandedStays(r, n - 1);
      } else {
        StepProgress(r, n - 1);
      }
    }
  }

  lemma {:induction false} StaysLanded(r: Run, n: nat, m: nat)
    requires IsRun(r) && r.path(n).phase.Landed? && m >= n
    ensures r.path(m) == r.path(n)
    decreases m - n
  {
    if m > n {
      StaysLanded(r, n, m - 1);
      LandedStays(r, m - 1);
    }
  }

  // ---------- The apogee of a default flight ----------

  lemma FallingTerms(g: real, dt: real, v: real, w: real, a: real)
    requires g > 0.0 && dt > 0.0 && w == v + a * dt && w <= 0.0 && a >= -g
    ensures a * dt * (v + w) <= 2.0 * g * (dt * -w)
  {
    NonnegativeProduct(-w, g + a);
    assert -w * (g + a) == -(w * g) - a * w;
    SquareIsNonnegative(a);
    NonnegativeProduct(a * a, dt);
    assert a * (v + w) == 2.0 * (a * w) - a * a * dt by { assert v == w - a * dt; }
    Scaling(dt, a * (v + w), 2.0 * g * -w);
    assert a * dt * (v + w) == dt * (a * (v + w));
    assert dt * (2.0 * g * -w) == 2.0 * g * (dt * -w);
  }

  lemma FallingSum(g: real, dt: real, v: real, w: real, a: real)
    requires g > 0.0 && dt > 0.0 && w == v + a * dt && w <= 0.0 && a >= -g
    ensures w * dt + a * dt * (v + w) / (2.0 * g) <= 0.0
  {
    FallingTerms(g, dt, v, w, a);
    QuotientAtMost(a * dt * (v + w), 2.0 * g, dt * -w);
    assert dt * -w == -(w * dt);
  }

  // A step that ends falling gains no energy unless it pushes down harder than gravity pulls.
  lemma NoGainFalling(c: Config, dt: real, s: State, t: State)
    requires c.gravity > 0.0 && dt > 0.0 && t.velocity.up == s.velocity.up + t.acceleration.up * dt
    requires t.velocity.up <= 0.0 && t.acceleration.up >= -c.gravity
    ensures Gain(c, s, t, dt) <= 0.0
  {
    FallingSum(c.gravity, dt, s.velocity.up, t.velocity.up, t.acceleration.up);
  }

  lemma SmallProduct(a: real, sum: real)
    requires -9.80665 <= a <= 10.2 && -512.0 <= sum <= 512.0
    ensures a * sum <= 5230.0
  {
    if sum >= 0.0 {
      NonnegativeProduct(10.2 - a, sum);
      assert (10.2 - a) * sum == 10.2 * sum - a * sum;
    } else {
      NonnegativeProduct(a + 9.80665, -sum);
      assert (a + 9.80665) * -sum == -9.80665 * sum - a * sum;
    }
  }

  lemma SmallGain(s: State, t: State)
    requires -256.0 <= s.velocity.up <= 256.0 && -256.0 <= t.velocity.up <= 256.0
    requires -9.80665 <= t.acceleration.up <= STRONGEST
    ensures Gain(DEFAULT, s, t, 0.01) <= 5.3
  {
    var a, sum := t.acceleration.up, s.velocity.up + t.velocity.up;
    SmallProduct(a, sum);
    assert a * 0.01 * sum == 0.01 * (a * sum);
    QuotientAtMost(a * 0.01 * sum, 19.6133, 2.71);
  }

  // A cutoff by the apogee test leaves the vehicle rising, with at most 5.3 m to spare.
  lemma CutoffBand(r: Run, n: nat)
    requires IsDefaultRun(r) && r.path(n).phase.PoweredAscent?
    requires PredictedApogee(DEFAULT, r.path(n + 1)) >= 2400.0
    ensures r.path(n + 1).phase.Coast? && r.path(n + 1).velocity.up > 0.0
    ensures PredictedApogee(DEFAULT, r.path(n + 1)) < 2405.3
  {
    var s, t := r.path(n), r.path(n + 1);
    EveryStateIsBounded(r, n);
    EveryStateIsBounded(r, n + 1);
    assert StepsOn(r, n);
    AscentStepBounds(r.lib, s, r.schedule(n));
    RisingAtCutoff(s, t);
  }

  lemma RisingAtCutoff(s: State, t: State)
    requires Bounded(s) && Bounded(t) && s.phase.PoweredAscent? && AscendsTo(DEFAULT, FIXED_STEP, s, t)
    requires -9.80665 <= t.acceleration.up <= STRONGEST && PredictedApogee(DEFAULT, t) >= 2400.0
    requires t.phase.PoweredAscent? || t.phase.Coast?
    ensures t.phase.Coast? && t.velocity.up > 0.0 && PredictedApogee(DEFAULT, t) < 2405.3
  {
    GainIsGain(DEFAULT, s, t, 0.01);
    SmallGain(s, t);
    if t.velocity.up <= 0.0 { NoGainFalling(DEFAULT, 0.01, s, t); }
  }

  lemma RankFalls(r: Run, n: nat)
    requires IsDefaultRun(r) && !r.path(n).phase.Landed?
    ensures 0.0 <= Rank(r.path(n + 1)) <= Rank(r.path(n)) - 1.0 && StepsOn(r, n)
  {
    EveryStateIsBounded(r, n);
    StepProgress(r, n);
    RankIsNonnegative(r.path(n + 1));
    assert StepsOn(r, n);
  }
}
