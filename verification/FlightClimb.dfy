/** The climb of a default flight as sums over its loss schedule, with bounds on each of them, and what the
    fall after it keeps: single steps of the burn and of the descent, for the theorems about whole flights.
    How a burn follows the sums and what comes after it, up to the theorems. */
module FlightClimb {
  import opened Attitude
  import opened Flight
  import opened FlightThrust
  import opened FlightRun
  import opened FlightBallistics
  import opened FlightProgress

  const LIFT_OFF := 200 // prelaunch takes this many steps
  const BURN_STEPS := 2500

  // ---------- The burn as a function of the schedule ----------

  // The mass after k steps of burning.
  function MassAfter(k: nat): real {
    Max(15000.0, 20000.0 - 2.0 * k as real)
  }

  // The vertical acceleration of the k-th step of the burn.
  function Climb(lib: Library, k: nat, loss: bool): real {
    var mass := MassAfter(k + 1);
    AscentThrust(DEFAULT, lib, mass, Available(DEFAULT, loss)).up / mass - 9.80665
  }

  function BurnSpeed(lib: Library, schedule: nat -> bool, k: nat): real {
    if k == 0 then 0.0
    else BurnSpeed(lib, schedule, k - 1) + Climb(lib, k - 1, schedule(LIFT_OFF + k - 1)) * 0.01
  }

  // The height that k steps of burning under the schedule reach.
  function BurnHeight(lib: Library, schedule: nat -> bool, k: nat): real {
    if k == 0 then 0.0 else BurnHeight(lib, schedule, k - 1) + BurnSpeed(lib, schedule, k) * 0.01
  }

  ghost predicate NeverSinks(lib: Library, schedule: nat -> bool) {
    forall k: nat :: k <= BURN_STEPS ==> BurnHeight(lib, schedule, k) >= 0.0
  }

  ghost predicate AboveGround(r: Run) {
    forall n: nat :: r.path(n).position.up >= 0.0
  }

  // ---------- Bounds on the climb ----------

  lemma SmallSquare(a: real, b: real)
    requires 0.0 <= a <= b
    ensures a * a <= b * b
  {
    if a < b { Larger(b, a); }
  }

  // e and n are at most 1.05 and 0.21 m, so what is left upward is at least x m.
  lemma UpAtLeast(up: real, e: real, n: real, t: real, m: real, x: real, y: real)
    requires up >= 0.0 && 0.0 <= e <= 1.05 * m && 0.0 <= n <= 0.21 * m && m > 0.0
    requires e * e + n * n + up * up == t * t
    requires x > 0.0 && y > 0.0 && y * y >= x * x + 1.1466 && t >= y * m
    ensures up >= x * m
  {
    SmallSquare(e, 1.05 * m);
    SmallSquare(n, 0.21 * m);
    SmallSquare(y * m, t);
    var s := m * m;
    assert (1.05 * m) * (1.05 * m) == 1.1025 * s && (0.21 * m) * (0.21 * m) == 0.0441 * s;
    assert (y * m) * (y * m) == y * y * s && (x * m) * (x * m) == x * x * s;
    SquareIsNonnegative(m);
    Scaling(s, x * x + 1.1466, y * y);
    assert s * (x * x + 1.1466) == x * x * s + 1.1466 * s && s * (y * y) == y * y * s;
    if up < x * m { Larger(x * m, up); }
  }

  lemma AtLeastQuotient(f: real, m: real, x: real)
    requires m > 0.0 && f >= x * m
    ensures f / m >= x
  {
    var q := f / m;
    assert m * q == f;
    if q < x { Stretch(m, q, x); }
  }

  lemma ThrustParts(lib: Library, m: real, t: real)
    requires Exact(lib) && m > 0.0 && t >= 0.0
    ensures var f := AscentThrust(DEFAULT, lib, m, t);
      && f.up >= 0.0 && 0.0 <= f.east <= 1.05 * m && 0.0 <= f.north <= 0.21 * m
      && f.east * f.east + f.north * f.north + f.up * f.up == t * t
  {
    AscentThrustIsWhole(DEFAULT, lib, m, t);
    MagnitudeSquared(lib, AscentThrust(DEFAULT, lib, m, t));
  }

  lemma ClimbAtLeast(lib: Library, k: nat, loss: bool, x: real, y: real)
    requires Exact(lib) && x > 0.0 && y > 0.0 && y * y >= x * x + 1.1466
    requires Available(DEFAULT, loss) >= y * MassAfter(k + 1)
    ensures Climb(lib, k, loss) >= x - 9.80665
  {
    var m, t := MassAfter(k + 1), Available(DEFAULT, loss);
    var f := AscentThrust(DEFAULT, lib, m, t);
    ThrustParts(lib, m, t);
    UpAtLeast(f.up, f.east, f.north, t, m, x, y);
    AtLeastQuotient(f.up, m, x);
  }

  // What is left of the climb in the k-th step when thrust is lost, from below.
  function LeastClimb(k: nat): real {
    if k < 450 then -0.87665
    else if k < 900 then -0.45665
    else if k < 1500 then 0.02335
    else if k < 2000 then 0.71335
    else 1.38335
  }

  lemma ClimbIsAtLeast(lib: Library, k: nat, loss: bool)
    requires Exact(lib)
    ensures Climb(lib, k, loss) >= LeastClimb(k)
  {
    if k < 450 { ClimbAtLeast(lib, k, loss, 8.93, 9.0); }
    else if k < 900 { ClimbAtLeast(lib, k, loss, 9.35, 9.42); }
    else if k < 1500 { ClimbAtLeast(lib, k, loss, 9.83, 9.89); }
    else if k < 2000 { ClimbAtLeast(lib, k, loss, 10.52, 10.58); }
    else { ClimbAtLeast(lib, k, loss, 11.19, 11.25); }
  }

  lemma FullClimb(lib: Library, k: nat)
    requires Exact(lib)
    ensures Climb(lib, k, false) >= 5.09
  {
    ClimbAtLeast(lib, k, false, 14.9, 15.0);
  }

  // What k such steps leave of the speed.
  function LeastSpeed(k: nat): real {
    var x := k as real;
    if k <= 450 then -0.0087665 * x
    else if k <= 900 then -3.944925 - 0.0045665 * (x - 450.0)
    else if k <= 1500 then -5.99985 + 0.0002335 * (x - 900.0)
    else if k <= 2000 then -5.85975 + 0.0071335 * (x - 1500.0)
    else -2.293 + 0.0138335 * (x - 2000.0)
  }

  lemma {:induction false} SpeedGained(lib: Library, schedule: nat -> bool, m: nat, k: nat)
    requires Exact(lib) && m <= k
    ensures BurnSpeed(lib, schedule, k) - BurnSpeed(lib, schedule, m) >= LeastSpeed(k) - LeastSpeed(m)
    decreases k - m
  {
    if m < k {
      SpeedGained(lib, schedule, m, k - 1);
      ClimbIsAtLeast(lib, k - 1, schedule(LIFT_OFF + k - 1));
    }
  }

  // ---------- The burn of a run ----------

  lemma PrelaunchClock(lib: Library, s: State, loss: bool)
    requires Exact(lib) && s.mass >= 15000.0 && s.phase.Prelaunch?
    ensures var t := Next(DEFAULT, lib, s, FIXED_STEP, loss);
      && t.mass == s.mass && t.position == s.position && t.velocity == s.velocity
      && (if s.phaseTime + 0.01 >= 2.0 then t.phase.PoweredAscent? && t.phaseTime == 0.0
          else t.phase.Prelaunch? && t.phaseTime == s.phaseTime + 0.01)
  {
    NextByPhase(DEFAULT, lib, s, FIXED_STEP, loss);
  }

  // The vertical state k steps after lift-off, as long as the engine burned until then.
  ghost predicate Burned(r: Run, k: nat) {
    var s := r.path(LIFT_OFF + k);
    && s.mass == MassAfter(k)
    && s.velocity.up == BurnSpeed(r.lib, r.schedule, k) && s.position.up == BurnHeight(r.lib, r.schedule, k)
    && if s.phase.PoweredAscent? then s.phaseTime == k as real * 0.01
       else s.phase.Coast? && (PredictedApogee(DEFAULT, s) >= 2400.0 || k >= BURN_STEPS)
  }

  // The burn of one step, from the values before and after it.
  lemma OneMoreBurned(lib: Library, schedule: nat -> bool, k: nat, s: State, t: State)
    requires s.mass == MassAfter(k) && t.mass == Max(15000.0, s.mass - 2.0)
    requires s.velocity.up == BurnSpeed(lib, schedule, k) && s.position.up == BurnHeight(lib, schedule, k)
    requires t.acceleration.up
          == AscentThrust(DEFAULT, lib, t.mass, Available(DEFAULT, schedule(LIFT_OFF + k))).up / t.mass - 9.80665
    requires t.velocity.up == s.velocity.up + t.acceleration.up * 0.01
    requires t.position.up == s.position.up + t.velocity.up * 0.01
    ensures t.mass == MassAfter(k + 1)
    ensures t.velocity.up == BurnSpeed(lib, schedule, k + 1) && t.position.up == BurnHeight(lib, schedule, k + 1)
  {
    assert t.mass == MassAfter(k + 1);
    assert t.acceleration.up == Climb(lib, k, schedule(LIFT_OFF + k));
  }

  lemma BurnStep(r: Run, k: nat)
    requires IsDefaultRun(r) && Burned(r, k) && r.path(LIFT_OFF + k).phase.PoweredAscent?
    ensures Burned(r, k + 1)
  {
    var n := LIFT_OFF + k;
    assert StepsOn(r, n);
    EveryStateIsBounded(r, n);
    BurnStepFrom(r.lib, r.schedule, k, r.path(n), r.path(n + 1));
  }

  lemma BurnStepFrom(lib: Library, schedule: nat -> bool, k: nat, s: State, t: State)
    requires Exact(lib) && s.phase.PoweredAscent? && 15000.0 <= s.mass <= 20000.0
    requires t == Next(DEFAULT, lib, s, FIXED_STEP, schedule(LIFT_OFF + k))
    requires s.mass == MassAfter(k) && s.phaseTime == k as real * 0.01
    requires s.velocity.up == BurnSpeed(lib, schedule, k) && s.position.up == BurnHeight(lib, schedule, k)
    ensures t.mass == MassAfter(k + 1)
    ensures t.velocity.up == BurnSpeed(lib, schedule, k + 1) && t.position.up == BurnHeight(lib, schedule, k + 1)
    ensures if t.phase.PoweredAscent? then t.phaseTime == (k + 1) as real * 0.01
            else t.phase.Coast? && (PredictedApogee(DEFAULT, t) >= 2400.0 || k + 1 >= BURN_STEPS)
  {
    AscentStep(DEFAULT, lib, s, FIXED_STEP, schedule(LIFT_OFF + k));
    AscentClock(lib, s, schedule(LIFT_OFF + k));
    OneMoreBurned(lib, schedule, k, s, t);
  }

  ghost predicate Burning(r: Run, k: nat) {
    Burned(r, k) && r.path(LIFT_OFF + k).phase.PoweredAscent?
  }

  lemma {:induction false} BurnUntil(r: Run, k: nat) returns (end: nat)
    requires IsDefaultRun(r) && k <= BURN_STEPS && Burning(r, k)
    ensures k < end <= BURN_STEPS && r.path(LIFT_OFF + end).phase.Coast? && Burned(r, end)
    ensures forall j: nat :: k <= j < end ==> Burning(r, j)
    decreases BURN_STEPS - k
  {
    EveryStateIsBounded(r, LIFT_OFF + k);
    BurnStep(r, k);
    end := k + 1;
    if r.path(LIFT_OFF + end).phase.PoweredAscent? {
      EveryStateIsBounded(r, LIFT_OFF + end);
      end := BurnUntil(r, end);
    }
  }

  lemma NotBefore15(r: Run, end: nat)
    requires IsDefaultRun(r) && end > 0 && Burning(r, end - 1)
    requires PredictedApogee(DEFAULT, r.path(LIFT_OFF + end)) >= 2400.0
    ensures end > 1500
  {
    var n := LIFT_OFF + end - 1;
    assert StepsOn(r, n);
    EveryStateIsBounded(r, n);
    AscentStepBounds(r.lib, r.path(n), r.schedule(n));
    LateCutoff(r.path(n), r.path(n + 1));
  }

  lemma LateCutoff(s: State, t: State)
    requires 0.0 <= s.phaseTime < 25.0 && Climbed(s.position.up, s.velocity.up, s.phaseTime)
    requires t.velocity.up == s.velocity.up + t.acceleration.up * 0.01
    requires t.position.up == s.position.up + t.velocity.up * 0.01
    requires -9.80665 <= t.acceleration.up <= 10.2 && PredictedApogee(DEFAULT, t) >= 2400.0
    ensures s.phaseTime + 0.01 > 15.0
  {
    ClimbsOn(s.position.up, s.velocity.up, s.phaseTime, t.acceleration.up);
    if s.phaseTime + 0.01 <= 15.0 { TooEarly(t.position.up, t.velocity.up, s.phaseTime + 0.01); }
  }

  lemma FirstClimbUnderLoss(lib: Library)
    requires Exact(lib)
    ensures Climb(lib, 0, true) < 0.0
  {
    var m := MassAfter(1);
    var f := AscentThrust(DEFAULT, lib, m, 180000.0);
    AscentThrustIsWhole(DEFAULT, lib, m, 180000.0);
    UpIsAtMostMagnitude(lib, f);
    QuotientAtMost(f.up, m, 9.1);
  }

  // ---------- After the burn ----------

  lemma {:induction false} CoastUp(g: real, dt: real, path: nat -> State, m: nat, n: nat)
    requires g > 0.0 && dt > 0.0 && m <= n && Coasting(g, dt, path, m, n) && path(n).phase.Coast?
    requires path(m).velocity.up > 0.0
    ensures path(n).velocity.up > 0.0 && path(n).position.up >= path(m).position.up
    decreases n - m
  {
    if m < n {
      assert CoastRule(g, dt, path, n - 1);
      CoastUp(g, dt, path, m, n - 1);
      Positive(path(n).velocity.up, dt);
    }
  }

  // High enough for the speed that it cannot reach the ground in one step.
  predicate Clear(s: State) {
    var u := -s.velocity.up;
    match s.phase
    case Descent => u >= 0.0 && s.position.up >= 0.5 - u * u && s.position.up >= 0.05 * (u * u)
    case LandingBurn => s.position.up >= 0.0
    case Landed => s.position.up == 0.0
    case _ => false
  }

  // A descent that has not started its burn is high for its speed.
  lemma HighWithoutBurn(mass: real, altitude: real, velocity: real, loss: bool)
    requires 15000.0 <= mass <= 20000.0 && velocity < 0.0 && !StartsBurn(DEFAULT, mass, altitude, velocity, loss)
    ensures altitude >= 0.05 * (velocity * velocity)
  {
    var available := Available(DEFAULT, loss);
    var upward := available / mass - 9.80665;
    QuotientAtMost(available, mass, 20.0);
    SquareIsNonnegative(velocity);
    QuotientFalls(velocity * velocity, 2.0 * upward, 20.4);
  }

  lemma FallsClear(h: real, u: real)
    requires u >= 0.0 && h >= 0.5 - u * u && h >= 0.05 * (u * u)
    ensures var u1 := u + 0.0980665; var h1 := h - u1 * 0.01; h1 >= 0.5 - u1 * u1 && h1 >= 0.0
  {
    var u1 := u + 0.0980665;
    assert u1 * u1 == u * u + 0.196133 * u + 0.0980665 * 0.0980665;
    if u <= 0.4 {
      Scaling(u, u, 0.4);
    } else {
      Scaling(u, 0.4, u);
    }
  }

  lemma DescentClear(lib: Library, s: State, loss: bool)
    requires Exact(lib) && s.phase.Descent? && 15000.0 <= s.mass <= 20000.0 && Clear(s)
    ensures Clear(Next(DEFAULT, lib, s, FIXED_STEP, loss))
  {
    var t := Next(DEFAULT, lib, s, FIXED_STEP, loss);
    DescentStep(lib, s, loss);
    ClearAfter(s, t, -s.velocity.up, -t.velocity.up, loss);
  }

  lemma ClearAfter(s: State, t: State, u: real, u1: real, loss: bool)
    requires s.phase.Descent? && 15000.0 <= s.mass <= 20000.0 && Clear(s) && t.mass == s.mass
    requires DescendsTo(0.01, loss, s, t)
    requires u == -s.velocity.up && u1 == -t.velocity.up
    ensures Clear(t)
  {
    FallsClear(s.position.up, u);
    if t.phase.Descent? {
      HighWithoutBurn(t.mass, t.position.up, t.velocity.up, loss);
      assert u1 * u1 == t.velocity.up * t.velocity.up;
    }
  }

  lemma {:induction false} StaysClear(r: Run, m: nat, n: nat)
    requires IsDefaultRun(r) && m <= n && Clear(r.path(m))
    ensures Clear(r.path(n))
    decreases n - m
  {
    if m < n {
      StaysClear(r, m, n - 1);
      var s := r.path(n - 1);
      assert StepsOn(r, n - 1);
      EveryStateIsBounded(r, n - 1);
      match s.phase
      case Descent => DescentClear(r.lib, s, r.schedule(n - 1));
      case LandingBurn =>
        var a := BurnStepBounds(r.lib, s, r.schedule(n - 1));
        EveryStateIsSound(r, n);
      case Landed => LandedStays(r, n - 1);
    }
  }

  // From h at speed v0 upward, the altitude h1 at which the coast ends.
  lemma HighApogee(h: real, v0: real, h1: real, u: real)
    requires h >= 0.0 && 0.0 < v0 <= 256.0 && (h + v0 * v0 / 19.6133 >= 2400.0 || v0 >= 4.5)
    requires h1 > h + v0 * v0 / 19.6133 - v0 * 0.01 / 2.0 - 0.000980665 && 0.0 <= u <= 0.1
    ensures h1 >= 0.5 - u * u && h1 >= 0.05 * (u * u)
  {
    SquareIsNonnegative(u);
    SmallSquare(u, 0.1);
    if v0 >= 4.5 {
      Scaling(v0, 4.5, v0);
      assert v0 * v0 >= 0.2294 * v0 * 19.6133;
      AtLeastQuotient(v0 * v0, 19.6133, 0.2294 * v0);
    }
  }

  // The apogee leaves room for the descent.
  lemma ApogeeIsClear(r: Run, m: nat) returns (n: nat)
    requires IsDefaultRun(r) && r.path(m).phase.Coast? && r.path(m).velocity.up > 0.0 && r.path(m).position.up >= 0.0
    requires PredictedApogee(DEFAULT, r.path(m)) >= 2400.0 || r.path(m).velocity.up >= 4.5
    ensures m < n && Coasting(9.80665, 0.01, r.path, m, n) && Clear(r.path(n))
  {
    EveryStateIsBounded(r, m);
    n := CoastEnds(r, m, 9.80665 * 0.01);
    ApogeeReached(9.80665, 0.01, r.path, m, n);
    assert CoastRule(9.80665, 0.01, r.path, n - 1);
    HighApogee(r.path(m).position.up, r.path(m).velocity.up, r.path(n).position.up, -r.path(n).velocity.up);
  }

  // ---------- Above ground ----------

  lemma {:induction false} KeepsClimbing(lib: Library, schedule: nat -> bool, m: nat, k: nat)
    requires Exact(lib) && 900 <= m <= k && BurnSpeed(lib, schedule, m) >= 0.0 && BurnHeight(lib, schedule, m) >= 0.0
    ensures BurnSpeed(lib, schedule, k) >= 0.0 && BurnHeight(lib, schedule, k) >= 0.0
    decreases k - m
  {
    if m < k {
      KeepsClimbing(lib, schedule, m, k - 1);
      ClimbIsAtLeast(lib, k - 1, schedule(LIFT_OFF + k - 1));
    }
  }

  lemma AboveGroundBurns(r: Run, end: nat, k: nat)
    requires IsDefaultRun(r) && AboveGround(r) && 1500 < end <= BURN_STEPS
    requires Burned(r, end) && (forall j: nat :: j < end ==> Burning(r, j)) && r.path(LIFT_OFF + end).velocity.up > 0.0
    ensures BurnHeight(r.lib, r.schedule, k) >= 0.0
  {
    if k < end {
      assert Burning(r, k);
    } else {
      KeepsClimbing(r.lib, r.schedule, end, k);
    }
  }

  lemma AfterBurnAboveGround(r: Run, m: nat, apogee: nat, n: nat)
    requires IsDefaultRun(r) && m < apogee && Coasting(9.80665, 0.01, r.path, m, apogee) && Clear(r.path(apogee))
    requires r.path(m).velocity.up > 0.0 && r.path(m).position.up >= 0.0 && m <= n
    ensures r.path(n).position.up >= 0.0
  {
    if n < apogee {
      assert CoastRule(9.80665, 0.01, r.path, n);
      CoastUp(9.80665, 0.01, r.path, m, n);
    } else {
      StaysClear(r, apogee, n);
      SquareIsNonnegative(-r.path(n).velocity.up);
    }
  }

  // ---------- Schedules that do stay above ground ----------

  const SAFE_STEPS := 120

  ghost predicate FullThrust(schedule: nat -> bool, k: nat) {
    forall n: nat :: LIFT_OFF <= n < LIFT_OFF + k ==> !schedule(n)
  }

  lemma {:induction false} FullThrustSpeed(lib: Library, schedule: nat -> bool, k: nat)
    requires Exact(lib) && FullThrust(schedule, k)
    ensures BurnSpeed(lib, schedule, k) >= 0.0509 * k as real
    decreases k
  {
    if k > 0 {
      FullThrustSpeed(lib, schedule, k - 1);
      FullClimb(lib, k - 1);
    }
  }

  lemma SpeedStaysUp(lib: Library, schedule: nat -> bool, k: nat)
    requires Exact(lib) && FullThrust(schedule, SAFE_STEPS)
    ensures BurnSpeed(lib, schedule, k) >= 0.0
  {
    if k <= SAFE_STEPS {
      FullThrustSpeed(lib, schedule, k);
    } else {
      FullThrustSpeed(lib, schedule, SAFE_STEPS);
      SpeedGained(lib, schedule, SAFE_STEPS, k);
    }
  }

  lemma {:induction false} HeightStaysUp(lib: Library, schedule: nat -> bool, k: nat)
    requires Exact(lib) && FullThrust(schedule, SAFE_STEPS)
    ensures BurnHeight(lib, schedule, k) >= 0.0
    decreases k
  {
    if k > 0 {
      HeightStaysUp(lib, schedule, k - 1);
      SpeedStaysUp(lib, schedule, k);
    }
  }
}
