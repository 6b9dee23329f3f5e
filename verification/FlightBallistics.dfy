/** The coast: how far the semi-implicit step strays from the ballistic apogee the ascent cuts off on. */
module FlightBallistics {
  import opened Attitude
  import opened Flight
  import opened FlightThrust
  import opened FlightRun

  // What a coast step does to altitude, vertical velocity and phase.
  predicate CoastsTo(g: real, dt: real, s: State, t: State) {
    && t.velocity.up == s.velocity.up - g * dt
    && t.position.up == s.position.up + t.velocity.up * dt
    && t.phase == if t.velocity.up <= 0.0 then Descent else Coast
  }

  lemma CoastStep(c: Config, lib: Library, s: State, dt: real, loss: bool)
    requires Sensible(c) && Exact(lib) && s.mass >= c.dryMass && dt > 0.0 && s.phase.Coast?
    ensures CoastsTo(c.gravity, dt, s, Next(c, lib, s, dt, loss))
  {
    NextByPhase(c, lib, s, dt, loss);
  }

  lemma CoastStepAt(r: Run, n: nat)
    requires IsRun(r) && r.path(n).phase.Coast?
    ensures CoastRule(r.config.gravity, r.dt, r.path, n)
  {
    assert StepsOn(r, n);
    CoastStep(r.config, r.lib, r.path(n), r.dt, r.schedule(n));
  }

  // v'^2 / 2g + h' for v' = v - g dt and h' = h + v' dt.
  lemma SemiImplicitLoss(h: real, v: real, g: real, dt: real)
    requires g > 0.0
    ensures var w := v - g * dt; h + w * dt + w * w / (2.0 * g) == h + v * v / (2.0 * g) - g * dt * dt / 2.0
  {
    var w := v - g * dt;
    var q := 1.0 / (2.0 * g);
    assert q * (2.0 * g) == 1.0;
    assert w * w == v * v - 2.0 * (v * (g * dt)) + (g * dt) * (g * dt);
    assert (g * dt) * (g * dt) == g * (g * dt * dt) && v * (g * dt) == g * (v * dt);
    Divided(g, v * dt);
    Divided(g, g * dt * dt);
    assert w * w / (2.0 * g) == q * (w * w) && v * v / (2.0 * g) == q * (v * v);
    assert q * (w * w) == q * (v * v) - 2.0 * (q * (g * (v * dt))) + q * (g * (g * dt * dt));
    assert w * dt == v * dt - g * dt * dt;
  }

  lemma Divided(g: real, x: real)
    requires g > 0.0
    ensures (1.0 / (2.0 * g)) * (g * x) == x / 2.0
  {
    var q := 1.0 / (2.0 * g);
    assert q * (2.0 * g) == 1.0;
    assert q * g == 0.5;
    assert q * (g * x) == (q * g) * x;
  }

  function Apogee(g: real, s: State): real
    requires g > 0.0
  {
    s.position.up + s.velocity.up * s.velocity.up / (2.0 * g)
  }

  /** Each coast step lowers altitude + v^2 / 2g by exactly g dt^2 / 2. */
  lemma CoastStepLosesEnergy(g: real, dt: real, s: State, t: State)
    requires g > 0.0 && CoastsTo(g, dt, s, t)
    ensures Apogee(g, t) == Apogee(g, s) - g * dt * dt / 2.0
  {
    SemiImplicitLoss(s.position.up, s.velocity.up, g, dt);
  }

  lemma AltitudeBelowPredicted(g: real, s: State)
    requires g > 0.0
    ensures s.position.up <= Apogee(g, s)
  {
    SquareIsNonnegative(s.velocity.up);
    Quotient(s.velocity.up * s.velocity.up, 2.0 * g);
  }

  lemma Quotient(a: real, b: real)
    requires a >= 0.0 && b > 0.0
    ensures a / b >= 0.0
  {}

  // A stretch of states path(m), ..., path(n) of which all but the last are in coast.
  predicate CoastRule(g: real, dt: real, path: nat -> State, k: nat) {
    path(k).phase.Coast? && CoastsTo(g, dt, path(k), path(k + 1))
  }

  ghost predicate Coasting(g: real, dt: real, path: nat -> State, m: nat, n: nat) {
    forall k: nat :: m <= k < n ==> CoastRule(g, dt, path, k)
  }

  // x is what a step takes off the velocity, y what it takes off the energy.
  lemma {:induction false} AfterCoasting(g: real, dt: real, x: real, y: real, path: nat -> State, m: nat, n: nat)
    requires g > 0.0 && m <= n && Coasting(g, dt, path, m, n) && x == g * dt && y == g * dt * dt / 2.0
    ensures path(n).velocity.up == path(m).velocity.up - (n - m) as real * x
    ensures Apogee(g, path(n)) == Apogee(g, path(m)) - (n - m) as real * y
    decreases n - m
  {
    if m < n {
      AfterCoasting(g, dt, x, y, path, m, n - 1);
      assert CoastRule(g, dt, path, n - 1);
      CoastStepLosesEnergy(g, dt, path(n - 1), path(n));
      OneMore((n - 1 - m) as real, x);
      OneMore((n - 1 - m) as real, y);
    }
  }

  lemma OneMore(k: real, x: real)
    ensures (k + 1.0) * x == k * x + x
  {}

  lemma NeverAbovePredicted(g: real, dt: real, path: nat -> State, m: nat, n: nat)
    requires g > 0.0 && dt > 0.0 && m <= n && Coasting(g, dt, path, m, n)
    ensures path(n).position.up <= Apogee(g, path(m))
  {
    var x, y := g * dt, g * dt * dt / 2.0;
    Positive(g, dt);
    Positive(x, dt);
    AfterCoasting(g, dt, x, y, path, m, n);
    AltitudeBelowPredicted(g, path(n));
    NonnegativeProduct((n - m) as real, y);
  }

  // Still rising a step ago: the last speed is small and the steps taken were few.
  lemma LastRisingStep(v0: real, g: real, dt: real, x: real, k: real, v: real)
    requires g > 0.0 && dt > 0.0 && x == g * dt
    requires v == v0 - k * x && v <= 0.0 && v0 - (k - 1.0) * x > 0.0
    ensures v * v / (2.0 * g) <= x * dt / 2.0
    ensures k * x * dt < v0 * dt + x * dt
  {
    Positive(g, dt);
    assert (k - 1.0) * x == k * x - x;
    assert -x < v <= 0.0;
    Larger(x, -v);
    Scale(v * v, x * x, g);
    assert x * x == g * (x * dt);
    Divided(g, x * dt);
    Positive(v0 + x - k * x, dt);
    assert (v0 + x - k * x) * dt == v0 * dt + x * dt - k * x * dt;
  }

  lemma Scale(a: real, b: real, g: real)
    requires a <= b && g > 0.0
    ensures a / (2.0 * g) <= (1.0 / (2.0 * g)) * b
  {
    Quotient(b - a, 2.0 * g);
    var q := 1.0 / (2.0 * g);
    assert (b - a) / (2.0 * g) == q * (b - a) == q * b - q * a;
    assert a / (2.0 * g) == q * a;
  }

  lemma LastCoastStep(g: real, dt: real, path: nat -> State, m: nat, n: nat)
    requires g > 0.0 && dt > 0.0 && m < n && Coasting(g, dt, path, m, n)
    requires path(n).velocity.up <= 0.0 < path(n - 1).velocity.up
    ensures path(n).position.up > Apogee(g, path(m)) - path(m).velocity.up * dt / 2.0 - g * dt * dt
  {
    var x, y, k := g * dt, g * dt * dt / 2.0, (n - m) as real;
    AfterCoasting(g, dt, x, y, path, m, n);
    AfterCoasting(g, dt, x, y, path, m, n - 1);
    assert (n - 1 - m) as real == k - 1.0;
    EndsHigh(Apogee(g, path(m)), path(n).position.up, path(m).velocity.up, g, dt, x, y, k, path(n).velocity.up);
  }

  lemma EndsHigh(e: real, h: real, v0: real, g: real, dt: real, x: real, y: real, k: real, v: real)
    requires g > 0.0 && dt > 0.0 && x == g * dt && y == g * dt * dt / 2.0
    requires v == v0 - k * x && v <= 0.0 && v0 - (k - 1.0) * x > 0.0
    requires h + v * v / (2.0 * g) == e - k * y
    ensures h > e - v0 * dt / 2.0 - g * dt * dt
  {
    LastRisingStep(v0, g, dt, x, k, v);
    assert k * y == k * x * dt / 2.0;
  }

  lemma ApogeeReached(g: real, dt: real, path: nat -> State, m: nat, n: nat)
    requires g > 0.0 && dt > 0.0 && m < n && Coasting(g, dt, path, m, n)
    requires path(n).velocity.up <= 0.0 < path(n - 1).velocity.up
    ensures forall k: nat :: m <= k <= n ==> path(k).position.up <= Apogee(g, path(m))
    ensures path(n).position.up > Apogee(g, path(m)) - path(m).velocity.up * dt / 2.0 - g * dt * dt
  {
    forall k: nat | m <= k <= n ensures path(k).position.up <= Apogee(g, path(m)) {
      NeverAbovePredicted(g, dt, path, m, k);
    }
    LastCoastStep(g, dt, path, m, n);
  }

  lemma {:induction false} CoastEnds(r: Run, k: nat, loss: real) returns (n: nat)
    requires IsRun(r) && loss == r.config.gravity * r.dt && r.path(k).phase.Coast? && r.path(k).velocity.up > 0.0
    ensures k < n && r.path(n).phase.Descent? && Coasting(r.config.gravity, r.dt, r.path, k, n)
    ensures r.path(n).velocity.up <= 0.0 < r.path(n - 1).velocity.up
    decreases (r.path(k).velocity.up / loss).Floor
  {
    CoastStepAt(r, k);
    Positive(r.config.gravity, r.dt);
    n := k + 1;
    if r.path(n).velocity.up > 0.0 {
      FloorDrops(r.path(k).velocity.up, r.path(n).velocity.up, loss);
      n := CoastEnds(r, k + 1, loss);
    }
  }

  /** A coast that starts rising at v0 ends (enters descent) after finitely many steps; on the way the
      altitude never exceeds the apogee E predicted at cutoff, and at its end it is above
      E - v0 dt / 2 - g dt^2. */
  lemma CoastReachesApogee(r: Run, m: nat) returns (n: nat)
    requires IsRun(r) && r.path(m).phase.Coast? && r.path(m).velocity.up > 0.0
    ensures m < n && r.path(n).phase.Descent?
    ensures var e := PredictedApogee(r.config, r.path(m));
      && (forall k: nat :: m <= k <= n ==> r.path(k).position.up <= e)
      && r.path(n).position.up > e - r.path(m).velocity.up * r.dt / 2.0 - r.config.gravity * r.dt * r.dt
  {
    n := CoastEnds(r, m, r.config.gravity * r.dt);
    ApogeeReached(r.config.gravity, r.dt, r.path, m, n);
  }

  lemma FloorDrops(v: real, w: real, x: real)
    requires x > 0.0 && w == v - x && w > 0.0
    ensures 0 <= (w / x).Floor < (v / x).Floor
  {
    var q, p := v / x, w / x;
    assert x * q == v && x * p == v - x;
    assert x * (q - 1.0) == v - x;
    Cancel(x, p, q - 1.0);
    Quotient(w, x);
  }

  // ---------- Cutoff ----------

  // What an ascent step does to altitude, vertical velocity and phase.
  ghost predicate AscendsTo(c: Config, dt: real, s: State, t: State)
    requires c.gravity > 0.0
  {
    && t.velocity.up == s.velocity.up + t.acceleration.up * dt
    && t.position.up == s.position.up + t.velocity.up * dt
    && (t.phase.PoweredAscent? ==> PredictedApogee(c, t) < c.targetApogee)
  }

  lemma PoweredMoves(lib: Library, s: State, f: Vector, a: Vector, dt: real)
    ensures var t := Powered(lib, s, f, a, dt);
      && t.acceleration.up == a.up && t.velocity.up == s.velocity.up + a.up * dt
      && t.position.up == s.position.up + t.velocity.up * dt
  {}

  lemma AscendedMoves(c: Config, lib: Library, s: State, dt: real, loss: bool)
    requires Sensible(c) && s.mass >= c.dryMass
    ensures var t := Ascended(c, lib, s, dt, loss);
      && t.velocity.up == s.velocity.up + t.acceleration.up * dt
      && t.position.up == s.position.up + t.velocity.up * dt
  {
    var mass := BurnedMass(c, s.mass, dt);
    var f := AscentThrust(c, lib, mass, Available(c, loss));
    PoweredMoves(lib, s.(mass := mass, thrust := Available(c, loss)), f, Accelerated(f, mass, c.gravity), dt);
  }

  lemma SameMotion(c: Config, dt: real, s: State, b: State, t: State, u: State)
    requires c.gravity > 0.0 && AscendsTo(c, dt, b, u)
    requires b.position == s.position && b.velocity == s.velocity
    requires t.position == u.position && t.velocity == u.velocity && t.acceleration == u.acceleration
    requires t.phase == u.phase
    ensures AscendsTo(c, dt, s, t)
  {}

  lemma InAscentCuts(c: Config, lib: Library, s: State, dt: real, loss: bool, t: State)
    requires Sensible(c) && s.mass >= c.dryMass && t == Ascended(c, lib, s, dt, loss)
    ensures InAscent(c, lib, s, dt, loss) == if CutsOff(c, t) then Entered(t, Coast) else t
  {}

  lemma InAscentMoves(c: Config, lib: Library, s: State, dt: real, loss: bool)
    requires Sensible(c) && s.mass >= c.dryMass
    ensures AscendsTo(c, dt, s, InAscent(c, lib, s, dt, loss))
  {
    AscendedMoves(c, lib, s, dt, loss);
    var t := Ascended(c, lib, s, dt, loss);
    CutOrNot(c, dt, s, t);
    InAscentCuts(c, lib, s, dt, loss, t);
  }

  lemma CutOrNot(c: Config, dt: real, s: State, t: State)
    requires c.gravity > 0.0
    requires t.velocity.up == s.velocity.up + t.acceleration.up * dt
    requires t.position.up == s.position.up + t.velocity.up * dt
    ensures AscendsTo(c, dt, s, if CutsOff(c, t) then Entered(t, Coast) else t)
  {}

  lemma AscentStep(c: Config, lib: Library, s: State, dt: real, loss: bool)
    requires Sensible(c) && Exact(lib) && s.mass >= c.dryMass && dt > 0.0 && s.phase.PoweredAscent?
    ensures AscendsTo(c, dt, s, Next(c, lib, s, dt, loss))
  {
    var b := Begun(s, dt);
    var u := InAscent(c, lib, b, dt, loss);
    InAscentMoves(c, lib, b, dt, loss);
    SameMotion(c, dt, s, b, u.(orientation := Normalized(lib, u.orientation)), u);
  }

  // What a step under acceleration a adds to altitude + v^2 / 2g.
  function Gain(c: Config, s: State, t: State, dt: real): real
    requires c.gravity > 0.0
  {
    t.velocity.up * dt + t.acceleration.up * dt * (s.velocity.up + t.velocity.up) / (2.0 * c.gravity)
  }

  lemma GainIsGain(c: Config, s: State, t: State, dt: real)
    requires c.gravity > 0.0
    requires AscendsTo(c, dt, s, t)
    ensures PredictedApogee(c, t) == PredictedApogee(c, s) + Gain(c, s, t, dt)
  {
    var v, w, d, q := s.velocity.up, t.velocity.up, t.acceleration.up * dt, 1.0 / (2.0 * c.gravity);
    assert w * w - v * v == d * (v + w);
    assert w * w / (2.0 * c.gravity) == q * (w * w) && v * v / (2.0 * c.gravity) == q * (v * v);
    assert d * (v + w) / (2.0 * c.gravity) == q * (d * (v + w));
    assert q * (w * w - v * v) == q * (w * w) - q * (v * v);
  }

  lemma AscentStepAt(r: Run, n: nat)
    requires IsRun(r) && r.path(n).phase.PoweredAscent?
    ensures var c, s, t := r.config, r.path(n), r.path(n + 1);
      && PredictedApogee(c, t) == PredictedApogee(c, s) + Gain(c, s, t, r.dt)
      && (t.phase.PoweredAscent? ==> PredictedApogee(c, t) < c.targetApogee)
  {
    assert StepsOn(r, n);
    AscentStep(r.config, r.lib, r.path(n), r.dt, r.schedule(n));
    GainIsGain(r.config, r.path(n), r.path(n + 1), r.dt);
  }

  lemma PrelaunchStepAt(r: Run, n: nat)
    requires IsRun(r) && r.path(n).phase.Prelaunch?
    ensures r.path(n + 1).position == r.path(n).position && r.path(n + 1).velocity == r.path(n).velocity
  {
    assert StepsOn(r, n);
    NextByPhase(r.config, r.lib, r.path(n), r.dt, r.schedule(n));
  }

  lemma ApogeeFromRest(c: Config, s: State)
    requires c.gravity > 0.0 && s.position == ZERO && s.velocity == ZERO
    ensures PredictedApogee(c, s) == 0.0
  {}

  /** While the engine burns the target is not yet within ballistic reach. */
  lemma {:induction false} AscentIsBelowTarget(r: Run, n: nat)
    requires IsRun(r) && r.config.targetApogee > 0.0
    ensures r.path(n).phase.Prelaunch? ==> r.path(n).position == ZERO && r.path(n).velocity == ZERO
    ensures r.path(n).phase.PoweredAscent? ==> PredictedApogee(r.config, r.path(n)) < r.config.targetApogee
    decreases n
  {
    if n > 0 {
      AscentIsBelowTarget(r, n - 1);
      PhaseAt(r, n - 1);
      if r.path(n - 1).phase.Prelaunch? {
        PrelaunchStepAt(r, n - 1);
        ApogeeFromRest(r.config, r.path(n));
      } else if r.path(n - 1).phase.PoweredAscent? {
        AscentStepAt(r, n - 1);
      }
    }
  }

  /** A cutoff by the apogee test overshoots the target by less than one ascent step gains. */
  lemma CutoffOvershoot(r: Run, n: nat)
    requires IsRun(r) && r.config.targetApogee > 0.0
    requires r.path(n).phase.PoweredAscent? && PredictedApogee(r.config, r.path(n + 1)) >= r.config.targetApogee
    ensures r.path(n + 1).phase.Coast?
    ensures var c, s, t := r.config, r.path(n), r.path(n + 1);
      c.targetApogee <= PredictedApogee(c, t) < c.targetApogee + Gain(c, s, t, r.dt)
  {
    AscentIsBelowTarget(r, n);
    AscentStepAt(r, n);
    PhaseAt(r, n);
  }
}
