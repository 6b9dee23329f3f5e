/** How fast a default flight touches down: below 3 m/s when its ascent was cut off by the apogee
    test and no thrust is lost from then on. */
module FlightTouchdown {
  import opened Attitude
  import opened Flight
  import opened FlightRun
  import opened FlightBallistics
  import opened FlightLanding
  import opened FlightProgress
  import opened FlightAltitude
  import opened FlightClimb
  import opened FlightEquations
  import opened FlightBraking

  // ---------- The landing burn without loss ----------

  /** Every step of every default flight's landing burn whose thrust is available slows the descent, by that
      much. */
  lemma AvailableThrustSlows(r: Run, n: nat, a: Vector)
    requires IsDefaultRun(r) && r.path(n).phase.LandingBurn? && Asked(DEFAULT, r.path(n), a)
    requires Affords(r.path(n).mass, Engine(DEFAULT, r.schedule(n)), a) && !r.path(n + 1).phase.Landed?
    ensures r.path(n + 1).phase.LandingBurn? && r.path(n + 1).velocity.up < 0.0
    ensures Slowed(r.path(n).velocity.up, r.path(n).position.up, r.path(n + 1).velocity.up)
  {
    var s, t := r.path(n), r.path(n + 1);
    NeverHovers(r, n);
    NeverHovers(r, n + 1);
    assert StepsOn(r, n);
    EveryStateIsBounded(r, n);
    var thrust := AvailableStep(r.lib, s, r.schedule(n), a, t);
    SlowsAsAsked(s, a, thrust, t);
  }

  // ---------- Whole flights ----------

  ghost predicate NoLossFrom(schedule: nat -> bool, n: nat) {
    forall k: nat :: k >= n ==> !schedule(k)
  }

  lemma {:induction false} LandsSoftly(r: Run, n: nat) returns (m: nat)
    requires IsDefaultRun(r) && NoLossFrom(r.schedule, n) && (Waiting(r.path(n)) || Softly(r.path(n)))
    ensures m >= n && r.path(m).phase.LandingBurn? && r.path(m + 1).phase.Landed?
    ensures -3.0 < r.path(m).velocity.up < 0.0
    decreases Rank(r.path(n)).Floor
  {
    var s, t := r.path(n), r.path(n + 1);
    assert StepsOn(r, n) && !r.schedule(n);
    RankFalls(r, n);
    if s.phase.Descent? {
      FallStep(r.lib, s, t);
      m := LandsSoftly(r, n + 1);
    } else {
      SoftStep(r.lib, s, t);
      m := n;
      if !t.phase.Landed? { m := LandsSoftly(r, n + 1); }
    }
  }

  // The coast from a cutoff by the apogee test ends high and slow.
  lemma CoastEndsHigh(r: Run, n: nat) returns (m: nat)
    requires IsDefaultRun(r) && r.path(n).phase.Coast? && r.path(n).velocity.up > 0.0
    requires 2400.0 <= PredictedApogee(DEFAULT, r.path(n)) < 2405.3
    ensures n < m <= n + 2612 && r.path(m).phase.Descent?
    ensures -0.1 <= r.path(m).velocity.up <= 0.0 && 2398.0 < r.path(m).position.up < 2405.3
  {
    EveryStateIsBounded(r, n);
    m := CoastEnds(r, n, 9.80665 * 0.01);
    CoastEndsBetween(r.path, n, m, PredictedApogee(DEFAULT, r.path(n)));
    CoastIsShort(r.path, n, m);
  }

  lemma CoastEndsWaiting(r: Run, n: nat) returns (m: nat)
    requires IsDefaultRun(r) && r.path(n).phase.PoweredAscent?
    requires PredictedApogee(DEFAULT, r.path(n + 1)) >= 2400.0
    ensures m > n + 1 && Waiting(r.path(m))
  {
    CutoffBand(r, n);
    m := CoastEndsHigh(r, n + 1);
    EveryStateIsBounded(r, m);
    StartsFalling(r.path(m), -r.path(m).velocity.up);
  }

  /** A default flight whose ascent was cut off by the apogee test, and which loses no thrust from then on,
      touches down below 3 m/s. */
  lemma SoftTouchdown(r: Run, n: nat) returns (m: nat)
    requires IsDefaultRun(r) && r.path(n).phase.PoweredAscent? && NoLossFrom(r.schedule, n + 1)
    requires 2.0 * 9.80665 * r.path(n + 1).position.up + r.path(n + 1).velocity.up * r.path(n + 1).velocity.up
             >= 2.0 * 9.80665 * 2400.0
    ensures m > n && r.path(m).phase.LandingBurn? && r.path(m + 1).phase.Landed?
    ensures -3.0 < r.path(m).velocity.up < 0.0
  {
    Predicted(9.80665, r.path(n + 1).position.up, r.path(n + 1).velocity.up, 2400.0);
    m := CoastEndsWaiting(r, n);
    m := LandsSoftly(r, m);
  }

  lemma {:induction false} FullThrustHeight(lib: Library, schedule: nat -> bool, k: nat)
    requires Exact(lib) && FullThrust(schedule, k)
    ensures Grown(BurnHeight(lib, schedule, k), k as real)
    decreases k
  {
    if k > 0 {
      FullThrustHeight(lib, schedule, k - 1);
      FullThrustSpeed(lib, schedule, k);
      assert k as real == (k - 1) as real + 1.0;
      GrowsOn(BurnHeight(lib, schedule, k - 1), (k - 1) as real, BurnSpeed(lib, schedule, k));
    }
  }

  lemma FullThrustCutoff(r: Run) returns (n: nat)
    requires IsDefaultRun(r) && NoLossFrom(r.schedule, LIFT_OFF)
    ensures LIFT_OFF <= n < LIFT_OFF + BURN_STEPS && r.path(n).phase.PoweredAscent?
    ensures PredictedApogee(DEFAULT, r.path(n + 1)) >= 2400.0
  {
    var end := Burn(r);
    n := LIFT_OFF + end - 1;
    assert Burning(r, end - 1);
    if end == BURN_STEPS {
      FullThrustHeight(r.lib, r.schedule, BURN_STEPS);
      FullThrustSpeed(r.lib, r.schedule, BURN_STEPS);
      FullThrustReaches(r.path(n + 1).position.up, r.path(n + 1).velocity.up);
    }
  }

  /** So does every default flight that loses no thrust after it has left the ground. */
  lemma NominalTouchdown(r: Run) returns (m: nat)
    requires IsDefaultRun(r) && NoLossFrom(r.schedule, LIFT_OFF)
    ensures r.path(m).phase.LandingBurn? && r.path(m + 1).phase.Landed?
    ensures -3.0 < r.path(m).velocity.up < 0.0
  {
    var n := FullThrustCutoff(r);
    m := CoastEndsWaiting(r, n);
    m := LandsSoftly(r, m);
  }
}
