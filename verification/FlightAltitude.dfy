/** When a default flight stays above ground: exactly when its burn's heights are never negative. */
module FlightAltitude {
  import opened Attitude
  import opened Flight
  import opened FlightRun
  import opened FlightBallistics
  import opened FlightProgress
  import opened FlightClimb

  // ---------- The burn of a run ----------

  /** Every default flight waits 200 steps and then starts its ascent at rest with a full mass. */
  lemma {:induction false} Waits(r: Run, n: nat)
    requires IsDefaultRun(r) && n <= LIFT_OFF
    ensures var s := r.path(n);
      && s.mass == 20000.0 && s.position == ZERO && s.velocity == ZERO
      && (if n == LIFT_OFF then s.phase.PoweredAscent? && s.phaseTime == 0.0
          else s.phase.Prelaunch? && s.phaseTime == n as real * 0.01)
    decreases n
  {
    if n > 0 {
      Waits(r, n - 1);
      assert StepsOn(r, n - 1);
      PrelaunchClock(r.lib, r.path(n - 1), r.schedule(n - 1));
    }
  }

  /** Until cutoff, within 2500 steps, mass, speed and altitude are those the schedule alone gives; and the
      engine cuts off rising, after 15 seconds, within ballistic reach of the target or at 4.5 m/s. */
  lemma Burn(r: Run) returns (end: nat)
    requires IsDefaultRun(r)
    ensures 1500 < end <= BURN_STEPS && r.path(LIFT_OFF + end).phase.Coast? && Burned(r, end)
    ensures forall j: nat :: j < end ==> Burning(r, j)
    ensures var t := r.path(LIFT_OFF + end);
      t.velocity.up > 0.0 && (PredictedApogee(DEFAULT, t) >= 2400.0 || (end == BURN_STEPS && t.velocity.up >= 4.5))
  {
    Waits(r, LIFT_OFF);
    end := BurnUntil(r, 0);
    var n := LIFT_OFF + end - 1;
    assert Burning(r, end - 1);
    if PredictedApogee(DEFAULT, r.path(n + 1)) >= 2400.0 {
      CutoffBand(r, n);
      NotBefore15(r, end);
    } else {
      SpeedGained(r.lib, r.schedule, 0, BURN_STEPS);
    }
  }

  /** Losing thrust at lift-off leaves less thrust than weight: the first ascent step ends at or above ground
      exactly when it has its thrust. */
  lemma LossAtLiftOffSinks(lib: Library, s: State, loss: bool)
    requires Exact(lib) && s.phase.PoweredAscent? && s.mass == 20000.0
    requires s.position.up == 0.0 && s.velocity.up == 0.0
    ensures Next(DEFAULT, lib, s, FIXED_STEP, loss).position.up >= 0.0 <==> !loss
  {
    var t := Next(DEFAULT, lib, s, FIXED_STEP, loss);
    AscentStep(DEFAULT, lib, s, FIXED_STEP, loss);
    AscentClock(lib, s, loss);
    assert t.mass == MassAfter(1);
    assert t.position.up == Climb(lib, 0, loss) * 0.01 * 0.01;
    if loss { FirstClimbUnderLoss(lib); } else { FullClimb(lib, 0); }
  }

  /** Every default run comes to that step. */
  lemma LiftOffRises(r: Run)
    requires IsDefaultRun(r)
    ensures r.path(LIFT_OFF + 1).position.up >= 0.0 <==> !r.schedule(LIFT_OFF)
  {
    Waits(r, LIFT_OFF);
    assert StepsOn(r, LIFT_OFF);
    LossAtLiftOffSinks(r.lib, r.path(LIFT_OFF), r.schedule(LIFT_OFF));
  }

  // ---------- Above ground ----------

  lemma BurnedAboveGround(r: Run, end: nat, n: nat)
    requires IsDefaultRun(r) && NeverSinks(r.lib, r.schedule) && end <= BURN_STEPS
    requires (forall j: nat :: j < end ==> Burning(r, j)) && n < LIFT_OFF + end
    ensures r.path(n).position.up >= 0.0
  {
    if n < LIFT_OFF {
      Waits(r, n);
    } else {
      assert Burning(r, n - LIFT_OFF);
    }
  }

  /** A default flight is at or above ground in every state exactly when the heights that the schedule of
      thruster losses gives the burn are never negative. */
  lemma AboveGroundExactlyWhen(r: Run)
    requires IsDefaultRun(r)
    ensures AboveGround(r) <==> NeverSinks(r.lib, r.schedule)
  {
    var end := Burn(r);
    if AboveGround(r) {
      forall k: nat | k <= BURN_STEPS ensures BurnHeight(r.lib, r.schedule, k) >= 0.0 {
        AboveGroundBurns(r, end, k);
      }
    }
    if NeverSinks(r.lib, r.schedule) {
      var apogee := ApogeeIsClear(r, LIFT_OFF + end);
      forall n: nat ensures r.path(n).position.up >= 0.0 {
        if n < LIFT_OFF + end {
          BurnedAboveGround(r, end, n);
        } else {
          AfterBurnAboveGround(r, LIFT_OFF + end, apogee, n);
        }
      }
    }
  }

  // ---------- Schedules that do stay above ground ----------

  /** Full thrust for the first 1.2 s of the burn is enough, whatever is lost later. */
  lemma EarlyThrustSuffices(r: Run)
    requires IsDefaultRun(r) && FullThrust(r.schedule, SAFE_STEPS)
    ensures AboveGround(r)
  {
    forall k: nat | k <= BURN_STEPS ensures BurnHeight(r.lib, r.schedule, k) >= 0.0 {
      HeightStaysUp(r.lib, r.schedule, k);
    }
    AboveGroundExactlyWhen(r);
  }

  /** So is losing no thrust in ascent until 60% of the maximum exceeds the weight. */
  lemma LateLossStaysUp(r: Run)
    requires IsDefaultRun(r)
    requires forall n: nat :: r.schedule(n) && r.path(n).phase.PoweredAscent? ==> r.path(n).mass * 9.80665 < 180000.0
    ensures AboveGround(r)
  {
    var end := Burn(r);
    forall n: nat | LIFT_OFF <= n < LIFT_OFF + SAFE_STEPS ensures !r.schedule(n) {
      assert Burning(r, n - LIFT_OFF);
    }
    EarlyThrustSuffices(r);
  }
}
