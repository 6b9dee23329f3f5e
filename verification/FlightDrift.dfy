/** How far downrange and crossrange a default flight goes while its engine burns: the same under every
    schedule of thruster losses. */
module FlightDrift {
  import opened Attitude
  import opened Flight
  import opened FlightRun
  import opened FlightProgress
  import opened FlightAltitude
  import opened FlightClimb
  import opened FlightForces
  import opened FlightEquations

  // k steps of 1.05 m/s^2 downrange and 0.21 m/s^2 crossrange.
  predicate Drifted(s: State, k: nat) {
    var x := k as real;
    && s.velocity.east == 0.0105 * x && s.position.east == 0.0000525 * (x * (x + 1.0))
    && s.velocity.north == 0.0021 * x && s.position.north == 0.0000105 * (x * (x + 1.0))
  }

  // The shares of the thrust never bite, not even under loss.
  lemma SharesSuffice(m: real, a: Vector, p: real)
    requires 0.0 < m <= 20000.0 && p >= 180000.0
    requires Shared(m, a.east, 1.05, 0.25 * p) && Shared(m, a.north, 0.21, 0.1 * p)
    ensures a.east == 1.05 && a.north == 0.21
  {}

  lemma DriftsOn(s: State, a: Vector, t: State, k: nat)
    requires Drifted(s, k) && Moves(0.01, s, a, t) && a.east == 1.05 && a.north == 0.21
    ensures Drifted(t, k + 1)
  {
    var x := k as real;
    assert (k + 1) as real == x + 1.0;
    assert (x + 1.0) * (x + 2.0) == x * (x + 1.0) + 2.0 * (x + 1.0);
  }

  lemma DriftStep(lib: Library, s: State, loss: bool, t: State, k: nat)
    requires Exact(lib) && s.phase.PoweredAscent? && 15000.0 <= s.mass <= 20000.0 && Drifted(s, k)
    requires t == Next(DEFAULT, lib, s, FIXED_STEP, loss)
    ensures Drifted(t, k + 1)
  {
    AscentByForces(DEFAULT, lib, s, FIXED_STEP, loss, t);
    SharesSuffice(t.mass, t.acceleration, Engine(DEFAULT, loss));
    DriftsOn(s, t.acceleration, t, k);
  }

  ghost predicate DriftedAt(r: Run, k: nat) {
    Drifted(r.path(LIFT_OFF + k), k)
  }

  ghost predicate BurnsAt(r: Run, k: nat)
    requires IsDefaultRun(r)
  {
    var n := LIFT_OFF + k;
    r.path(n).phase.PoweredAscent? && 15000.0 <= r.path(n).mass <= 20000.0 && StepsOn(r, n)
  }

  lemma BurningBurns(r: Run, k: nat)
    requires IsDefaultRun(r) && Burning(r, k)
    ensures BurnsAt(r, k)
  {
    EveryStateIsBounded(r, LIFT_OFF + k);
    assert StepsOn(r, LIFT_OFF + k);
  }

  lemma BurnsUntil(r: Run) returns (end: nat)
    requires IsDefaultRun(r)
    ensures 1500 < end <= BURN_STEPS && r.path(LIFT_OFF + end).phase.Coast?
    ensures forall k: nat :: k < end ==> BurnsAt(r, k)
  {
    end := Burn(r);
    forall k: nat | k < end ensures BurnsAt(r, k) {
      BurningBurns(r, k);
    }
  }

  lemma RunDriftsOn(r: Run, k: nat)
    requires IsDefaultRun(r) && BurnsAt(r, k) && DriftedAt(r, k)
    ensures DriftedAt(r, k + 1)
  {
    var n := LIFT_OFF + k;
    DriftStep(r.lib, r.path(n), r.schedule(n), r.path(n + 1), k);
  }

  lemma {:induction false} DriftsThroughout(r: Run, k: nat)
    requires IsDefaultRun(r) && forall j: nat :: j < k ==> BurnsAt(r, j)
    ensures DriftedAt(r, k)
    decreases k
  {
    if k == 0 {
      Waits(r, LIFT_OFF);
    } else {
      DriftsThroughout(r, k - 1);
      assert BurnsAt(r, k - 1);
      RunDriftsOn(r, k - 1);
    }
  }

  /** k steps into the burn of every default flight, up to its end, the velocity is 0.0105 k m/s downrange
      and 0.0021 k m/s crossrange, and the distances are their sums. */
  lemma BurnDrift(r: Run) returns (end: nat)
    requires IsDefaultRun(r)
    ensures 1500 < end <= BURN_STEPS && r.path(LIFT_OFF + end).phase.Coast?
    ensures forall k: nat :: k <= end ==> DriftedAt(r, k)
  {
    end := BurnsUntil(r);
    forall k: nat | k <= end ensures DriftedAt(r, k) {
      DriftsThroughout(r, k);
    }
  }
}
