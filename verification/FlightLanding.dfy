/** Every flight lands: with the default configuration and the fixed step, whatever the schedule of
    thruster losses. */
module FlightLanding {
  import opened Flight
  import opened FlightRun
  import opened FlightBallistics
  import opened FlightProgress

  // ---------- Whole flights ----------

  /** In the landing burn of every flight, under any loss and whichever of requested and saturated
      thrust applies, the vehicle keeps falling until it is down: guidance neither hovers nor climbs. */
  lemma NeverHovers(r: Run, n: nat)
    requires IsDefaultRun(r) && r.path(n).phase.LandingBurn?
    ensures r.path(n).velocity.up < 0.0
    ensures r.path(n + 1).phase.Landed?
         || (r.path(n + 1).phase.LandingBurn? && r.path(n + 1).position.up < r.path(n).position.up)
  {
    EveryStateIsBounded(r, n);
    assert StepsOn(r, n);
    var s := r.path(n);
    var a := BurnStepBounds(r.lib, s, r.schedule(n));
    StaysDescending(-s.velocity.up, s.position.up, a);
  }

  lemma {:induction false} LandsFrom(r: Run, n: nat) returns (m: nat)
    requires IsDefaultRun(r)
    ensures n <= m && (m - n) as real <= Rank(r.path(n)) && r.path(m).phase.Landed?
    decreases Rank(r.path(n)).Floor
  {
    EveryStateIsBounded(r, n);
    RankIsNonnegative(r.path(n));
    if r.path(n).phase.Landed? {
      m := n;
    } else {
      StepProgress(r, n);
      RankIsNonnegative(r.path(n + 1));
      m := LandsFrom(r, n + 1);
    }
  }

  /** Every flight of the default vehicle lands within 206484 steps, whatever the schedule of thruster
      losses, and stays landed and at rest on the ground. */
  lemma EveryFlightLands(r: Run) returns (n: nat)
    requires IsDefaultRun(r)
    ensures n <= MAXIMUM_STEPS && r.path(n).phase.Landed?
    ensures AtRest(r.path(n)) && forall m: nat :: m >= n ==> r.path(m) == r.path(n)
  {
    n := LandsFrom(r, 0);
    EveryStateIsSound(r, n);
    forall m: nat | m >= n ensures r.path(m) == r.path(n) {
      StaysLanded(r, n, m);
    }
  }

  // ---------- The apogee of a default flight ----------

  /** When the apogee test cuts a default flight's ascent off, the vehicle never exceeds 2405.3 m while it
      coasts and enters descent above 2398.7 m: it peaks within 5.3 m of the target. */
  lemma DefaultApogee(r: Run, n: nat) returns (m: nat)
    requires IsDefaultRun(r) && r.path(n).phase.PoweredAscent?
    requires PredictedApogee(DEFAULT, r.path(n + 1)) >= 2400.0
    ensures n + 1 < m && r.path(n + 1).phase.Coast? && r.path(m).phase.Descent?
    ensures forall k: nat :: n + 1 <= k <= m ==> r.path(k).position.up < 2405.3
    ensures r.path(m).position.up > 2398.7
  {
    CutoffBand(r, n);
    EveryStateIsBounded(r, n + 1);
    m := CoastReachesApogee(r, n + 1);
  }
}
