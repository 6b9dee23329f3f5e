/** A flight without faults, from the simulation to the mission log: what the dashboard derives from the
    samples that the server decodes from the generator's packets. */
module NominalFlight {
  import opened Binary
  import opened Flight
  import opened FlightRun
  import opened FlightProgress
  import FlightAltitude
  import FlightClimb
  import opened FlightTelemetry
  import FlightTouchdown
  import Doubles
  import MissionEvents
  import ServerDecoder
  import opened Sequence

  type Sample = ServerDecoder.TelemetrySample

  /** Correct rounding to doubles: monotone, and exact where a finite double has the value. */
  ghost predicate Rounds(double: real -> uint64) {
    && (forall x, y :: x <= y ==> RoundsUpTo(double, x, y))
    && (forall bits: uint64 :: Doubles.FiniteFloat64(bits) ==> RoundsExactly(double, bits))
  }

  predicate RoundsUpTo(double: real -> uint64, x: real, y: real) {
    Doubles.Value(double(x)) <= Doubles.Value(double(y))
  }

  predicate RoundsExactly(double: real -> uint64, bits: uint64) {
    Doubles.Value(double(Doubles.Value(bits))) == Doubles.Value(bits)
  }

  // Sample i is what the server shows of the packet of step i, which carries the state after that step.
  ghost predicate Received(enc: Encoding, r: Run, samples: seq<Sample>) {
    forall i: nat :: i < |samples| ==> ReceivedAt(enc, r, samples, i)
  }

  predicate ReceivedAt(enc: Encoding, r: Run, samples: seq<Sample>, i: nat)
    requires i < |samples|
  {
    Shows(enc, r.path(i + 1), i % MODULUS, 0, samples[i])
  }

  lemma SampleIs(enc: Encoding, r: Run, samples: seq<Sample>, i: nat)
    requires Received(enc, r, samples) && i < |samples|
    ensures SamePhase(r.path(i + 1).phase, samples[i].missionPhase) && samples[i].faultFlags == 0
    ensures samples[i].truthVelocityMps[2] == enc.double(r.path(i + 1).velocity.up)
  {
    assert ReceivedAt(enc, r, samples, i);
    StateShown(enc, r.path(i + 1), i % MODULUS, 0, samples[i]);
  }

  // ---------- The speed that is graded ----------

  lemma RoundsWithin(double: real -> uint64, low: uint64, v: real, high: uint64)
    requires Rounds(double) && Doubles.FiniteFloat64(low) && Doubles.FiniteFloat64(high)
    requires Doubles.Value(low) <= v <= Doubles.Value(high)
    ensures Doubles.Value(low) <= Doubles.Value(double(v)) <= Doubles.Value(high)
  {
    assert RoundsExactly(double, low) && RoundsExactly(double, high);
    assert RoundsUpTo(double, Doubles.Value(low), v) && RoundsUpTo(double, v, Doubles.Value(high));
  }

  lemma PlusMinusThree(low: uint64, high: uint64)
    requires low == 0xC008_0000_0000_0000 && high == 0x4008_0000_0000_0000
    ensures Doubles.FiniteFloat64(low) && Doubles.FiniteFloat64(high)
    ensures Doubles.Value(low) == -3.0 && Doubles.Value(high) == 3.0
  {
    Doubles.MinusThree(low);
    Doubles.Three(high);
  }

  lemma WithinIsSoft(double: real -> uint64, v: real, low: uint64, high: uint64)
    requires Rounds(double) && Doubles.FiniteFloat64(low) && Doubles.FiniteFloat64(high)
    requires Doubles.Value(low) == -3.0 <= v <= 3.0 == Doubles.Value(high)
    ensures Doubles.Abs(Doubles.Value(double(v))) <= 3.0
  {
    RoundsWithin(double, low, v, high);
  }

  lemma SlowIsSoft(double: real -> uint64, v: real)
    requires Rounds(double) && -3.0 < v < 0.0
    ensures Doubles.Abs(Doubles.Value(double(v))) <= 3.0
  {
    PlusMinusThree(0xC008_0000_0000_0000, 0x4008_0000_0000_0000);
    WithinIsSoft(double, v, 0xC008_0000_0000_0000, 0x4008_0000_0000_0000);
  }

  // The only step of a flight that touches down.
  lemma OneTouchdown(r: Run, m: nat, n: nat)
    requires IsRun(r)
    requires r.path(m).phase.LandingBurn? && r.path(m + 1).phase.Landed?
    requires r.path(n).phase.LandingBurn? && r.path(n + 1).phase.Landed?
    ensures m == n
  {
    if m < n { StaysLanded(r, m + 1, n); }
    if n < m { StaysLanded(r, n + 1, m); }
  }

  // ---------- The log ----------

  // The k-th entry of the log.
  predicate Milestone(k: nat, e: MissionEvents.MissionEvent) {
    && e.category == MissionEvents.PhaseChange && e.severity == MissionEvents.Info
    && match k
       case 0 => e.text == MissionEvents.Liftoff
       case 1 => e.text == MissionEvents.MainEngineCutoff
       case 2 => e.text == MissionEvents.ApogeeDescent
       case 3 => e.text == MissionEvents.LandingBurnIgnition
       case 4 => e.text == MissionEvents.SoftTouchdown
       case _ => false
  }

  ghost predicate Milestones(log: seq<MissionEvents.MissionEvent>, n: nat) {
    |log| == n && forall k: nat :: k < n ==> Milestone(k, log[k])
  }

  // A step from the m-th phase to the n-th logs nothing or the next entry.
  ghost predicate StepMilestone(step: seq<MissionEvents.MissionEvent>, m: nat, n: nat) {
    m <= n <= m + 1 && |step| == n - m && forall e :: e in step ==> Milestone(m, e)
  }

  // From one phase to the same or the next.
  lemma StepLog(p: Sample, q: Sample, phase: Phase, next: Phase)
    requires SamePhase(phase, p.missionPhase) && SamePhase(next, q.missionPhase)
    requires Order(phase) <= Order(next) <= Order(phase) + 1 && p.faultFlags == q.faultFlags
    requires next.Landed? && phase.LandingBurn? ==> MissionEvents.Speed(p) <= 3.0
    ensures StepMilestone(MissionEvents.StepEvents(p, q), Order(phase), Order(next))
  {
    MissionEvents.TouchdownBySpeed(p);
  }

  ghost predicate Nominal(enc: Encoding, r: Run, samples: seq<Sample>) {
    && IsDefaultRun(r) && FlightTouchdown.NoLossFrom(r.schedule, FlightClimb.LIFT_OFF)
    && Rounds(enc.double) && Received(enc, r, samples)
  }

  // If sample i is followed by the touchdown, it is slow.
  lemma SlowAtTouchdown(enc: Encoding, r: Run, samples: seq<Sample>, i: nat)
    requires Nominal(enc, r, samples) && i < |samples|
    requires r.path(i + 1).phase.LandingBurn? && r.path(i + 2).phase.Landed?
    ensures MissionEvents.Speed(samples[i]) <= 3.0
  {
    var m := FlightTouchdown.NominalTouchdown(r);
    OneTouchdown(r, m, i + 1);
    SlowIsSoft(enc.double, r.path(i + 1).velocity.up);
    SampleIs(enc, r, samples, i);
  }

  lemma LogOfStep(enc: Encoding, r: Run, samples: seq<Sample>, i: nat)
    requires Nominal(enc, r, samples) && i + 1 < |samples|
    ensures StepMilestone(MissionEvents.StepEvents(samples[i], samples[i + 1]), Order(r.path(i + 1).phase),
                          Order(r.path(i + 2).phase))
  {
    SampleIs(enc, r, samples, i);
    SampleIs(enc, r, samples, i + 1);
    PhaseAt(r, i + 1);
    if r.path(i + 1).phase.LandingBurn? && r.path(i + 2).phase.Landed? { SlowAtTouchdown(enc, r, samples, i); }
    StepLog(samples[i], samples[i + 1], r.path(i + 1).phase, r.path(i + 2).phase);
  }

  lemma MilestonesGoOn(log: seq<MissionEvents.MissionEvent>, m: nat, step: seq<MissionEvents.MissionEvent>, n: nat)
    requires Milestones(log, m) && StepMilestone(step, m, n)
    ensures Milestones(log + step, n)
  {}

  lemma FirstIsPrelaunch(r: Run, n: nat)
    requires IsDefaultRun(r) && n == 1
    ensures Order(r.path(n).phase) == 0
  {
    FlightAltitude.Waits(r, n);
  }

  lemma OneMoreLogged(enc: Encoding, r: Run, samples: seq<Sample>, n: nat)
    requires Nominal(enc, r, samples) && 1 < n <= |samples|
    requires Milestones(MissionEvents.Events(samples, n - 1), Order(r.path(n - 1).phase))
    ensures Milestones(MissionEvents.Events(samples, n), Order(r.path(n).phase))
  {
    LogOfStep(enc, r, samples, n - 2);
    MilestonesGoOn(MissionEvents.Events(samples, n - 1), Order(r.path(n - 1).phase),
                   MissionEvents.StepEvents(samples[n - 2], samples[n - 1]), Order(r.path(n).phase));
  }

  lemma {:induction false} LogSoFar(enc: Encoding, r: Run, samples: seq<Sample>, n: nat)
    requires Nominal(enc, r, samples) && 1 <= n <= |samples|
    ensures Milestones(MissionEvents.Events(samples, n), Order(r.path(n).phase))
    decreases n
  {
    if n == 1 {
      FirstIsPrelaunch(r, n);
    } else {
      LogSoFar(enc, r, samples, n - 1);
      OneMoreLogged(enc, r, samples, n);
    }
  }

  /** The log of a default flight without faults, all of whose packets arrive until it has landed: lift-off,
      engine cutoff, apogee, landing-burn ignition and a soft touchdown, in this order, and nothing else. */
  lemma NominalLog(enc: Encoding, r: Run, samples: seq<Sample>)
    requires Nominal(enc, r, samples) && samples != [] && r.path(|samples|).phase.Landed?
    ensures Milestones(MissionEvents.LogOf(samples), 5)
  {
    LogSoFar(enc, r, samples, |samples|);
  }
}
