/** The mission log: events derived from a list of samples, and what decimation does to them. */
module MissionEvents {
  import opened Binary
  import opened ControlServer
  import opened ControlText
  import Doubles
  import opened Options
  import opened ServerDecoder
  import opened TelemetryUtils

  datatype Severity = Info | Warning | Critical

  datatype Label =
    | Liftoff | MainEngineCutoff | ApogeeDescent | LandingBurnIgnition
    | SoftTouchdown | HardLanding | VehicleImpact
    | FaultActive(fault: Fault) | FaultCleared(fault: Fault)

  datatype EventId = PhaseId(sequence: uint32, phase: MissionPhase) | FaultId(sequence: uint32, mask: nat)

  datatype Category = PhaseChange | FaultChange

  datatype MissionEvent = MissionEvent(
    id: EventId, timestampUs: nat, sequence: uint32, category: Category, severity: Severity, text: Label)

  // |x| <= limit for finite doubles given by their bits: without the sign bit, the bits of finite
  // doubles are ordered like their values (IEEE 754, section 3.4).
  predicate MagnitudeAtMost(bits: uint64, limit: uint64) {
    bits % 0x8000_0000_0000_0000 <= limit
  }

  const THREE: uint64 := 0x4008_0000_0000_0000
  const EIGHT: uint64 := 0x4020_0000_0000_0000

  function Touchdown(previous: TelemetrySample): Label {
    if MagnitudeAtMost(previous.truthVelocityMps[2], THREE) then SoftTouchdown
    else if MagnitudeAtMost(previous.truthVelocityMps[2], EIGHT) then HardLanding
    else VehicleImpact
  }

  // PHASE_EVENTS, and the graded label of a touchdown. Entering prelaunch has no label.
  function PhaseLabel(previous: TelemetrySample, phase: MissionPhase): Option<Label> {
    match phase
    case Prelaunch => None
    case PoweredAscent => Some(Liftoff)
    case Coast => Some(MainEngineCutoff)
    case Descent => Some(ApogeeDescent)
    case LandingBurn => Some(LandingBurnIgnition)
    case Landed => Some(Touchdown(previous))
  }

  function PhaseSeverity(text: Label): Severity {
    match text
    case HardLanding => Warning
    case VehicleImpact => Critical
    case _ => Info
  }

  function PhaseEvents(previous: TelemetrySample, sample: TelemetrySample): seq<MissionEvent> {
    var text := PhaseLabel(previous, sample.missionPhase);
    if sample.missionPhase == previous.missionPhase || text.None? then []
    else [MissionEvent(PhaseId(sample.sequence, sample.missionPhase), sample.timestampUs, sample.sequence,
                       PhaseChange, PhaseSeverity(text.value), text.value)]
  }

  function ActiveSeverity(fault: Fault): Severity {
    if fault == ThrusterLoss then Critical else Warning
  }

  function FaultEvents(previous: TelemetrySample, sample: TelemetrySample, fault: Fault): seq<MissionEvent> {
    var active := Has(sample.faultFlags, fault);
    if active == Has(previous.faultFlags, fault) then []
    else [MissionEvent(FaultId(sample.sequence, Mask(fault)), sample.timestampUs, sample.sequence, FaultChange,
                       if active then ActiveSeverity(fault) else Info,
                       if active then FaultActive(fault) else FaultCleared(fault))]
  }

  // The events of one sample after another.
  function StepEvents(previous: TelemetrySample, sample: TelemetrySample): seq<MissionEvent> {
    PhaseEvents(previous, sample) + FaultEvents(previous, sample, ThrusterLoss)
    + FaultEvents(previous, sample, SensorNoise) + FaultEvents(previous, sample, PacketLoss)
  }

  // The events of the first n samples.
  function Events(samples: seq<TelemetrySample>, n: nat): seq<MissionEvent>
    requires n <= |samples|
    decreases n
  {
    if n <= 1 then [] else Events(samples, n - 1) + StepEvents(samples[n - 2], samples[n - 1])
  }

  lemma InOrder(previous: TelemetrySample, sample: TelemetrySample)
    ensures StepEvents(previous, sample) ==
      PhaseEvents(previous, sample) + (FaultEvents(previous, sample, ThrusterLoss)
      + FaultEvents(previous, sample, SensorNoise) + FaultEvents(previous, sample, PacketLoss))
  {}

  // ---------- deriveMissionEvents ----------

  const FAULTS: seq<Fault> := [ThrusterLoss, SensorNoise, PacketLoss]

  // Exclusive or shows exactly the flags that changed.
  lemma ChangedFlag(a: uint32, b: uint32, fault: Fault)
    ensures 0 <= Xor(a, b) < 0x1_0000_0000
    ensures Has(Xor(a, b), fault) <==> Has(a, fault) != Has(b, fault)
  {
    Pow2At32();
    XorBound(a, b, 32);
    XorHalves(a, b);
    XorHalves(a / 2, b / 2);
    XorHalves(a / 4, b / 4);
    QuarterAndEighth(a);
    QuarterAndEighth(b);
    QuarterAndEighth(Xor(a, b));
  }

  method DeriveFaultEvents(previous: TelemetrySample, sample: TelemetrySample) returns (events: seq<MissionEvent>)
    ensures events == FaultEvents(previous, sample, ThrusterLoss) + FaultEvents(previous, sample, SensorNoise)
                    + FaultEvents(previous, sample, PacketLoss)
  {
    ChangedFlag(previous.faultFlags, sample.faultFlags, ThrusterLoss);
    var changed: uint32 := Xor(previous.faultFlags, sample.faultFlags);
    events := [];
    for k := 0 to |FAULTS|
      invariant k == 0 ==> events == []
      invariant k == 1 ==> events == FaultEvents(previous, sample, ThrusterLoss)
      invariant k == 2 ==> events == FaultEvents(previous, sample, ThrusterLoss)
                                   + FaultEvents(previous, sample, SensorNoise)
      invariant k == 3 ==> events == FaultEvents(previous, sample, ThrusterLoss)
                                   + FaultEvents(previous, sample, SensorNoise)
                                   + FaultEvents(previous, sample, PacketLoss)
    {
      var fault := FAULTS[k];
      ChangedFlag(previous.faultFlags, sample.faultFlags, fault);
      if !Has(changed, fault) { continue; }
      var active := Has(sample.faultFlags, fault);
      events := events + [
        MissionEvent(FaultId(sample.sequence, Mask(fault)), sample.timestampUs, sample.sequence, FaultChange,
                     if active then ActiveSeverity(fault) else Info,
                     if active then FaultActive(fault) else FaultCleared(fault))];
    }
  }

  method DerivePhaseEvents(previous: TelemetrySample, sample: TelemetrySample) returns (events: seq<MissionEvent>)
    ensures events == PhaseEvents(previous, sample)
  {
    events := [];
    if sample.missionPhase != previous.missionPhase {
      var text := PhaseLabel(previous, sample.missionPhase);
      if text.Some? {
        events := [MissionEvent(PhaseId(sample.sequence, sample.missionPhase), sample.timestampUs, sample.sequence,
                                PhaseChange, PhaseSeverity(text.value), text.value)];
      }
    }
  }

  method DeriveMissionEvents(samples: seq<TelemetrySample>) returns (events: seq<MissionEvent>)
    ensures events == Events(samples, |samples|)
  {
    events := [];
    var previous: Option<TelemetrySample> := None;
    for i := 0 to |samples|
      invariant previous == if i == 0 then None else Some(samples[i - 1])
      invariant events == Events(samples, i)
    {
      var sample := samples[i];
      if previous.Some? {
        var phases := DerivePhaseEvents(previous.value, sample);
        var faults := DeriveFaultEvents(previous.value, sample);
        InOrder(previous.value, sample);
        events := events + (phases + faults);
      }
      previous := Some(sample);
    }
  }

  // ---------- What is logged ----------

  function Speed(previous: TelemetrySample): real {
    Doubles.Abs(Doubles.Value(previous.truthVelocityMps[2]))
  }

  lemma AtMostByValue(bits: uint64, limit: uint64, v: real)
    requires limit < 0x8000_0000_0000_0000 && Doubles.Value(limit) == v && v >= 0.0
    ensures MagnitudeAtMost(bits, limit) <==> Doubles.Abs(Doubles.Value(bits)) <= v
  {
    Doubles.BitsOrderMagnitudes(bits, limit);
  }

  lemma Limits(bits: uint64)
    ensures MagnitudeAtMost(bits, THREE) <==> Doubles.Abs(Doubles.Value(bits)) <= 3.0
    ensures MagnitudeAtMost(bits, EIGHT) <==> Doubles.Abs(Doubles.Value(bits)) <= 8.0
  {
    Doubles.Three(THREE);
    Doubles.Eight(EIGHT);
    AtMostByValue(bits, THREE, 3.0);
    AtMostByValue(bits, EIGHT, 8.0);
  }

  /** A touchdown is graded by the vertical speed of the sample before it. */
  lemma TouchdownBySpeed(previous: TelemetrySample)
    ensures Touchdown(previous) == if Speed(previous) <= 3.0 then SoftTouchdown
                                   else if Speed(previous) <= 8.0 then HardLanding else VehicleImpact
  {
    Limits(previous.truthVelocityMps[2]);
  }

  // Severity and label of entering a phase.
  predicate EntersPhase(previous: TelemetrySample, phase: MissionPhase, severity: Severity, text: Label) {
    match phase
    case Prelaunch => false
    case PoweredAscent => severity == Info && text == Liftoff
    case Coast => severity == Info && text == MainEngineCutoff
    case Descent => severity == Info && text == ApogeeDescent
    case LandingBurn => severity == Info && text == LandingBurnIgnition
    case Landed =>
      if Speed(previous) <= 3.0 then severity == Info && text == SoftTouchdown
      else if Speed(previous) <= 8.0 then severity == Warning && text == HardLanding
      else severity == Critical && text == VehicleImpact
  }

  // Severity and label of a flag that changed to the given value.
  predicate SwitchesFault(mask: nat, active: bool, severity: Severity, text: Label) {
    || (mask == 1 && severity == (if active then Critical else Info)
        && text == if active then FaultActive(ThrusterLoss) else FaultCleared(ThrusterLoss))
    || (mask == 2 && severity == (if active then Warning else Info)
        && text == if active then FaultActive(SensorNoise) else FaultCleared(SensorNoise))
    || (mask == 4 && severity == (if active then Warning else Info)
        && text == if active then FaultActive(PacketLoss) else FaultCleared(PacketLoss))
  }

  predicate BitSet(flags: uint32, mask: nat)
    requires mask > 0
  {
    flags / mask % 2 == 1
  }

  // e is an event of the step from one sample to the next.
  predicate Logged(previous: TelemetrySample, sample: TelemetrySample, e: MissionEvent) {
    && e.timestampUs == sample.timestampUs && e.sequence == sample.sequence
    && match e.id
       case PhaseId(sequence, phase) =>
         && sequence == sample.sequence && phase == sample.missionPhase != previous.missionPhase
         && e.category == PhaseChange && EntersPhase(previous, phase, e.severity, e.text)
       case FaultId(sequence, mask) =>
         && sequence == sample.sequence && mask > 0
         && BitSet(sample.faultFlags, mask) != BitSet(previous.faultFlags, mask)
         && e.category == FaultChange && SwitchesFault(mask, BitSet(sample.faultFlags, mask), e.severity, e.text)
  }

  lemma PhaseLogged(previous: TelemetrySample, sample: TelemetrySample, e: MissionEvent)
    ensures e in PhaseEvents(previous, sample) <==> Logged(previous, sample, e) && e.id.PhaseId?
  {
    TouchdownBySpeed(previous);
  }

  lemma FaultLogged(previous: TelemetrySample, sample: TelemetrySample, fault: Fault, e: MissionEvent)
    ensures e in FaultEvents(previous, sample, fault) <==>
            Logged(previous, sample, e) && e.id.FaultId? && e.id.mask == Mask(fault)
  {}

  lemma StepLogged(previous: TelemetrySample, sample: TelemetrySample, e: MissionEvent)
    ensures e in StepEvents(previous, sample) <==> Logged(previous, sample, e)
  {
    PhaseLogged(previous, sample, e);
    FaultLogged(previous, sample, ThrusterLoss, e);
    FaultLogged(previous, sample, SensorNoise, e);
    FaultLogged(previous, sample, PacketLoss, e);
  }

  // The phase entry of a step comes before its faults, which follow their masks.
  function Place(id: EventId): nat {
    match id
    case PhaseId(_, _) => 0
    case FaultId(_, mask) => mask
  }

  lemma StepInOrder(previous: TelemetrySample, sample: TelemetrySample)
    ensures var events := StepEvents(previous, sample);
      forall i, j :: 0 <= i < j < |events| ==> Place(events[i].id) < Place(events[j].id)
  {}

  predicate LoggedAt(samples: seq<TelemetrySample>, i: nat, e: MissionEvent)
    requires 1 <= i < |samples|
  {
    Logged(samples[i - 1], samples[i], e)
  }

  // Among the first n samples.
  ghost predicate LoggedBefore(samples: seq<TelemetrySample>, n: nat, e: MissionEvent)
    requires n <= |samples|
  {
    exists i: nat :: 1 <= i < n && LoggedAt(samples, i, e)
  }

  lemma LoggedOneMore(samples: seq<TelemetrySample>, n: nat, e: MissionEvent)
    requires 1 < n <= |samples|
    ensures LoggedBefore(samples, n, e) <==> LoggedBefore(samples, n - 1, e) || LoggedAt(samples, n - 1, e)
  {}

  lemma {:induction false} EventsLogged(samples: seq<TelemetrySample>, n: nat, e: MissionEvent)
    requires n <= |samples|
    ensures e in Events(samples, n) <==> LoggedBefore(samples, n, e)
    decreases n
  {
    if n > 1 {
      EventsLogged(samples, n - 1, e);
      StepLogged(samples[n - 2], samples[n - 1], e);
      LoggedOneMore(samples, n, e);
      assert LoggedAt(samples, n - 1, e) == Logged(samples[n - 2], samples[n - 1], e);
    }
  }

  /** The log holds exactly the phase entries and fault changes from one sample to the next, each with its
      label and severity; touchdowns by the vertical speed before them. */
  lemma LoggedExactly(samples: seq<TelemetrySample>, e: MissionEvent)
    ensures e in LogOf(samples) <==> LoggedBefore(samples, |samples|, e)
  {
    EventsLogged(samples, |samples|, e);
  }

  // ---------- Decimation ----------

  predicate IsTouchdown(e: MissionEvent) {
    e.id.PhaseId? && e.id.phase == Landed
  }

  // The same event, but for the grade of a touchdown.
  predicate SameEvent(a: MissionEvent, b: MissionEvent) {
    && a.id == b.id && a.timestampUs == b.timestampUs && a.sequence == b.sequence && a.category == b.category
    && (a == b || IsTouchdown(a))
  }

  predicate SameLog(a: seq<MissionEvent>, b: seq<MissionEvent>) {
    |a| == |b| && forall i :: 0 <= i < |a| ==> SameEvent(a[i], b[i])
  }

  lemma SameStatusNoEvents(previous: TelemetrySample, sample: TelemetrySample)
    requires SameStatus(previous, sample)
    ensures StepEvents(previous, sample) == []
  {}

  lemma SamePredecessorEvents(p: TelemetrySample, q: TelemetrySample, sample: TelemetrySample)
    requires SameStatus(p, q)
    ensures SameLog(StepEvents(p, sample), StepEvents(q, sample))
  {}

  lemma {:induction false} EventsAgree(a: seq<TelemetrySample>, b: seq<TelemetrySample>, n: nat)
    requires n <= |a| && n <= |b| && forall k :: 0 <= k < n ==> a[k] == b[k]
    ensures Events(a, n) == Events(b, n)
    decreases n
  {
    if n > 1 { EventsAgree(a, b, n - 1); }
  }

  lemma EventsExtend(samples: seq<TelemetrySample>, sample: TelemetrySample)
    requires samples != []
    ensures Events(samples + [sample], |samples| + 1)
         == Events(samples, |samples|) + StepEvents(samples[|samples| - 1], sample)
  {
    EventsAgree(samples + [sample], samples, |samples|);
  }

  lemma SameStatusAtEnd(samples: seq<TelemetrySample>, sample: TelemetrySample)
    requires samples != [] && SameStatus(samples[|samples| - 1], sample)
    ensures Events(samples + [sample], |samples| + 1) == Events(samples, |samples|)
  {
    EventsExtend(samples, sample);
    SameStatusNoEvents(samples[|samples| - 1], sample);
  }

  lemma OneMoreAtEnd(samples: seq<TelemetrySample>, sample: TelemetrySample, all: seq<TelemetrySample>)
    requires samples != [] && SameStatus(samples[|samples| - 1], sample)
    requires all == samples || all == samples + [sample]
    ensures Events(all, |all|) == Events(samples, |samples|)
  {
    SameStatusAtEnd(samples, sample);
  }

  lemma SameLogAppend(a: seq<MissionEvent>, b: seq<MissionEvent>, c: seq<MissionEvent>, d: seq<MissionEvent>)
    requires SameLog(a, b) && SameLog(c, d)
    ensures SameLog(a + c, b + d)
  {}

  lemma SameLogStep(a: seq<MissionEvent>, b: seq<MissionEvent>, p: TelemetrySample, q: TelemetrySample,
                    sample: TelemetrySample)
    requires SameLog(a, b) && SameStatus(p, q)
    ensures SameLog(a + StepEvents(p, sample), b + StepEvents(q, sample))
  {
    SamePredecessorEvents(p, q, sample);
    SameLogAppend(a, b, StepEvents(p, sample), StepEvents(q, sample));
  }

  // The last sample retained before the n-th.
  function LastRetained(samples: seq<TelemetrySample>, stride: int, n: nat): TelemetrySample
    requires 0 < n <= |samples|
  {
    RetainedIsCurrent(samples, stride, n);
    LastSample(Retained(samples, stride, n)).value
  }

  function LogOf(samples: seq<TelemetrySample>): seq<MissionEvent> {
    Events(samples, |samples|)
  }

  // The log of the retained samples gains what the full log gains, seen from the last one retained.
  lemma RetainedStep(samples: seq<TelemetrySample>, stride: int, n: nat)
    requires 1 < n <= |samples|
    ensures LogOf(Retained(samples, stride, n))
         == LogOf(Retained(samples, stride, n - 1)) + StepEvents(LastRetained(samples, stride, n - 1), samples[n - 1])
  {
    var before := Retained(samples, stride, n - 1);
    RetainedIsCurrent(samples, stride, n - 1);
    if ShouldRetain(LastSample(before), samples[n - 1], stride) {
      EventsExtend(before, samples[n - 1]);
    } else {
      SameStatusNoEvents(LastRetained(samples, stride, n - 1), samples[n - 1]);
    }
  }

  lemma {:induction false} RetainedLog(samples: seq<TelemetrySample>, stride: int, n: nat)
    requires n <= |samples|
    ensures SameLog(LogOf(Retained(samples, stride, n)), Events(samples, n))
    decreases n
  {
    if n > 1 {
      RetainedLog(samples, stride, n - 1);
      RetainedStep(samples, stride, n);
      RetainedIsCurrent(samples, stride, n - 1);
      SameLogStep(LogOf(Retained(samples, stride, n - 1)), Events(samples, n - 1),
                  LastRetained(samples, stride, n - 1), samples[n - 2], samples[n - 1]);
    }
  }

  // Adding the newest sample at the end adds no event.
  lemma NewestAddsNothing(samples: seq<TelemetrySample>, stride: int)
    ensures LogOf(Shown(samples, stride)) == LogOf(Retained(samples, stride, |samples|))
  {
    if samples != [] {
      RetainedIsCurrent(samples, stride, |samples|);
      OneMoreAtEnd(Retained(samples, stride, |samples|), samples[|samples| - 1], Shown(samples, stride));
    }
  }

  /** Decimation preserves the mission log: for every sample list the displayed samples yield the same
      events in the same order, identical except that a touchdown may be graded differently. */
  lemma DecimationKeepsLog(samples: seq<TelemetrySample>, stride: int)
    ensures SameLog(LogOf(Shown(samples, stride)), LogOf(samples))
  {
    RetainedLog(samples, stride, |samples|);
    NewestAddsNothing(samples, stride);
  }

  // Every touchdown among the first n samples gets the grade of the speed just before it, also when that is
  // taken from the last sample before it that stands out.
  predicate SameGrades(samples: seq<TelemetrySample>, stride: int, n: nat)
    requires n <= |samples|
  {
    forall i :: 1 <= i < n ==> SameGradeAt(samples, stride, i)
  }

  predicate SameGradeAt(samples: seq<TelemetrySample>, stride: int, i: nat)
    requires 1 <= i < |samples|
  {
    SameGrade(samples[LastOutstanding(samples, stride, i)], samples[i - 1], samples[i])
  }

  predicate SameGrade(p: TelemetrySample, q: TelemetrySample, sample: TelemetrySample) {
    sample.missionPhase == Landed && q.missionPhase != Landed ==> Touchdown(p) == Touchdown(q)
  }

  lemma SameStep(p: TelemetrySample, q: TelemetrySample, sample: TelemetrySample)
    requires SameStatus(p, q)
    ensures StepEvents(p, sample) == StepEvents(q, sample) <==> SameGrade(p, q, sample)
  {
    var fp := FaultEvents(p, sample, ThrusterLoss) + FaultEvents(p, sample, SensorNoise)
            + FaultEvents(p, sample, PacketLoss);
    var fq := FaultEvents(q, sample, ThrusterLoss) + FaultEvents(q, sample, SensorNoise)
            + FaultEvents(q, sample, PacketLoss);
    assert FaultEvents(p, sample, ThrusterLoss) == FaultEvents(q, sample, ThrusterLoss);
    assert FaultEvents(p, sample, SensorNoise) == FaultEvents(q, sample, SensorNoise);
    assert FaultEvents(p, sample, PacketLoss) == FaultEvents(q, sample, PacketLoss);
    InOrder(p, sample);
    InOrder(q, sample);
    SplitEqual(PhaseEvents(p, sample), PhaseEvents(q, sample), fp, fq);
  }

  lemma SplitEqual<T>(a: seq<T>, b: seq<T>, c: seq<T>, d: seq<T>)
    requires |a| == |b|
    ensures a + c == b + d <==> a == b && c == d
  {
    if a + c == b + d {
      assert a == (a + c)[..|a|] == b;
      assert c == (a + c)[|a|..] == d;
    }
  }

  lemma LogsStep(a: seq<MissionEvent>, b: seq<MissionEvent>, p: TelemetrySample, q: TelemetrySample,
                 sample: TelemetrySample)
    requires |a| == |b| && SameStatus(p, q)
    ensures a + StepEvents(p, sample) == b + StepEvents(q, sample) <==> a == b && SameGrade(p, q, sample)
  {
    SameStep(p, q, sample);
    SplitEqual(a, b, StepEvents(p, sample), StepEvents(q, sample));
  }

  lemma LastRetainedIsOutstanding(samples: seq<TelemetrySample>, stride: int, n: nat)
    requires 0 < n <= |samples|
    ensures LastRetained(samples, stride, n) == samples[LastOutstanding(samples, stride, n)]
  {
    RetainedAreOutstanding(samples, stride, n);
    LastIsNewest(samples, stride, n);
  }

  lemma SameGradesStep(samples: seq<TelemetrySample>, stride: int, n: nat)
    requires 1 < n <= |samples|
    ensures SameGrades(samples, stride, n) <==>
            SameGrades(samples, stride, n - 1) && SameGradeAt(samples, stride, n - 1)
  {}

  lemma RetainedGradesStep(samples: seq<TelemetrySample>, stride: int, n: nat)
    requires 1 < n <= |samples|
    ensures LogOf(Retained(samples, stride, n)) == Events(samples, n) <==>
            LogOf(Retained(samples, stride, n - 1)) == Events(samples, n - 1) && SameGradeAt(samples, stride, n - 1)
  {
    RetainedStep(samples, stride, n);
    RetainedLog(samples, stride, n - 1);
    RetainedIsCurrent(samples, stride, n - 1);
    LogsStep(LogOf(Retained(samples, stride, n - 1)), Events(samples, n - 1),
             LastRetained(samples, stride, n - 1), samples[n - 2], samples[n - 1]);
    LastRetainedIsOutstanding(samples, stride, n - 1);
  }

  lemma {:induction false} RetainedGrades(samples: seq<TelemetrySample>, stride: int, n: nat)
    requires n <= |samples|
    ensures LogOf(Retained(samples, stride, n)) == Events(samples, n) <==> SameGrades(samples, stride, n)
    decreases n
  {
    if n > 1 {
      RetainedGrades(samples, stride, n - 1);
      RetainedGradesStep(samples, stride, n);
      SameGradesStep(samples, stride, n);
    }
  }

  /** The two logs are entirely equal exactly when each touchdown is graded alike by the last sample before it
      that stands out and by the sample just before it. */
  lemma WholeLogKept(samples: seq<TelemetrySample>, stride: int)
    ensures LogOf(Shown(samples, stride)) == LogOf(samples) <==> SameGrades(samples, stride, |samples|)
  {
    RetainedGrades(samples, stride, |samples|);
    NewestAddsNothing(samples, stride);
  }

  lemma GradesOfEightAndThree(t: TelemetrySample)
    ensures t.truthVelocityMps[2] == EIGHT ==> Touchdown(t) == HardLanding
    ensures t.truthVelocityMps[2] == THREE ==> Touchdown(t) == SoftTouchdown
  {}

  /** It does happen: a vehicle that slows from 8 to 3 m/s between the last retained sample and touchdown
      is logged as a hard landing by the displayed samples and as a soft one by all of them. */
  lemma TouchdownGradeCanDiffer(quick: TelemetrySample, slow: TelemetrySample, down: TelemetrySample)
    requires quick.missionPhase == slow.missionPhase == LandingBurn && down.missionPhase == Landed
    requires quick.faultFlags == slow.faultFlags && quick.sequence == 5 && slow.sequence == 6
    requires quick.truthVelocityMps[2] == EIGHT && slow.truthVelocityMps[2] == THREE
    ensures Touchdown(quick) == HardLanding && Touchdown(slow) == SoftTouchdown
    ensures LogOf(Shown([quick, slow, down], STRIDE)) != LogOf([quick, slow, down])
  {
    var samples := [quick, slow, down];
    assert samples[0] == quick && samples[1] == slow && samples[2] == down;
    GradesOfEightAndThree(quick);
    GradesOfEightAndThree(slow);
    assert Retained(samples, STRIDE, 0) == [];
    assert Retained(samples, STRIDE, 1) == [quick];
    assert Retained(samples, STRIDE, 2) == [quick];
    LastRetainedIsOutstanding(samples, STRIDE, 2);
    assert !SameGradeAt(samples, STRIDE, 2);
    WholeLogKept(samples, STRIDE);
  }
}
