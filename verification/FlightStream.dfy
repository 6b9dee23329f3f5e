/** A flight's packets at the server: as long as none is overtaken by much, the server keeps one stream. */
module FlightStream {
  import opened Binary
  import opened Flight
  import opened FlightRun
  import opened FlightLanding
  import opened FlightProgress
  import opened FlightTelemetry
  import opened TelemetryServer
  import opened Sequence
  import ServerDecoder

  type Sample = ServerDecoder.TelemetrySample

  // static_cast<std::uint32_t>
  function Number(step: nat): uint32 {
    step % MODULUS
  }

  lemma NumberIs(step: nat)
    requires step < MAXIMUM_STEPS
    ensures Number(step) == step
  {}

  // What the server shows of the packet of step n, which carries the state after that step. The generator
  // steps until the flight has landed.
  ghost predicate ShownOfStep(enc: Encoding, r: Run, n: nat, flags: uint32, sample: Sample) {
    !r.path(n).phase.Landed? && Shows(enc, r.path(n + 1), Number(n), flags, sample)
  }

  // Sample i is that of step steps[i].
  ghost predicate Arrives(enc: Encoding, r: Run, flags: nat -> uint32, steps: seq<nat>, samples: seq<Sample>) {
    && |samples| == |steps|
    && forall i :: 0 <= i < |steps| ==> ShownOfStep(enc, r, steps[i], flags(steps[i]), samples[i])
  }

  // Only the first packet to arrive can be that of step 0, and none is overtaken by one more than 100 steps later.
  predicate NearlyInOrder(steps: seq<nat>) {
    forall i :: 0 < i < |steps| ==> steps[i] != 0 && steps[i - 1] <= steps[i] + 100
  }

  lemma StepIsEarly(r: Run, n: nat)
    requires IsDefaultRun(r) && !r.path(n).phase.Landed?
    ensures n < MAXIMUM_STEPS
  {
    var m := EveryFlightLands(r);
    assert n >= m ==> r.path(n) == r.path(m);
  }

  lemma SequenceOfStep(enc: Encoding, s: State, n: nat, sequence: uint32, flags: uint32, sample: Sample)
    requires sequence == n && Shows(enc, s, sequence, flags, sample)
    ensures sample.sequence == n
  {
    StateShown(enc, s, sequence, flags, sample);
  }

  lemma SampleOfStep(enc: Encoding, r: Run, n: nat, flags: uint32, sample: Sample)
    requires IsDefaultRun(r) && n < MAXIMUM_STEPS && ShownOfStep(enc, r, n, flags, sample)
    ensures sample.sequence == n && sample.timestampUs == 10000 * (n + 1)
  {
    NumberIs(n);
    SequenceOfStep(enc, r.path(n + 1), n, Number(n), flags, sample);
    StampShown(enc, r, n + 1, Number(n), flags, sample);
  }

  lemma ArrivedSample(enc: Encoding, r: Run, flags: nat -> uint32, steps: seq<nat>, samples: seq<Sample>, i: nat)
    requires IsDefaultRun(r) && Arrives(enc, r, flags, steps, samples) && i < |steps|
    ensures samples[i].sequence == steps[i] && samples[i].timestampUs == 10000 * (steps[i] + 1)
  {
    StepIsEarly(r, steps[i]);
    SampleOfStep(enc, r, steps[i], flags(steps[i]), samples[i]);
  }

  predicate NumberedAndStamped(steps: seq<nat>, samples: seq<Sample>) {
    && |samples| == |steps|
    && forall i :: 0 <= i < |steps| ==>
         samples[i].sequence == steps[i] && samples[i].timestampUs == 10000 * (steps[i] + 1)
  }

  lemma ArrivedSamples(enc: Encoding, r: Run, flags: nat -> uint32, steps: seq<nat>, samples: seq<Sample>)
    requires IsDefaultRun(r) && Arrives(enc, r, flags, steps, samples)
    ensures NumberedAndStamped(steps, samples)
  {
    forall i | 0 <= i < |steps|
      ensures samples[i].sequence == steps[i] && samples[i].timestampUs == 10000 * (steps[i] + 1)
    {
      ArrivedSample(enc, r, flags, steps, samples, i);
    }
  }

  lemma SmallSetbacks(steps: seq<nat>, samples: seq<Sample>)
    requires NumberedAndStamped(steps, samples) && NearlyInOrder(steps)
    ensures OneFlight(samples) && Sequences(samples) == steps
  {}

  /** Then the samples of every default flight, under any fault flags, are one flight's to the server. */
  lemma ArrivalIsOneFlight(enc: Encoding, r: Run, flags: nat -> uint32, steps: seq<nat>, samples: seq<Sample>)
    requires IsDefaultRun(r) && Arrives(enc, r, flags, steps, samples) && NearlyInOrder(steps)
    ensures OneFlight(samples) && Sequences(samples) == steps
  {
    ArrivedSamples(enc, r, flags, steps, samples);
    SmallSetbacks(steps, samples);
  }

  /** It never restarts, and its metrics count every packet and are the tracker's over the steps as they
      arrived. */
  lemma FlightMetrics(enc: Encoding, r: Run, flags: nat -> uint32, steps: seq<nat>,
                      results: seq<ServerDecoder.DecodeResult>, samples: seq<Sample>)
    requires IsDefaultRun(r) && NearlyInOrder(steps) && samples == Decoded(results, 0, |results|)
    requires Arrives(enc, r, flags, steps, samples)
    ensures Sequences(samples) == steps && forall k: nat :: k < |results| ==> !RestartsAt(results, k)
    ensures MetricsOf(AfterResults(results, |results|))
         == StreamMetrics(|results|, |steps|, |results| - |steps|, TrackingOf(samples).lost,
                          TrackingOf(samples).reordered)
  {
    ArrivalIsOneFlight(enc, r, flags, steps, samples);
    FlightIsOneSegment(results);
  }
}
