/** The server's packet handler: decoding, restart detection, loss metrics and bounded history. */
module TelemetryServer {
  import opened Binary
  import opened CircularBuffer
  import opened Options
  import opened Sequence
  import opened ServerDecoder

  datatype StreamMetrics = StreamMetrics(received: nat, valid: nat, rejected: nat, lost: nat, reordered: nat)

  const NO_METRICS := StreamMetrics(0, 0, 0, 0, 0)

  // The stream messages; control messages travel beside them.
  datatype ServerMessage =
    | History(samples: seq<TelemetrySample>, metrics: StreamMetrics)
    | Reset(metrics: StreamMetrics)
    | Telemetry(sample: TelemetrySample, metrics: StreamMetrics)

  // What arrived since the last restart: the samples accepted, and how many packets were rejected.
  datatype Segment = Segment(samples: seq<TelemetrySample>, rejected: nat)

  const NOTHING := Segment([], 0)

  function Sequences(samples: seq<TelemetrySample>): (sequences: seq<uint32>)
    ensures |sequences| == |samples|
  {
    seq(|samples|, i requires 0 <= i < |samples| => samples[i].sequence)
  }

  function TrackingOf(samples: seq<TelemetrySample>): Tracking {
    Tracked(Sequences(samples), |samples|)
  }

  function MetricsOf(s: Segment): StreamMetrics {
    var t := TrackingOf(s.samples);
    StreamMetrics(|s.samples| + s.rejected, |s.samples|, s.rejected, t.lost, t.reordered)
  }

  function LatestTimestamp(samples: seq<TelemetrySample>): Option<nat> {
    if samples == [] then None else Some(samples[|samples| - 1].timestampUs)
  }

  // A sequence number zero after another, or a clock more than a second back.
  predicate Restarts(tracker: Tracking, timestamp: Option<nat>, sample: TelemetrySample) {
    || (sample.sequence == 0 && tracker.latest.Some? && tracker.latest.value != 0)
    || (timestamp.Some? && sample.timestampUs + 1_000_000 < timestamp.value)
  }

  function Continues(s: Segment, sample: TelemetrySample): Segment {
    if Restarts(TrackingOf(s.samples), LatestTimestamp(s.samples), sample) then Segment([sample], 0)
    else s.(samples := s.samples + [sample])
  }

  function Accept(s: Segment, result: DecodeResult): Segment {
    match result
    case Refused(_) => s.(rejected := s.rejected + 1)
    case Sample(sample) => Continues(s, sample)
  }

  // What acceptPacket broadcasts.
  function Broadcast(s: Segment, result: DecodeResult): seq<ServerMessage> {
    match result
    case Refused(_) => []
    case Sample(sample) =>
      var news := Telemetry(sample, MetricsOf(Continues(s, sample)));
      if Restarts(TrackingOf(s.samples), LatestTimestamp(s.samples), sample) then [Reset(NO_METRICS), news] else [news]
  }

  lemma OneMoreTracked(samples: seq<TelemetrySample>, sample: TelemetrySample)
    ensures TrackingOf(samples + [sample]) == Observed(TrackingOf(samples), sample.sequence)
  {
    var before := Sequences(samples);
    assert Sequences(samples + [sample]) == before + [sample.sequence];
    TrackedExtended(before, sample.sequence);
  }

  lemma OneMoreCounted(s: Segment, sample: TelemetrySample)
    ensures var t, after := Observed(TrackingOf(s.samples), sample.sequence), s.(samples := s.samples + [sample]);
      && TrackingOf(after.samples) == t && LatestTimestamp(after.samples) == Some(sample.timestampUs)
      && MetricsOf(after) == StreamMetrics(|s.samples| + s.rejected + 1, |s.samples| + 1, s.rejected, t.lost,
                                           t.reordered)
  {
    OneMoreTracked(s.samples, sample);
  }

  class TelemetryServer {
    const history: CircularBuffer<TelemetrySample>
    const sequence: SequenceTracker
    var metrics: StreamMetrics
    var latestTimestampUs: Option<nat>
    ghost var segment: Segment

    ghost predicate Valid()
      reads this, history, history.items, sequence
    {
      && history.Valid() && history.Contents() == LastOf(segment.samples, history.capacity)
      && sequence.Value() == TrackingOf(segment.samples)
      && metrics == MetricsOf(segment)
      && latestTimestampUs == LatestTimestamp(segment.samples)
    }

    constructor (historyCapacity: nat)
      requires historyCapacity > 0
      ensures Valid() && segment == NOTHING && history.capacity == historyCapacity
      ensures fresh(history) && fresh(history.items) && fresh(sequence)
    {
      history := new CircularBuffer<TelemetrySample>(historyCapacity);
      sequence := new SequenceTracker();
      metrics, latestTimestampUs, segment := NO_METRICS, None, NOTHING;
    }

    /** Whatever the packet: received counts it as valid or rejected, history is the last capacity
        samples since the last restart, and the loss metrics are the tracker's over those samples. */
    method AcceptPacket(packet: seq<uint8>) returns (messages: seq<ServerMessage>)
      requires Valid()
      modifies this, history, history.items, sequence
      ensures Valid() && segment == Accept(old(segment), DecodeTelemetry(packet))
      ensures messages == Broadcast(old(segment), DecodeTelemetry(packet))
    {
      messages := AcceptResult(DecodeTelemetry(packet));
    }

    // acceptPacket after its call of decodeTelemetry.
    method AcceptResult(result: DecodeResult) returns (messages: seq<ServerMessage>)
      requires Valid()
      modifies this, history, history.items, sequence
      ensures Valid() && segment == Accept(old(segment), result) && messages == Broadcast(old(segment), result)
    {
      if result.Refused? {
        Reject();
        return [];
      }
      var sample := result.sample;
      messages := [];
      var sequenceRestarted := sample.sequence == 0 && sequence.latest.Some? && sequence.latest.value != 0;
      var simulationClockRestarted :=
        latestTimestampUs.Some? && sample.timestampUs + 1_000_000 < latestTimestampUs.value;
      assert (sequenceRestarted || simulationClockRestarted) == Restarts(sequence.Value(), latestTimestampUs, sample);
      if sequenceRestarted || simulationClockRestarted {
        Restart();
        messages := [Reset(metrics)];
      }
      TakeSample(sample);
      messages := messages + [Telemetry(sample, metrics)];
    }

    method Reject()
      requires Valid()
      modifies this`metrics, this`segment
      ensures Valid() && segment == old(segment).(rejected := old(segment).rejected + 1)
    {
      metrics := metrics.(received := metrics.received + 1);
      metrics := metrics.(rejected := metrics.rejected + 1);
      segment := segment.(rejected := segment.rejected + 1);
    }

    method Restart()
      requires Valid()
      modifies this, history, history.items, sequence
      ensures Valid() && segment == NOTHING && metrics == NO_METRICS
    {
      history.Clear();
      sequence.Reset();
      latestTimestampUs := None;
      metrics := NO_METRICS;
      segment := NOTHING;
    }

    method TakeSample(sample: TelemetrySample)
      requires Valid()
      modifies this, history, history.items, sequence
      ensures Valid() && segment == old(segment).(samples := old(segment.samples) + [sample])
    {
      ghost var after := segment.(samples := segment.samples + [sample]);
      LastOfLast(segment.samples, [sample], history.capacity);
      Count(sample);
      history.Push(sample);
      segment := after;
    }

    method Count(sample: TelemetrySample)
      requires sequence.Value() == TrackingOf(segment.samples) && metrics == MetricsOf(segment)
      modifies this`metrics, this`latestTimestampUs, sequence
      ensures var after := segment.(samples := segment.samples + [sample]);
        && sequence.Value() == TrackingOf(after.samples) && metrics == MetricsOf(after)
        && latestTimestampUs == LatestTimestamp(after.samples)
    {
      OneMoreCounted(segment, sample);
      metrics := metrics.(received := metrics.received + 1);
      metrics := metrics.(valid := metrics.valid + 1);
      sequence.Observe(sample.sequence);
      latestTimestampUs := Some(sample.timestampUs);
      metrics := metrics.(lost := sequence.lost);
      metrics := metrics.(reordered := sequence.reordered);
    }
  }

  // ---------- Whole packet streams ----------

  // The segment after the first n decoding results.
  function AfterResults(results: seq<DecodeResult>, n: nat): Segment
    requires n <= |results|
    decreases n
  {
    if n == 0 then NOTHING else Accept(AfterResults(results, n - 1), results[n - 1])
  }

  // The samples among results[lo..n].
  function Decoded(results: seq<DecodeResult>, lo: nat, n: nat): (samples: seq<TelemetrySample>)
    requires n <= |results|
    ensures |samples| <= n
    decreases n
  {
    if n <= lo then []
    else
      match results[n - 1]
      case Refused(_) => Decoded(results, lo, n - 1)
      case Sample(sample) => Decoded(results, lo, n - 1) + [sample]
  }

  // The n-th result is a sample that restarts the stream.
  predicate RestartsAt(results: seq<DecodeResult>, n: nat)
    requires n < |results|
  {
    var samples := AfterResults(results, n).samples;
    results[n].Sample? && Restarts(TrackingOf(samples), LatestTimestamp(samples), results[n].sample)
  }

  /** After every packet stream the segment is exactly what decoded, and what did not, from the packet of
      the last restart on (or from the beginning when there was none). */
  lemma {:induction false} SegmentSinceRestart(results: seq<DecodeResult>, n: nat) returns (start: nat)
    requires n <= |results|
    ensures start <= n && (start > 0 ==> start < n && RestartsAt(results, start))
    ensures forall k: nat :: start < k < n ==> !RestartsAt(results, k)
    ensures AfterResults(results, n).samples == Decoded(results, start, n)
    ensures |AfterResults(results, n).samples| + AfterResults(results, n).rejected == n - start
    decreases n
  {
    start := 0;
    if n > 0 {
      start := SegmentSinceRestart(results, n - 1);
      if RestartsAt(results, n - 1) {
        start := n - 1;
        assert Decoded(results, n - 1, n - 1) == [];
      }
    }
  }

  // ---------- When a stream restarts ----------

  // Nothing after a first zero but zeroes and numbers at least 2^31 ahead of it.
  predicate OnlyZero(samples: seq<TelemetrySample>) {
    && samples != [] && samples[0].sequence == 0
    && forall i: nat :: i < |samples| ==> samples[i].sequence == 0 || samples[i].sequence >= 0x8000_0000
  }

  predicate LatestIsZero(samples: seq<TelemetrySample>) {
    TrackingOf(samples).latest == Some(0)
  }

  lemma StaysOnlyZero(samples: seq<TelemetrySample>, x: TelemetrySample)
    requires samples != []
    ensures OnlyZero(samples + [x]) <==> OnlyZero(samples) && (x.sequence == 0 || x.sequence >= 0x8000_0000)
  {
    var after := samples + [x];
    if OnlyZero(after) {
      forall i: nat | i < |samples| ensures samples[i].sequence == 0 || samples[i].sequence >= 0x8000_0000 {
        assert after[i] == samples[i];
      }
      assert after[|samples|] == x;
    }
  }

  lemma {:induction false} LatestIsSome(samples: seq<TelemetrySample>, n: nat)
    requires 0 < n <= |samples|
    ensures Tracked(Sequences(samples), n).latest.Some?
    decreases n
  {
    if n > 1 { LatestIsSome(samples, n - 1); }
  }

  // Adding a sample that is not taken for a restart.
  lemma LatestIsZeroAfter(samples: seq<TelemetrySample>, x: TelemetrySample)
    requires samples == [] || (LatestIsZero(samples) <==> OnlyZero(samples))
    requires x.sequence == 0 ==> samples == [] || LatestIsZero(samples)
    ensures LatestIsZero(samples + [x]) <==> OnlyZero(samples + [x])
  {
    OneMoreTracked(samples, x);
    if samples == [] {
      assert samples + [x] == [x];
    } else {
      LatestIsSome(samples, |samples|);
      StaysOnlyZero(samples, x);
    }
  }

  lemma {:induction false} LatestInSegment(results: seq<DecodeResult>, n: nat)
    requires n <= |results|
    ensures var samples := AfterResults(results, n).samples;
      samples == [] || (LatestIsZero(samples) <==> OnlyZero(samples))
    decreases n
  {
    if n > 0 {
      LatestInSegment(results, n - 1);
      if results[n - 1].Sample? {
        var samples, x := AfterResults(results, n - 1).samples, results[n - 1].sample;
        if RestartsAt(results, n - 1) {
          LatestIsZeroAfter([], x);
          assert [] + [x] == [x];
        } else {
          if samples != [] { LatestIsSome(samples, |samples|); }
          LatestIsZeroAfter(samples, x);
        }
      }
    }
  }

  /** A sample restarts the stream exactly when its sequence number is zero after samples other than a zero
      and numbers too far ahead of it to count, or its time more than a second before the previous one's. */
  lemma RestartExactlyWhen(results: seq<DecodeResult>, n: nat)
    requires n < |results| && results[n].Sample?
    ensures var samples, x := AfterResults(results, n).samples, results[n].sample;
      RestartsAt(results, n) <==>
        samples != []
        && ((x.sequence == 0 && !OnlyZero(samples)) || x.timestampUs + 1_000_000 < samples[|samples| - 1].timestampUs)
  {
    var samples := AfterResults(results, n).samples;
    LatestInSegment(results, n);
    if samples != [] { LatestIsSome(samples, |samples|); }
  }

  /** Samples of one flight as they arrive: at most the first has the sequence number zero, and none is more
      than a second older than the one before it. */
  predicate OneFlight(samples: seq<TelemetrySample>) {
    && (forall i :: 0 < i < |samples| ==> samples[i].sequence != 0)
    && (forall i :: 0 < i < |samples| ==> samples[i - 1].timestampUs <= samples[i].timestampUs + 1_000_000)
  }

  // Any order of samples within a second of each other is such an arrival.
  lemma WithinASecond(samples: seq<TelemetrySample>)
    requires forall i :: 0 < i < |samples| ==> samples[i].sequence != 0
    requires forall i, j :: 0 <= i < |samples| && 0 <= j < |samples| ==>
      samples[i].timestampUs <= samples[j].timestampUs + 1_000_000
    ensures OneFlight(samples)
  {}

  lemma FlightGoesOn(samples: seq<TelemetrySample>, x: TelemetrySample)
    requires OneFlight(samples + [x])
    ensures OneFlight(samples) && !Restarts(TrackingOf(samples), LatestTimestamp(samples), x)
  {
    var all := samples + [x];
    assert forall i :: 0 <= i < |samples| ==> all[i] == samples[i];
    assert all[|samples|] == x;
  }

  lemma {:induction false} FlightIsWhole(results: seq<DecodeResult>, n: nat)
    requires n <= |results| && OneFlight(Decoded(results, 0, n))
    ensures AfterResults(results, n) == Segment(Decoded(results, 0, n), n - |Decoded(results, 0, n)|)
    decreases n
  {
    if n > 0 {
      if results[n - 1].Sample? {
        FlightGoesOn(Decoded(results, 0, n - 1), results[n - 1].sample);
      }
      FlightIsWhole(results, n - 1);
    }
  }

  /** Such samples never restart the stream, however they are reordered and whatever is rejected between them:
      the segment is all of them, and the loss metrics are the tracker's over all of them. */
  lemma {:induction false} FlightIsOneSegment(results: seq<DecodeResult>)
    requires OneFlight(Decoded(results, 0, |results|))
    ensures forall k: nat :: k < |results| ==> !RestartsAt(results, k)
    ensures var s, all := AfterResults(results, |results|), Decoded(results, 0, |results|);
      var t := Tracked(Sequences(all), |all|);
      s.samples == all
      && MetricsOf(s) == StreamMetrics(|results|, |all|, |results| - |all|, t.lost, t.reordered)
  {
    FlightIsWhole(results, |results|);
    forall k: nat | k < |results| ensures !RestartsAt(results, k) {
      NeverRestarts(results, k, |results|);
    }
  }

  lemma {:induction false} NeverRestarts(results: seq<DecodeResult>, k: nat, n: nat)
    requires k < n <= |results| && OneFlight(Decoded(results, 0, n))
    ensures !RestartsAt(results, k)
    decreases n
  {
    if results[n - 1].Sample? { FlightGoesOn(Decoded(results, 0, n - 1), results[n - 1].sample); }
    if k < n - 1 {
      NeverRestarts(results, k, n - 1);
    } else {
      FlightIsWhole(results, k);
    }
  }
}
