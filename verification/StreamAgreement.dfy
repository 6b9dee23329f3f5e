/** The server's restart detection against the dashboard's: what a client that joins the stream sees. */
module StreamAgreement {
  import opened Binary
  import opened CircularBuffer
  import opened Options
  import opened Sequence
  import opened ServerDecoder
  import opened TelemetryServer
  import opened TelemetryUtils
  import opened UseTelemetry

  // The messages of a client that joins after joined decoding results, up to the n-th.
  function StreamTo(results: seq<DecodeResult>, joined: nat, n: nat, capacity: nat): seq<ServerMessage>
    requires joined <= n <= |results|
    decreases n
  {
    if n == joined then
      var segment := AfterResults(results, joined);
      [History(LastOf(segment.samples, capacity), MetricsOf(segment))]
    else StreamTo(results, joined, n - 1, capacity) + Broadcast(AfterResults(results, n - 1), results[n - 1])
  }

  // The k-th message makes the client's own restart test fire.
  predicate Fires(messages: seq<ServerMessage>, k: nat)
    requires k < |messages|
  {
    messages[k].Telemetry? && StartsNewFlight(LastSample(Undecimated(messages[..k])), messages[k].sample)
  }

  ghost predicate NeverFires(messages: seq<ServerMessage>) {
    forall k: nat :: k < |messages| ==> !Fires(messages, k)
  }

  ghost predicate Low(samples: seq<TelemetrySample>) {
    forall i :: 0 <= i < |samples| ==> samples[i].sequence < HALF
  }

  ghost predicate AllLow(results: seq<DecodeResult>) {
    forall k :: 0 <= k < |results| && results[k].Sample? ==> results[k].sample.sequence < HALF
  }

  // ---------- Below 2^31 the tracker's latest is the highest ----------

  lemma {:induction false} LatestIsUpperBound(samples: seq<TelemetrySample>)
    requires samples != [] && Low(samples)
    ensures var latest := TrackingOf(samples).latest;
      && latest.Some? && latest.value < HALF
      && forall i :: 0 <= i < |samples| ==> samples[i].sequence <= latest.value
    decreases |samples|
  {
    var n := |samples| - 1;
    var before, last := samples[..n], samples[n];
    assert samples == before + [last];
    OneMoreTracked(before, last);
    if n > 0 {
      LatestIsUpperBound(before);
      forall i | 0 <= i < n ensures samples[i].sequence <= TrackingOf(before).latest.value {
        assert samples[i] == before[i];
      }
      LowDelta(last.sequence, TrackingOf(before).latest.value);
    } else {
      assert TrackingOf(before) == FRESH;
    }
  }

  lemma LowDelta(sequence: uint32, latest: uint32)
    requires sequence < HALF && latest < HALF
    ensures (0 < Delta(sequence, latest) < HALF) == (sequence > latest)
  {}

  // ---------- The step at which a client is on its own ----------

  // The server takes the result for a continuation, and a client that holds the server's newest sample
  // takes it for a new flight.
  predicate TakenForNew(segment: Segment, result: DecodeResult) {
    var samples := segment.samples;
    && result.Sample? && !Restarts(TrackingOf(samples), LatestTimestamp(samples), result.sample)
    && result.sample.sequence == 0 && samples != [] && samples[|samples| - 1].sequence != 0
  }

  lemma TrackedHasLatest(samples: seq<TelemetrySample>)
    requires samples != []
    ensures TrackingOf(samples).latest.Some?
  {
    var n := |samples| - 1;
    assert samples == samples[..n] + [samples[n]];
    OneMoreTracked(samples[..n], samples[n]);
  }

  /** It takes a zero after another number while the tracker's latest is still zero. */
  lemma TakenForNewExactlyWhen(segment: Segment, sample: TelemetrySample)
    ensures TakenForNew(segment, Sample(sample)) <==>
      && segment.samples != [] && sample.sequence == 0 && segment.samples[|segment.samples| - 1].sequence != 0
      && TrackingOf(segment.samples).latest == Some(0)
      && sample.timestampUs + 1_000_000 >= LatestTimestamp(segment.samples).value
  {
    if segment.samples != [] { TrackedHasLatest(segment.samples); }
  }

  /** After a single sample the dashboard's restart test is the server's. */
  lemma SameTestAfterOne(previous: TelemetrySample, current: TelemetrySample)
    ensures StartsNewFlight(Some(previous), current) <==>
      Restarts(TrackingOf([previous]), LatestTimestamp([previous]), current)
  {
    OneMoreTracked([], previous);
    assert [] + [previous] == [previous];
  }

  lemma LowIsNotTakenForNew(segment: Segment, result: DecodeResult)
    requires Low(segment.samples)
    ensures !TakenForNew(segment, result)
  {
    if result.Sample? && segment.samples != [] {
      TakenForNewExactlyWhen(segment, result.sample);
      LatestIsUpperBound(segment.samples);
    }
  }

  // ---------- The joined stream ----------

  // What the client holds is the end of what the server holds, and they agree on the newest sample.
  ghost predicate Follows(client: seq<TelemetrySample>, server: seq<TelemetrySample>) {
    && |client| <= |server| && client == server[|server| - |client|..]
    && (client == [] <==> server == [])
  }

  lemma FollowsExtend(client: seq<TelemetrySample>, server: seq<TelemetrySample>, sample: TelemetrySample)
    requires Follows(client, server)
    ensures LastSample(client) == LastSample(server)
    ensures Follows(client + [sample], server + [sample])
  {}

  lemma UndecimatedExtend(messages: seq<ServerMessage>, message: ServerMessage)
    ensures Undecimated(messages + [message]) == Whole(Undecimated(messages), message)
  {}

  lemma NeverFiresExtend(messages: seq<ServerMessage>, message: ServerMessage)
    ensures NeverFires(messages + [message]) <==>
      && NeverFires(messages)
      && (message.Telemetry? ==> !StartsNewFlight(LastSample(Undecimated(messages)), message.sample))
  {
    var all, n := messages + [message], |messages|;
    forall k: nat | k < n ensures Fires(all, k) <==> Fires(messages, k) {
      assert all[..k] == messages[..k];
    }
    assert all[..n] == messages;
    assert Fires(all, n) <==> message.Telemetry? && StartsNewFlight(LastSample(Undecimated(messages)), message.sample);
    if NeverFires(messages) && !Fires(all, n) {
      forall k: nat | k < |all| ensures !Fires(all, k) {
        if k < n { assert !Fires(messages, k); }
      }
    }
    if NeverFires(all) {
      forall k: nat | k < n ensures !Fires(messages, k) { assert !Fires(all, k); }
    }
  }

  // One broadcast sample, when the server saw no restart.
  lemma Continued(messages: seq<ServerMessage>, samples: seq<TelemetrySample>, sample: TelemetrySample,
                  metrics: StreamMetrics)
    requires Follows(Undecimated(messages), samples)
    ensures var all := messages + [Telemetry(sample, metrics)];
      && Follows(Undecimated(all), samples + [sample])
      && (NeverFires(all) <==> NeverFires(messages) && !StartsNewFlight(LastSample(samples), sample))
  {
    FollowsExtend(Undecimated(messages), samples, sample);
    UndecimatedExtend(messages, Telemetry(sample, metrics));
    NeverFiresExtend(messages, Telemetry(sample, metrics));
  }

  // The reset that precedes a restarting sample clears the client first.
  lemma RestartedCleanly(messages: seq<ServerMessage>, sample: TelemetrySample, metrics: StreamMetrics)
    ensures var all := messages + [Reset(NO_METRICS), Telemetry(sample, metrics)];
      (NeverFires(all) <==> NeverFires(messages)) && Undecimated(all) == [sample]
  {
    var cleared := messages + [Reset(NO_METRICS)];
    UndecimatedExtend(messages, Reset(NO_METRICS));
    NeverFiresExtend(messages, Reset(NO_METRICS));
    UndecimatedExtend(cleared, Telemetry(sample, metrics));
    NeverFiresExtend(cleared, Telemetry(sample, metrics));
    assert messages + [Reset(NO_METRICS), Telemetry(sample, metrics)] == cleared + [Telemetry(sample, metrics)];
  }

  // What one decoding result does to a client that follows the server.
  lemma BroadcastFollowed(messages: seq<ServerMessage>, segment: Segment, result: DecodeResult)
    requires Follows(Undecimated(messages), segment.samples)
    ensures var all := messages + Broadcast(segment, result);
      && Follows(Undecimated(all), Accept(segment, result).samples)
      && (NeverFires(all) <==> NeverFires(messages) && !TakenForNew(segment, result))
  {
    match result
    case Refused(_) =>
      assert messages + [] == messages;
    case Sample(sample) =>
      var metrics := MetricsOf(Continues(segment, sample));
      if Restarts(TrackingOf(segment.samples), LatestTimestamp(segment.samples), sample) {
        RestartedCleanly(messages, sample, metrics);
      } else {
        Continued(messages, segment.samples, sample, metrics);
      }
  }

  lemma JoinFollows(segment: Segment, capacity: nat)
    requires capacity > 0
    ensures var messages := [History(LastOf(segment.samples, capacity), MetricsOf(segment))];
      NeverFires(messages) && Follows(Undecimated(messages), segment.samples)
  {
    var message := History(LastOf(segment.samples, capacity), MetricsOf(segment));
    assert [message][..0] == [];
    assert Undecimated([message]) == Whole(Undecimated([]), message);
    assert forall k: nat :: k < |[message]| ==> [message][k] == message;
  }

  // The k-th result is one that a client takes for a new flight and the server does not.
  predicate TakenAt(results: seq<DecodeResult>, k: nat)
    requires k < |results|
  {
    TakenForNew(AfterResults(results, k), results[k])
  }

  ghost predicate NeverTakenForNew(results: seq<DecodeResult>, joined: nat, n: nat)
    requires joined <= n <= |results|
  {
    forall k: nat :: joined <= k < n ==> !TakenAt(results, k)
  }

  lemma OneMoreResult(results: seq<DecodeResult>, joined: nat, n: nat, capacity: nat,
                      messages: seq<ServerMessage>, segment: Segment)
    requires joined < n <= |results|
    requires messages == StreamTo(results, joined, n - 1, capacity) && segment == AfterResults(results, n - 1)
    ensures StreamTo(results, joined, n, capacity) == messages + Broadcast(segment, results[n - 1])
    ensures AfterResults(results, n) == Accept(segment, results[n - 1])
  {}

  // How a client that has these messages stands to a server that has this segment.
  ghost predicate InStep(results: seq<DecodeResult>, joined: nat, n: nat, messages: seq<ServerMessage>,
                         segment: Segment)
    requires joined <= n <= |results|
  {
    Follows(Undecimated(messages), segment.samples) && (NeverFires(messages) <==> NeverTakenForNew(results, joined, n))
  }

  lemma OneMoreInStep(results: seq<DecodeResult>, joined: nat, n: nat, messages: seq<ServerMessage>, segment: Segment,
                      all: seq<ServerMessage>, after: Segment)
    requires joined < n <= |results| && segment == AfterResults(results, n - 1)
    requires InStep(results, joined, n - 1, messages, segment)
    requires all == messages + Broadcast(segment, results[n - 1]) && after == Accept(segment, results[n - 1])
    ensures InStep(results, joined, n, all, after)
  {
    BroadcastFollowed(messages, segment, results[n - 1]);
    NeverTakenExtend(results, joined, n);
  }

  lemma {:induction false} StreamInStep(results: seq<DecodeResult>, joined: nat, n: nat, capacity: nat,
                                        messages: seq<ServerMessage>, segment: Segment)
    requires joined <= n <= |results| && capacity > 0
    requires messages == StreamTo(results, joined, n, capacity) && segment == AfterResults(results, n)
    ensures InStep(results, joined, n, messages, segment)
    decreases n
  {
    if n == joined {
      JoinFollows(segment, capacity);
    } else {
      var before, served := StreamTo(results, joined, n - 1, capacity), AfterResults(results, n - 1);
      StreamInStep(results, joined, n - 1, capacity, before, served);
      OneMoreResult(results, joined, n, capacity, before, served);
      OneMoreInStep(results, joined, n, before, served, messages, segment);
    }
  }

  /** For every stream of packets, whenever a client joins: what it holds is the end of the server's segment,
      and its own restart test never fires exactly when no packet is a zero that follows another number
      without the server seeing a restart. */
  lemma NeverFiresExactlyWhen(results: seq<DecodeResult>, joined: nat, n: nat, capacity: nat)
    requires joined <= n <= |results| && capacity > 0
    ensures var messages := StreamTo(results, joined, n, capacity);
      && Follows(Undecimated(messages), AfterResults(results, n).samples)
      && (NeverFires(messages) <==> NeverTakenForNew(results, joined, n))
  {
    StreamInStep(results, joined, n, capacity, StreamTo(results, joined, n, capacity), AfterResults(results, n));
  }

  lemma NeverTakenExtend(results: seq<DecodeResult>, joined: nat, n: nat)
    requires joined < n <= |results|
    ensures NeverTakenForNew(results, joined, n) <==>
      NeverTakenForNew(results, joined, n - 1) && !TakenAt(results, n - 1)
  {}

  // ---------- Below 2^31, and above ----------

  lemma {:induction false} SegmentsAreLow(results: seq<DecodeResult>, n: nat)
    requires n <= |results| && AllLow(results)
    ensures Low(AfterResults(results, n).samples)
    decreases n
  {
    if n > 0 { SegmentsAreLow(results, n - 1); }
  }

  /** For sequence numbers below 2^31 the server's reset always comes first. */
  lemma ServerResetComesFirst(results: seq<DecodeResult>, joined: nat, n: nat, capacity: nat)
    requires joined <= n <= |results| && capacity > 0 && AllLow(results)
    ensures NeverFires(StreamTo(results, joined, n, capacity))
  {
    NeverFiresExactlyWhen(results, joined, n, capacity);
    forall k: nat | joined <= k < n ensures !TakenAt(results, k) {
      SegmentsAreLow(results, k);
      LowIsNotTakenForNew(AfterResults(results, k), results[k]);
    }
  }

  lemma {:induction false} TwoAccepted(first: TelemetrySample, second: TelemetrySample, results: seq<DecodeResult>)
    requires |results| >= 2 && results[0] == Sample(first) && results[1] == Sample(second)
    requires first.sequence == 0 && second.sequence == HALF && first.timestampUs == second.timestampUs
    ensures AfterResults(results, 2).samples == [first, second] && TrackingOf([first, second]).latest == Some(0)
  {
    assert TrackingOf([]) == FRESH;
    OneMoreTracked([], first);
    OneMoreTracked([first], second);
    assert [] + [first] == [first] && [first] + [second] == [first, second];
    assert Delta(HALF, 0) == HALF;
    assert AfterResults(results, 0) == NOTHING;
    assert AfterResults(results, 1).samples == [first];
  }

  /** From 2^31 on it can fire: after the numbers 0 and 2^31 the server takes another 0 for a repeat, and
      every client that was there takes it for a new flight. */
  lemma {:induction false} ClientCanFireAlone(first: TelemetrySample, second: TelemetrySample, third: TelemetrySample,
                                              capacity: nat)
    requires first.sequence == 0 && second.sequence == HALF && third.sequence == 0
    requires first.timestampUs == second.timestampUs == third.timestampUs && capacity > 0
    ensures !NeverFires(StreamTo([Sample(first), Sample(second), Sample(third)], 0, 3, capacity))
  {
    var results := [Sample(first), Sample(second), Sample(third)];
    TwoAccepted(first, second, results);
    TakenForNewExactlyWhen(AfterResults(results, 2), third);
    assert TakenAt(results, 2);
    NeverFiresExactlyWhen(results, 0, 3, capacity);
  }
}
