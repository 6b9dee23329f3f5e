/** The dashboard's stream handler: messages collect in a batch that is shown once per animation frame.
    The updater passed to setSamples is treated as running at the call. */
module UseTelemetry {
  import opened CircularBuffer
  import opened MissionEvents
  import opened Options
  import opened ServerDecoder
  import opened TelemetryServer
  import opened TelemetryUtils

  const MAX_CLIENT_SAMPLES := 2000

  // samples and metrics are the component's state; the rest belongs to the batch.
  datatype Hook = Hook(
    samples: seq<TelemetrySample>, metrics: StreamMetrics,
    pending: seq<TelemetrySample>, replaceWithHistory: bool, pendingMetrics: Option<StreamMetrics>,
    latestSample: Option<TelemetrySample>, latestRetainedSample: Option<TelemetrySample>, frame: bool)

  const IDLE := Hook([], NO_METRICS, [], false, None, None, None, false)

  datatype Event = Message(message: ServerMessage) | Frame

  function Taken(h: Hook, sample: TelemetrySample): Hook {
    var t := if StartsNewFlight(h.latestSample, sample)
      then h.(pending := [], latestRetainedSample := None, replaceWithHistory := true) else h;
    var u := if ShouldRetain(t.latestRetainedSample, sample, STRIDE)
      then t.(pending := t.pending + [sample], latestRetainedSample := Some(sample)) else t;
    u.(latestSample := Some(sample))
  }

  function Received(h: Hook, message: ServerMessage): Hook {
    var t := match message
      case History(samples, _) =>
        var pending := LastOf(Shown(samples, STRIDE), MAX_CLIENT_SAMPLES);
        h.(latestSample := LastSample(samples), pending := pending, latestRetainedSample := LastSample(pending),
           replaceWithHistory := true)
      case Reset(_) => h.(pending := [], latestSample := None, latestRetainedSample := None, replaceWithHistory := true)
      case Telemetry(sample, _) => Taken(h, sample);
    t.(pendingMetrics := Some(message.metrics), frame := true)
  }

  function Flushed(h: Hook): Hook {
    var t := h.(frame := false);
    var u := if t.replaceWithHistory || t.pending != []
      then t.(samples := if t.replaceWithHistory then LastOf(t.pending, MAX_CLIENT_SAMPLES)
                         else LastOf(t.samples + t.pending, MAX_CLIENT_SAMPLES),
              pending := [], replaceWithHistory := false)
      else t;
    if u.pendingMetrics.Some? then u.(metrics := u.pendingMetrics.value, pendingMetrics := None) else u
  }

  class TelemetryHook {
    var samples: seq<TelemetrySample>
    var metrics: StreamMetrics
    var pending: seq<TelemetrySample>
    var replaceWithHistory: bool
    var pendingMetrics: Option<StreamMetrics>
    var latestSample: Option<TelemetrySample>
    var latestRetainedSample: Option<TelemetrySample>
    var frame: bool

    ghost function Value(): Hook
      reads this
    {
      Hook(samples, metrics, pending, replaceWithHistory, pendingMetrics, latestSample, latestRetainedSample, frame)
    }

    constructor ()
      ensures Value() == IDLE
    {
      samples, metrics := [], NO_METRICS;
      pending, replaceWithHistory, pendingMetrics := [], false, None;
      latestSample, latestRetainedSample, frame := None, None, false;
    }

    method Flush()
      modifies this
      ensures Value() == Flushed(old(Value()))
      ensures forall v :: Shows(old(Value()), v) ==>
        Shows(Value(), v) && samples == LastOf(v.samples, MAX_CLIENT_SAMPLES) && metrics == v.metrics
    {
      frame := false;
      if replaceWithHistory || pending != [] {
        var incoming := pending;
        pending := [];
        samples := if replaceWithHistory then LastOf(incoming, MAX_CLIENT_SAMPLES)
                   else LastOf(samples + incoming, MAX_CLIENT_SAMPLES);
        replaceWithHistory := false;
      }
      if pendingMetrics.Some? {
        metrics := pendingMetrics.value;
        pendingMetrics := None;
      }
      forall v | Shows(old(Value()), v)
        ensures Shows(Value(), v) && samples == LastOf(v.samples, MAX_CLIENT_SAMPLES) && metrics == v.metrics
      {
        FlushShown(old(Value()), v);
      }
    }

    method OnMessage(message: ServerMessage)
      modifies this
      ensures Value() == Received(old(Value()), message)
      ensures forall v :: Shows(old(Value()), v) ==> Shows(Value(), Reduced(v, message))
    {
      match message {
        case History(history, _) =>
          latestSample := LastSample(history);
          var displayed := DisplaySamples(history, STRIDE);
          pending := LastOf(displayed, MAX_CLIENT_SAMPLES);
          latestRetainedSample := LastSample(pending);
          replaceWithHistory := true;
        case Reset(_) =>
          pending := [];
          latestSample := None;
          latestRetainedSample := None;
          replaceWithHistory := true;
        case Telemetry(sample, _) =>
          if StartsNewFlight(latestSample, sample) {
            pending := [];
            latestRetainedSample := None;
            replaceWithHistory := true;
          }
          if ShouldRetain(latestRetainedSample, sample, STRIDE) {
            pending := pending + [sample];
            latestRetainedSample := Some(sample);
          }
          latestSample := Some(sample);
      }
      pendingMetrics := Some(message.metrics);
      if !frame { frame := true; }
      forall v | Shows(old(Value()), v) ensures Shows(Value(), Reduced(v, message)) {
        MessageShown(old(Value()), v, message);
      }
    }
  }

  // ---------- The stream without batches ----------

  // What a reducer that applies every message at once, and never forgets, would hold.
  datatype View = View(samples: seq<TelemetrySample>, latest: Option<TelemetrySample>, metrics: StreamMetrics)

  const EMPTY_VIEW := View([], None, NO_METRICS)

  function Reduced(v: View, message: ServerMessage): View {
    match message
    case History(samples, metrics) => View(Shown(samples, STRIDE), LastSample(samples), metrics)
    case Reset(metrics) => View([], None, metrics)
    case Telemetry(sample, metrics) =>
      var base := if StartsNewFlight(v.latest, sample) then [] else v.samples;
      View(if ShouldRetain(LastSample(base), sample, STRIDE) then base + [sample] else base, Some(sample), metrics)
  }

  // ---------- Batching is invisible ----------

  // What the next flush will show.
  function Due(h: Hook): seq<TelemetrySample> {
    if h.replaceWithHistory then h.pending else h.samples + h.pending
  }

  ghost predicate Shows(h: Hook, v: View) {
    && LastOf(Due(h), MAX_CLIENT_SAMPLES) == LastOf(v.samples, MAX_CLIENT_SAMPLES)
    && |h.samples| <= MAX_CLIENT_SAMPLES
    && h.latestSample == v.latest && h.latestRetainedSample == LastSample(v.samples)
    && v.metrics == if h.pendingMetrics.Some? then h.pendingMetrics.value else h.metrics
  }

  lemma LastOfTwice(s: seq<TelemetrySample>, n: nat)
    ensures LastOf(LastOf(s, n), n) == LastOf(s, n)
  {}

  lemma LastSurvives(s: seq<TelemetrySample>, n: nat)
    requires n > 0
    ensures LastSample(LastOf(s, n)) == LastSample(s)
  {}

  lemma LastOfSame(a: seq<TelemetrySample>, b: seq<TelemetrySample>, sample: TelemetrySample, n: nat)
    requires LastOf(a, n) == LastOf(b, n)
    ensures LastOf(a + [sample], n) == LastOf(b + [sample], n)
  {}

  lemma DueAppend(h: Hook, sample: TelemetrySample)
    ensures Due(h.(pending := h.pending + [sample])) == Due(h) + [sample]
  {}

  lemma TelemetryShown(h: Hook, v: View, sample: TelemetrySample, metrics: StreamMetrics)
    requires Shows(h, v)
    ensures Shows(Received(h, Telemetry(sample, metrics)), Reduced(v, Telemetry(sample, metrics)))
  {
    var restarted := StartsNewFlight(h.latestSample, sample);
    var t := if restarted then h.(pending := [], latestRetainedSample := None, replaceWithHistory := true) else h;
    var base := if restarted then [] else v.samples;
    DueAppend(t, sample);
    LastOfSame(Due(t), base, sample, MAX_CLIENT_SAMPLES);
  }

  lemma MessageShown(h: Hook, v: View, message: ServerMessage)
    requires Shows(h, v)
    ensures Shows(Received(h, message), Reduced(v, message))
  {
    match message
    case History(samples, _) =>
      var displayed := Shown(samples, STRIDE);
      LastOfTwice(displayed, MAX_CLIENT_SAMPLES);
      LastSurvives(displayed, MAX_CLIENT_SAMPLES);
    case Reset(_) =>
    case Telemetry(sample, metrics) => TelemetryShown(h, v, sample, metrics);
  }

  lemma FlushShown(h: Hook, v: View)
    requires Shows(h, v)
    ensures Shows(Flushed(h), v)
    ensures Flushed(h).samples == LastOf(v.samples, MAX_CLIENT_SAMPLES) && Flushed(h).metrics == v.metrics
  {}

  function Next(h: Hook, e: Event): Hook {
    match e
    case Message(message) => Received(h, message)
    case Frame => Flushed(h)
  }

  // The hook after the first n of the events.
  function After(events: seq<Event>, n: nat): Hook
    requires n <= |events|
    decreases n
  {
    if n == 0 then IDLE else Next(After(events, n - 1), events[n - 1])
  }

  // The messages among the first n events.
  function Messages(events: seq<Event>, n: nat): seq<ServerMessage>
    requires n <= |events|
    decreases n
  {
    if n == 0 then []
    else Messages(events, n - 1) + MessageOf(events[n - 1])
  }

  function MessageOf(e: Event): seq<ServerMessage> {
    match e
    case Message(message) => [message]
    case Frame => []
  }

  function Unbatched(messages: seq<ServerMessage>): View
    decreases |messages|
  {
    if messages == [] then EMPTY_VIEW
    else Reduced(Unbatched(messages[..|messages| - 1]), messages[|messages| - 1])
  }

  lemma UnbatchedExtend(messages: seq<ServerMessage>, message: ServerMessage)
    ensures Unbatched(messages + [message]) == Reduced(Unbatched(messages), message)
  {}

  function NextView(v: View, e: Event): View {
    match e
    case Message(message) => Reduced(v, message)
    case Frame => v
  }

  lemma EventShown(h: Hook, v: View, e: Event, t: Hook, w: View)
    requires Shows(h, v) && t == Next(h, e) && w == NextView(v, e)
    ensures Shows(t, w)
  {
    match e
    case Message(message) => MessageShown(h, v, message);
    case Frame => FlushShown(h, v);
  }

  lemma UnbatchedStep(messages: seq<ServerMessage>, e: Event)
    ensures Unbatched(messages + MessageOf(e)) == NextView(Unbatched(messages), e)
  {
    match e
    case Message(message) => UnbatchedExtend(messages, message);
    case Frame => assert messages + [] == messages;
  }

  function UnbatchedAt(events: seq<Event>, n: nat): View
    requires n <= |events|
  {
    Unbatched(Messages(events, n))
  }

  lemma UnbatchedAtStep(events: seq<Event>, n: nat, v: View, w: View)
    requires n < |events| && v == UnbatchedAt(events, n) && w == UnbatchedAt(events, n + 1)
    ensures w == NextView(v, events[n])
  {
    UnbatchedStep(Messages(events, n), events[n]);
  }

  ghost predicate ShownAt(events: seq<Event>, n: nat)
    requires n <= |events|
  {
    Shows(After(events, n), UnbatchedAt(events, n))
  }

  lemma NothingShown(events: seq<Event>)
    ensures ShownAt(events, 0)
  {
    assert Messages(events, 0) == [];
  }

  lemma OneMoreShown(events: seq<Event>, n: nat)
    requires 0 < n <= |events| && ShownAt(events, n - 1)
    ensures ShownAt(events, n)
  {
    var seen := UnbatchedAt(events, n - 1);
    UnbatchedAtStep(events, n - 1, seen, UnbatchedAt(events, n));
    EventShown(After(events, n - 1), seen, events[n - 1], After(events, n), UnbatchedAt(events, n));
  }

  lemma {:induction false} EventsShown(events: seq<Event>, n: nat)
    requires n <= |events|
    ensures ShownAt(events, n)
    decreases n
  {
    if n == 0 {
      NothingShown(events);
    } else {
      EventsShown(events, n - 1);
      OneMoreShown(events, n);
    }
  }

  /** Frame batching is invisible: however messages and frames interleave, a flush shows the last 2000
      samples, and the metrics, of the stream reduced message by message. */
  lemma BatchingIsInvisible(events: seq<Event>)
    ensures var shown, v := Flushed(After(events, |events|)), Unbatched(Messages(events, |events|));
      shown.samples == LastOf(v.samples, 2000) && shown.metrics == v.metrics
  {
    EventsShown(events, |events|);
    FlushShown(After(events, |events|), UnbatchedAt(events, |events|));
  }

  /** So two schedules of frames for the same messages agree after a final flush. */
  lemma SchedulesAgree(events: seq<Event>, otherEvents: seq<Event>)
    requires Messages(events, |events|) == Messages(otherEvents, |otherEvents|)
    ensures var s, t := Flushed(After(events, |events|)), Flushed(After(otherEvents, |otherEvents|));
      s.samples == t.samples && s.metrics == t.metrics
  {
    BatchingIsInvisible(events);
    BatchingIsInvisible(otherEvents);
  }

  // ---------- Decimation on arrival ----------

  // The samples of the present flight with none left out.
  function Whole(all: seq<TelemetrySample>, message: ServerMessage): seq<TelemetrySample> {
    match message
    case History(samples, _) => samples
    case Reset(_) => []
    case Telemetry(sample, _) => (if StartsNewFlight(LastSample(all), sample) then [] else all) + [sample]
  }

  function Undecimated(messages: seq<ServerMessage>): seq<TelemetrySample>
    decreases |messages|
  {
    if messages == [] then [] else Whole(Undecimated(messages[..|messages| - 1]), messages[|messages| - 1])
  }

  ghost predicate SameStory(samples: seq<TelemetrySample>, all: seq<TelemetrySample>) {
    && SameLog(LogOf(samples), LogOf(all))
    && (samples == [] <==> all == [])
    && (all != [] ==> SameStatus(samples[|samples| - 1], all[|all| - 1]))
  }

  lemma HistoryStory(samples: seq<TelemetrySample>)
    ensures SameStory(Shown(samples, STRIDE), samples)
  {
    DecimationKeepsLog(samples, STRIDE);
  }

  lemma RetainedStory(samples: seq<TelemetrySample>, all: seq<TelemetrySample>, sample: TelemetrySample)
    requires SameStory(samples, all)
    ensures SameStory(samples + [sample], all + [sample])
  {
    if all != [] {
      EventsExtend(all, sample);
      EventsExtend(samples, sample);
      SameLogStep(LogOf(samples), LogOf(all), samples[|samples| - 1], all[|all| - 1], sample);
    }
  }

  lemma LeftOutStory(samples: seq<TelemetrySample>, all: seq<TelemetrySample>, sample: TelemetrySample)
    requires SameStory(samples, all) && samples != [] && SameStatus(samples[|samples| - 1], sample)
    ensures SameStory(samples, all + [sample])
  {
    SameStatusAtEnd(all, sample);
  }

  lemma TelemetryStory(samples: seq<TelemetrySample>, all: seq<TelemetrySample>, sample: TelemetrySample)
    requires SameStory(samples, all)
    ensures ShouldRetain(LastSample(samples), sample, STRIDE) ==> SameStory(samples + [sample], all + [sample])
    ensures !ShouldRetain(LastSample(samples), sample, STRIDE) ==> SameStory(samples, all + [sample])
  {
    if ShouldRetain(LastSample(samples), sample, STRIDE) {
      RetainedStory(samples, all, sample);
    } else {
      LeftOutStory(samples, all, sample);
    }
  }

  /** The mission log of the decimated stream is that of the whole stream, but for touchdown grades. */
  lemma {:induction false} StreamKeepsLog(messages: seq<ServerMessage>)
    ensures SameStory(Unbatched(messages).samples, Undecimated(messages))
    ensures Unbatched(messages).latest == LastSample(Undecimated(messages))
    decreases |messages|
  {
    if messages != [] {
      var before := messages[..|messages| - 1];
      StreamKeepsLog(before);
      match messages[|messages| - 1]
      case History(samples, _) => HistoryStory(samples);
      case Reset(_) =>
      case Telemetry(sample, _) =>
        var restarted := StartsNewFlight(Unbatched(before).latest, sample);
        TelemetryStory(if restarted then [] else Unbatched(before).samples,
                       if restarted then [] else Undecimated(before), sample);
    }
  }
}
