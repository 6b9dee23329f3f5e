/** The generator's step loop over the network: every step numbers a packet, some are dropped on purpose,
    and what the tracker at the far end reports as lost. */
module Generator {
  import opened AscendingLists
  import opened Attitude
  import opened Binary
  import opened ControlServer
  import opened ControlText
  import opened Options
  import opened Sequence
  import opened Flight
  import opened FlightRun
  import opened FlightProgress
  import ServerDecoder
  import Wire

  // What becomes of a packet that is not dropped on purpose: refused by the full queue, failed in
  // sendto, lost by the network, altered on the way and therefore rejected, or accepted. Packets that
  // arrive do so in order.
  datatype Outcome = Refused | Failed | Lost | Corrupted | Delivered

  // step_count counts from one.
  predicate IntentionalDrop(flags: uint32, stepCount: nat) {
    Has(flags, PacketLoss) && stepCount % 10 == 0
  }

  // The packet of step i reaches the tracker.
  predicate Arrives(flags: nat -> uint32, outcome: nat -> Outcome, i: nat) {
    !IntentionalDrop(flags(i), i + 1) && outcome(i).Delivered?
  }

  // The steps below n whose packets arrive, in order.
  function Arrived(flags: nat -> uint32, outcome: nat -> Outcome, n: nat): seq<nat>
    decreases n
  {
    if n == 0 then []
    else if Arrives(flags, outcome, n - 1) then Arrived(flags, outcome, n - 1) + [n - 1]
    else Arrived(flags, outcome, n - 1)
  }

  /** Arrived holds the arriving steps below n and no others, each once and in order. */
  lemma {:induction false} ArrivedExactly(flags: nat -> uint32, outcome: nat -> Outcome, n: nat)
    ensures forall i: nat :: i in Arrived(flags, outcome, n) <==> i < n && Arrives(flags, outcome, i)
    ensures Ascending(Arrived(flags, outcome, n))
    decreases n
  {
    if n > 0 {
      ArrivedExactly(flags, outcome, n - 1);
      var before := Arrived(flags, outcome, n - 1);
      assert forall k :: 0 <= k < |before| ==> before[k] in before;
    }
  }

  // static_cast<std::uint32_t>
  function LowWord(step: nat): uint32 {
    step % MODULUS
  }

  function LowWords(steps: seq<nat>): (sequences: seq<uint32>)
    ensures |sequences| == |steps|
  {
    seq(|steps|, i requires 0 <= i < |steps| => LowWord(steps[i]))
  }

  function ReportedLost(steps: seq<nat>): nat {
    Tracked(LowWords(steps), |steps|).lost
  }

  // ---------- Lost is what is missing, unless a gap is too long ----------

  // How many numbers between the first and the last of the first n are not among them.
  function Absent(steps: seq<nat>, n: nat): int
    requires 1 <= n <= |steps|
  {
    steps[n - 1] - steps[0] + 1 - n
  }

  ghost predicate ShortGaps(steps: seq<nat>, n: nat)
    requires n <= |steps|
  {
    forall k :: 1 <= k < n ==> steps[k] - steps[k - 1] < HALF
  }

  // The tracker's unwrapped number, counted from the true number of its first packet.
  function Seen(steps: seq<nat>, n: nat): int
    requires 1 <= n <= |steps|
  {
    Unwrapped(LowWords(steps), n) + (steps[0] - LowWord(steps[0]))
  }

  function Reordered(steps: seq<nat>, n: nat): nat
    requires n <= |steps|
  {
    Tracked(LowWords(steps), n).reordered
  }

  // One packet, after a gap g, seen by a tracker that is e behind.
  lemma GapSeen(a: nat, g: nat, u: int, e: int)
    requires g >= 1 && e == a - u && e >= 0 && (e % MODULUS == 0 || e % MODULUS >= HALF)
    ensures var x := Lift(u, LowWord(a + g));
      var e2 := if x > u then a + g - x else e + g;
      && (x > u ==> x - u <= g && x - u < HALF && e2 % MODULUS == 0)
      && (x <= u ==> e2 % MODULUS == 0 || e2 % MODULUS >= HALF)
      && (e == 0 && g < HALF ==> x == a + g)
  {
    var x := Lift(u, LowWord(a + g));
    var d := x - u;
    assert x % MODULUS == (a + g) % MODULUS;
    SameResidue(x, a + g);
    var m :| x == a + g + MODULUS * m;
    assert d == e + g + MODULUS * m;
    ResidueOfDifference(a + g - x, -m);
    if e == 0 && g < HALF {
      LiftIsNearest(u, LowWord(a + g), a + g);
    }
    var q, r := e / MODULUS, e % MODULUS;
    if x > u {
      NearestStep(q, r, g, m, d);
    } else {
      FarStep(e + g, d, m);
    }
  }

  lemma SameResidue(x: int, y: int)
    requires x % MODULUS == y % MODULUS
    ensures exists m :: x == y + MODULUS * m
  {
    assert x == y + MODULUS * (x / MODULUS - y / MODULUS);
  }

  lemma ResidueOfDifference(z: int, m: int)
    requires z == MODULUS * m
    ensures z % MODULUS == 0
  {}

  lemma NearestStep(q: int, r: int, g: int, m: int, d: int)
    requires g >= 1 && 0 <= r < MODULUS && (r == 0 || r >= HALF)
    requires d == MODULUS * q + r + g + MODULUS * m && 0 < d < HALF
    ensures d <= g
  {}

  lemma FarStep(z: int, d: int, m: int)
    requires d == z + MODULUS * m && -HALF <= d <= 0
    ensures z % MODULUS == 0 || z % MODULUS >= HALF
  {}

  lemma LiftShifted(u: int, k: int, sequence: uint32)
    ensures Lift(u + MODULUS * k, sequence) == Lift(u, sequence) + MODULUS * k
  {}

  lemma SeenNext(steps: seq<nat>, n: nat)
    requires 2 <= n <= |steps|
    ensures var u := Seen(steps, n - 1); var x := Lift(u, LowWord(steps[n - 1]));
      && Seen(steps, n) == (if x > u then x else u)
      && Reordered(steps, n) == (if x > u then Reordered(steps, n - 1) else Reordered(steps, n - 1) + 1)
  {
    var words := LowWords(steps);
    var u, k := Unwrapped(words, n - 1), steps[0] / MODULUS;
    assert steps[0] - LowWord(steps[0]) == MODULUS * k;
    LiftShifted(u, k, words[n - 1]);
    LossAccounting(words, n - 1);
    DeltaIsDistance(u, words[n - 1]);
  }

  // The tracker never runs ahead, and what it is behind by, less its reordered count, only grows, from
  // zero, and by something exactly at the gaps of 2^31 or more.
  lemma {:induction false} TrackerLags(steps: seq<nat>, n: nat)
    requires 1 <= n <= |steps| && Ascending(steps)
    ensures var e := steps[n - 1] - Seen(steps, n);
      && e >= 0 && (e % MODULUS == 0 || e % MODULUS >= HALF)
      && e >= Reordered(steps, n) && (e == Reordered(steps, n) <==> ShortGaps(steps, n))
      && (ShortGaps(steps, n) ==> e == 0)
    decreases n
  {
    if n == 1 {
      assert Tracked(LowWords(steps), 0) == FRESH;
    } else {
      TrackerLags(steps, n - 1);
      var a, u := steps[n - 2], Seen(steps, n - 1);
      var g := steps[n - 1] - a;
      GapSeen(a, g, u, a - u);
      SeenNext(steps, n);
      assert ShortGaps(steps, n) <==> ShortGaps(steps, n - 1) && g < HALF;
    }
  }

  lemma AccountedFor(steps: seq<nat>, n: nat)
    requires 1 <= n <= |steps|
    ensures Tracked(LowWords(steps), n).lost == Absent(steps, n) - (steps[n - 1] - Seen(steps, n)) + Reordered(steps, n)
  {
    LossAccounting(LowWords(steps), n);
  }

  /** For packets arriving in order the tracker never reports more than what is missing, and it reports
      exactly that if and only if no gap between accepted packets reaches 2^31 steps. */
  lemma LostIsMissing(steps: seq<nat>)
    requires steps != [] && Ascending(steps)
    ensures ReportedLost(steps) <= Absent(steps, |steps|)
    ensures ReportedLost(steps) == Absent(steps, |steps|) <==> ShortGaps(steps, |steps|)
  {
    TrackerLags(steps, |steps|);
    AccountedFor(steps, |steps|);
  }

  // ---------- What is missing, by cause ----------

  // How many of the packets of steps lo, ..., hi - 1 do not arrive.
  function NotArrived(flags: nat -> uint32, outcome: nat -> Outcome, lo: nat, hi: nat): nat
    decreases hi
  {
    if hi <= lo then 0
    else NotArrived(flags, outcome, lo, hi - 1) + if Arrives(flags, outcome, hi - 1) then 0 else 1
  }

  lemma {:induction false} NotArrivedBelow(flags: nat -> uint32, outcome: nat -> Outcome, n: nat)
    requires Arrived(flags, outcome, n) != []
    ensures var steps := Arrived(flags, outcome, n);
      n - steps[0] == |steps| + NotArrived(flags, outcome, steps[0], n)
    decreases n
  {
    if Arrived(flags, outcome, n - 1) != [] {
      NotArrivedBelow(flags, outcome, n - 1);
    } else {
      assert NotArrived(flags, outcome, n - 1, n - 1) == 0;
    }
  }

  lemma {:induction false} ArrivedUpToLast(flags: nat -> uint32, outcome: nat -> Outcome, n: nat)
    requires Arrived(flags, outcome, n) != []
    ensures var steps := Arrived(flags, outcome, n);
      Arrived(flags, outcome, steps[|steps| - 1] + 1) == steps
    decreases n
  {
    if !Arrives(flags, outcome, n - 1) { ArrivedUpToLast(flags, outcome, n - 1); }
  }

  lemma AbsentIsNotArrived(flags: nat -> uint32, outcome: nat -> Outcome, n: nat)
    requires Arrived(flags, outcome, n) != []
    ensures var steps := Arrived(flags, outcome, n); var last := steps[|steps| - 1];
      Absent(steps, |steps|) == NotArrived(flags, outcome, steps[0], last)
  {
    var steps := Arrived(flags, outcome, n);
    ArrivedUpToLast(flags, outcome, n);
    NotArrivedBelow(flags, outcome, steps[|steps| - 1] + 1);
  }

  // Steps lo, ..., hi - 1 whose packets were dropped on purpose.
  function DroppedSteps(flags: nat -> uint32, lo: nat, hi: nat): nat
    decreases hi
  {
    if hi <= lo then 0
    else DroppedSteps(flags, lo, hi - 1) + if IntentionalDrop(flags(hi - 1), hi) then 1 else 0
  }

  // Steps lo, ..., hi - 1 whose packets were sent on but came to the given end.
  function EndedSteps(flags: nat -> uint32, outcome: nat -> Outcome, end: Outcome, lo: nat, hi: nat): nat
    decreases hi
  {
    if hi <= lo then 0
    else
      EndedSteps(flags, outcome, end, lo, hi - 1)
      + if !IntentionalDrop(flags(hi - 1), hi) && outcome(hi - 1) == end then 1 else 0
  }

  lemma {:induction false} NotArrivedByCause(flags: nat -> uint32, outcome: nat -> Outcome, lo: nat, hi: nat)
    ensures NotArrived(flags, outcome, lo, hi) ==
      DroppedSteps(flags, lo, hi) + EndedSteps(flags, outcome, Refused, lo, hi)
      + EndedSteps(flags, outcome, Failed, lo, hi)
      + EndedSteps(flags, outcome, Lost, lo, hi) + EndedSteps(flags, outcome, Corrupted, lo, hi)
    decreases hi
  {
    if hi > lo { NotArrivedByCause(flags, outcome, lo, hi - 1); }
  }

  // The steps lo, ..., hi - 1 whose packets were dropped on purpose, refused by the queue, failed to send,
  // lost or rejected.
  function MissedSteps(flags: nat -> uint32, outcome: nat -> Outcome, lo: nat, hi: nat): nat {
    DroppedSteps(flags, lo, hi)
    + EndedSteps(flags, outcome, Refused, lo, hi) + EndedSteps(flags, outcome, Failed, lo, hi)
    + EndedSteps(flags, outcome, Lost, lo, hi) + EndedSteps(flags, outcome, Corrupted, lo, hi)
  }

  // Those between the first and the last packet accepted in the first n steps.
  function MissedBetween(flags: nat -> uint32, outcome: nat -> Outcome, n: nat): nat {
    var steps := Arrived(flags, outcome, n);
    if steps == [] then 0 else MissedSteps(flags, outcome, steps[0], steps[|steps| - 1])
  }

  lemma AbsentByCause(flags: nat -> uint32, outcome: nat -> Outcome, n: nat, steps: seq<nat>)
    requires steps == Arrived(flags, outcome, n) && steps != []
    ensures Absent(steps, |steps|) == MissedBetween(flags, outcome, n)
  {
    AbsentIsNotArrived(flags, outcome, n);
    NotArrivedByCause(flags, outcome, steps[0], steps[|steps| - 1]);
  }

  /** For every fault schedule, every fate of the packets and any number of steps: the tracker's lost is the
      number of steps between the first and the last accepted packet that were dropped on purpose, refused by
      the queue, failed to send, lost or rejected, exactly when no gap between accepted packets reaches 2^31. */
  lemma LostByCause(flags: nat -> uint32, outcome: nat -> Outcome, n: nat)
    ensures var steps, missed := Arrived(flags, outcome, n), MissedBetween(flags, outcome, n);
      ReportedLost(steps) <= missed && (ReportedLost(steps) == missed <==> ShortGaps(steps, |steps|))
  {
    var steps := Arrived(flags, outcome, n);
    if steps == [] {
      assert Tracked(LowWords(steps), 0) == FRESH;
    } else {
      ArrivedExactly(flags, outcome, n);
      LostIsMissing(steps);
      AbsentByCause(flags, outcome, n, steps);
    }
  }

  lemma ShortWithinFlight(flags: nat -> uint32, outcome: nat -> Outcome, n: nat)
    requires n <= HALF
    ensures ShortGaps(Arrived(flags, outcome, n), |Arrived(flags, outcome, n)|)
  {
    var steps := Arrived(flags, outcome, n);
    ArrivedExactly(flags, outcome, n);
    forall k | 1 <= k < |steps| ensures steps[k] - steps[k - 1] < HALF {
      assert steps[k] in steps && steps[k - 1] in steps;
    }
  }

  /** A flight is far too short for such a gap: after it, lost is what was missed. */
  lemma LostInFlight(flags: nat -> uint32, outcome: nat -> Outcome, n: nat)
    requires n <= MAXIMUM_STEPS
    ensures Shown(flags, outcome, n).lost == MissedBetween(flags, outcome, n)
  {
    LostByCause(flags, outcome, n);
    ShortWithinFlight(flags, outcome, n);
  }

  /** The tracker alone can miss a gap: of the numbers 0 and 2^31 it reports nothing lost. */
  lemma {:induction false} LongGapGoesUnreported(steps: seq<nat>)
    requires steps == [0, HALF]
    ensures Ascending(steps) && ReportedLost(steps) == 0 && Absent(steps, 2) == HALF - 1
  {
    var words := LowWords(steps);
    assert words == [0, HALF];
    assert Tracked(words, 0) == FRESH;
    assert Tracked(words, 1) == Tracking(Some(0), 0, 0);
    assert Delta(HALF, 0) == HALF;
  }

  // ---------- Packet loss throughout ----------

  lemma {:induction false} EveryTenthDropped(flags: nat -> uint32, outcome: nat -> Outcome, n: nat)
    requires forall i: nat :: i < n ==> Has(flags(i), PacketLoss) && outcome(i).Delivered?
    ensures NotArrived(flags, outcome, 0, n) == n / 10
    decreases n
  {
    if n > 0 {
      EveryTenthDropped(flags, outcome, n - 1);
      assert Arrives(flags, outcome, n - 1) <==> n % 10 != 0;
    }
  }

  lemma ShortGapsExtend(steps: seq<nat>, step: nat)
    requires steps != [] && ShortGaps(steps, |steps|) && step - steps[|steps| - 1] < HALF
    ensures ShortGaps(steps + [step], |steps| + 1)
  {}

  lemma {:induction false} GapsOfOneOrTwo(flags: nat -> uint32, outcome: nat -> Outcome, n: nat)
    requires forall i: nat :: i < n ==> Has(flags(i), PacketLoss) && outcome(i).Delivered?
    ensures var steps := Arrived(flags, outcome, n);
      && ShortGaps(steps, |steps|) && (n > 0 ==> steps != [] && steps[0] == 0)
      && (n > 0 ==> steps[|steps| - 1] == if n % 10 == 0 then n - 2 else n - 1)
    decreases n
  {
    if n > 0 {
      GapsOfOneOrTwo(flags, outcome, n - 1);
      assert Arrives(flags, outcome, n - 1) <==> n % 10 != 0;
      var before := Arrived(flags, outcome, n - 1);
      if n % 10 != 0 && n > 1 { ShortGapsExtend(before, n - 1); }
    }
  }

  /** With packet loss on throughout and nothing else going wrong, lost is the number of multiples of ten
      below the last accepted step (counting steps from one). */
  lemma PacketLossThroughout(flags: nat -> uint32, outcome: nat -> Outcome, n: nat)
    requires forall i: nat :: i < n ==> Has(flags(i), PacketLoss) && outcome(i).Delivered?
    requires n > 0
    ensures var steps := Arrived(flags, outcome, n);
      steps != [] && ReportedLost(steps) == (steps[|steps| - 1] + 1) / 10
  {
    var steps := Arrived(flags, outcome, n);
    GapsOfOneOrTwo(flags, outcome, n);
    ArrivedExactly(flags, outcome, n);
    LostIsMissing(steps);
    AbsentIsNotArrived(flags, outcome, n);
    EveryTenthDropped(flags, outcome, steps[|steps| - 1]);
    assert Arrives(flags, outcome, steps[|steps| - 1]);
  }

  // ---------- Packets ----------

  /** A packet that arrives unaltered shows the server the record of its step: the sequence number, the
      phase and every other field. */
  lemma PacketCarriesRecord(t: Wire.Telemetry)
    requires t.missionPhase <= 5 && ServerDecoder.FloatsFinite(t)
    ensures ServerDecoder.DecodeTelemetry(Wire.Serialize(t))
         == ServerDecoder.Sample(ServerDecoder.ViewOf(t, ServerDecoder.PHASES[t.missionPhase]))
    ensures ServerDecoder.ViewOf(t, ServerDecoder.PHASES[t.missionPhase]).sequence == t.sequence
  {
    Wire.DeserializeSerialize(t);
    ServerDecoder.DecodersAgree(Wire.Serialize(t));
  }

  /** The packet --corrupt-once alters, like any whose twenty-first byte is changed, is rejected. */
  lemma CorruptOnceIsRejected(t: Wire.Telemetry, b: uint8)
    requires Wire.Serialize(t)[20] != b
    ensures var altered := Wire.Serialize(t)[20 := b];
      Wire.Deserialize(altered).Rejected? && ServerDecoder.DecodeTelemetry(altered).Refused?
  {
    Wire.DeserializeSerialize(t);
    ServerDecoder.BothRejectAlteredPackets(Wire.Serialize(t), Wire.Serialize(t)[20 := b], 20);
  }

  // ---------- The loop ----------

  function LossSchedule(flags: nat -> uint32): nat -> bool {
    (i: nat) => Has(flags(i), ThrusterLoss)
  }

  // What the tracker holds after the packets of the first n steps.
  function Shown(flags: nat -> uint32, outcome: nat -> Outcome, n: nat): Tracking {
    var steps := Arrived(flags, outcome, n);
    Tracked(LowWords(steps), |steps|)
  }

  lemma OneMoreShown(flags: nat -> uint32, outcome: nat -> Outcome, n: nat)
    requires n > 0 && Arrives(flags, outcome, n - 1)
    ensures Shown(flags, outcome, n) == Observed(Shown(flags, outcome, n - 1), LowWord(n - 1))
  {
    var steps := Arrived(flags, outcome, n - 1);
    assert LowWords(steps + [n - 1]) == LowWords(steps) + [LowWord(n - 1)];
    TrackedExtended(LowWords(steps), LowWord(n - 1));
  }

  ghost predicate InTime(r: FlightRun.Run, n: nat) {
    n as real + Rank(r.path(n)) <= MAXIMUM_STEPS as real && Rank(r.path(n)) >= 0.0
  }

  lemma StaysInTime(r: FlightRun.Run, n: nat)
    requires IsDefaultRun(r) && InTime(r, n) && !r.path(n).phase.Landed?
    ensures InTime(r, n + 1) && n < MAXIMUM_STEPS && StepsOn(r, n)
  {
    RankFalls(r, n);
  }

  // The packet of the step just taken.
  method Send(tracker: SequenceTracker, flags: nat -> uint32, outcome: nat -> Outcome, stepCount: nat)
    requires stepCount > 0
    requires tracker.Value() == Shown(flags, outcome, stepCount - 1)
    modifies tracker
    ensures tracker.Value() == Shown(flags, outcome, stepCount)
  {
    var sequence := LowWord(stepCount - 1);
    var intentionalDrop := IntentionalDrop(flags(stepCount - 1), stepCount);
    if !intentionalDrop && outcome(stepCount - 1).Delivered? {
      OneMoreShown(flags, outcome, stepCount);
      tracker.Observe(sequence);
    }
  }

  // One simulation step under the fault flags just loaded.
  method Advance(simulation: FlightSimulation, lib: Library, faultFlags: uint32)
    requires simulation.Valid() && simulation.config == DEFAULT && Exact(lib)
    modifies simulation
    ensures simulation.Valid()
    ensures simulation.state == Next(DEFAULT, lib, old(simulation.state), FIXED_STEP, Has(faultFlags, ThrusterLoss))
  {
    simulation.SetThrusterLoss(Has(faultFlags, ThrusterLoss));
    simulation.Step(lib, FIXED_STEP);
  }

  /** The main loop. Whatever flags the control server holds at each step and whatever becomes of the
      packets, it follows the run of the thruster-loss flags, shows the tracker exactly the packets that
      arrive, so that lost is what was missed between the first and the last of them, and without a step
      limit it ends, landed. */
  method Run(simulation: FlightSimulation, tracker: SequenceTracker, lib: Library,
             flags: nat -> uint32, outcome: nat -> Outcome, networkEnabled: bool, maximumSteps: nat,
             ghost r: FlightRun.Run)
    returns (stepCount: nat)
    requires IsDefaultRun(r) && r.lib == lib && r.schedule == LossSchedule(flags)
    requires simulation.config == DEFAULT && simulation.state == Initial(DEFAULT)
    requires tracker.Value() == FRESH
    modifies simulation, tracker
    ensures simulation.state == r.path(stepCount)
    ensures stepCount <= MAXIMUM_STEPS && (maximumSteps > 0 ==> stepCount <= maximumSteps)
    ensures simulation.state.phase.Landed? || (maximumSteps > 0 && stepCount == maximumSteps)
    ensures tracker.Value() == if networkEnabled then Shown(flags, outcome, stepCount) else FRESH
    ensures networkEnabled ==> tracker.lost == MissedBetween(flags, outcome, stepCount)
  {
    stepCount := 0;
    while !simulation.state.phase.Landed? && (maximumSteps == 0 || stepCount < maximumSteps)
      invariant simulation.state == r.path(stepCount) && simulation.Valid()
      invariant InTime(r, stepCount)
      invariant maximumSteps > 0 ==> stepCount <= maximumSteps
      invariant tracker.Value() == if networkEnabled then Shown(flags, outcome, stepCount) else FRESH
      decreases MAXIMUM_STEPS - stepCount
    {
      StaysInTime(r, stepCount);
      var faultFlags := flags(stepCount);
      Advance(simulation, lib, faultFlags);
      stepCount := stepCount + 1;
      if networkEnabled { Send(tracker, flags, outcome, stepCount); }
    }
    LostInFlight(flags, outcome, stepCount);
  }
}
