/** A flight from the step loop through the transmitter's two threads to the tracker. */
module Delivery {
  import opened Binary
  import opened Generator
  import opened Packets
  import opened Transmitter
  import opened TransmitterSteps

  lemma Reached(s: State<nat>, capacity: nat, events: seq<Event<nat>>) returns (t: State<nat>)
    requires Initial(s, capacity) && Possible(s, events)
    ensures t == After(s, events) && Inv(t)
  {
    InitialInv(s, capacity);
    RunKeepsInv(s, events);
    t := After(s, events);
  }

  /** A whole flight, end to end: for every interleaving of the two threads, every result of sendto and every
      network that keeps the order, once stop has returned the tracker's lost is the number of steps between
      the first and the last accepted packet that were dropped on purpose, refused by the queue, failed in
      sendto, lost or rejected; and the printed queue_dropped and send_errors count the steps that were
      refused and that failed. */
  lemma LostEndToEnd(s: State<nat>, capacity: nat, events: seq<Event<nat>>, flags: nat -> uint32, n: nat,
                     net: nat -> Outcome)
    requires Initial(s, capacity) && Possible(s, events) && After(s, events).worker.Gone?
    requires After(s, events).tried == Offered(flags, n) && n <= FlightProgress.MAXIMUM_STEPS && IsNetwork(net)
    ensures var t := After(s, events);
      && |t.tried| == |t.pushes| && |t.sends| <= |t.ring.popped|
      && ReportedLost(Surviving(OnTheWire(t), net)) == MissedBetween(flags, OutcomeOf(t, net), n)
      && t.dropped == EndedSteps(flags, OutcomeOf(t, net), Refused, 0, n)
      && t.errors == EndedSteps(flags, OutcomeOf(t, net), Failed, 0, n)
  {
    var t := Reached(s, capacity, events);
    ArrivedSurvived(t, flags, n, net);
    CountersByCause(t, flags, n, net);
    LostInFlight(flags, OutcomeOf(t, net), n);
  }

  // ---------- Every flight can end ----------

  lemma {:induction false} CanOffer(s: State<nat>, capacity: nat, flags: nat -> uint32, n: nat)
    returns (events: seq<Event<nat>>)
    requires Initial(s, capacity)
    ensures Possible(s, events)
    ensures After(s, events).sender.Ready? && After(s, events).tried == Offered(flags, n)
    decreases n
  {
    if n == 0 {
      events := [];
    } else {
      events := CanOffer(s, capacity, flags, n - 1);
      if !IntentionalDrop(flags(n - 1), n) {
        var t := Reached(s, capacity, events);
        NextKeepsInv(t, TrySend(n - 1));
        var more := CanPush(Next(t, TrySend(n - 1)));
        OneEvent(t, TrySend(n - 1), more);
        AfterAppend(s, events, [TrySend(n - 1)] + more);
        events := events + ([TrySend(n - 1)] + more);
      }
    }
  }

  /** From every initial state and for every schedule there is an interleaving that gives try_send the packets
      of n steps and ends with the worker gone, so LostEndToEnd is about something. */
  lemma CanFinish(s: State<nat>, capacity: nat, flags: nat -> uint32, n: nat) returns (events: seq<Event<nat>>)
    requires Initial(s, capacity)
    ensures Possible(s, events)
    ensures After(s, events).worker.Gone? && After(s, events).tried == Offered(flags, n)
  {
    events := CanOffer(s, capacity, flags, n);
    var t := Reached(s, capacity, events);
    NextKeepsInv(t, Stop);
    var more := CanDrain(Next(t, Stop));
    OneEvent(t, Stop, more);
    AfterAppend(s, events, [Stop] + more);
    events := events + ([Stop] + more);
  }
}
