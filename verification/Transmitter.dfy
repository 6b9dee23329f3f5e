/** The UDP transmitter: the simulation thread queues packets and finally stops, the worker thread sends
    what it finds and drains the queue before it leaves. */
module Transmitter {
  import opened Spsc
  import opened TransmitterSteps

  // ---------- Whole runs ----------

  /** At every moment of every interleaving each accepted packet is counted once: in the queue, in the
      worker's hands, sent, or failed. */
  lemma PacketsAreConserved<T>(s: State<T>, capacity: nat, events: seq<Event<T>>)
    requires Initial(s, capacity) && Possible(s, events)
    ensures var t := After(s, events);
      && |t.ring.popped| <= |t.ring.pushed|
      && t.queued + NotYetQueued(t) == |Queue(t.ring)| + InHand(t) + t.sent + t.errors
  {
    InitialInv(s, capacity);
    RunKeepsInv(s, events);
    Balances(After(s, events));
  }

  /** Each counter counts its own outcome: queued the accepted pushes, queue_dropped the refused ones, sent
      the complete sends and send_errors the others, but for one not counted yet. */
  lemma CountersTellOutcomes<T>(s: State<T>, capacity: nat, events: seq<Event<T>>)
    requires Initial(s, capacity) && Possible(s, events)
    ensures Counted(After(s, events))
  {
    InitialInv(s, capacity);
    RunKeepsInv(s, events);
  }

  /** When the worker is gone nothing is left behind: the queue is empty, every packet pushed was popped,
      and each was sent or counted as an error. */
  lemma NothingIsStranded<T>(s: State<T>, capacity: nat, events: seq<Event<T>>)
    requires Initial(s, capacity) && Possible(s, events) && After(s, events).worker.Gone?
    ensures var t := After(s, events); t.ring.popped == t.ring.pushed && t.queued == t.sent + t.errors
  {
    InitialInv(s, capacity);
    RunKeepsInv(s, events);
    GoneMeansDone(After(s, events));
  }

  /** Packets leave in the order of the try_send calls: what is popped is the beginning of what try_push
      accepted, and what is on the wire is what sendto completed of that. */
  lemma PacketsLeaveInOrder<T>(s: State<T>, capacity: nat, events: seq<Event<T>>)
    requires Initial(s, capacity) && Possible(s, events)
    ensures var t := After(s, events);
      && |t.tried| == |t.pushes| && t.ring.popped <= Picked(t.tried, t.pushes) && |t.sends| <= |t.ring.popped|
      && (t.worker.Gone? ==>
           var accepted := Picked(t.tried, t.pushes);
           |t.sends| == |accepted| && OnTheWire(t) == Picked(accepted, t.sends))
  {
    InitialInv(s, capacity);
    RunKeepsInv(s, events);
    InOrder(After(s, events));
  }

  // ---------- Draining ----------

  /** After stop has stored running, only the worker moves, and it makes at most Remaining steps whatever
      the outcomes of its sends. */
  lemma {:induction false} DrainIsBounded<T>(s: State<T>, events: seq<Event<T>>)
    requires Inv(s) && s.sender.Stopped? && Possible(s, events)
    ensures Inv(After(s, events)) && After(s, events).sender.Stopped?
    ensures |events| + Remaining(After(s, events)) <= Remaining(s)
    decreases |events|
  {
    if events != [] {
      WorkerGetsOn(s, events[0]);
      DrainIsBounded(Next(s, events[0]), events[1..]);
    }
  }

  lemma CanMove<T>(s: State<T>)
    requires |s.ring.storage| > 0 && (s.sender.Pushing? <==> !s.ring.producer.ProducerIdle?)
    requires s.ring.producer.Writing? ==> s.ring.producer.head < |s.ring.storage|
    requires s.ring.consumer.Reading? ==> s.ring.consumer.tail < |s.ring.storage|
    ensures s.sender.Stopped? || Enabled(s, SenderEvent(s))
    ensures s.worker.Gone? || Enabled(s, WorkerEvent(s))
  {}

  /** Neither thread ever waits for the other: a sender that has not stopped and a worker that is not gone
      can always take their next step, so the join that ends stop returns. */
  lemma NeverStuck<T>(s: State<T>)
    requires Inv(s)
    ensures s.sender.Stopped? || Enabled(s, SenderEvent(s))
    ensures s.worker.Gone? || Enabled(s, WorkerEvent(s))
  {
    SlotsExist(s.ring);
    CanMove(s);
  }

  lemma {:induction false} StorageStays<T>(s: State<T>, events: seq<Event<T>>)
    requires Possible(s, events)
    ensures |After(s, events).ring.storage| == |s.ring.storage|
    decreases |events|
  {
    if events != [] { StorageStays(Next(s, events[0]), events[1..]); }
  }

  /** From every reachable state in which the sender has stopped, whatever its sends return the worker makes at
      most 20 steps for each slot and 13 more; and when no step is left the worker is gone, the queue is empty
      and every queued packet was sent or counted as an error. */
  lemma StopDrains<T(!new)>(s: State<T>, capacity: nat, events: seq<Event<T>>, more: seq<Event<T>>)
    requires Initial(s, capacity) && Possible(s, events) && After(s, events).sender.Stopped?
    requires Possible(After(s, events), more)
    ensures |more| <= 20 * capacity + 13
    ensures var t := After(After(s, events), more);
      (forall e :: !Enabled(t, e)) ==>
        t.worker.Gone? && t.ring.popped == t.ring.pushed && t.queued == t.sent + t.errors
  {
    InitialInv(s, capacity);
    RunKeepsInv(s, events);
    StorageStays(s, events);
    var u := After(s, events);
    DrainIsBounded(u, more);
    var t := After(u, more);
    NeverStuck(t);
    if t.worker.Gone? { GoneMeansDone(t); }
  }

  // ---------- Runs to an end ----------

  lemma {:induction false} AfterAppend<T>(s: State<T>, a: seq<Event<T>>, b: seq<Event<T>>)
    requires Possible(s, a) && Possible(After(s, a), b)
    ensures Possible(s, a + b) && After(s, a + b) == After(After(s, a), b)
    decreases |a|
  {
    if a == [] {
      assert a + b == b;
    } else {
      assert (a + b)[0] == a[0] && (a + b)[1..] == a[1..] + b;
      AfterAppend(Next(s, a[0]), a[1..], b);
    }
  }

  lemma OneEvent<T>(s: State<T>, e: Event<T>, more: seq<Event<T>>)
    requires Enabled(s, e) && Possible(Next(s, e), more)
    ensures Possible(s, [e] + more) && After(s, [e] + more) == After(Next(s, e), more)
  {
    assert ([e] + more)[1..] == more;
  }

  /** Once the sender has stopped there is a run in which the worker leaves. */
  lemma {:induction false} CanDrain<T>(s: State<T>) returns (events: seq<Event<T>>)
    requires Inv(s) && s.sender.Stopped?
    ensures Possible(s, events) && After(s, events).worker.Gone? && After(s, events).tried == s.tried
    decreases Remaining(s)
  {
    if s.worker.Gone? {
      events := [];
    } else {
      var e := WorkerEvent(s);
      NeverStuck(s);
      WorkerGetsOn(s, e);
      var more := CanDrain(Next(s, e));
      OneEvent(s, e, more);
      events := [e] + more;
    }
  }

  // How many steps of try_push are left at most.
  function PushSteps<T>(r: Ring<T>): nat {
    match r.producer
    case ProducerIdle => 0
    case HeadLoaded(_, _) => 3
    case Writing(_, _) => 2
    case Written(_, _) => 1
  }

  lemma PushGetsOn<T>(s: State<T>, t: State<T>)
    requires s.sender.Pushing? && Enabled(s, Push) && t == Next(s, Push)
    ensures t.running == s.running && PushSteps(t.ring) < PushSteps(s.ring)
    ensures if t.sender.Pushing? then t.tried == s.tried && t.ring.producer.value == s.ring.producer.value
            else t.sender.Uncounted? && t.tried == s.tried + [s.ring.producer.value]
  {}

  lemma {:induction false} CanPush<T>(s: State<T>) returns (events: seq<Event<T>>)
    requires Inv(s) && s.sender.Pushing?
    ensures Possible(s, events)
    ensures After(s, events).sender.Ready? && After(s, events).tried == s.tried + [s.ring.producer.value]
    decreases PushSteps(s.ring)
  {
    NeverStuck(s);
    var t := Next(s, Push);
    NextKeepsInv(s, Push);
    PushGetsOn(s, t);
    if t.sender.Pushing? {
      var more := CanPush(t);
      OneEvent(s, Push, more);
      events := [Push] + more;
    } else {
      NextKeepsInv(t, Count);
      OneEvent(t, Count, []);
      OneEvent(s, Push, [Count] + []);
      events := [Push] + ([Count] + []);
    }
  }
}
