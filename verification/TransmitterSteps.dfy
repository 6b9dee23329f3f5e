/** The two threads of the UDP transmitter as a machine, and what each of its steps keeps: where every packet
    is, that the counters count outcomes up to the one not yet counted, that the order of packets is kept,
    and how much work a step of the worker leaves. The theorems about whole runs are in Transmitter. */
module TransmitterSteps {
  import opened Modular
  import opened Spsc

  // The simulation thread: between calls; in try_push; with the result of try_push not yet counted; after
  // the store that stop begins with.
  datatype Sender = Ready | Pushing | Uncounted(accepted: bool) | Stopped

  // The worker: about to load running; about to load head and then tail in empty(); in try_pop; with a
  // packet to send; with a sendto result not yet counted; gone.
  datatype Worker<T> =
    | AtRunning
    | AtHead
    | AtTail(head: nat)
    | Popping
    | Holding(packet: T)
    | Reporting(packet: T, complete: bool)
    | Gone

  /** History: tried and pushes are the packets given to try_push and its results so far, sends the results of
      sendto. */
  datatype State<T> = State(
    ring: Ring<T>, running: bool, sender: Sender, worker: Worker<T>,
    queued: nat, dropped: nat, sent: nat, errors: nat,
    tried: seq<T>, pushes: seq<bool>, sends: seq<bool>)

  function Tally(results: seq<bool>, value: bool): nat
    decreases |results|
  {
    if results == [] then 0
    else
      var n := |results| - 1;
      Tally(results[..n], value) + if results[n] == value then 1 else 0
  }

  lemma TallyOneMore(results: seq<bool>, result: bool, value: bool)
    ensures Tally(results + [result], value) == Tally(results, value) + if result == value then 1 else 0
  {}

  datatype Event<T> =
    | TrySend(packet: T)    // load running; if it is set, enter try_push
    | Push                  // the next atomic step of try_push
    | Count                 // bump queued or queue_dropped
    | Stop                  // store running
    | LoadRunning
    | LoadHead
    | LoadTail
    | Pop                   // the next atomic step of try_pop
    | SendTo(complete: bool)
    | CountSent             // bump sent or send_errors

  predicate OfWorker<T>(e: Event<T>) {
    e.LoadRunning? || e.LoadHead? || e.LoadTail? || e.Pop? || e.SendTo? || e.CountSent?
  }

  // The step try_push is at after its first, and the one try_pop is at.
  function PushStep<T>(r: Ring<T>): RingStep<T>
    requires !r.producer.ProducerIdle?
  {
    match r.producer
    case HeadLoaded(_, _) => PushCheck
    case Writing(_, _) => PushWrite
    case Written(_, _) => PushPublish
  }

  function PopStep<T>(r: Ring<T>): RingStep<T> {
    match r.consumer
    case ConsumerIdle => PopStart
    case TailLoaded(_) => PopCheck
    case Reading(_) => PopRead
    case Read(_, _) => PopPublish
  }

  predicate Enabled<T>(s: State<T>, e: Event<T>) {
    |s.ring.storage| > 0 &&
    match e
    case TrySend(_) => s.sender.Ready? && s.ring.producer.ProducerIdle?
    case Push => s.sender.Pushing? && !s.ring.producer.ProducerIdle? && RingEnabled(s.ring, PushStep(s.ring))
    case Count => s.sender.Uncounted?
    case Stop => s.sender.Ready?
    case LoadRunning => s.worker.AtRunning?
    case LoadHead => s.worker.AtHead?
    case LoadTail => s.worker.AtTail?
    case Pop => s.worker.Popping? && RingEnabled(s.ring, PopStep(s.ring))
    case SendTo(_) => s.worker.Holding?
    case CountSent => s.worker.Reporting?
  }

  function Next<T>(s: State<T>, e: Event<T>): State<T>
    requires Enabled(s, e)
  {
    match e
    case TrySend(packet) =>
      if !s.running then s
      else s.(ring := RingNext(s.ring, PushStart(packet)), sender := Pushing)
    case Push =>
      var step := PushStep(s.ring);
      var ring := RingNext(s.ring, step);
      if !ring.producer.ProducerIdle? then s.(ring := ring)
      else s.(ring := ring, sender := Uncounted(step.PushPublish?),
              tried := s.tried + [s.ring.producer.value], pushes := s.pushes + [step.PushPublish?])
    case Count =>
      if s.sender.accepted then s.(queued := s.queued + 1, sender := Ready)
      else s.(dropped := s.dropped + 1, sender := Ready)
    case Stop => s.(running := false, sender := Stopped)
    case LoadRunning => s.(worker := if s.running then Popping else AtHead)
    case LoadHead => s.(worker := AtTail(s.ring.head))
    case LoadTail => s.(worker := if s.worker.head == s.ring.tail then Gone else Popping)
    case Pop =>
      var step := PopStep(s.ring);
      var ring := RingNext(s.ring, step);
      s.(ring := ring,
         worker := if step.PopPublish? then Holding(s.ring.consumer.value)
                   else if step.PopCheck? && ring.consumer.ConsumerIdle? then AtRunning else Popping)
    case SendTo(complete) => s.(worker := Reporting(s.worker.packet, complete), sends := s.sends + [complete])
    case CountSent =>
      if s.worker.complete then s.(sent := s.sent + 1, worker := AtRunning)
      else s.(errors := s.errors + 1, worker := AtRunning)
  }

  predicate Initial<T>(s: State<T>, capacity: nat) {
    && RingInitial(s.ring, capacity) && s.running && s.sender.Ready? && s.worker.AtRunning?
    && s.queued == s.dropped == s.sent == s.errors == 0 && s.tried == [] && s.pushes == [] && s.sends == []
  }

  // ---------- The invariant ----------

  function NotYet(c: bool): nat {
    if c then 1 else 0
  }

  function NotYetQueued<T>(s: State<T>): nat {
    NotYet(s.sender == Uncounted(true))
  }

  // Every counter tells how many of its results there were, but for one not counted yet.
  predicate Counted<T>(s: State<T>) {
    && s.queued + NotYetQueued(s) == Tally(s.pushes, true)
    && s.dropped + NotYet(s.sender == Uncounted(false)) == Tally(s.pushes, false)
    && s.sent + NotYet(s.worker.Reporting? && s.worker.complete) == Tally(s.sends, true)
    && s.errors + NotYet(s.worker.Reporting? && !s.worker.complete) == Tally(s.sends, false)
  }

  // The items whose result is true, in order.
  function Picked<T>(items: seq<T>, results: seq<bool>): (picked: seq<T>)
    requires |items| == |results|
    ensures |picked| == Tally(results, true)
    decreases |results|
  {
    if results == [] then []
    else
      var n := |results| - 1;
      Picked(items[..n], results[..n]) + if results[n] then [items[n]] else []
  }

  lemma PickedOneMore<T>(items: seq<T>, results: seq<bool>, item: T, result: bool)
    requires |items| == |results|
    ensures Picked(items + [item], results + [result]) == Picked(items, results) + if result then [item] else []
  {
    assert (items + [item])[..|items|] == items && (results + [result])[..|results|] == results;
  }

  // What was accepted is what is in the ring's history, and every popped packet but one in hand was sent on.
  ghost predicate Ordered<T>(s: State<T>) {
    && |s.tried| == |s.pushes| && s.ring.pushed == Picked(s.tried, s.pushes)
    && |s.sends| + NotYet(s.worker.Holding?) == |s.ring.popped|
  }

  function InHand<T>(s: State<T>): nat {
    if s.worker.Holding? || s.worker.Reporting? then 1 else 0
  }

  // Where the threads are agrees with where the ring is.
  ghost predicate Placed<T>(s: State<T>) {
    && RingInv(s.ring)
    && (s.sender.Pushing? <==> !s.ring.producer.ProducerIdle?)
    && (!s.ring.consumer.ConsumerIdle? ==> s.worker.Popping?)
    && (s.running <==> !s.sender.Stopped?)
    && (s.worker.AtHead? || s.worker.AtTail? || s.worker.Gone? ==> s.sender.Stopped?)
    && (s.worker.AtTail? ==> s.worker.head == s.ring.head)
    && (s.worker.Gone? ==> Queue(s.ring) == [])
  }

  ghost predicate Inv<T>(s: State<T>) {
    Placed(s) && Counted(s) && Ordered(s)
  }

  lemma InitialInv<T>(s: State<T>, capacity: nat)
    requires Initial(s, capacity)
    ensures Inv(s)
  {}

  lemma {:induction false} TalliesAddUp(results: seq<bool>)
    ensures Tally(results, true) + Tally(results, false) == |results|
    decreases |results|
  {
    if results != [] { TalliesAddUp(results[..|results| - 1]); }
  }

  // The two sides of the books.
  lemma Balances<T>(s: State<T>)
    requires Counted(s) && Ordered(s)
    ensures s.queued + NotYetQueued(s) == |s.ring.pushed|
    ensures s.sent + s.errors + InHand(s) == |s.ring.popped|
  {
    TalliesAddUp(s.sends);
  }

  lemma PushKeepsPlaced<T>(s: State<T>, t: State<T>)
    requires Placed(s) && Enabled(s, Push) && t == Next(s, Push)
    ensures Placed(t)
  {
    RingNextKeepsInv(s.ring, PushStep(s.ring));
  }

  // The books after a step of try_push: at its end a result to count.
  ghost predicate PushOutcome<T>(s: State<T>, t: State<T>) {
    && t.worker == s.worker && t.sends == s.sends
    && t.queued == s.queued && t.dropped == s.dropped && t.sent == s.sent && t.errors == s.errors
    && !s.sender.Uncounted?
    && if t.sender.Uncounted? then t.pushes == s.pushes + [t.sender.accepted] else t.pushes == s.pushes
  }

  lemma OutcomeKeepsCounted<T>(s: State<T>, t: State<T>)
    requires Counted(s) && PushOutcome(s, t)
    ensures Counted(t)
  {
    if t.sender.Uncounted? {
      TallyOneMore(s.pushes, t.sender.accepted, true);
      TallyOneMore(s.pushes, t.sender.accepted, false);
    }
  }

  lemma PushKeepsCounted<T>(s: State<T>, t: State<T>)
    requires Counted(s) && Enabled(s, Push) && t == Next(s, Push)
    ensures Counted(t)
  {
    assert PushOutcome(s, t);
    OutcomeKeepsCounted(s, t);
  }

  lemma PushKeepsOrdered<T>(s: State<T>, t: State<T>)
    requires Ordered(s) && Enabled(s, Push) && t == Next(s, Push)
    ensures Ordered(t)
  {
    PickedOneMore(s.tried, s.pushes, s.ring.producer.value, PushStep(s.ring).PushPublish?);
  }

  lemma TrySendKeepsInv<T>(s: State<T>, packet: T)
    requires Inv(s) && Enabled(s, TrySend(packet))
    ensures Inv(Next(s, TrySend(packet)))
  {
    RingNextKeepsInv(s.ring, PushStart(packet));
  }

  lemma PopKeepsPlaced<T>(s: State<T>, t: State<T>)
    requires Placed(s) && Enabled(s, Pop) && t == Next(s, Pop)
    ensures Placed(t)
  {
    RingNextKeepsInv(s.ring, PopStep(s.ring));
  }

  lemma PopKeepsBooks<T>(s: State<T>, t: State<T>)
    requires Counted(s) && Ordered(s) && Enabled(s, Pop) && t == Next(s, Pop)
    ensures Counted(t) && Ordered(t)
  {}

  lemma LoadTailKeepsInv<T>(s: State<T>)
    requires Inv(s) && Enabled(s, LoadTail)
    ensures Inv(Next(s, LoadTail))
    ensures Next(s, LoadTail).worker == if Queue(s.ring) == [] then Gone else Popping
  {
    FullOrEmpty(|s.ring.popped|, |s.ring.pushed|, |s.ring.storage|);
  }

  lemma SendToKeepsInv<T>(s: State<T>, complete: bool)
    requires Inv(s) && Enabled(s, SendTo(complete))
    ensures Inv(Next(s, SendTo(complete)))
  {
    TallyOneMore(s.sends, complete, true);
    TallyOneMore(s.sends, complete, false);
  }

  // The counts and the flag do not touch the ring.
  lemma OtherKeepsPlaced<T>(s: State<T>, e: Event<T>, t: State<T>)
    requires Placed(s) && Enabled(s, e) && t == Next(s, e)
    requires e.Count? || e.CountSent? || e.Stop? || e.LoadRunning? || e.LoadHead?
    ensures Placed(t)
  {}

  lemma OtherKeepsBooks<T>(s: State<T>, e: Event<T>, t: State<T>)
    requires Counted(s) && Ordered(s) && Enabled(s, e) && t == Next(s, e)
    requires e.Count? || e.CountSent? || e.Stop? || e.LoadRunning? || e.LoadHead?
    ensures Counted(t) && Ordered(t)
  {}

  lemma NextKeepsInv<T>(s: State<T>, e: Event<T>)
    requires Inv(s) && Enabled(s, e)
    ensures Inv(Next(s, e))
  {
    match e
    case TrySend(packet) => TrySendKeepsInv(s, packet);
    case Push =>
      var t := Next(s, Push);
      PushKeepsPlaced(s, t);
      PushKeepsCounted(s, t);
      PushKeepsOrdered(s, t);
    case LoadTail => LoadTailKeepsInv(s);
    case Pop =>
      var t := Next(s, Pop);
      PopKeepsPlaced(s, t);
      PopKeepsBooks(s, t);
    case SendTo(complete) => SendToKeepsInv(s, complete);
    case _ =>
      var t := Next(s, e);
      OtherKeepsPlaced(s, e, t);
      OtherKeepsBooks(s, e, t);
  }

  // ---------- Whole runs ----------

  predicate Possible<T>(s: State<T>, events: seq<Event<T>>)
    decreases |events|
  {
    events == [] || (Enabled(s, events[0]) && Possible(Next(s, events[0]), events[1..]))
  }

  function After<T>(s: State<T>, events: seq<Event<T>>): State<T>
    requires Possible(s, events)
    decreases |events|
  {
    if events == [] then s else After(Next(s, events[0]), events[1..])
  }

  lemma {:induction false} RunKeepsInv<T>(s: State<T>, events: seq<Event<T>>)
    requires Inv(s) && Possible(s, events)
    ensures Inv(After(s, events))
    decreases |events|
  {
    if events != [] {
      NextKeepsInv(s, events[0]);
      RunKeepsInv(Next(s, events[0]), events[1..]);
    }
  }

  lemma GoneMeansDone<T>(s: State<T>)
    requires Inv(s) && s.worker.Gone?
    ensures s.ring.popped == s.ring.pushed && s.queued == s.sent + s.errors
  {
    Balances(s);
  }

  // The packets completely sent, in the order they were sent.
  function OnTheWire<T>(s: State<T>): seq<T>
    requires |s.sends| <= |s.ring.popped|
  {
    Picked(s.ring.popped[..|s.sends|], s.sends)
  }

  lemma InOrder<T>(t: State<T>)
    requires Inv(t)
    ensures t.ring.popped <= Picked(t.tried, t.pushes) && |t.sends| <= |t.ring.popped|
    ensures t.worker.Gone? ==>
      var accepted := Picked(t.tried, t.pushes);
      |t.sends| == |accepted| && OnTheWire(t) == Picked(accepted, t.sends)
  {
    if t.worker.Gone? {
      GoneMeansDone(t);
      assert t.ring.popped[..|t.sends|] == t.ring.popped;
    }
  }

  // ---------- Draining ----------

  // How many steps a worker whose sender has stopped still has before it.
  function Remaining<T>(s: State<T>): nat
    requires |s.ring.popped| <= |s.ring.pushed|
  {
    var waiting := |Queue(s.ring)|;
    20 * waiting +
    match s.worker
    case Gone => 0
    case Reporting(_, _) => 10
    case Holding(_) => 11
    case AtRunning => 9
    case AtHead => 8
    case AtTail(_) => 7
    case Popping =>
      match s.ring.consumer
      case ConsumerIdle => if waiting > 0 then 6 else 13
      case TailLoaded(_) => if waiting > 0 then 5 else 12
      case Reading(_) => 4
      case Read(_, _) => 3
  }

  lemma PopGetsOn<T>(s: State<T>, t: State<T>)
    requires Inv(s) && s.sender.Stopped? && Enabled(s, Pop) && t == Next(s, Pop) && Inv(t)
    ensures Remaining(t) < Remaining(s)
  {
    var step := PopStep(s.ring);
    RingRefinesQueue(s.ring, step);
    if step.PopPublish? {
      assert t.worker.Holding? && |Queue(s.ring)| == 1 + |Queue(t.ring)|;
    } else {
      assert |Queue(t.ring)| == |Queue(s.ring)|;
    }
  }

  lemma OtherGetsOn<T>(s: State<T>, e: Event<T>, t: State<T>)
    requires !s.running && s.sender.Stopped? && (!s.ring.consumer.ConsumerIdle? ==> s.worker.Popping?)
    requires Enabled(s, e) && !e.Pop? && t == Next(s, e) && |s.ring.popped| <= |s.ring.pushed|
    requires e.LoadTail? ==> t.worker == if Queue(s.ring) == [] then Gone else Popping
    ensures OfWorker(e) && |t.ring.popped| <= |t.ring.pushed| && Remaining(t) < Remaining(s)
  {}

  lemma WorkerGetsOn<T>(s: State<T>, e: Event<T>)
    requires Inv(s) && s.sender.Stopped? && Enabled(s, e)
    ensures Inv(Next(s, e)) && Next(s, e).sender.Stopped? && OfWorker(e) && Remaining(Next(s, e)) < Remaining(s)
  {
    NextKeepsInv(s, e);
    if e.Pop? {
      PopGetsOn(s, Next(s, Pop));
    } else {
      if e.LoadTail? { LoadTailKeepsInv(s); }
      OtherGetsOn(s, e, Next(s, e));
    }
  }

  function SenderEvent<T>(s: State<T>): Event<T>
    requires !s.sender.Stopped?
  {
    match s.sender
    case Ready => Stop
    case Pushing => Push
    case Uncounted(_) => Count
  }

  function WorkerEvent<T>(s: State<T>): Event<T>
    requires !s.worker.Gone?
  {
    match s.worker
    case AtRunning => LoadRunning
    case AtHead => LoadHead
    case AtTail(_) => LoadTail
    case Popping => Pop
    case Holding(_) => SendTo(true)
    case Reporting(_, _) => CountSent
  }
}
