/** What becomes of each step's packet when it is the queue and sendto that decide. A packet stands for the
    number of its step: which are offered, accepted, popped and sent, the outcome that this gives each step,
    and what the transmitter's counters then count. Steps towards Delivery. */
module Packets {
  import opened AscendingLists
  import opened Binary
  import opened Generator
  import opened TransmitterSteps

  // The steps below n that are not dropped on purpose: each gives its packet to try_send.
  function Offered(flags: nat -> uint32, n: nat): seq<nat>
    decreases n
  {
    if n == 0 then []
    else Offered(flags, n - 1) + if IntentionalDrop(flags(n - 1), n) then [] else [n - 1]
  }

  function Queued(t: State<nat>): seq<nat>
    requires |t.tried| == |t.pushes|
  {
    Picked(t.tried, t.pushes)
  }

  // What became of each step's packet, when the transmitter is done and the network does net to what it sent.
  function OutcomeOf(t: State<nat>, net: nat -> Outcome): nat -> Outcome
    requires |t.tried| == |t.pushes| && |t.sends| <= |t.ring.popped|
  {
    (i: nat) => if i !in Queued(t) then Refused else if i !in OnTheWire(t) then Failed else net(i)
  }

  // A network may lose and alter packets; refusing and failing to send is not up to it.
  ghost predicate IsNetwork(net: nat -> Outcome) {
    forall i :: net(i).Lost? || net(i).Corrupted? || net(i).Delivered?
  }

  // What of these packets the network delivers, in order.
  function Surviving(wire: seq<nat>, net: nat -> Outcome): seq<nat>
    decreases |wire|
  {
    if wire == [] then []
    else
      var n := |wire| - 1;
      Surviving(wire[..n], net) + if net(wire[n]).Delivered? then [wire[n]] else []
  }

  // ---------- Order ----------

  lemma {:induction false} PickedInOrder(items: seq<nat>, results: seq<bool>)
    requires |items| == |results| && Ascending(items)
    ensures Ascending(Picked(items, results)) && Within(Picked(items, results), items)
    decreases |results|
  {
    if results != [] {
      var n := |results| - 1;
      AllButLast(items);
      PickedInOrder(items[..n], results[..n]);
      OneMoreInOrder(Picked(items[..n], results[..n]), items[n]);
    }
  }

  lemma {:induction false} OfferedExactly(flags: nat -> uint32, n: nat)
    ensures Ascending(Offered(flags, n))
    ensures forall i: nat :: i in Offered(flags, n) <==> i < n && !IntentionalDrop(flags(i), i + 1)
    decreases n
  {
    if n > 0 {
      OfferedExactly(flags, n - 1);
      OneMoreInOrder(Offered(flags, n - 1), n - 1);
    }
  }

  lemma {:induction false} SurvivingExactly(wire: seq<nat>, net: nat -> Outcome)
    requires Ascending(wire)
    ensures Ascending(Surviving(wire, net))
    ensures forall x: nat :: x in Surviving(wire, net) <==> x in wire && net(x).Delivered?
    decreases |wire|
  {
    if wire != [] {
      var n := |wire| - 1;
      AllButLast(wire);
      SurvivingExactly(wire[..n], net);
      OneMoreInOrder(Surviving(wire[..n], net), wire[n]);
      assert wire == wire[..n] + [wire[n]];
    }
  }

  // ---------- Counting by cause ----------

  lemma OneMoreOffered(flags: nat -> uint32, n: nat, list: seq<nat>)
    requires n > 0
    ensures CountNot(Offered(flags, n), list)
         == CountNot(Offered(flags, n - 1), list) + if IntentionalDrop(flags(n - 1), n) || n - 1 in list then 0 else 1
  {
    var before := Offered(flags, n - 1);
    assert before + [] == before;
    assert (before + [n - 1])[..|before|] == before;
  }

  lemma {:induction false} RefusedCount(flags: nat -> uint32, outcome: nat -> Outcome, queued: seq<nat>, n: nat)
    requires forall i: nat :: outcome(i).Refused? <==> i !in queued
    ensures EndedSteps(flags, outcome, Refused, 0, n) == CountNot(Offered(flags, n), queued)
    decreases n
  {
    if n > 0 {
      RefusedCount(flags, outcome, queued, n - 1);
      OneMoreOffered(flags, n, queued);
    }
  }

  lemma {:induction false} FailedCount(flags: nat -> uint32, outcome: nat -> Outcome, queued: seq<nat>, wire: seq<nat>,
                                       n: nat)
    requires Within(wire, queued)
    requires forall i: nat :: outcome(i).Failed? <==> i in queued && i !in wire
    ensures EndedSteps(flags, outcome, Failed, 0, n) + CountNot(Offered(flags, n), queued)
         == CountNot(Offered(flags, n), wire)
    decreases n
  {
    if n > 0 {
      FailedCount(flags, outcome, queued, wire, n - 1);
      OneMoreOffered(flags, n, queued);
      OneMoreOffered(flags, n, wire);
    }
  }

  // ---------- The flight's packets ----------

  // The transmitter has stopped and its worker has left, after the loop gave it the packets of n steps.
  ghost predicate Finished(t: State<nat>, flags: nat -> uint32, n: nat) {
    Inv(t) && t.worker.Gone? && t.tried == Offered(flags, n)
  }

  lemma InOrderToTheWire(t: State<nat>, flags: nat -> uint32, n: nat)
    requires Finished(t, flags, n)
    ensures |t.sends| <= |t.ring.popped| && OnTheWire(t) == Picked(Queued(t), t.sends)
    ensures Ascending(Queued(t)) && Within(Queued(t), Offered(flags, n))
    ensures Ascending(OnTheWire(t)) && Within(OnTheWire(t), Queued(t))
  {
    InOrder(t);
    OfferedExactly(flags, n);
    PickedInOrder(t.tried, t.pushes);
    PickedInOrder(Queued(t), t.sends);
  }

  lemma SameMember(flags: nat -> uint32, outcome: nat -> Outcome, n: nat, wire: seq<nat>, net: nat -> Outcome, i: nat)
    requires Ascending(wire) && (i in wire ==> i in Offered(flags, n))
    requires outcome(i).Delivered? <==> i in wire && net(i).Delivered?
    ensures i in Arrived(flags, outcome, n) <==> i in Surviving(wire, net)
  {
    ArrivedExactly(flags, outcome, n);
    SurvivingExactly(wire, net);
    OfferedExactly(flags, n);
  }

  lemma SameSteps(flags: nat -> uint32, outcome: nat -> Outcome, n: nat, wire: seq<nat>, net: nat -> Outcome)
    requires Ascending(wire) && Within(wire, Offered(flags, n))
    requires forall i: nat :: outcome(i).Delivered? <==> i in wire && net(i).Delivered?
    ensures Arrived(flags, outcome, n) == Surviving(wire, net)
  {
    var steps, left := Arrived(flags, outcome, n), Surviving(wire, net);
    forall i: nat ensures i in steps <==> i in left { SameMember(flags, outcome, n, wire, net, i); }
    assert Ascending(steps) by { ArrivedExactly(flags, outcome, n); }
    assert Ascending(left) by { SurvivingExactly(wire, net); }
    AscendingUnique(steps, left);
  }

  // The packets that arrive are those of the wire that the network delivers, in the order they were sent.
  lemma ArrivedSurvived(t: State<nat>, flags: nat -> uint32, n: nat, net: nat -> Outcome)
    requires Finished(t, flags, n)
    ensures |t.sends| <= |t.ring.popped|
    ensures Arrived(flags, OutcomeOf(t, net), n) == Surviving(OnTheWire(t), net)
  {
    InOrderToTheWire(t, flags, n);
    SameSteps(flags, OutcomeOf(t, net), n, OnTheWire(t), net);
  }

  lemma CountersAre(t: State<nat>)
    requires Inv(t) && t.worker.Gone?
    ensures t.dropped == |t.tried| - |Queued(t)| && |t.sends| == |Queued(t)|
    ensures t.errors == |Queued(t)| - |Picked(Queued(t), t.sends)|
  {
    InOrder(t);
    TalliesAddUp(t.pushes);
    TalliesAddUp(t.sends);
  }

  // The counters tell how many steps came to each end.
  lemma CountersByCause(t: State<nat>, flags: nat -> uint32, n: nat, net: nat -> Outcome)
    requires Finished(t, flags, n) && IsNetwork(net)
    ensures |t.sends| <= |t.ring.popped|
    ensures var outcome := OutcomeOf(t, net);
      EndedSteps(flags, outcome, Refused, 0, n) == t.dropped && EndedSteps(flags, outcome, Failed, 0, n) == t.errors
  {
    InOrderToTheWire(t, flags, n);
    CountersAre(t);
    var outcome, queued, wire := OutcomeOf(t, net), Queued(t), OnTheWire(t);
    OfferedExactly(flags, n);
    CountNotRest(t.tried, queued);
    CountNotRest(t.tried, wire);
    RefusedCount(flags, outcome, queued, n);
    FailedCount(flags, outcome, queued, wire, n);
  }
}
