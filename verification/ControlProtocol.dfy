/** What every run of the control channel keeps, and that it can always settle. */
module ControlProtocol {
  import opened ControlText
  import opened ControlServer
  import opened ControlChannel

  /** Every event keeps what the client, the links and the flags promise. */
  lemma NextKeepsInv(s: State, e: Event)
    requires Inv(s) && Enabled(s, e)
    ensures Inv(Next(s, e))
  {
    match e
    case Issue(c) =>
      IssueKeepsClient(s, c);
      IssueKeepsLinks(s, c);
      IssueKeepsFlags(s.issued, s.answered, s.flags, c);
    case Connect => ConnectKeepsInv(s);
    case Receive(n) => ReceiveKeepsLinks(s, n);
    case Process => ProcessKeepsInv(s);
    case Deliver(n) => DeliverKeepsClient(s, n);
    case Cut(kept) =>
      CutKeepsClient(s, kept);
      CutKeepsLinks(s, kept);
      FewerAnswered(s.issued, s.answered, s.flags, |s.acknowledged|);
    case Finish => DropKeepsLinks(s);
    case Abandon => DropKeepsLinks(s);
  }

  // ---------- Whole runs ----------

  lemma {:induction false} RunKeepsInv(s: State, events: seq<Event>)
    requires Inv(s) && Possible(s, events)
    ensures Inv(After(s, events))
    decreases |events|
  {
    if events != [] {
      NextKeepsInv(s, events[0]);
      RunKeepsInv(Next(s, events[0]), events[1..]);
    }
  }

  /** In every run the acknowledgements reported are the issued commands in the order of issue, each
      once and with its own fault and value, and what is pending is exactly the rest. */
  lemma AcknowledgedInIssueOrder(events: seq<Event>)
    requires Possible(INITIAL, events)
    ensures var s := After(INITIAL, events); s.acknowledged + s.pending == s.issued
  {
    InitialInv();
    RunKeepsInv(INITIAL, events);
    var s := After(INITIAL, events);
    assert s.issued[..|s.acknowledged|] + s.issued[|s.acknowledged|..] == s.issued;
  }

  /** Once the newest command for a fault is acknowledged, the simulator's flag has its value. */
  lemma AcknowledgedMeansApplied(events: seq<Event>, fault: Fault, n: nat)
    requires Possible(INITIAL, events)
    requires var s := After(INITIAL, events); Newest(s.issued, fault, n) && s.issued[n] in s.acknowledged
    ensures var s := After(INITIAL, events); Has(s.flags, fault) == s.issued[n].enabled
  {
    InitialInv();
    RunKeepsInv(INITIAL, events);
    var s := After(INITIAL, events);
    var k :| 0 <= k < |s.acknowledged| && s.acknowledged[k] == s.issued[n];
    assert s.issued[k] == s.issued[n];
  }

  /** The acknowledged value stays, through cuts, resends and leftovers, until another command for
      that fault is issued. */
  lemma AppliedUntilNextCommand(events: seq<Event>, more: seq<Event>, fault: Fault, n: nat)
    requires Possible(INITIAL, events) && Possible(After(INITIAL, events), more)
    requires var s := After(INITIAL, events); Newest(s.issued, fault, n) && s.issued[n] in s.acknowledged
    requires NoneFor(more, fault)
    ensures var s := After(INITIAL, events); Has(After(s, more).flags, fault) == s.issued[n].enabled
  {
    var s := After(INITIAL, events);
    NewestStaysThrough(s, more, fault, n);
    AfterAppend(INITIAL, events, more);
    AcknowledgedMeansApplied(events + more, fault, n);
  }

  /** When the client's connection is up and nothing is under way on it, no command is pending: every
      command issued so far has reached the simulator and been acknowledged. */
  lemma QuietMeansSettled(events: seq<Event>)
    requires Possible(INITIAL, events)
    requires var s := After(INITIAL, events);
      && s.attached && |s.links| == 1
      && s.links[0].inbound == "" && '\n' !in s.serverBuffer && s.outbound == ""
    ensures var s := After(INITIAL, events); s.pending == [] && s.acknowledged == s.issued
  {
    InitialInv();
    RunKeepsInv(INITIAL, events);
    Quiet(After(INITIAL, events));
  }

  /** A fault no command was issued for is off, and the reserved bits are zero. */
  lemma UncommandedFaultsStayOff(events: seq<Event>, fault: Fault)
    requires Possible(INITIAL, events)
    ensures var s := After(INITIAL, events); s.flags < 8 && (Untouched(s.issued, fault) ==> !Has(s.flags, fault))
  {
    InitialInv();
    RunKeepsInv(INITIAL, events);
  }

  // ---------- The channel can always settle ----------

  lemma {:induction false} Drain(s: State) returns (more: seq<Event>)
    requires Inv(s) && s.attached && s.links != []
    ensures Possible(s, more) && NoIssues(more) && Drained(After(s, more)) && Inv(After(s, more))
    decreases |s.links|, Work(s)
  {
    if Drained(s) {
      more := [];
    } else {
      var e := SimulatorEvent(s);
      var t := if Enabled(s, e) then Next(s, e) else s;
      SimulatorGetsOn(s, t);
      NextKeepsInv(s, e);
      more := Drain(t);
      OneEvent(s, e, t, more);
      more := [e] + more;
    }
  }

  lemma DeliverRest(s: State) returns (more: seq<Event>)
    requires Inv(s) && Drained(s)
    ensures Possible(s, more) && NoIssues(more)
    ensures After(s, more).pending == [] && After(s, more).acknowledged == After(s, more).issued
  {
    if s.outbound == "" {
      more := [];
      Quiet(s);
    } else {
      var e := Deliver(|s.outbound|);
      var t := Next(s, e);
      NextKeepsInv(s, e);
      DeliveredQuiet(s, t);
      Quiet(t);
      more := [e];
      OneEvent(s, e, t, []);
      assert [e] + [] == [e];
    }
  }

  lemma Attach(s: State) returns (more: seq<Event>)
    requires Inv(s)
    ensures Possible(s, more) && NoIssues(more) && Inv(After(s, more))
    ensures After(s, more).attached && After(s, more).links != []
  {
    if s.attached {
      more := [];
    } else if !s.connected {
      more := [Connect];
      NextKeepsInv(s, Connect);
      OneEvent(s, Connect, Next(s, Connect), []);
      assert [Connect] + [] == [Connect];
    } else {
      var t := Next(s, Cut(0));
      NextKeepsInv(s, Cut(0));
      NextKeepsInv(t, Connect);
      OneEvent(t, Connect, Next(t, Connect), []);
      assert [Connect] + [] == [Connect];
      OneEvent(s, Cut(0), t, [Connect]);
      more := [Cut(0)] + [Connect];
    }
  }

  /** The channel is never stuck: from every reachable state the client, the network and the simulator can
      go on, without any new command, until every command issued is acknowledged. */
  lemma CanAlwaysSettle(events: seq<Event>) returns (more: seq<Event>)
    requires Possible(INITIAL, events)
    ensures Possible(After(INITIAL, events), more) && NoIssues(more)
    ensures var s := After(INITIAL, events);
      After(s, more).pending == [] && After(s, more).acknowledged == After(s, more).issued == s.issued
  {
    InitialInv();
    RunKeepsInv(INITIAL, events);
    more := SettleFrom(After(INITIAL, events));
    NoneIssued(After(INITIAL, events), more);
  }

  lemma SettleFrom(s: State) returns (more: seq<Event>)
    requires Inv(s)
    ensures Possible(s, more) && NoIssues(more)
    ensures After(s, more).pending == [] && After(s, more).acknowledged == After(s, more).issued
  {
    var a := Attach(s);
    var t := After(s, a);
    var b := Drain(t);
    var u := After(t, b);
    var c := DeliverRest(u);
    AfterAppend(t, b, c);
    AfterAppend(s, a, b + c);
    more := a + (b + c);
  }
}
