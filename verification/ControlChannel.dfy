/** The control channel as a whole: a client that resends what is pending after every reconnect, a
    simulator that serves one connection to its end before the next, and a network that delivers any
    prefix and may cut a connection anywhere. */
module ControlChannel {
  import opened Binary
  import opened ControlText
  import opened Options
  import opened ControlServer
  import opened ControlClient

  /** One accepted or waiting connection. inbound is written but not yet received by the simulator;
      open holds while the client may still write. History: the commands issued[lo..hi] were written
      and their lines have not been processed; lost is what a cut dropped of their text. */
  datatype Link = Link(inbound: string, open: bool, lo: nat, hi: nat, lost: string)

  /** links[0] is being served. attached: the client's connection is the last link (it is not when the
      simulator gave that connection up unnoticed). outbound: responses on their way to the client.
      History: issued and acknowledged (the callbacks so far); answered: how many issued commands were
      acknowledged or have their acknowledgement under way on the present connection. */
  datatype State = State(
    pending: seq<Command>, connected: bool, clientBuffer: string,
    links: seq<Link>, attached: bool, serverBuffer: string, flags: uint32, outbound: string,
    issued: seq<Command>, acknowledged: seq<Command>, answered: nat)

  datatype Event =
    | Issue(command: Command)
    | Connect
    | Receive(count: nat)   // recv returns part of what is in flight
    | Process               // handle the first complete line and respond
    | Deliver(count: nat)   // part of the responses reaches the client
    | Cut(kept: nat)        // the client's connection closes; kept bytes of it will still arrive
    | Finish                // end of stream: close and accept the next connection
    | Abandon               // a receive error: close and accept the next connection

  const INITIAL := State([], false, "", [], false, "", 0, "", [], [], 0)

  predicate Enabled(s: State, e: Event) {
    match e
    case Issue(c) => ValidId(c.id) && forall i :: 0 <= i < |s.issued| ==> s.issued[i].id != c.id
    case Connect => !s.connected
    case Receive(n) => s.links != [] && 1 <= n <= |s.links[0].inbound| && '\n' !in s.serverBuffer
    case Process => s.links != [] && '\n' in s.serverBuffer
    case Deliver(n) => s.connected && 1 <= n <= |s.outbound|
    case Cut(kept) => s.connected && (ClientHasLink(s) ==> kept <= |Last(s.links).inbound|)
    case Finish => s.links != [] && s.links[0].inbound == "" && !s.links[0].open && '\n' !in s.serverBuffer
    case Abandon => s.links != [] && '\n' !in s.serverBuffer
  }

  predicate ClientHasLink(s: State) {
    s.attached && s.links != []
  }

  function Last(links: seq<Link>): Link
    requires links != []
  {
    links[|links| - 1]
  }

  function WithLast(links: seq<Link>, link: Link): seq<Link>
    requires links != []
  {
    links[|links| - 1 := link]
  }

  function Next(s: State, e: Event): State
    requires Enabled(s, e)
  {
    match e
    case Issue(c) => Issued(s, c)
    case Connect => Connected(s)
    case Receive(n) => Received(s, n)
    case Process => Processed(s)
    case Deliver(n) => Delivered(s, n)
    case Cut(kept) => WasCut(s, kept)
    case Finish => Dropped(s)
    case Abandon => Dropped(s)
  }

  function Issued(s: State, c: Command): State {
    var t := s.(pending := Put(s.pending, c), issued := s.issued + [c]);
    if s.connected && ClientHasLink(s) then
      var link := Last(s.links);
      t.(links := WithLast(s.links, link.(inbound := link.inbound + Terminated(c), hi := link.hi + 1)))
    else t
  }

  function Connected(s: State): State {
    var from := |s.acknowledged|;
    s.(connected := true, attached := true, answered := from,
       links := s.links + [Link(Records("COMMAND", s.pending, 0, |s.pending|), true, from, |s.issued|, "")])
  }

  function Received(s: State, n: nat): State
    requires s.links != [] && n <= |s.links[0].inbound|
  {
    var link := s.links[0];
    s.(serverBuffer := s.serverBuffer + link.inbound[..n], links := s.links[0 := link.(inbound := link.inbound[n..])])
  }

  function Processed(s: State): State
    requires s.links != [] && '\n' in s.serverBuffer
  {
    var i := Find(s.serverBuffer, '\n');
    var line := s.serverBuffer[..i];
    Responded(s, s.serverBuffer[i + 1..], AfterLine(s.flags, line), Response(line))
  }

  // One line handled: what remains in the buffer, the flags after it, and the response to it.
  function Responded(s: State, rest: string, flags: uint32, response: string): State
    requires s.links != []
  {
    var t := s.(serverBuffer := rest, flags := flags, links := s.links[0 := s.links[0].(lo := s.links[0].lo + 1)]);
    if s.attached && |s.links| == 1 then t.(outbound := s.outbound + response, answered := s.answered + 1) else t
  }

  function Delivered(s: State, n: nat): State
    requires n <= |s.outbound|
  {
    var text := s.clientBuffer + s.outbound[..n];
    s.(pending := Settled(s.pending, Lines(text)), clientBuffer := Leftover(text), outbound := s.outbound[n..],
       acknowledged := s.acknowledged + Acknowledged(Lines(text)))
  }

  function WasCut(s: State, kept: nat): State
    requires ClientHasLink(s) ==> kept <= |Last(s.links).inbound|
  {
    var t := s.(connected := false, attached := false, clientBuffer := "", outbound := "",
                answered := |s.acknowledged|);
    if ClientHasLink(s) then
      var link := Last(s.links);
      t.(links := WithLast(s.links, Truncated(link, kept)))
    else t
  }

  function Truncated(link: Link, kept: nat): Link
    requires kept <= |link.inbound|
  {
    link.(inbound := link.inbound[..kept], open := false, lost := link.inbound[kept..] + link.lost)
  }

  function Dropped(s: State): State
    requires s.links != []
  {
    s.(links := s.links[1..], serverBuffer := "", attached := s.attached && |s.links| > 1)
  }

  // ---------- The invariant ----------

  ghost predicate Sound(issued: seq<Command>) {
    (forall i :: 0 <= i < |issued| ==> ValidId(issued[i].id)) && DistinctIds(issued)
  }

  // Pending is a suffix of the issue order, the callbacks so far are the rest, each once, and the
  // responses on their way are the acknowledgements that come next.
  ghost predicate ClientView(issued: seq<Command>, pending: seq<Command>, acknowledged: seq<Command>,
                             answered: nat, responses: string) {
    var a := |acknowledged|;
    && a <= answered <= |issued|
    && pending == issued[a..] && acknowledged == issued[..a]
    && responses == Records("ACK", issued, a, answered)
  }

  ghost predicate ClientInv(s: State) {
    && ClientView(s.issued, s.pending, s.acknowledged, s.answered, s.clientBuffer + s.outbound)
    && '\n' !in s.clientBuffer
    && (!s.connected ==> s.clientBuffer == "" && s.outbound == "" && s.answered == |s.acknowledged| && !s.attached)
  }

  // What a link still holds, with what a cut dropped, is the records of its unprocessed commands; a
  // cut dropped nothing of the client's present link; none of those commands is answered yet.
  ghost predicate LinkView(issued: seq<Command>, answered: nat, link: Link, unread: string) {
    && answered <= link.lo <= link.hi <= |issued|
    && unread + link.lost == Records("COMMAND", issued, link.lo, link.hi)
    && (link.open ==> link.lo == answered && link.hi == |issued| && link.lost == "")
  }

  function Unread(s: State, j: nat): string
    requires j < |s.links|
  {
    if j == 0 then s.serverBuffer + s.links[0].inbound else s.links[j].inbound
  }

  ghost predicate LinksInv(s: State) {
    && (forall j {:trigger s.links[j]} :: 0 <= j < |s.links| ==>
          && LinkView(s.issued, s.answered, s.links[j], Unread(s, j))
          && (s.links[j].open <==> s.attached && j == |s.links| - 1))
    && (s.links == [] ==> s.serverBuffer == "" && !s.attached)
    && (s.attached ==> s.connected)
  }

  // issued[n] is the newest command for the fault.
  ghost predicate Newest(issued: seq<Command>, fault: Fault, n: nat) {
    && n < |issued| && issued[n].fault == fault
    && forall m :: n < m < |issued| ==> issued[m].fault != fault
  }

  ghost predicate Untouched(issued: seq<Command>, fault: Fault) {
    forall i :: 0 <= i < |issued| ==> issued[i].fault != fault
  }

  ghost predicate FlagsInv(issued: seq<Command>, answered: nat, flags: uint32) {
    && flags < 8
    && (forall f, n: nat {:trigger Newest(issued, f, n)} ::
          Newest(issued, f, n) && n < answered ==> Has(flags, f) == issued[n].enabled)
    && (forall f {:trigger Untouched(issued, f)} :: Untouched(issued, f) ==> !Has(flags, f))
  }

  ghost predicate Inv(s: State) {
    Sound(s.issued) && ClientInv(s) && LinksInv(s) && FlagsInv(s.issued, s.answered, s.flags)
  }

  lemma InitialInv()
    ensures Inv(INITIAL)
  {}

  // ---------- Each event keeps the invariant ----------

  lemma SoundWithOneMore(issued: seq<Command>, c: Command)
    requires Sound(issued) && ValidId(c.id) && forall i :: 0 <= i < |issued| ==> issued[i].id != c.id
    ensures Sound(issued + [c])
  {}

  lemma PutAtEnd(issued: seq<Command>, a: nat, c: Command)
    requires a <= |issued| && Sound(issued) && forall i :: 0 <= i < |issued| ==> issued[i].id != c.id
    ensures Put(issued[a..], c) == (issued + [c])[a..]
  {
    var pending := issued[a..];
    forall d | d in pending ensures d.id != c.id {
      var i :| a <= i < |issued| && issued[i] == d;
    }
    PutKeepsIdsDistinct(pending, c);
    assert (issued + [c])[a..] == pending + [c];
  }

  lemma OneMorePending(issued: seq<Command>, pending: seq<Command>, acknowledged: seq<Command>, answered: nat,
                       responses: string, c: Command)
    requires Sound(issued) && ClientView(issued, pending, acknowledged, answered, responses)
    requires forall i :: 0 <= i < |issued| ==> issued[i].id != c.id
    ensures ClientView(issued + [c], Put(pending, c), acknowledged, answered, responses)
  {
    var a, more := |acknowledged|, issued + [c];
    PutAtEnd(issued, a, c);
    assert more[..a] == issued[..a];
    RecordsAgree("ACK", more, a, answered, issued, a, answered);
  }

  lemma IssuedParts(s: State, c: Command)
    ensures var t := Issued(s, c);
      && t.pending == Put(s.pending, c) && t.issued == s.issued + [c]
      && t.links == (if s.connected && ClientHasLink(s) then WithLast(s.links, OneMore(Last(s.links), c)) else s.links)
      && t == s.(pending := t.pending, issued := t.issued, links := t.links)
  {}

  function OneMore(link: Link, c: Command): Link {
    link.(inbound := link.inbound + Terminated(c), hi := link.hi + 1)
  }

  lemma IssueKeepsClient(s: State, c: Command)
    requires Sound(s.issued) && ClientInv(s) && Enabled(s, Issue(c))
    ensures Sound(Issued(s, c).issued) && ClientInv(Issued(s, c))
  {
    IssuedParts(s, c);
    SoundWithOneMore(s.issued, c);
    OneMorePending(s.issued, s.pending, s.acknowledged, s.answered, s.clientBuffer + s.outbound, c);
  }

  lemma OneMoreWritten(issued: seq<Command>, answered: nat, link: Link, unread: string, c: Command)
    requires LinkView(issued, answered, link, unread)
    ensures link.open ==> LinkView(issued + [c], answered, OneMore(link, c), unread + Terminated(c))
    ensures !link.open ==> LinkView(issued + [c], answered, link, unread)
  {
    var more := issued + [c];
    RecordsAgree("COMMAND", more, link.lo, link.hi, issued, link.lo, link.hi);
    if link.open {
      RecordsExtend("COMMAND", more, link.lo, link.hi);
      AppendTerminated(unread, c);
      EmptyEnds(unread);
      EmptyEnds(unread + Terminated(c));
    }
  }

  lemma IssueKeepsLinks(s: State, c: Command)
    requires LinksInv(s) && Enabled(s, Issue(c))
    ensures LinksInv(Issued(s, c))
  {
    var t := Issued(s, c);
    IssuedParts(s, c);
    forall j | 0 <= j < |t.links|
      ensures LinkView(t.issued, t.answered, t.links[j], Unread(t, j))
      ensures t.links[j].open <==> t.attached && j == |t.links| - 1
    {
      var link := s.links[j];
      OneMoreWritten(s.issued, s.answered, link, Unread(s, j), c);
      if link.open { assert Unread(t, j) == Unread(s, j) + Terminated(c); }
    }
  }

  lemma IssueKeepsFlags(issued: seq<Command>, answered: nat, flags: uint32, c: Command)
    requires FlagsInv(issued, answered, flags) && answered <= |issued|
    ensures FlagsInv(issued + [c], answered, flags)
  {
    var more := issued + [c];
    forall f, n: nat | Newest(more, f, n) && n < answered ensures Has(flags, f) == more[n].enabled {
      forall m | n < m < |issued| ensures issued[m].fault != f { assert more[m] == issued[m]; }
      assert Newest(issued, f, n);
    }
    forall f | Untouched(more, f) ensures !Has(flags, f) {
      forall i | 0 <= i < |issued| ensures issued[i].fault != f { assert more[i] == issued[i]; }
      assert Untouched(issued, f);
    }
  }

  lemma WholeSuffix(issued: seq<Command>, a: nat, pending: seq<Command>)
    requires a <= |issued| && pending == issued[a..]
    ensures Records("COMMAND", pending, 0, |pending|) == Records("COMMAND", issued, a, |issued|)
  {
    RecordsAgree("COMMAND", pending, 0, |pending|, issued, a, |issued|);
  }

  lemma ConnectKeepsInv(s: State)
    requires Inv(s) && Enabled(s, Connect)
    ensures Inv(Connected(s))
  {
    var t, a := Connected(s), |s.acknowledged|;
    WholeSuffix(s.issued, a, s.pending);
    EmptyEnds(Records("COMMAND", s.pending, 0, |s.pending|));
    forall j | 0 <= j < |t.links|
      ensures LinkView(t.issued, t.answered, t.links[j], Unread(t, j))
      ensures t.links[j].open <==> t.attached && j == |t.links| - 1
    {
      if j < |s.links| { assert t.links[j] == s.links[j]; }
    }
  }

  lemma ReceiveKeepsLinks(s: State, n: nat)
    requires LinksInv(s) && Enabled(s, Receive(n))
    ensures LinksInv(Received(s, n))
  {
    var t, inbound := Received(s, n), s.links[0].inbound;
    assert inbound == inbound[..n] + inbound[n..];
    assert Unread(t, 0) == Unread(s, 0);
    forall j | 0 <= j < |t.links|
      ensures LinkView(t.issued, t.answered, t.links[j], Unread(t, j))
      ensures t.links[j].open <==> t.attached && j == |t.links| - 1
    {
      assert LinkView(s.issued, s.answered, s.links[j], Unread(s, j));
    }
  }

  // The first complete line the simulator holds is the record of the link's next command.
  lemma FirstRecord(issued: seq<Command>, answered: nat, link: Link, buffer: string)
    requires Sound(issued) && LinkView(issued, answered, link, buffer + link.inbound) && '\n' in buffer
    ensures link.lo < link.hi
    ensures var i := Find(buffer, '\n');
      && i < |buffer| && buffer[..i] == CommandLine(issued[link.lo])
      && buffer[i + 1..] + link.inbound + link.lost == Records("COMMAND", issued, link.lo + 1, link.hi)
  {
    var i, text := Find(buffer, '\n'), buffer + link.inbound;
    FindUnique(text, '\n', i);
    FirstOfRecords("COMMAND", issued, link.lo, link.hi, text, link.lost);
    assert text[..i] == buffer[..i] && text[i + 1..] == buffer[i + 1..] + link.inbound;
  }

  lemma LineEffect(flags: uint32, line: string, c: Command)
    requires ValidId(c.id) && line == CommandLine(c)
    ensures AfterLine(flags, line) == Switched(flags, c.fault, c.enabled)
    ensures Response(line) == AckLine(c) + "\n"
  {
    CommandSurvives(c);
  }

  lemma OneMoreAnswered(issued: seq<Command>, pending: seq<Command>, acknowledged: seq<Command>, answered: nat,
                        buffer: string, outbound: string, response: string)
    requires ClientView(issued, pending, acknowledged, answered, buffer + outbound) && answered < |issued|
    requires response == AckLine(issued[answered]) + "\n"
    ensures ClientView(issued, pending, acknowledged, answered + 1, buffer + (outbound + response))
  {
    RecordsExtend("ACK", issued, |acknowledged|, answered);
    AddResponse(buffer, outbound, AckLine(issued[answered]));
  }

  lemma AddResponse(buffer: string, outbound: string, ack: string)
    ensures buffer + (outbound + (ack + "\n")) == buffer + outbound + ack + "\n"
  {}

  lemma RespondKeepsClient(s: State, rest: string, flags: uint32, response: string)
    requires ClientInv(s) && s.links != []
    requires s.attached && |s.links| == 1 ==>
      s.answered < |s.issued| && response == AckLine(s.issued[s.answered]) + "\n"
    ensures ClientInv(Responded(s, rest, flags, response))
  {
    if s.attached && |s.links| == 1 {
      OneMoreAnswered(s.issued, s.pending, s.acknowledged, s.answered, s.clientBuffer, s.outbound, response);
    }
  }

  lemma OneMoreProcessed(issued: seq<Command>, answered: nat, link: Link, buffer: string)
    requires Sound(issued) && LinkView(issued, answered, link, buffer + link.inbound) && '\n' in buffer
    ensures var after, rest := link.(lo := link.lo + 1), buffer[Find(buffer, '\n') + 1..];
      && (!link.open ==> LinkView(issued, answered, after, rest + after.inbound))
      && (link.open ==> LinkView(issued, answered + 1, after, rest + after.inbound))
  {
    FirstRecord(issued, answered, link, buffer);
  }

  lemma RespondKeepsLinks(s: State, rest: string, flags: uint32, response: string)
    requires LinksInv(s) && s.links != []
    requires var after := s.links[0].(lo := s.links[0].lo + 1);
      LinkView(s.issued, if s.links[0].open then s.answered + 1 else s.answered, after, rest + after.inbound)
    ensures LinksInv(Responded(s, rest, flags, response))
  {}

  // Processing issued[x], unanswered so far, keeps the flags right for the answered commands, also
  // when the command counts as answered afterwards.
  lemma ProcessKeepsFlags(issued: seq<Command>, answered: nat, flags: uint32, x: nat)
    requires FlagsInv(issued, answered, flags) && answered <= x < |issued|
    ensures var flags' := Switched(flags, issued[x].fault, issued[x].enabled);
      FlagsInv(issued, answered, flags') && (answered == x ==> FlagsInv(issued, x + 1, flags'))
  {
    var c := issued[x];
    var flags' := Switched(flags, c.fault, c.enabled);
    SwitchedEffect(flags, c.fault, c.enabled, c.fault);
    forall f ensures Has(flags', f) == if f == c.fault then c.enabled else Has(flags, f) {
      SwitchedEffect(flags, c.fault, c.enabled, f);
    }
    forall f, n: nat | Newest(issued, f, n) && (n < answered || n == x) ensures Has(flags', f) == issued[n].enabled {}
  }

  lemma FirstLine(s: State, x: nat)
    requires Inv(s) && s.links != [] && '\n' in s.serverBuffer && x == s.links[0].lo
    ensures x < |s.issued| && ValidId(s.issued[x].id)
    ensures s.serverBuffer[..Find(s.serverBuffer, '\n')] == CommandLine(s.issued[x])
  {
    assert LinkView(s.issued, s.answered, s.links[0], Unread(s, 0));
    FirstRecord(s.issued, s.answered, s.links[0], s.serverBuffer);
  }

  lemma ProcessedIs(s: State, flags: uint32, response: string)
    requires s.links != [] && '\n' in s.serverBuffer
    requires var line := s.serverBuffer[..Find(s.serverBuffer, '\n')];
      flags == AfterLine(s.flags, line) && response == Response(line)
    ensures Processed(s) == Responded(s, s.serverBuffer[Find(s.serverBuffer, '\n') + 1..], flags, response)
  {}

  lemma ProcessKeepsInv(s: State)
    requires Inv(s) && Enabled(s, Process)
    ensures Inv(Processed(s))
  {
    var x, i := s.links[0].lo, Find(s.serverBuffer, '\n');
    FirstLine(s, x);
    var flags, response := Switched(s.flags, s.issued[x].fault, s.issued[x].enabled), AckLine(s.issued[x]) + "\n";
    LineEffect(s.flags, s.serverBuffer[..i], s.issued[x]);
    ProcessedIs(s, flags, response);
    RespondKeepsInv(s, s.serverBuffer[i + 1..], flags, response);
  }

  lemma ProcessedLinks(s: State, rest: string, flags: uint32, response: string)
    requires Sound(s.issued) && LinksInv(s) && s.links != [] && '\n' in s.serverBuffer
    requires rest == s.serverBuffer[Find(s.serverBuffer, '\n') + 1..]
    ensures LinksInv(Responded(s, rest, flags, response))
    ensures s.answered <= s.links[0].lo && (s.links[0].open ==> s.links[0].lo == s.answered)
  {
    assert LinkView(s.issued, s.answered, s.links[0], Unread(s, 0));
    OneMoreProcessed(s.issued, s.answered, s.links[0], s.serverBuffer);
    RespondKeepsLinks(s, rest, flags, response);
  }

  lemma RespondKeepsInv(s: State, rest: string, flags: uint32, response: string)
    requires Inv(s) && s.links != [] && '\n' in s.serverBuffer
    requires rest == s.serverBuffer[Find(s.serverBuffer, '\n') + 1..]
    requires var x := s.links[0].lo;
      && x < |s.issued| && flags == Switched(s.flags, s.issued[x].fault, s.issued[x].enabled)
      && response == AckLine(s.issued[x]) + "\n"
    ensures Inv(Responded(s, rest, flags, response))
  {
    ProcessedLinks(s, rest, flags, response);
    assert s.attached && |s.links| == 1 ==> s.links[0].open;
    RespondKeepsClient(s, rest, flags, response);
    RespondKeepsFlags(s, rest, flags, response);
  }

  lemma RespondKeepsFlags(s: State, rest: string, flags: uint32, response: string)
    requires FlagsInv(s.issued, s.answered, s.flags) && s.links != [] && s.answered <= s.links[0].lo < |s.issued|
    requires s.attached && |s.links| == 1 ==> s.links[0].lo == s.answered
    requires var c := s.issued[s.links[0].lo]; flags == Switched(s.flags, c.fault, c.enabled)
    ensures var t := Responded(s, rest, flags, response); FlagsInv(t.issued, t.answered, t.flags)
  {
    ProcessKeepsFlags(s.issued, s.answered, s.flags, s.links[0].lo);
  }

  /** Reading any piece of the acknowledgements of issued[a..b] settles issued[a..next], in order. */
  lemma {:induction false} SettleInOrder(issued: seq<Command>, a: nat, b: nat, pending: seq<Command>, text: string,
                                         rest: string)
    returns (next: nat)
    requires a <= b <= |issued| && Sound(issued) && pending == issued[a..]
    requires text + rest == Records("ACK", issued, a, b)
    ensures a <= next <= b
    ensures Settled(pending, Lines(text)) == issued[next..]
    ensures Acknowledged(Lines(text)) == issued[a..next]
    ensures Leftover(text) + rest == Records("ACK", issued, next, b)
    decreases |text|
  {
    if Find(text, '\n') == |text| {
      next := a;
    } else {
      var later := text[Find(text, '\n') + 1..];
      FirstAck(issued, a, b, pending, text, rest);
      SettleFirst(pending, issued[a], text);
      next := SettleInOrder(issued, a + 1, b, issued[a + 1..], later, rest);
      FirstOfSlice(issued, a, next);
    }
  }

  lemma FirstOfSlice(issued: seq<Command>, a: nat, b: nat)
    requires a < b <= |issued|
    ensures issued[a..b] == [issued[a]] + issued[a + 1..b]
  {}

  lemma SettleFirst(pending: seq<Command>, c: Command, text: string)
    requires Find(text, '\n') < |text| && ParseAck(text[..Find(text, '\n')]) == Some(c)
    ensures var rest := text[Find(text, '\n') + 1..];
      && Settled(pending, Lines(text)) == Settled(Remove(pending, c.id), Lines(rest))
      && Acknowledged(Lines(text)) == [c] + Acknowledged(Lines(rest)) && Leftover(text) == Leftover(rest)
  {}

  lemma FirstAck(issued: seq<Command>, a: nat, b: nat, pending: seq<Command>, text: string, rest: string)
    requires a <= b <= |issued| && Sound(issued) && pending == issued[a..] && Find(text, '\n') < |text|
    requires text + rest == Records("ACK", issued, a, b)
    ensures a < b && Remove(pending, issued[a].id) == issued[a + 1..]
    ensures var i := Find(text, '\n');
      ParseAck(text[..i]) == Some(issued[a]) && text[i + 1..] + rest == Records("ACK", issued, a + 1, b)
  {
    FirstOfRecords("ACK", issued, a, b, text, rest);
    AckSurvives(issued[a]);
  }

  // Settling what a piece of the responses acknowledges keeps the client's view.
  lemma SettleKeepsView(issued: seq<Command>, pending: seq<Command>, acknowledged: seq<Command>, answered: nat,
                        text: string, rest: string)
    requires Sound(issued) && ClientView(issued, pending, acknowledged, answered, text + rest)
    ensures ClientView(issued, Settled(pending, Lines(text)), acknowledged + Acknowledged(Lines(text)), answered,
                       Leftover(text) + rest)
  {
    var a := |acknowledged|;
    var next := SettleInOrder(issued, a, answered, pending, text, rest);
    PrefixThenSlice(issued, a, next);
  }

  lemma PrefixThenSlice(issued: seq<Command>, a: nat, b: nat)
    requires a <= b <= |issued|
    ensures issued[..b] == issued[..a] + issued[a..b]
  {}

  lemma DeliverKeepsClient(s: State, n: nat)
    requires Sound(s.issued) && ClientInv(s) && Enabled(s, Deliver(n))
    ensures ClientInv(Delivered(s, n)) && |Delivered(s, n).acknowledged| >= |s.acknowledged|
  {
    var text, rest := s.clientBuffer + s.outbound[..n], s.outbound[n..];
    assert text + rest == s.clientBuffer + s.outbound;
    SettleKeepsView(s.issued, s.pending, s.acknowledged, s.answered, text, rest);
  }

  // What a cut keeps of a link and what it drops are together what the link held.
  lemma CutView(issued: seq<Command>, answered: nat, fewer: nat, link: Link, kept: nat, before: string, after: string)
    requires LinkView(issued, answered, link, before) && fewer <= answered && kept <= |link.inbound|
    requires before == after + link.inbound[kept..]
    ensures LinkView(issued, fewer, Truncated(link, kept), after)
  {
    Regroup(after, link.inbound[kept..], link.lost);
  }

  lemma Regroup(a: string, b: string, c: string)
    ensures a + (b + c) == (a + b) + c
  {}

  lemma CutUnread(s: State, kept: nat, t: State, j: nat)
    requires ClientHasLink(s) && kept <= |Last(s.links).inbound| && t == WasCut(s, kept) && j == |s.links| - 1
    ensures Unread(s, j) == Unread(t, j) + s.links[j].inbound[kept..]
  {
    var inbound := s.links[j].inbound;
    assert inbound == inbound[..kept] + inbound[kept..];
    Regroup(s.serverBuffer, inbound[..kept], inbound[kept..]);
  }

  lemma CutKeepsLink(s: State, kept: nat, t: State, j: nat)
    requires j < |s.links| && LinkView(s.issued, s.answered, s.links[j], Unread(s, j))
    requires s.links[j].open <==> s.attached && j == |s.links| - 1
    requires ClientHasLink(s) ==> kept <= |Last(s.links).inbound|
    requires t == WasCut(s, kept) && t.answered <= s.answered
    ensures LinkView(t.issued, t.answered, t.links[j], Unread(t, j)) && !t.links[j].open
  {
    if s.links[j].open {
      CutUnread(s, kept, t, j);
      CutView(s.issued, s.answered, t.answered, s.links[j], kept, Unread(s, j), Unread(t, j));
    }
  }

  lemma CutKeepsLinks(s: State, kept: nat)
    requires ClientInv(s) && LinksInv(s) && Enabled(s, Cut(kept))
    ensures LinksInv(WasCut(s, kept))
  {
    var t := WasCut(s, kept);
    forall j | 0 <= j < |t.links|
      ensures LinkView(t.issued, t.answered, t.links[j], Unread(t, j)) && !t.links[j].open
    {
      CutKeepsLink(s, kept, t, j);
    }
  }

  lemma CutKeepsClient(s: State, kept: nat)
    requires ClientInv(s) && Enabled(s, Cut(kept))
    ensures ClientInv(WasCut(s, kept))
  {}

  lemma DropKeepsLinks(s: State)
    requires LinksInv(s) && s.links != []
    ensures LinksInv(Dropped(s))
  {
    var t := Dropped(s);
    forall j | 0 <= j < |t.links|
      ensures LinkView(t.issued, t.answered, t.links[j], Unread(t, j))
      ensures t.links[j].open <==> t.attached && j == |t.links| - 1
    {
      assert t.links[j] == s.links[j + 1];
      EmptyEnds(t.links[j].inbound);
    }
  }

  lemma FewerAnswered(issued: seq<Command>, answered: nat, flags: uint32, fewer: nat)
    requires FlagsInv(issued, answered, flags) && fewer <= answered
    ensures FlagsInv(issued, fewer, flags)
  {}

  // ---------- Runs ----------

  predicate Possible(s: State, events: seq<Event>)
    decreases |events|
  {
    events == [] || (Enabled(s, events[0]) && Possible(Next(s, events[0]), events[1..]))
  }

  function After(s: State, events: seq<Event>): State
    requires Possible(s, events)
    decreases |events|
  {
    if events == [] then s else After(Next(s, events[0]), events[1..])
  }

  lemma {:induction false} AfterAppend(s: State, a: seq<Event>, b: seq<Event>)
    requires Possible(s, a) && Possible(After(s, a), b)
    ensures Possible(s, a + b) && After(s, a + b) == After(After(s, a), b)
    decreases |a|
  {
    if a == [] {
      assert a + b == b;
    } else {
      assert (a + b)[1..] == a[1..] + b;
      AfterAppend(Next(s, a[0]), a[1..], b);
    }
  }

  lemma OneEvent(s: State, e: Event, t: State, more: seq<Event>)
    requires Enabled(s, e) && t == Next(s, e) && Possible(t, more)
    ensures Possible(s, [e] + more) && After(s, [e] + more) == After(t, more)
  {}

  ghost predicate NoneFor(events: seq<Event>, fault: Fault) {
    forall i :: 0 <= i < |events| && events[i].Issue? ==> events[i].command.fault != fault
  }

  // Events other than new commands for the fault leave its newest command the newest, and acknowledged.
  lemma NewestStays(s: State, e: Event, fault: Fault, n: nat)
    requires Enabled(s, e) && Newest(s.issued, fault, n) && s.issued[n] in s.acknowledged
    requires e.Issue? ==> e.command.fault != fault
    ensures Newest(Next(s, e).issued, fault, n)
    ensures Next(s, e).issued[n] == s.issued[n] && s.issued[n] in Next(s, e).acknowledged
  {}

  lemma {:induction false} NewestStaysThrough(s: State, more: seq<Event>, fault: Fault, n: nat)
    requires Possible(s, more) && Newest(s.issued, fault, n) && s.issued[n] in s.acknowledged
    requires NoneFor(more, fault)
    ensures Newest(After(s, more).issued, fault, n)
    ensures After(s, more).issued[n] == s.issued[n] && s.issued[n] in After(s, more).acknowledged
    decreases |more|
  {
    if more != [] {
      NewestStays(s, more[0], fault, n);
      NewestStaysThrough(Next(s, more[0]), more[1..], fault, n);
    }
  }

  // Nothing but the network and the simulator at work.
  ghost predicate NoIssues(events: seq<Event>) {
    forall i :: 0 <= i < |events| ==> !events[i].Issue?
  }

  lemma NextIssued(s: State, e: Event, t: State)
    requires Enabled(s, e) && t == Next(s, e) && !e.Issue?
    ensures t.issued == s.issued
  {}

  lemma {:induction false} NoneIssued(s: State, more: seq<Event>)
    requires Possible(s, more) && NoIssues(more)
    ensures After(s, more).issued == s.issued
    decreases |more|
  {
    if more != [] {
      NextIssued(s, more[0], Next(s, more[0]));
      NoneIssued(Next(s, more[0]), more[1..]);
    }
  }

  // ---------- Nothing left to do ----------

  // The simulator's next event on the connection it serves.
  function SimulatorEvent(s: State): Event
    requires s.links != []
  {
    if '\n' in s.serverBuffer then Process
    else if s.links[0].inbound != "" then Receive(|s.links[0].inbound|)
    else Finish
  }

  predicate Drained(s: State) {
    s.attached && |s.links| == 1 && s.links[0].inbound == "" && '\n' !in s.serverBuffer
  }

  function Work(s: State): nat
    requires s.links != []
  {
    2 * |s.links[0].inbound| + |s.serverBuffer|
  }

  lemma SimulatorGetsOn(s: State, t: State)
    requires Inv(s) && s.attached && s.links != [] && !Drained(s)
    requires Enabled(s, SimulatorEvent(s)) ==> t == Next(s, SimulatorEvent(s))
    ensures Enabled(s, SimulatorEvent(s)) && t.attached && t.links != []
    ensures |t.links| < |s.links| || (|t.links| == |s.links| && Work(t) < Work(s))
  {}

  lemma DeliveredQuiet(s: State, t: State)
    requires Drained(s) && t == Delivered(s, |s.outbound|)
    ensures Drained(t) && t.outbound == "" && t.links == s.links && t.serverBuffer == s.serverBuffer
  {}

  lemma Quiet(s: State)
    requires Inv(s) && s.attached && |s.links| == 1
    requires s.links[0].inbound == "" && '\n' !in s.serverBuffer && s.outbound == ""
    ensures s.pending == [] && s.acknowledged == s.issued
  {
    var link, a := s.links[0], |s.acknowledged|;
    assert LinkView(s.issued, s.answered, link, Unread(s, 0)) && link.open;
    EmptyEnds(s.serverBuffer);
    EmptyEnds(s.clientBuffer);
    RecordsHaveNewline("COMMAND", s.issued, link.lo, link.hi);
    RecordsHaveNewline("ACK", s.issued, a, s.answered);
  }
}
