/** The TypeScript server's end of the control channel: commands stay pending until acknowledged and are
    written again after every reconnect. */
module ControlClient {
  import opened ControlText
  import opened Options

  // Map.set: a known id keeps its place, a new one goes to the end.
  function Put(pending: seq<Command>, c: Command): seq<Command> {
    if pending == [] then [c]
    else if pending[0].id == c.id then [c] + pending[1..]
    else [pending[0]] + Put(pending[1..], c)
  }

  // Map.delete
  function Remove(pending: seq<Command>, id: string): seq<Command> {
    if pending == [] then []
    else if pending[0].id == id then pending[1..]
    else [pending[0]] + Remove(pending[1..], id)
  }

  ghost predicate DistinctIds(commands: seq<Command>) {
    forall i, j :: 0 <= i < j < |commands| ==> commands[i].id != commands[j].id
  }

  lemma {:induction false} PutKeepsIdsDistinct(pending: seq<Command>, c: Command)
    requires DistinctIds(pending)
    ensures DistinctIds(Put(pending, c))
    ensures forall d :: d in Put(pending, c) ==> d == c || (d in pending && d.id != c.id)
    ensures (forall d :: d in pending ==> d.id != c.id) ==> Put(pending, c) == pending + [c]
  {
    if pending != [] && pending[0].id != c.id {
      PutKeepsIdsDistinct(pending[1..], c);
      var rest := Put(pending[1..], c);
      forall j | 0 <= j < |rest| ensures rest[j].id != pending[0].id {
        assert rest[j] in rest;
      }
    } else if pending != [] {
      forall j | 0 < j < |pending| ensures pending[j].id != c.id {}
    }
  }

  // What the complete lines in a buffer leave pending, and what they acknowledge.
  function Settled(pending: seq<Command>, lines: seq<string>): seq<Command>
    decreases |lines|
  {
    if lines == [] then pending
    else match ParseAck(lines[0])
      case None => Settled(pending, lines[1..])
      case Some(ack) => Settled(Remove(pending, ack.id), lines[1..])
  }

  function Acknowledged(lines: seq<string>): seq<Command> {
    if lines == [] then []
    else match ParseAck(lines[0])
      case None => Acknowledged(lines[1..])
      case Some(ack) => [ack] + Acknowledged(lines[1..])
  }

  function Terminated(c: Command): string {
    CommandLine(c) + "\n"
  }

  lemma AppendTerminated(written: string, c: Command)
    ensures written + Terminated(c) == written + CommandLine(c) + "\n"
  {}

  class SimulatorControlClient {
    var pending: seq<Command>
    var buffer: string
    var running: bool
    var connected: bool
    var hasSocket: bool

    ghost predicate Valid()
      reads this
    {
      DistinctIds(pending) && '\n' !in buffer && (connected ==> hasSocket)
    }

    constructor ()
      ensures Valid() && pending == [] && buffer == "" && !running && !connected && !hasSocket
    {
      pending, buffer, running, connected, hasSocket := [], "", false, false, false;
    }

    method Start()
      requires Valid()
      modifies this`running, this`hasSocket
      ensures Valid() && running && hasSocket
    {
      running := true;
      Connect();
    }

    /** Stopping keeps what is pending; the destroyed socket's close event is still to come. */
    method Stop()
      requires Valid()
      modifies this`running, this`connected
      ensures Valid() && !running && !connected
    {
      running := false;
      connected := false;
    }

    method Connect()
      requires Valid()
      modifies this`hasSocket
      ensures Valid() && hasSocket == (old(hasSocket) || running)
    {
      if !running || hasSocket { return; }
      hasSocket := true;
    }

    method Write(command: Command) returns (written: string)
      requires Valid()
      ensures written == if connected then Terminated(command) else ""
    {
      if !connected || !hasSocket { return ""; }
      written := Terminated(command);
    }

    /** The command is pending from now on, connected or not. */
    method Send(command: Command) returns (written: string)
      requires Valid()
      modifies this`pending
      ensures Valid() && pending == Put(old(pending), command)
      ensures written == if connected then Terminated(command) else ""
    {
      PutKeepsIdsDistinct(pending, command);
      pending := Put(pending, command);
      written := Write(command);
    }

    /** On connect every pending command is written, in the order of issue. */
    method OnConnect() returns (written: string)
      requires Valid() && hasSocket
      modifies this`connected
      ensures Valid() && connected && written == Records("COMMAND", pending, 0, |pending|)
    {
      connected := true;
      written := "";
      for i := 0 to |pending|
        invariant Valid() && connected
        invariant written == Records("COMMAND", pending, 0, i)
      {
        var record := Write(pending[i]);
        RecordsExtend("COMMAND", pending, 0, i);
        AppendTerminated(written, pending[i]);
        written := written + record;
      }
    }

    /** Closing forgets the partial line but no pending command; reconnecting is due while running. */
    method OnClose() returns (reconnect: bool)
      requires Valid()
      modifies this`buffer, this`connected, this`hasSocket
      ensures Valid() && !connected && !hasSocket && buffer == "" && reconnect == running
    {
      hasSocket, buffer, connected := false, "", false;
      reconnect := running;
    }

    /** Each complete line that is an acknowledgement settles its command; the rest waits. */
    method AcceptData(chunk: string) returns (acknowledged: seq<Command>)
      requires Valid()
      modifies this`pending, this`buffer
      ensures Valid()
      ensures pending == Settled(old(pending), Lines(old(buffer) + chunk))
      ensures acknowledged == Acknowledged(Lines(old(buffer) + chunk))
      ensures buffer == Leftover(old(buffer) + chunk)
    {
      ghost var received := buffer + chunk;
      buffer := buffer + chunk;
      acknowledged := [];
      var newline := Find(buffer, '\n');
      while newline < |buffer|
        invariant newline == Find(buffer, '\n') && DistinctIds(pending)
        invariant Settled(pending, Lines(buffer)) == Settled(old(pending), Lines(received))
        invariant acknowledged + Acknowledged(Lines(buffer)) == Acknowledged(Lines(received))
        invariant Leftover(buffer) == Leftover(received)
        decreases |buffer|
      {
        TakeLine(pending, acknowledged, buffer);
        var line := buffer[..newline];
        buffer := buffer[newline + 1..];
        newline := Find(buffer, '\n');
        var ack := ParseAck(line);
        if ack == None { continue; }
        RemoveKeepsIdsDistinct(pending, ack.value.id);
        pending := Remove(pending, ack.value.id);
        acknowledged := acknowledged + [ack.value];
      }
      assert acknowledged + [] == acknowledged;
    }
  }

  lemma TakeLine(pending: seq<Command>, acknowledged: seq<Command>, buffer: string)
    requires Find(buffer, '\n') < |buffer|
    ensures var i := Find(buffer, '\n'); var ack, rest := ParseAck(buffer[..i]), buffer[i + 1..];
      && Leftover(buffer) == Leftover(rest)
      && Settled(pending, Lines(buffer))
         == Settled(if ack.Some? then Remove(pending, ack.value.id) else pending, Lines(rest))
      && acknowledged + Acknowledged(Lines(buffer))
         == (if ack.Some? then acknowledged + [ack.value] else acknowledged) + Acknowledged(Lines(rest))
  {}

  lemma {:induction false} RemoveKeepsOthers(pending: seq<Command>, id: string, d: Command)
    requires DistinctIds(pending)
    ensures d in Remove(pending, id) <==> d in pending && d.id != id
  {
    if pending != [] {
      RemoveKeepsOthers(pending[1..], id, d);
      assert d in pending <==> d == pending[0] || d in pending[1..];
    }
  }

  lemma {:induction false} RemoveKeepsIdsDistinct(pending: seq<Command>, id: string)
    requires DistinctIds(pending)
    ensures DistinctIds(Remove(pending, id))
  {
    if pending != [] {
      RemoveKeepsIdsDistinct(pending[1..], id);
      var rest := Remove(pending[1..], id);
      forall j | 0 <= j < |rest| ensures rest[j].id != pending[0].id {
        RemoveKeepsOthers(pending[1..], id, rest[j]);
      }
    }
  }
}
