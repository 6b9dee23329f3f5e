/** The simulator's end of the control channel: one connection at a time, line by line. */
module ControlServer {
  import opened Binary
  import opened ControlText

  // fault_mask
  function Mask(fault: Fault): nat {
    match fault
    case ThrusterLoss => 1
    case SensorNoise => 2
    case PacketLoss => 4
  }

  // flags & mask
  predicate Has(flags: uint32, fault: Fault) {
    match fault
    case ThrusterLoss => flags % 2 == 1
    case SensorNoise => (flags / 2) % 2 == 1
    case PacketLoss => (flags / 4) % 2 == 1
  }

  // fetch_or with the mask, or fetch_and with its complement.
  function Switched(flags: uint32, fault: Fault, enabled: bool): uint32 {
    if Has(flags, fault) == enabled then flags
    else if enabled then flags + Mask(fault)
    else flags - Mask(fault)
  }

  function Bit(on: bool): nat {
    if on then 1 else 0
  }

  lemma AsBits(flags: uint32)
    ensures flags == 8 * (flags / 8) + 4 * Bit(Has(flags, PacketLoss)) + 2 * Bit(Has(flags, SensorNoise))
                     + Bit(Has(flags, ThrusterLoss))
  {
    QuarterAndEighth(flags);
  }

  // The low bits of the flags with the one of a fault replaced.
  function Replaced(flags: uint32, fault: Fault, enabled: bool, other: Fault): nat {
    Bit(if other == fault then enabled else Has(flags, other))
  }

  lemma SwitchedBits(flags: uint32, fault: Fault, enabled: bool, switched: uint32)
    requires switched == Switched(flags, fault, enabled)
    ensures switched == 8 * (flags / 8) + 4 * Replaced(flags, fault, enabled, PacketLoss)
                        + 2 * Replaced(flags, fault, enabled, SensorNoise)
                        + Replaced(flags, fault, enabled, ThrusterLoss)
  {
    AsBits(flags);
  }

  /** Switching one fault sets its bit as asked and leaves every other bit alone. */
  lemma SwitchedEffect(flags: uint32, fault: Fault, enabled: bool, other: Fault)
    ensures Has(Switched(flags, fault, enabled), other) == if other == fault then enabled else Has(flags, other)
    ensures Switched(flags, fault, enabled) / 8 == flags / 8
  {
    SwitchedBits(flags, fault, enabled, Switched(flags, fault, enabled));
    ThreeBits(flags / 8, Replaced(flags, fault, enabled, PacketLoss), Replaced(flags, fault, enabled, SensorNoise),
              Replaced(flags, fault, enabled, ThrusterLoss));
  }

  lemma ThreeBits(q: nat, a: nat, b: nat, c: nat)
    requires a < 2 && b < 2 && c < 2
    ensures var flags := 8 * q + 4 * a + 2 * b + c;
      flags / 8 == q && (flags / 4) % 2 == a && (flags / 2) % 2 == b && flags % 2 == c
  {
    var flags := 8 * q + 4 * a + 2 * b + c;
    Halve(4 * q + 2 * a + b, c);
    Halve(2 * q + a, b);
    Halve(q, a);
    QuarterAndEighth(flags);
  }

  lemma Halve(x: nat, bit: nat)
    requires bit < 2
    ensures (2 * x + bit) / 2 == x && (2 * x + bit) % 2 == bit
  {}

  lemma QuarterAndEighth(x: nat)
    ensures x / 4 == x / 2 / 2 && x / 8 == x / 2 / 2 / 2
  {}

  // The flags after handle_command, and its response.
  function AfterLine(flags: uint32, line: string): uint32 {
    match ParseCommand(line)
    case Accepted(c) => Switched(flags, c.fault, c.enabled)
    case _ => flags
  }

  function Response(line: string): string {
    match ParseCommand(line)
    case Malformed => ErrorLine("malformed_command") + "\n"
    case InvalidFault => ErrorLine("invalid_fault") + "\n"
    case Accepted(c) => AckLine(c) + "\n"
  }

  function AfterLines(flags: uint32, lines: seq<string>): uint32
    decreases |lines|
  {
    if lines == [] then flags else AfterLines(AfterLine(flags, lines[0]), lines[1..])
  }

  // One send call per line.
  function Responses(lines: seq<string>): seq<string> {
    if lines == [] then [] else [Response(lines[0])] + Responses(lines[1..])
  }

  function AfterClients(flags: uint32, clients: seq<seq<string>>): uint32
    decreases |clients|
  {
    if clients == [] then flags
    else AfterClients(AfterLines(flags, Lines(Concat(clients[0]))), clients[1..])
  }

  function Fewer(m: nat, n: nat): (fewer: nat)
    ensures fewer <= m && fewer <= n
  {
    if m < n then m else n
  }

  // What each client that is accepted has sent by the time the server stops or the client leaves. A round is
  // an accept or a recv with data; after the given number of them the worker finds running cleared.
  function Served(clients: seq<seq<string>>, rounds: nat): seq<seq<string>>
    decreases |clients|
  {
    if clients == [] || rounds == 0 then []
    else
      var received := clients[0][..Fewer(rounds - 1, |clients[0]|)];
      [received] + Served(clients[1..], rounds - 1 - |received|)
  }

  // How many rounds it takes to serve every client to its end.
  function AllRounds(clients: seq<seq<string>>): nat {
    if clients == [] then 0 else 1 + |clients[0]| + AllRounds(clients[1..])
  }

  /** With rounds enough every client is served to its end. */
  lemma {:induction false} ServedToTheEnd(clients: seq<seq<string>>, rounds: nat)
    requires rounds >= AllRounds(clients)
    ensures Served(clients, rounds) == clients
    decreases |clients|
  {
    if clients != [] {
      ServedToTheEnd(clients[1..], rounds - 1 - |clients[0]|);
      assert clients[0][..|clients[0]|] == clients[0];
    }
  }

  function AllResponses(clients: seq<seq<string>>): seq<seq<string>> {
    if clients == [] then [] else [Responses(Lines(Concat(clients[0])))] + AllResponses(clients[1..])
  }

  class ControlServer {
    var faultFlags: uint32

    constructor ()
      ensures faultFlags == 0
    {
      faultFlags := 0;
    }

    method HandleCommand(line: string) returns (response: string)
      modifies this
      ensures faultFlags == AfterLine(old(faultFlags), line) && response == Response(line)
    {
      var parsed := ParseCommand(line);
      match parsed
      case Malformed => return ErrorLine("malformed_command") + "\n";
      case InvalidFault => return ErrorLine("invalid_fault") + "\n";
      case Accepted(command) =>
        faultFlags := Switched(faultFlags, command.fault, command.enabled);
        response := AckLine(command) + "\n";
    }

    // One round of the loop over complete lines.
    method HandleFirstLine(received: string, answered: seq<string>) returns (sent: seq<string>, pending: string)
      requires Find(received, '\n') < |received|
      modifies this
      ensures |pending| < |received| && Leftover(pending) == Leftover(received)
      ensures AfterLines(faultFlags, Lines(pending)) == AfterLines(old(faultFlags), Lines(received))
      ensures sent + Responses(Lines(pending)) == answered + Responses(Lines(received))
    {
      TakeLine(faultFlags, answered, received);
      var newline := Find(received, '\n');
      var response := HandleCommand(received[..newline]);
      pending := received[newline + 1..];
      sent := answered + [response];
    }

    method HandleLines(received: string) returns (sent: seq<string>, pending: string)
      modifies this
      ensures faultFlags == AfterLines(old(faultFlags), Lines(received))
      ensures sent == Responses(Lines(received)) && pending == Leftover(received)
    {
      sent, pending := [], received;
      while Find(pending, '\n') < |pending|
        invariant AfterLines(faultFlags, Lines(pending)) == AfterLines(old(faultFlags), Lines(received))
        invariant sent + Responses(Lines(pending)) == Responses(Lines(received))
        invariant Leftover(pending) == Leftover(received)
        decreases |pending|
      {
        sent, pending := HandleFirstLine(pending, sent);
      }
      assert sent + [] == sent;
    }

    /** Whatever chunks recv delivers, a connection has the effect of the lines of its whole text. */
    method HandleClient(chunks: seq<string>) returns (sent: seq<string>, pending: string)
      modifies this
      ensures faultFlags == AfterLines(old(faultFlags), Lines(Concat(chunks)))
      ensures sent == Responses(Lines(Concat(chunks))) && pending == Leftover(Concat(chunks))
    {
      sent, pending := [], "";
      assert chunks[0..] == chunks;
      for i := 0 to |chunks|
        invariant '\n' !in pending
        invariant AfterLines(faultFlags, LinesByChunk(pending, chunks[i..]))
               == AfterLines(old(faultFlags), LinesByChunk("", chunks))
        invariant sent + Responses(LinesByChunk(pending, chunks[i..])) == Responses(LinesByChunk("", chunks))
        invariant LeftoverByChunk(pending, chunks[i..]) == LeftoverByChunk("", chunks)
      {
        OneMoreChunk(faultFlags, sent, pending, chunks, i);
        var answer;
        answer, pending := HandleLines(pending + chunks[i]);
        sent := sent + answer;
      }
      ChunksDoNotMatter("", chunks);
      assert "" + Concat(chunks) == Concat(chunks);
      assert sent + [] == sent;
    }

    /** The accept loop serves each client to its end before the next, until it finds running cleared after
        some number of rounds: what it has received by then is served as if it were all, and the responses
        to each client are those to its own lines. */
    method Run(clients: seq<seq<string>>, rounds: nat) returns (sent: seq<seq<string>>)
      modifies this
      ensures faultFlags == AfterClients(old(faultFlags), Served(clients, rounds))
      ensures sent == AllResponses(Served(clients, rounds))
    {
      sent := [];
      var left := rounds;
      for i := 0 to |clients|
        invariant AfterClients(faultFlags, Served(clients[i..], left))
               == AfterClients(old(faultFlags), Served(clients, rounds))
        invariant sent + AllResponses(Served(clients[i..], left)) == AllResponses(Served(clients, rounds))
      {
        if left == 0 { break; }
        var n := Fewer(left - 1, |clients[i]|);
        ServedFirst(clients, i, left, n);
        ghost var others := Served(clients[i + 1..], left - 1 - n);
        FirstAnswered(faultFlags, sent, clients[i][..n], others);
        var answers, pending := HandleClient(clients[i][..n]);
        sent := sent + [answers];
        left := left - 1 - n;
        assert Served(clients[i + 1..], left) == others;
      }
      assert sent + [] == sent;
    }
  }

  lemma ServedFirst(clients: seq<seq<string>>, i: nat, left: nat, n: nat)
    requires i < |clients| && left > 0 && n == Fewer(left - 1, |clients[i]|)
    ensures Served(clients[i..], left) == [clients[i][..n]] + Served(clients[i + 1..], left - 1 - n)
  {
    assert clients[i..][1..] == clients[i + 1..];
  }

  lemma FirstAnswered(flags: uint32, sent: seq<seq<string>>, received: seq<string>, others: seq<seq<string>>)
    ensures AfterClients(flags, [received] + others) == AfterClients(AfterLines(flags, Lines(Concat(received))), others)
    ensures sent + AllResponses([received] + others)
         == sent + [Responses(Lines(Concat(received)))] + AllResponses(others)
  {
    assert ([received] + others)[1..] == others;
  }

  lemma TakeLine(flags: uint32, sent: seq<string>, pending: string)
    requires Find(pending, '\n') < |pending|
    ensures var i := Find(pending, '\n'); var line, rest := pending[..i], pending[i + 1..];
      && AfterLines(flags, Lines(pending)) == AfterLines(AfterLine(flags, line), Lines(rest))
      && sent + Responses(Lines(pending)) == sent + [Response(line)] + Responses(Lines(rest))
      && Leftover(pending) == Leftover(rest)
  {}

  lemma OneMoreChunk(flags: uint32, sent: seq<string>, pending: string, chunks: seq<string>, i: nat)
    requires i < |chunks|
    ensures var text := pending + chunks[i];
      var now, later := Lines(text), LinesByChunk(Leftover(text), chunks[i + 1..]);
      && AfterLines(flags, LinesByChunk(pending, chunks[i..])) == AfterLines(AfterLines(flags, now), later)
      && sent + Responses(LinesByChunk(pending, chunks[i..])) == sent + Responses(now) + Responses(later)
      && LeftoverByChunk(pending, chunks[i..]) == LeftoverByChunk(Leftover(text), chunks[i + 1..])
  {
    var text := pending + chunks[i];
    assert chunks[i..][1..] == chunks[i + 1..];
    AfterLinesAppend(flags, Lines(text), LinesByChunk(Leftover(text), chunks[i + 1..]));
  }

  lemma {:induction false} AfterLinesAppend(flags: uint32, a: seq<string>, b: seq<string>)
    ensures AfterLines(flags, a + b) == AfterLines(AfterLines(flags, a), b)
    ensures Responses(a + b) == Responses(a) + Responses(b)
    decreases |a|
  {
    if a == [] {
      assert a + b == b;
    } else {
      assert (a + b)[1..] == a[1..] + b;
      AfterLinesAppend(AfterLine(flags, a[0]), a[1..], b);
    }
  }
}
