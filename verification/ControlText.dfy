/** The tab-separated records of the control channel: framing, formatting and parsing as the two ends
    do it. Identifiers and faults are ASCII, so a character is a byte. */
module ControlText {
  import opened Options

  datatype Fault = ThrusterLoss | SensorNoise | PacketLoss

  datatype Command = Command(id: string, fault: Fault, enabled: bool)

  function FaultName(fault: Fault): string {
    match fault
    case ThrusterLoss => "thruster_loss"
    case SensorNoise => "sensor_noise"
    case PacketLoss => "packet_loss"
  }

  // isFault and fault_mask know the same three names.
  function FaultNamed(name: string): Option<Fault> {
    if name == "thruster_loss" then Some(ThrusterLoss)
    else if name == "sensor_noise" then Some(SensorNoise)
    else if name == "packet_loss" then Some(PacketLoss)
    else None
  }

  predicate IdCharacter(c: char) {
    'A' <= c <= 'Z' || 'a' <= c <= 'z' || '0' <= c <= '9' || c == '-'
  }

  // isFaultCommand: 1 to 64 letters, digits or hyphens.
  predicate ValidId(id: string) {
    1 <= |id| <= 64 && forall i :: 0 <= i < |id| ==> IdCharacter(id[i])
  }

  // In terms of ASCII codes.
  lemma ValidIdByCode(id: string)
    ensures ValidId(id) <==>
      && 0 < |id| < 65
      && forall i :: 0 <= i < |id| ==>
           var code := id[i] as int;
           code == 45 || 48 <= code <= 57 || 65 <= code <= 90 || 97 <= code <= 122
  {}

  // The position of the first c, or the length.
  function Find(s: string, c: char): (i: nat)
    ensures i <= |s|
    ensures forall j :: 0 <= j < i ==> s[j] != c
    ensures i < |s| ==> s[i] == c
  {
    FindFrom(s, c, 0)
  }

  function FindFrom(s: string, c: char, from: nat): (i: nat)
    requires from <= |s|
    ensures from <= i <= |s|
    ensures forall j :: from <= j < i ==> s[j] != c
    ensures i < |s| ==> s[i] == c
    decreases |s| - from
  {
    if from == |s| || s[from] == c then from else FindFrom(s, c, from + 1)
  }

  lemma FindUnique(s: string, c: char, i: nat)
    requires i <= |s| && (forall j :: 0 <= j < i ==> s[j] != c) && (i < |s| ==> s[i] == c)
    ensures Find(s, c) == i
  {}

  // ---------- Framing ----------

  // The complete lines of a buffer, without their newlines, and what is left over.
  function Lines(buffer: string): seq<string>
    decreases |buffer|
  {
    var i := Find(buffer, '\n');
    if i == |buffer| then [] else [buffer[..i]] + Lines(buffer[i + 1..])
  }

  function Leftover(buffer: string): (rest: string)
    ensures '\n' !in rest
    decreases |buffer|
  {
    var i := Find(buffer, '\n');
    if i == |buffer| then buffer else Leftover(buffer[i + 1..])
  }

  /** A buffer's leftover, extended, yields exactly the lines the extension completes. */
  lemma {:induction false} LinesOfExtension(a: string, b: string)
    ensures Lines(a + b) == Lines(a) + Lines(Leftover(a) + b)
    ensures Leftover(a + b) == Leftover(Leftover(a) + b)
    decreases |a|
  {
    var i := Find(a, '\n');
    if i < |a| {
      var first, rest := a[..i], a[i + 1..];
      FirstLineOfExtension(a, b);
      LinesOfExtension(rest, b);
      var later := Lines(Leftover(rest) + b);
      assert Lines(a) == [first] + Lines(rest) && Leftover(a) == Leftover(rest);
      assert [first] + (Lines(rest) + later) == ([first] + Lines(rest)) + later;
    } else {
      assert Lines(a) == [] && Leftover(a) == a;
    }
  }

  lemma FirstLineOfExtension(a: string, b: string)
    requires Find(a, '\n') < |a|
    ensures var i := Find(a, '\n');
      Lines(a + b) == [a[..i]] + Lines(a[i + 1..] + b) && Leftover(a + b) == Leftover(a[i + 1..] + b)
  {
    var i := Find(a, '\n');
    FindUnique(a + b, '\n', i);
    assert (a + b)[..i] == a[..i] && (a + b)[i + 1..] == a[i + 1..] + b;
  }

  function Concat(chunks: seq<string>): string {
    if chunks == [] then "" else chunks[0] + Concat(chunks[1..])
  }

  // Reading chunk by chunk, as both ends do: take the complete lines after every chunk.
  function LinesByChunk(buffer: string, chunks: seq<string>): seq<string>
    decreases |chunks|
  {
    if chunks == [] then []
    else Lines(buffer + chunks[0]) + LinesByChunk(Leftover(buffer + chunks[0]), chunks[1..])
  }

  function LeftoverByChunk(buffer: string, chunks: seq<string>): string
    decreases |chunks|
  {
    if chunks == [] then buffer
    else LeftoverByChunk(Leftover(buffer + chunks[0]), chunks[1..])
  }

  /** However a byte stream is split into chunks, the same lines come out and the same text is left. */
  lemma {:induction false} ChunksDoNotMatter(buffer: string, chunks: seq<string>)
    requires '\n' !in buffer
    ensures LinesByChunk(buffer, chunks) == Lines(buffer + Concat(chunks))
    ensures LeftoverByChunk(buffer, chunks) == Leftover(buffer + Concat(chunks))
    decreases |chunks|
  {
    if chunks == [] {
      assert buffer + "" == buffer;
      NoNewlineNoLines(buffer);
    } else {
      var text := buffer + chunks[0];
      LinesOfExtension(text, Concat(chunks[1..]));
      assert text + Concat(chunks[1..]) == buffer + Concat(chunks);
      ChunksDoNotMatter(Leftover(text), chunks[1..]);
    }
  }

  lemma NoNewlineNoLines(buffer: string)
    requires '\n' !in buffer
    ensures Find(buffer, '\n') == |buffer| && Lines(buffer) == [] && Leftover(buffer) == buffer
  {}

  // ---------- Formatting ----------

  function Digit(enabled: bool): string {
    if enabled then "1" else "0"
  }

  // The fields from a position on, with tabs between them.
  function Tabbed(fields: seq<string>, from: nat): string
    requires from < |fields|
    decreases |fields| - from
  {
    if from + 1 == |fields| then fields[from] else fields[from] + "\t" + Tabbed(fields, from + 1)
  }

  function Record(verb: string, c: Command): seq<string> {
    [verb, c.id, FaultName(c.fault), Digit(c.enabled)]
  }

  function Line(verb: string, c: Command): string {
    Tabbed(Record(verb, c), 0)
  }

  function CommandLine(c: Command): string {
    Line("COMMAND", c)
  }

  function AckLine(c: Command): string {
    Line("ACK", c)
  }

  predicate Plain(s: string) {
    '\t' !in s && '\n' !in s
  }

  lemma RecordFieldsArePlain(c: Command)
    requires ValidId(c.id)
    ensures Plain(c.id) && Plain(FaultName(c.fault)) && Plain(Digit(c.enabled))
  {}

  lemma {:induction false} TabbedHasNoNewline(fields: seq<string>, from: nat)
    requires from < |fields| && forall i :: 0 <= i < |fields| ==> '\n' !in fields[i]
    ensures '\n' !in Tabbed(fields, from)
    decreases |fields| - from
  {
    if from + 1 < |fields| { TabbedHasNoNewline(fields, from + 1); }
  }

  // ---------- Parsing ----------

  // std::getline on what is left of a string stream: nothing left is a failure, and the delimiter,
  // when there is one, is consumed.
  function GetLine(rest: string, delimiter: char): Option<(string, string)> {
    if rest == "" then None
    else
      var i := Find(rest, delimiter);
      Some((rest[..i], if i < |rest| then rest[i + 1..] else ""))
  }

  // The four getline calls of handle_command.
  function FourFields(line: string): Option<seq<string>> {
    match GetLine(line, '\t')
    case None => None
    case Some((verb, rest1)) =>
      match GetLine(rest1, '\t')
      case None => None
      case Some((id, rest2)) =>
        match GetLine(rest2, '\t')
        case None => None
        case Some((fault, rest3)) =>
          match GetLine(rest3, '\n')
          case None => None
          case Some((enabled, _)) => Some([verb, id, fault, enabled])
  }

  datatype Parsed = Malformed | InvalidFault | Accepted(command: Command)

  // handle_command up to the effect on the flags.
  function ParseCommand(line: string): Parsed {
    match FourFields(line)
    case None => Malformed
    case Some(f) =>
      if |f| != 4 || f[0] != "COMMAND" || f[1] == "" then Malformed
      else if FaultNamed(f[2]).None? || (f[3] != "0" && f[3] != "1") then InvalidFault
      else Accepted(Command(f[1], FaultNamed(f[2]).value, f[3] == "1"))
  }

  // String.prototype.split.
  function Split(s: string, separator: char): (parts: seq<string>)
    ensures |parts| >= 1
    decreases |s|
  {
    var i := Find(s, separator);
    if i == |s| then [s] else [s[..i]] + Split(s[i + 1..], separator)
  }

  // #acceptData on one line: the acknowledged command, if the line is one.
  function ParseAck(line: string): Option<Command> {
    var f := Split(line, '\t');
    if |f| < 4 || f[0] != "ACK" || f[1] == "" || FaultNamed(f[2]).None? || (f[3] != "0" && f[3] != "1") then None
    else Some(Command(f[1], FaultNamed(f[2]).value, f[3] == "1"))
  }

  lemma FirstField(field: string, rest: string, separator: char)
    requires separator !in field
    ensures Find(field + [separator] + rest, separator) == |field|
    ensures (field + [separator] + rest)[..|field|] == field
    ensures (field + [separator] + rest)[|field| + 1..] == rest
  {
    FindUnique(field + [separator] + rest, separator, |field|);
  }

  lemma GetLineFirst(field: string, rest: string)
    requires '\t' !in field
    ensures GetLine(field + "\t" + rest, '\t') == Some((field, rest))
  {
    FirstField(field, rest, '\t');
  }

  lemma GetLineLast(field: string)
    requires Plain(field) && field != ""
    ensures GetLine(field, '\n') == Some((field, ""))
  {
    FindUnique(field, '\n', |field|);
    assert field[..|field|] == field;
  }

  lemma FieldsOfTabbed(f: seq<string>)
    requires |f| == 4 && f[3] != "" && forall i :: 0 <= i < 4 ==> Plain(f[i])
    ensures FourFields(Tabbed(f, 0)) == Some([f[0], f[1], f[2], f[3]])
  {
    GetLineFirst(f[0], Tabbed(f, 1));
    GetLineFirst(f[1], Tabbed(f, 2));
    GetLineFirst(f[2], Tabbed(f, 3));
    GetLineLast(f[3]);
  }

  lemma SplitFirst(field: string, rest: string, separator: char)
    requires separator !in field
    ensures Split(field + [separator] + rest, separator) == [field] + Split(rest, separator)
  {
    FirstField(field, rest, separator);
  }

  lemma SplitJoined(fields: seq<string>, from: nat, rest: string)
    requires from < |fields| && '\t' !in fields[from] && Split(rest, '\t') == fields[from + 1..]
    ensures Split(fields[from] + "\t" + rest, '\t') == fields[from..]
  {
    SplitFirst(fields[from], rest, '\t');
    assert fields[from..] == [fields[from]] + fields[from + 1..];
  }

  lemma {:induction false} SplitTabbed(fields: seq<string>, from: nat)
    requires from < |fields| && forall i :: 0 <= i < |fields| ==> '\t' !in fields[i]
    ensures Split(Tabbed(fields, from), '\t') == fields[from..]
    decreases |fields| - from
  {
    if from + 1 == |fields| {
      FindUnique(fields[from], '\t', |fields[from]|);
    } else {
      SplitTabbed(fields, from + 1);
      SplitJoined(fields, from, Tabbed(fields, from + 1));
    }
  }

  lemma FaultNameRoundTrip(fault: Fault)
    ensures FaultNamed(FaultName(fault)) == Some(fault)
  {}

  lemma CommandFields(c: Command)
    requires ValidId(c.id)
    ensures FourFields(CommandLine(c)) == Some(Record("COMMAND", c))
  {
    RecordFieldsArePlain(c);
    FieldsOfTabbed(Record("COMMAND", c));
  }

  lemma ParsedRecord(line: string, f: seq<string>, c: Command)
    requires FourFields(line) == Some(f) && |f| == 4
    requires f[0] == "COMMAND" && f[1] == c.id != "" && FaultNamed(f[2]) == Some(c.fault) && f[3] == Digit(c.enabled)
    ensures ParseCommand(line) == Accepted(c)
  {}

  /** The simulator reads a validated command exactly as it was issued. */
  lemma CommandSurvives(c: Command)
    requires ValidId(c.id)
    ensures ParseCommand(CommandLine(c)) == Accepted(c)
  {
    CommandFields(c);
    FaultNameRoundTrip(c.fault);
    ParsedRecord(CommandLine(c), Record("COMMAND", c), c);
  }

  lemma GetLineMore(rest: string, field: string, more: string)
    requires GetLine(rest, '\t') == Some((field, more)) && more != ""
    ensures rest == field + "\t" + more && '\t' !in field
  {}

  lemma GetLineAll(rest: string, field: string, more: string)
    requires GetLine(rest, '\n') == Some((field, more)) && '\n' !in rest
    ensures field == rest
  {}

  // Four fields were read only if the line is four fields.
  lemma FieldsAreTabbed(line: string, f: seq<string>)
    requires '\n' !in line && FourFields(line) == Some(f)
    ensures |f| == 4 && line == f[0] + "\t" + (f[1] + "\t" + (f[2] + "\t" + f[3])) && '\t' !in f[1]
  {
    var (verb, rest1) := GetLine(line, '\t').value;
    var (id, rest2) := GetLine(rest1, '\t').value;
    var (fault, rest3) := GetLine(rest2, '\t').value;
    GetLineMore(line, verb, rest1);
    GetLineMore(rest1, id, rest2);
    GetLineMore(rest2, fault, rest3);
    GetLineAll(rest3, f[3], GetLine(rest3, '\n').value.1);
  }

  lemma LineOfFields(verb: string, c: Command)
    ensures Line(verb, c) == verb + "\t" + (c.id + "\t" + (FaultName(c.fault) + "\t" + Digit(c.enabled)))
  {
    var f := Record(verb, c);
    assert Tabbed(f, 3) == f[3];
    assert Tabbed(f, 2) == f[2] + "\t" + Tabbed(f, 3);
    assert Tabbed(f, 1) == f[1] + "\t" + Tabbed(f, 2);
  }

  lemma NamedFault(name: string, fault: Fault)
    requires FaultNamed(name) == Some(fault)
    ensures name == FaultName(fault)
  {}

  /** The simulator accepts nothing else: a line it takes for a command is the text of that command. */
  lemma AcceptedLineIsCommand(line: string, c: Command)
    requires '\n' !in line && ParseCommand(line) == Accepted(c)
    ensures line == CommandLine(c) && c.id != "" && '\t' !in c.id
  {
    var f := FourFields(line).value;
    FieldsAreTabbed(line, f);
    NamedFault(f[2], c.fault);
    LineOfFields("COMMAND", c);
  }

  /** The server reads the acknowledgement of a validated command as that command. */
  lemma AckSurvives(c: Command)
    requires ValidId(c.id)
    ensures ParseAck(AckLine(c)) == Some(c)
  {
    RecordFieldsArePlain(c);
    FaultNameRoundTrip(c.fault);
    SplitTabbed(Record("ACK", c), 0);
  }

  function ErrorLine(reason: string): string {
    "ERROR" + "\t" + reason
  }

  /** The server takes no error response for an acknowledgement. */
  lemma ErrorsAcknowledgeNothing(reason: string)
    ensures ParseAck(ErrorLine(reason)) == None
  {}

  // ---------- Streams of records ----------

  // The records of commands[lo..hi].
  function Records(verb: string, commands: seq<Command>, lo: nat, hi: nat): string
    requires hi <= |commands|
    decreases hi - lo
  {
    if lo >= hi then "" else Line(verb, commands[lo]) + "\n" + Records(verb, commands, lo + 1, hi)
  }

  lemma {:induction false} RecordsExtend(verb: string, commands: seq<Command>, lo: nat, hi: nat)
    requires lo <= hi < |commands|
    ensures Records(verb, commands, lo, hi + 1) == Records(verb, commands, lo, hi) + Line(verb, commands[hi]) + "\n"
    decreases hi - lo
  {
    if lo == hi {
      EmptyEnds(Line(verb, commands[hi]) + "\n");
    } else {
      RecordsExtend(verb, commands, lo + 1, hi);
      Reassociate(Line(verb, commands[lo]) + "\n", Records(verb, commands, lo + 1, hi), Line(verb, commands[hi]));
    }
  }

  lemma EmptyEnds(a: string)
    ensures "" + a == a == a + ""
  {}

  lemma Reassociate(a: string, b: string, c: string)
    ensures a + (b + c + "\n") == a + b + c + "\n"
  {}

  // Records depend only on the commands they are of, not on where those stand.
  lemma {:induction false} RecordsAgree(verb: string, a: seq<Command>, lo: nat, hi: nat, b: seq<Command>, from: nat,
                                        to: nat)
    requires lo <= hi <= |a| && from <= to <= |b| && hi - lo == to - from
    requires forall k :: lo <= k < hi ==> a[k] == b[k + (from - lo)]
    ensures Records(verb, a, lo, hi) == Records(verb, b, from, to)
    decreases hi - lo
  {
    if lo < hi {
      assert a[lo] == b[lo + (from - lo)] == b[from];
      RecordsAgree(verb, a, lo + 1, hi, b, from + 1, to);
    }
  }

  lemma FirstNewline(first: string, rest: string, text: string, lost: string)
    requires '\n' !in first && text + lost == first + "\n" + rest && Find(text, '\n') < |text|
    ensures Find(text, '\n') == |first|
    ensures text[..|first|] == first && text[|first| + 1..] + lost == rest
  {
    var whole := first + "\n" + rest;
    assert whole[|first|] == '\n' && forall k :: 0 <= k < |first| ==> whole[k] == first[k];
    assert forall k :: 0 <= k < |text| ==> text[k] == (text + lost)[k];
    assert |first| == Find(text, '\n');
    assert text[..|first|] == whole[..|first|] == first;
    assert text[|first| + 1..] + lost == whole[|first| + 1..] == rest;
  }

  lemma LineHasNoNewline(verb: string, c: Command)
    requires Plain(verb) && ValidId(c.id)
    ensures '\n' !in Line(verb, c)
  {
    RecordFieldsArePlain(c);
    TabbedHasNoNewline(Record(verb, c), 0);
  }

  /** When a record stream was cut into text and a lost rest, text's first complete line is the
      stream's first record. */
  lemma FirstOfRecords(verb: string, commands: seq<Command>, lo: nat, hi: nat, text: string, lost: string)
    requires Plain(verb) && hi <= |commands| && forall i :: 0 <= i < |commands| ==> ValidId(commands[i].id)
    requires text + lost == Records(verb, commands, lo, hi) && Find(text, '\n') < |text|
    ensures lo < hi
    ensures text[..Find(text, '\n')] == Line(verb, commands[lo])
    ensures text[Find(text, '\n') + 1..] + lost == Records(verb, commands, lo + 1, hi)
  {
    if lo < hi {
      LineHasNoNewline(verb, commands[lo]);
      FirstNewline(Line(verb, commands[lo]), Records(verb, commands, lo + 1, hi), text, lost);
    }
  }

  /** A whole record stream has a newline exactly when it is not empty. */
  lemma RecordsHaveNewline(verb: string, commands: seq<Command>, lo: nat, hi: nat)
    requires hi <= |commands|
    ensures '\n' in Records(verb, commands, lo, hi) <==> lo < hi
  {}

}
