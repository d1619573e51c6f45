// Transcripts: messages out as JSON lines, and JSON lines in as messages.
module Transcript {
  import opened Text
  import opened Json

  /** One turn as the parser returns it: fields hold whatever JSON value the line gave them,
      and an absent timestamp is null. */
  datatype Message = Message(role: Json, content: Json, timestamp: Json, turnIndex: nat)

  /** One turn as a caller states it. */
  datatype Said = Said(role: string, content: string, timestamp: Option<string>)

  /** A line holding JSON that is not an object has no `get`, and the error is not caught. */
  datatype ParseError = NotAnObject

  // ----- lines ----------------------------------------------------------------------------

  /** Where str.splitlines breaks. */
  predicate IsBreak(c: char) {
    || '\n' <= c <= '\r'
    || '\U{1C}' <= c <= '\U{1E}'
    || c == '\U{85}' || c == '\U{2028}' || c == '\U{2029}'
  }

  function LineLength(s: string): (n: nat)
    ensures n <= |s| && (forall i :: 0 <= i < n ==> !IsBreak(s[i])) && (n < |s| ==> IsBreak(s[n]))
  {
    if s == "" || IsBreak(s[0]) then 0 else 1 + LineLength(s[1..])
  }

  /** What follows the break at n; a carriage return and a line feed are one break. */
  function AfterBreak(s: string, n: nat): (r: string)
    requires n < |s|
    ensures |r| < |s|
  {
    if s[n] == '\r' && n + 1 < |s| && s[n + 1] == '\n' then s[n + 2..] else s[n + 1..]
  }

  function SplitLines(s: string): seq<string>
    decreases |s|
  {
    if s == "" then []
    else
      var n := LineLength(s);
      [s[..n]] + if n == |s| then [] else SplitLines(AfterBreak(s, n))
  }

  // ----- in -------------------------------------------------------------------------------

  function OrNull(v: Option<Json>): Json {
    if v.Some? then v.value else Null
  }

  function ObjectTurns(members: seq<(string, Json)>, index: nat): (turns: seq<Message>)
    ensures |turns| <= 2
  {
    var timestamp := OrNull(Get(members, "timestamp"));
    var prompt, response := Get(members, "prompt"), Get(members, "response");
    var role, content := Get(members, "role"), Get(members, "content");
    if prompt.Some? then
      var first := Message(if role.Some? then role.value else String("user"), prompt.value, timestamp, index);
      if response.Some? then [first, Message(String("assistant"), response.value, timestamp, index + 1)] else [first]
    else if role.Some? && content.Some? then [Message(role.value, content.value, timestamp, index)]
    else []
  }

  /** The turns of one line; a line that is blank or not JSON is skipped. */
  function LineTurns(line: string, index: nat): Turns {
    var v := Loads(Strip(line));
    if Strip(line) == "" || v.None? then Ok([])
    else if v.value.Object? then Ok(ObjectTurns(v.value.members, index))
    else Err(NotAnObject)
  }

  type Turns = Result<seq<Message>, ParseError>

  /** The first turns and then the others; the first error stops everything. */
  function Then(first: Turns, rest: Turns): Turns {
    if first.Err? then first else if rest.Err? then rest else Ok(first.value + rest.value)
  }

  function NextIndex(first: Turns, index: nat): nat {
    if first.Ok? then index + |first.value| else index
  }

  lemma ThenAssociates(a: Turns, b: Turns, c: Turns)
    ensures Then(Then(a, b), c) == Then(a, Then(b, c))
  {
    if a.Ok? && b.Ok? && c.Ok? {
      assert (a.value + b.value) + c.value == a.value + (b.value + c.value);
    }
  }

  function LinesTurns(lines: seq<string>, index: nat): Turns {
    if lines == [] then Ok([])
    else
      var first := LineTurns(lines[0], index);
      Then(first, LinesTurns(lines[1..], NextIndex(first, index)))
  }

  function Parsed(raw: string): Turns {
    LinesTurns(SplitLines(Strip(raw)), 0)
  }

  method ParseLine(line: string, index: nat) returns (turns: Turns)
    ensures turns == LineTurns(line, index)
  {
    var stripped := Strip(line);
    if stripped == "" { return Ok([]); }
    var obj := Loads(stripped);
    if obj.None? { return Ok([]); }
    if !obj.value.Object? { return Err(NotAnObject); }
    var members := obj.value.members;
    var messages: seq<Message> := [];
    var turnIndex := index;
    var timestamp := OrNull(Get(members, "timestamp"));
    var prompt, role := Get(members, "prompt"), Get(members, "role");
    if prompt.Some? {
      messages := messages + [Message(if role.Some? then role.value else String("user"), prompt.value, timestamp, turnIndex)];
      turnIndex := turnIndex + 1;
      var response := Get(members, "response");
      if response.Some? {
        messages := messages + [Message(String("assistant"), response.value, timestamp, turnIndex)];
      }
    } else if role.Some? && Get(members, "content").Some? {
      messages := messages + [Message(role.value, Get(members, "content").value, timestamp, turnIndex)];
    }
    assert messages == ObjectTurns(members, index);
    turns := Ok(messages);
  }

  method ParseJsonl(raw: string) returns (r: Turns)
    ensures r == Parsed(raw)
  {
    var lines := SplitLines(Strip(raw));
    var messages: seq<Message> := [];
    FirstOfLines(lines, []);
    for k := 0 to |lines|
      invariant LinesTurns(lines, 0) == Then(Ok(messages), LinesTurns(lines[k..], |messages|))
    {
      var turns := ParseLine(lines[k], |messages|);
      NextOfLines(lines, k, messages);
      if turns.Err? { return turns; }
      messages := messages + turns.value;
    }
    FirstOfLines(lines[|lines|..], messages);
    r := Ok(messages);
  }

  lemma FirstOfLines(lines: seq<string>, messages: seq<Message>)
    ensures lines[0..] == lines && Then(Ok([]), LinesTurns(lines, 0)) == LinesTurns(lines, 0)
    ensures lines == [] ==> Then(Ok(messages), LinesTurns(lines, |messages|)) == Ok(messages)
  {
    var whole := LinesTurns(lines, 0);
    assert whole.Ok? ==> [] + whole.value == whole.value;
    assert messages + [] == messages;
  }

  lemma NextOfLines(lines: seq<string>, k: nat, messages: seq<Message>)
    requires k < |lines|
    ensures var turns := LineTurns(lines[k], |messages|);
            Then(Ok(messages), LinesTurns(lines[k..], |messages|)) ==
            if turns.Err? then turns
            else Then(Ok(messages + turns.value), LinesTurns(lines[k + 1..], |messages + turns.value|))
  {
    assert lines[k..][0] == lines[k] && lines[k..][1..] == lines[k + 1..];
    var turns := LineTurns(lines[k], |messages|);
    ThenAssociates(Ok(messages), turns, LinesTurns(lines[k + 1..], NextIndex(turns, |messages|)));
  }

  predicate Indexed(r: Turns, index: nat) {
    r.Ok? ==> forall i :: 0 <= i < |r.value| ==> r.value[i].turnIndex == index + i
  }

  lemma ThenIndexed(first: Turns, rest: Turns, index: nat)
    requires Indexed(first, index) && Indexed(rest, NextIndex(first, index))
    ensures Indexed(Then(first, rest), index)
  {
  }

  /** Whatever the text, each turn's index is its position. */
  lemma {:induction false} TurnIndexIsPosition(lines: seq<string>, index: nat)
    ensures Indexed(LinesTurns(lines, index), index)
  {
    if lines != [] {
      var first := LineTurns(lines[0], index);
      TurnIndexIsPosition(lines[1..], NextIndex(first, index));
      ThenIndexed(first, LinesTurns(lines[1..], NextIndex(first, index)), index);
    }
  }

  // ----- out ------------------------------------------------------------------------------

  type Fields = seq<(string, string)>

  function FieldsOf(m: Said): Fields {
    [("role", m.role), ("content", m.content)] + if m.timestamp.Some? then [("timestamp", m.timestamp.value)] else []
  }

  /** json.dumps of the fields, after the opening brace. */
  function PrintedFields(fields: Fields): string {
    if fields == [] then "}"
    else
      var rest := if |fields| == 1 then "}" else ", " + PrintedFields(fields[1..]);
      Quoted(fields[0].0, ": " + Quoted(fields[0].1, rest))
  }

  function PrintedObject(fields: Fields): string {
    "{" + PrintedFields(fields)
  }

  function PrintedLine(m: Said): string {
    PrintedObject(FieldsOf(m))
  }

  function PrintedLines(ms: seq<Said>): seq<string> {
    if ms == [] then [] else [PrintedLine(ms[0])] + PrintedLines(ms[1..])
  }

  function Printed(ms: seq<Said>): string {
    JoinWith("\n", PrintedLines(ms)) + "\n"
  }

  method MessagesToJsonl(ms: seq<Said>) returns (jsonl: string)
    ensures jsonl == Printed(ms)
  {
    var lines: seq<string> := [];
    for k := 0 to |ms|
      invariant lines + PrintedLines(ms[k..]) == PrintedLines(ms)
    {
      assert ms[k..][1..] == ms[k + 1..];
      Associate(lines, [PrintedLine(ms[k])], PrintedLines(ms[k + 1..]));
      lines := lines + [PrintedLine(ms[k])];
    }
    assert ms[|ms|..] == [];
    assert lines == PrintedLines(ms);
    jsonl := JoinWith("\n", lines) + "\n";
  }

  /** A stated turn as the parser would return it from the given place. */
  function Heard(m: Said, index: nat): Message {
    Message(String(m.role), String(m.content), if m.timestamp.Some? then String(m.timestamp.value) else Null, index)
  }

  function AllHeard(ms: seq<Said>, index: nat): seq<Message> {
    if ms == [] then [] else [Heard(ms[0], index)] + AllHeard(ms[1..], index + 1)
  }
}
