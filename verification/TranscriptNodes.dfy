// The nodes written for a transcript: one for each turn, and the parts of each turn that is
// over the window; and the ceiling declared for them from two counts of the whole file.
module TranscriptNodes {
  import opened Text
  import opened Json
  import opened Transcript
  import opened Chunker
  import opened Ceiling

  datatype Node = Turn(message: Message) | Part(turnIndex: nat, partIndex: nat, text: string)

  /** Why structuring stops: the file does not parse, a turn is not text, or a turn cannot be
      cut to the window. */
  datatype TaskError = Unparsed | NotText | Uncut(error: ChunkError)

  type Nodes = Result<seq<Node>, TaskError>

  /** One chunk for each piece of the turn. */
  function PartsOf(turnIndex: nat, chunks: seq<Chunk>): seq<Node> {
    if chunks == [] then []
    else PartsOf(turnIndex, chunks[..|chunks| - 1]) + [Part(turnIndex, |chunks| - 1, chunks[|chunks| - 1].text)]
  }

  method SplitOversized(m: Message, over: string -> bool, c: Config) returns (r: Nodes)
    requires Callable(c) && m.content.String?
    ensures r == Oversized(m, over, c)
  {
    if !over(m.content.text) { return Ok([]); }
    var chunks := ChunkText(m.content.text, c);
    if chunks.Err? { return Err(Uncut(chunks.error)); }
    var parts: seq<Node> := [];
    for k := 0 to |chunks.value|
      invariant parts == PartsOf(m.turnIndex, chunks.value[..k])
    {
      assert chunks.value[..k + 1][..k] == chunks.value[..k];
      parts := parts + [Part(m.turnIndex, k, chunks.value[k].text)];
    }
    assert chunks.value[..|chunks.value|] == chunks.value;
    r := Ok(parts);
  }

  function Oversized(m: Message, over: string -> bool, c: Config): Nodes
    requires Callable(c) && m.content.String?
  {
    if !over(m.content.text) then Ok([])
    else
      var chunks := Chunks(m.content.text, c);
      if chunks.Err? then Err(Uncut(chunks.error)) else Ok(PartsOf(m.turnIndex, chunks.value))
  }

  function TurnNodes(m: Message, over: string -> bool, c: Config): Nodes
    requires Callable(c)
  {
    if !m.content.String? then Err(NotText)
    else
      var parts := Oversized(m, over, c);
      if parts.Err? then parts else Ok([Turn(m)] + parts.value)
  }

  function NodesFor(ms: seq<Message>, over: string -> bool, c: Config): Nodes
    requires Callable(c)
  {
    if ms == [] then Ok([])
    else
      var k := |ms| - 1;
      var earlier := NodesFor(ms[..k], over, c);
      if earlier.Err? then earlier
      else
        var here := TurnNodes(ms[k], over, c);
        if here.Err? then here else Ok(earlier.value + here.value)
  }

  function Structured(raw: string, over: string -> bool, c: Config): Nodes
    requires Callable(c)
  {
    var ms := Parsed(raw);
    if ms.Err? then Err(Unparsed) else NodesFor(ms.value, over, c)
  }

  /** Turns in the order the transcript states them, each before its own parts. */
  method StructureConversation(raw: string, over: string -> bool, c: Config) returns (r: Nodes)
    requires Callable(c)
    ensures r == Structured(raw, over, c)
  {
    var messages := ParseJsonl(raw);
    if messages.Err? { return Err(Unparsed); }
    var ms := messages.value;
    var nodes: seq<Node> := [];
    for k := 0 to |ms|
      invariant NodesFor(ms[..k], over, c) == Ok(nodes)
    {
      assert ms[..k + 1][..k] == ms[..k];
      if !ms[k].content.String? {
        ErrorStays(ms, k + 1, over, c);
        return Err(NotText);
      }
      var parts := SplitOversized(ms[k], over, c);
      if parts.Err? {
        ErrorStays(ms, k + 1, over, c);
        return parts;
      }
      nodes := nodes + ([Turn(ms[k])] + parts.value);
    }
    assert ms[..|ms|] == ms;
    r := Ok(nodes);
  }

  lemma {:induction false} ErrorStays(ms: seq<Message>, k: nat, over: string -> bool, c: Config)
    requires Callable(c) && k <= |ms| && NodesFor(ms[..k], over, c).Err?
    ensures NodesFor(ms, over, c) == NodesFor(ms[..k], over, c)
    decreases |ms|
  {
    if k == |ms| {
      assert ms[..k] == ms;
    } else {
      var n := |ms| - 1;
      assert ms[..n][..k] == ms[..k];
      ErrorStays(ms[..n], k, over, c);
    }
  }

  // ----- the declared ceiling ---------------------------------------------------------------

  function LineFeeds(s: string): nat {
    if s == "" then 0 else (if s[0] == '\n' then 1 else 0) + LineFeeds(s[1..])
  }

  /** line_count + char_count */
  function ConversationCeiling(raw: string): nat {
    (LineFeeds(raw) + 1) + |raw|
  }

  /** One for the turn and one for each character of its text. */
  function Cost(ms: seq<Message>): nat {
    if ms == [] then 0
    else
      var k := |ms| - 1;
      Cost(ms[..k]) + 1 + if ms[k].content.String? then |ms[k].content.text| else 0
  }

  lemma {:induction false} CostAppend(a: seq<Message>, b: seq<Message>)
    ensures Cost(a + b) == Cost(a) + Cost(b)
    decreases |b|
  {
    if b == [] {
      assert a + b == a;
    } else {
      var k := |b| - 1;
      assert (a + b)[..|a| + k] == a + b[..k];
      CostAppend(a, b[..k]);
    }
  }

  /** The syntax of a line pays for its turns, and its strings for their decoded text. */
  lemma LineFits(line: string, index: nat)
    ensures var r := LineTurns(line, index); r.Ok? ==> Cost(r.value) <= |line|
  {
    var s := Strip(line);
    StripKeepsInk(line);
    var v := Loads(s);
    if v.Some? && v.value.Object? {
      ObjectFits(s);
      TurnsCost(v.value.members, index);
    }
  }

  lemma TurnsCost(members: seq<(string, Json)>, index: nat)
    ensures Cost(ObjectTurns(members, index)) <= MembersSize(members)
  {
    var turns := ObjectTurns(members, index);
    GetFits(members, "prompt");
    GetFits(members, "content");
    GetTwoFit(members, "prompt", "response");
    if |turns| == 2 {
      assert turns[..1] == [turns[0]];
      CostOfOne(turns[0]);
    } else if |turns| == 1 {
      assert turns == [turns[0]];
      CostOfOne(turns[0]);
    }
  }

  lemma CostOfOne(m: Message)
    ensures Cost([m]) == 1 + if m.content.String? then |m.content.text| else 0
  {
    assert [m][..0] == [];
  }

  function TotalLength(lines: seq<string>): nat {
    if lines == [] then 0 else |lines[0]| + TotalLength(lines[1..])
  }

  lemma {:induction false} LinesFit(lines: seq<string>, index: nat)
    ensures var r := LinesTurns(lines, index); r.Ok? ==> Cost(r.value) <= TotalLength(lines)
  {
    if lines != [] {
      LineFits(lines[0], index);
      var first := LineTurns(lines[0], index);
      var rest := LinesTurns(lines[1..], NextIndex(first, index));
      LinesFit(lines[1..], NextIndex(first, index));
      if first.Ok? && rest.Ok? { CostAppend(first.value, rest.value); }
    }
  }

  lemma {:induction false} SplitFits(s: string)
    ensures TotalLength(SplitLines(s)) <= |s|
    decreases |s|
  {
    if s != "" {
      var n := LineLength(s);
      var rest := if n == |s| then [] else SplitLines(AfterBreak(s, n));
      if n < |s| {
        SplitFits(AfterBreak(s, n));
        assert |AfterBreak(s, n)| <= |s| - n - 1;
      }
      assert SplitLines(s) == [s[..n]] + rest && ([s[..n]] + rest)[1..] == rest;
    }
  }

  lemma {:induction false} PartsOfLength(turnIndex: nat, chunks: seq<Chunk>)
    ensures |PartsOf(turnIndex, chunks)| == |chunks|
  {
    if chunks != [] { PartsOfLength(turnIndex, chunks[..|chunks| - 1]); }
  }

  lemma {:induction false} NodesCost(ms: seq<Message>, over: string -> bool, c: Config)
    requires Callable(c) && Unrepeated(c)
    ensures var r := NodesFor(ms, over, c); r.Ok? ==> |r.value| <= Cost(ms)
  {
    if ms != [] {
      var k := |ms| - 1;
      NodesCost(ms[..k], over, c);
      if ms[k].content.String? {
        var text := ms[k].content.text;
        CountWithinInk(text, c);
        if Chunks(text, c).Ok? { PartsOfLength(ms[k].turnIndex, Chunks(text, c).value); }
      }
    }
  }

  /** The nodes written for a transcript never exceed its line count plus its character
      count, for every file, strategy and window; the characters alone are already enough. */
  lemma NodesWithinCeiling(raw: string, over: string -> bool, c: Config)
    requires Callable(c) && Unrepeated(c)
    ensures var r := Structured(raw, over, c);
            r.Ok? ==> |r.value| <= |raw| < ConversationCeiling(raw)
  {
    StripKeepsInk(raw);
    SplitFits(Strip(raw));
    LinesFit(SplitLines(Strip(raw)), 0);
    if Parsed(raw).Ok? { NodesCost(Parsed(raw).value, over, c); }
  }
}
