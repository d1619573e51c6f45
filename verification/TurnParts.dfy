// What is written for a transcript: every turn in its place, and under each turn over the
// window its text, cut in order.
module TurnParts {
  import opened Text
  import opened Json
  import opened Transcript
  import opened Splitting
  import opened Chunker
  import Fitting
  import opened TranscriptNodes

  /** The turns among the nodes, in order. */
  function TurnsIn(nodes: seq<Node>): seq<Message> {
    if nodes == [] then []
    else
      var k := |nodes| - 1;
      TurnsIn(nodes[..k]) + if nodes[k].Turn? then [nodes[k].message] else []
  }

  /** The texts of the parts of one turn, in order. */
  function PartsIn(nodes: seq<Node>, turnIndex: nat): seq<string> {
    if nodes == [] then []
    else
      var k := |nodes| - 1;
      PartsIn(nodes[..k], turnIndex) + if nodes[k].Part? && nodes[k].turnIndex == turnIndex then [nodes[k].text] else []
  }

  /** A part follows its turn, or the part of that turn numbered one before it. */
  predicate Placed(nodes: seq<Node>, k: nat)
    requires k < |nodes|
  {
    nodes[k].Part? ==>
      && k > 0
      && match nodes[k - 1]
         case Turn(m) => m.turnIndex == nodes[k].turnIndex && nodes[k].partIndex == 0
         case Part(turnIndex, partIndex, _) => turnIndex == nodes[k].turnIndex && nodes[k].partIndex == partIndex + 1
  }

  predicate AllPlaced(nodes: seq<Node>) {
    forall k :: 0 <= k < |nodes| ==> Placed(nodes, k)
  }

  lemma {:induction false} TurnsAppend(a: seq<Node>, b: seq<Node>)
    ensures TurnsIn(a + b) == TurnsIn(a) + TurnsIn(b)
    decreases |b|
  {
    if b == [] {
      assert a + b == a;
    } else {
      var k := |b| - 1;
      assert (a + b)[..|a| + k] == a + b[..k];
      TurnsAppend(a, b[..k]);
    }
  }

  lemma {:induction false} PartsAppend(a: seq<Node>, b: seq<Node>, turnIndex: nat)
    ensures PartsIn(a + b, turnIndex) == PartsIn(a, turnIndex) + PartsIn(b, turnIndex)
    decreases |b|
  {
    if b == [] {
      assert a + b == a;
    } else {
      var k := |b| - 1;
      assert (a + b)[..|a| + k] == a + b[..k];
      PartsAppend(a, b[..k], turnIndex);
    }
  }

  lemma PlacedAppend(a: seq<Node>, b: seq<Node>)
    requires AllPlaced(a) && AllPlaced(b)
    ensures AllPlaced(a + b)
  {
    forall k | 0 <= k < |a + b| ensures Placed(a + b, k) {
      if k < |a| { assert Placed(a, k); } else { assert Placed(b, k - |a|); }
    }
  }

  // ----- one turn --------------------------------------------------------------------------------------

  lemma {:induction false} TextsSnoc(chunks: seq<Chunk>, k: nat)
    requires k + 1 == |chunks|
    ensures Texts(chunks) == Texts(chunks[..k]) + [chunks[k].text]
    decreases k
  {
    if k == 0 {
      assert chunks[1..] == [] && chunks[..0] == [];
    } else {
      TextsSnoc(chunks[1..], k - 1);
      assert chunks[1..][..k - 1] == chunks[..k][1..];
    }
  }

  lemma {:induction false} OneMore(nodes: seq<Node>, node: Node, turnIndex: nat)
    ensures var longer := nodes + [node];
            && TurnsIn(longer) == TurnsIn(nodes) + (if node.Turn? then [node.message] else [])
            && PartsIn(longer, turnIndex)
               == PartsIn(nodes, turnIndex) + (if node.Part? && node.turnIndex == turnIndex then [node.text] else [])
  {
    assert (nodes + [node])[..|nodes|] == nodes;
  }

  lemma {:induction false} OneMorePlaced(nodes: seq<Node>, node: Node)
    requires AllPlaced(nodes) && Placed(nodes + [node], |nodes|)
    ensures AllPlaced(nodes + [node])
  {
    var longer := nodes + [node];
    forall k | 0 <= k < |longer| ensures Placed(longer, k) {
      if k < |nodes| { assert Placed(nodes, k); }
    }
  }

  /** The turn, with the pieces of it under it. */
  ghost predicate UnderOne(nodes: seq<Node>, m: Message, texts: seq<string>, turnIndex: nat) {
    && |nodes| == 1 + |texts| && TurnsIn(nodes) == [m] && AllPlaced(nodes)
    && PartsIn(nodes, turnIndex) == (if turnIndex == m.turnIndex then texts else [])
    && nodes[|texts|] == if texts == [] then Turn(m) else Part(m.turnIndex, |texts| - 1, texts[|texts| - 1])
  }

  lemma {:induction false} OneMorePart(nodes: seq<Node>, m: Message, texts: seq<string>, text: string, turnIndex: nat)
    requires UnderOne(nodes, m, texts, turnIndex)
    ensures UnderOne(nodes + [Part(m.turnIndex, |texts|, text)], m, texts + [text], turnIndex)
  {
    var node := Part(m.turnIndex, |texts|, text);
    OneMore(nodes, node, turnIndex);
    OneMorePlaced(nodes, node);
  }

  lemma {:induction false} PartsSnoc(m: Message, chunks: seq<Chunk>, k: nat)
    requires k + 1 == |chunks|
    ensures [Turn(m)] + PartsOf(m.turnIndex, chunks)
         == [Turn(m)] + PartsOf(m.turnIndex, chunks[..k]) + [Part(m.turnIndex, k, chunks[k].text)]
  {
  }

  lemma {:induction false} NoPartsIs(m: Message, turnIndex: nat)
    ensures UnderOne([Turn(m)], m, [], turnIndex)
  {
    OneMore([], Turn(m), turnIndex);
    assert [] + [Turn(m)] == [Turn(m)];
  }

  lemma {:induction false} PartsOfIs(m: Message, chunks: seq<Chunk>, turnIndex: nat)
    ensures UnderOne([Turn(m)] + PartsOf(m.turnIndex, chunks), m, Texts(chunks), turnIndex)
    decreases |chunks|
  {
    if chunks == [] {
      NoPartsIs(m, turnIndex);
      assert [Turn(m)] + [] == [Turn(m)];
    } else {
      var k := |chunks| - 1;
      PartsOfIs(m, chunks[..k], turnIndex);
      OneMorePart([Turn(m)] + PartsOf(m.turnIndex, chunks[..k]), m, Texts(chunks[..k]), chunks[k].text, turnIndex);
      TextsSnoc(chunks, k);
      PartsSnoc(m, chunks, k);
    }
  }

  /** A turn can be written when it is text and, if it is over the window, can be cut. */
  predicate Writable(m: Message, over: string -> bool, c: Config)
    requires Callable(c)
  {
    m.content.String? && (over(m.content.text) ==> Chunks(m.content.text, c).Ok?)
  }

  /** What is to stand under a turn. */
  function Under(m: Message, over: string -> bool, c: Config): seq<string>
    requires Callable(c) && Writable(m, over, c)
  {
    if over(m.content.text) then Texts(Chunks(m.content.text, c).value) else []
  }

  lemma {:induction false} TurnIs(m: Message, over: string -> bool, c: Config, turnIndex: nat)
    requires Callable(c)
    ensures var r := TurnNodes(m, over, c);
            && (r.Ok? <==> Writable(m, over, c))
            && (r.Ok? ==>
                  && TurnsIn(r.value) == [m] && AllPlaced(r.value)
                  && PartsIn(r.value, turnIndex) == if turnIndex == m.turnIndex then Under(m, over, c) else [])
  {
    if Writable(m, over, c) {
      var chunks := if over(m.content.text) then Chunks(m.content.text, c).value else [];
      PartsOfIs(m, chunks, turnIndex);
    }
  }

  // ----- the whole transcript ----------------------------------------------------------------------------

  predicate Numbered(ms: seq<Message>) {
    forall k :: 0 <= k < |ms| ==> ms[k].turnIndex == k
  }

  predicate AllWritable(ms: seq<Message>, over: string -> bool, c: Config)
    requires Callable(c)
  {
    forall k :: 0 <= k < |ms| ==> Writable(ms[k], over, c)
  }

  lemma {:induction false} WritableSnoc(ms: seq<Message>, over: string -> bool, c: Config)
    requires Callable(c) && ms != []
    ensures var k := |ms| - 1; AllWritable(ms, over, c) <==> AllWritable(ms[..k], over, c) && Writable(ms[k], over, c)
  {
    var k := |ms| - 1;
    assert forall i :: 0 <= i < k ==> ms[..k][i] == ms[i];
  }

  lemma {:induction false} WrittenExactly(ms: seq<Message>, over: string -> bool, c: Config)
    requires Callable(c)
    ensures NodesFor(ms, over, c).Ok? <==> AllWritable(ms, over, c)
    decreases |ms|
  {
    if ms != [] {
      var k := |ms| - 1;
      WrittenExactly(ms[..k], over, c);
      WritableSnoc(ms, over, c);
      TurnIs(ms[k], over, c, 0);
    }
  }

  /** The nodes show these turns, and these parts of one of them. */
  ghost predicate Shows(nodes: seq<Node>, ms: seq<Message>, turnIndex: nat, texts: seq<string>) {
    TurnsIn(nodes) == ms && AllPlaced(nodes) && PartsIn(nodes, turnIndex) == texts
  }

  lemma {:induction false} ShowsAppend(a: seq<Node>, b: seq<Node>, ms: seq<Message>, m: Message, turnIndex: nat,
                                       first: seq<string>, second: seq<string>)
    requires Shows(a, ms, turnIndex, first) && Shows(b, [m], turnIndex, second)
    ensures Shows(a + b, ms + [m], turnIndex, first + second)
  {
    TurnsAppend(a, b);
    PartsAppend(a, b, turnIndex);
    PlacedAppend(a, b);
  }

  function UnderTurn(ms: seq<Message>, over: string -> bool, c: Config, turnIndex: nat): seq<string>
    requires Callable(c) && AllWritable(ms, over, c)
  {
    if turnIndex < |ms| then Under(ms[turnIndex], over, c) else []
  }

  lemma {:induction false} NodesSnoc(ms: seq<Message>, over: string -> bool, c: Config) returns (earlier: seq<Node>, here: seq<Node>)
    requires Callable(c) && ms != [] && AllWritable(ms, over, c)
    ensures var k := |ms| - 1;
            && NodesFor(ms[..k], over, c) == Ok(earlier) && TurnNodes(ms[k], over, c) == Ok(here)
            && NodesFor(ms, over, c) == Ok(earlier + here)
  {
    var k := |ms| - 1;
    WritableSnoc(ms, over, c);
    WrittenExactly(ms[..k], over, c);
    TurnIs(ms[k], over, c, 0);
    earlier, here := NodesFor(ms[..k], over, c).value, TurnNodes(ms[k], over, c).value;
  }

  lemma {:induction false} UnderSnoc(ms: seq<Message>, over: string -> bool, c: Config, turnIndex: nat) returns (texts: seq<string>)
    requires Callable(c) && ms != [] && AllWritable(ms, over, c)
    ensures var k := |ms| - 1;
            && AllWritable(ms[..k], over, c) && UnderTurn(ms, over, c, turnIndex) == UnderTurn(ms[..k], over, c, turnIndex) + texts
            && Writable(ms[k], over, c) && texts == if turnIndex == k then Under(ms[k], over, c) else []
  {
    WritableSnoc(ms, over, c);
    texts := if turnIndex == |ms| - 1 then Under(ms[|ms| - 1], over, c) else [];
  }

  lemma {:induction false} LastShows(ms: seq<Message>, over: string -> bool, c: Config, turnIndex: nat, here: seq<Node>, texts: seq<string>)
    requires Callable(c) && ms != [] && Numbered(ms)
    requires var k := |ms| - 1;
             && Writable(ms[k], over, c) && TurnNodes(ms[k], over, c) == Ok(here)
             && texts == if turnIndex == k then Under(ms[k], over, c) else []
    ensures Shows(here, [ms[|ms| - 1]], turnIndex, texts) && Numbered(ms[..|ms| - 1])
  {
    TurnIs(ms[|ms| - 1], over, c, turnIndex);
    assert ms[|ms| - 1].turnIndex == |ms| - 1;
  }

  lemma {:induction false} OneMoreShown(ms: seq<Message>, earlier: seq<Node>, here: seq<Node>, turnIndex: nat, first: seq<string>, texts: seq<string>)
    requires ms != [] && Shows(earlier, ms[..|ms| - 1], turnIndex, first) && Shows(here, [ms[|ms| - 1]], turnIndex, texts)
    ensures Shows(earlier + here, ms, turnIndex, first + texts)
  {
    var k := |ms| - 1;
    ShowsAppend(earlier, here, ms[..k], ms[k], turnIndex, first, texts);
    assert ms[..k] + [ms[k]] == ms;
  }

  lemma {:induction false} NodesAre(ms: seq<Message>, over: string -> bool, c: Config, turnIndex: nat, nodes: seq<Node>)
    requires Callable(c) && Numbered(ms) && AllWritable(ms, over, c) && NodesFor(ms, over, c) == Ok(nodes)
    ensures Shows(nodes, ms, turnIndex, UnderTurn(ms, over, c, turnIndex))
    decreases |ms|
  {
    if ms != [] {
      var earlier, here := NodesSnoc(ms, over, c);
      var texts := UnderSnoc(ms, over, c, turnIndex);
      LastShows(ms, over, c, turnIndex, here, texts);
      NodesAre(ms[..|ms| - 1], over, c, turnIndex, earlier);
      OneMoreShown(ms, earlier, here, turnIndex, UnderTurn(ms[..|ms| - 1], over, c, turnIndex), texts);
    }
  }

  /** Structuring succeeds exactly when the file parses and every turn can be written. Then
      the turns written are those parsed, in order; each part stands after its turn in the
      order of the pieces; and the parts under a turn are its pieces when it is over the
      window and none when it is not. */
  lemma {:induction false} StructuredExactly(raw: string, over: string -> bool, c: Config)
    requires Callable(c)
    ensures var ms, r := Parsed(raw), Structured(raw, over, c);
            && (r.Ok? <==> ms.Ok? && AllWritable(ms.value, over, c))
            && (r == Err(Unparsed) <==> ms.Err?)
            && (r.Ok? ==>
                  && TurnsIn(r.value) == ms.value && AllPlaced(r.value)
                  && forall k :: 0 <= k < |ms.value| ==> PartsIn(r.value, k) == Under(ms.value[k], over, c))
  {
    var ms := Parsed(raw);
    TurnIndexIsPosition(SplitLines(Strip(raw)), 0);
    if ms.Ok? {
      assert Numbered(ms.value);
      WrittenExactly(ms.value, over, c);
      NotUnparsed(ms.value, over, c);
      if AllWritable(ms.value, over, c) {
        var nodes := Structured(raw, over, c).value;
        NodesAre(ms.value, over, c, 0, nodes);
        forall k | 0 <= k < |ms.value| ensures PartsIn(nodes, k) == Under(ms.value[k], over, c) {
          NodesAre(ms.value, over, c, k, nodes);
        }
      }
    }
  }

  lemma {:induction false} NotUnparsed(ms: seq<Message>, over: string -> bool, c: Config)
    requires Callable(c)
    ensures NodesFor(ms, over, c) != Err(Unparsed)
    decreases |ms|
  {
    if ms != [] { NotUnparsed(ms[..|ms| - 1], over, c); }
  }

  lemma {:induction false} PiecesHold(m: Message, over: string -> bool, c: Config)
    requires Callable(c) && Unrepeated(c) && Writable(m, over, c) && over(m.content.text)
    ensures Ink(Concat(Under(m, over, c))) == Ink(m.content.text)
    ensures c.fits.Some? ==> Fitting.AllFit(Under(m, over, c), c.fits.value)
  {
    ChunksSound(m.content.text, c);
  }

  lemma {:induction false} PartsAre(raw: string, over: string -> bool, c: Config, m: Message)
    requires Callable(c) && Structured(raw, over, c).Ok?
    requires Parsed(raw).Ok? && m in Parsed(raw).value
    ensures Writable(m, over, c) && PartsIn(Structured(raw, over, c).value, m.turnIndex) == Under(m, over, c)
  {
    StructuredExactly(raw, over, c);
    TurnIndexIsPosition(SplitLines(Strip(raw)), 0);
    var ms := Parsed(raw).value;
    var k :| 0 <= k < |ms| && ms[k] == m;
    assert ms[k].turnIndex == k;
  }

  lemma {:induction false} HeldBy(parts: seq<string>, m: Message, over: string -> bool, c: Config)
    requires Callable(c) && Unrepeated(c) && Writable(m, over, c) && over(m.content.text) && parts == Under(m, over, c)
    ensures Ink(Concat(parts)) == Ink(m.content.text)
    ensures c.fits.Some? ==> Fitting.AllFit(parts, c.fits.value)
  {
    PiecesHold(m, over, c);
  }

  /** The parts of a turn hold its text: every character that is not whitespace once and in
      order, in pieces the window accepts, unless the pieces repeat words. */
  lemma {:induction false} PartsHoldTheTurn(raw: string, over: string -> bool, c: Config, m: Message)
    requires Callable(c) && Unrepeated(c) && Structured(raw, over, c).Ok?
    requires Parsed(raw).Ok? && m in Parsed(raw).value && m.content.String? && over(m.content.text)
    ensures var parts := PartsIn(Structured(raw, over, c).value, m.turnIndex);
            && Ink(Concat(parts)) == Ink(m.content.text)
            && (c.fits.Some? ==> Fitting.AllFit(parts, c.fits.value))
  {
    PartsAre(raw, over, c, m);
    HeldBy(PartsIn(Structured(raw, over, c).value, m.turnIndex), m, over, c);
  }
}
